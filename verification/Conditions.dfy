/** Status conditions of a custom resource, with the semantics of `meta.SetStatusCondition`
    and `meta.IsStatusConditionTrue`: the first condition of a type counts. */
module Conditions {
  import opened GoValues

  datatype Status = True | False | Unknown

  datatype Condition<K> = Condition(kind: K, status: Status, reason: string)

  function Find<K(==,!new)>(cs: seq<Condition<K>>, kind: K): Option<Condition<K>> {
    if cs == [] then None
    else if cs[0].kind == kind then Some(cs[0])
    else Find(cs[1..], kind)
  }

  predicate IsTrue<K(==,!new)>(cs: seq<Condition<K>>, kind: K) {
    var c := Find(cs, kind);
    c.Some? && c.value.status == True
  }

  /** Replaces the first condition of the type in place, or appends. */
  function Set<K(==,!new)>(cs: seq<Condition<K>>, c: Condition<K>): (r: seq<Condition<K>>)
    ensures Find(r, c.kind) == Some(c)
    ensures forall k :: k != c.kind ==> Find(r, k) == Find(cs, k)
  {
    if cs == [] then [c]
    else if cs[0].kind == c.kind then [c] + cs[1..]
    else
      var r := [cs[0]] + Set(cs[1..], c);
      assert r[1..] == Set(cs[1..], c);
      r
  }

  /** The conditions after a sequence of updates, the last one last. */
  function SetAll<K(==,!new)>(cs: seq<Condition<K>>, marks: seq<Condition<K>>): seq<Condition<K>> {
    if marks == [] then cs
    else Set(SetAll(cs, marks[..|marks| - 1]), marks[|marks| - 1])
  }

  lemma SetAllAppend<K(!new)>(cs: seq<Condition<K>>, marks: seq<Condition<K>>, c: Condition<K>)
    ensures SetAll(cs, marks + [c]) == Set(SetAll(cs, marks), c)
  {
    assert (marks + [c])[..|marks|] == marks;
  }

  lemma {:induction false} SetAllSum<K(!new)>(cs: seq<Condition<K>>, a: seq<Condition<K>>, b: seq<Condition<K>>)
    ensures SetAll(cs, a + b) == SetAll(SetAll(cs, a), b)
    decreases |b|
  {
    if b == [] {
      assert a + b == a;
    } else {
      var n := |b| - 1;
      assert (a + b)[..|a + b| - 1] == a + b[..n];
      SetAllSum(cs, a, b[..n]);
    }
  }

  /** What the custom resource definition demands of a condition list. */
  ghost predicate Acceptable<K(!new)>(cs: seq<Condition<K>>) {
    && (forall i, j :: 0 <= i < j < |cs| ==> cs[i].kind != cs[j].kind)
    && (forall i :: 0 <= i < |cs| ==> cs[i].reason != "")
  }

  lemma {:induction false} SetKeepsKinds<K(!new)>(cs: seq<Condition<K>>, c: Condition<K>)
    ensures forall i :: 0 <= i < |cs| ==> i < |Set(cs, c)| && Set(cs, c)[i].kind == cs[i].kind
    ensures |Set(cs, c)| == if Find(cs, c.kind).Some? then |cs| else |cs| + 1
    ensures Find(cs, c.kind).None? ==> forall i :: 0 <= i < |cs| ==> cs[i].kind != c.kind
    ensures Find(cs, c.kind).None? ==> Set(cs, c)[|cs|] == c
    ensures forall i :: 0 <= i < |Set(cs, c)| ==> Set(cs, c)[i] == c || (i < |cs| && Set(cs, c)[i] == cs[i])
  {
    if cs != [] && cs[0].kind != c.kind {
      SetKeepsKinds(cs[1..], c);
      assert forall i :: 1 <= i < |cs| ==> cs[i] == cs[1..][i - 1];
    }
  }

  lemma SetKeepsAcceptable<K(!new)>(cs: seq<Condition<K>>, c: Condition<K>)
    requires Acceptable(cs) && c.reason != ""
    ensures Acceptable(Set(cs, c))
  {
    SetKeepsKinds(cs, c);
  }

  lemma {:induction false} SetAllKeepsAcceptable<K(!new)>(cs: seq<Condition<K>>, marks: seq<Condition<K>>)
    requires Acceptable(cs)
    requires forall i :: 0 <= i < |marks| ==> marks[i].reason != ""
    ensures Acceptable(SetAll(cs, marks))
    decreases |marks|
  {
    if marks != [] {
      var n := |marks| - 1;
      SetAllKeepsAcceptable(cs, marks[..n]);
      SetKeepsAcceptable(SetAll(cs, marks[..n]), marks[n]);
    }
  }

  /** A condition set twice in a row keeps only the second setting. */
  lemma {:induction false} SetTwice<K(!new)>(cs: seq<Condition<K>>, c: Condition<K>, d: Condition<K>)
    requires c.kind == d.kind
    ensures Set(Set(cs, c), d) == Set(cs, d)
  {
    if cs != [] && cs[0].kind != c.kind {
      SetTwice(cs[1..], c, d);
      assert Set(cs, c)[1..] == Set(cs[1..], c);
    }
  }

  /** The last update of a type in a sequence of updates. */
  function Last<K(==,!new)>(marks: seq<Condition<K>>, kind: K): Option<Condition<K>> {
    if marks == [] then None
    else if marks[|marks| - 1].kind == kind then Some(marks[|marks| - 1])
    else Last(marks[..|marks| - 1], kind)
  }

  /** After a sequence of updates each type has its last one, or is as it was. */
  lemma {:induction false} LastUpdateCounts<K(!new)>(cs: seq<Condition<K>>, marks: seq<Condition<K>>, kind: K)
    ensures Find(SetAll(cs, marks), kind) == if Last(marks, kind).Some? then Last(marks, kind) else Find(cs, kind)
    decreases |marks|
  {
    if marks != [] {
      LastUpdateCounts(cs, marks[..|marks| - 1], kind);
    }
  }

  lemma {:induction false} LastOfSum<K(!new)>(a: seq<Condition<K>>, b: seq<Condition<K>>, kind: K)
    ensures Last(a + b, kind) == if Last(b, kind).Some? then Last(b, kind) else Last(a, kind)
    decreases |b|
  {
    if b == [] {
      assert a + b == a;
    } else {
      assert (a + b)[..|a + b| - 1] == a + b[..|b| - 1];
      LastOfSum(a, b[..|b| - 1], kind);
    }
  }

  lemma LastOfOne<K(!new)>(m: Condition<K>, kind: K)
    ensures Last([m], kind) == if m.kind == kind then Some(m) else None
  {
    assert [m][..0] == [];
  }

  /** The status that a sequence of updates gives a type, if it does. */
  function Says<K(==,!new)>(marks: seq<Condition<K>>, kind: K): Option<Status> {
    var m := Last(marks, kind);
    if m.Some? then Some(m.value.status) else None
  }

  lemma SaysOfSum<K(!new)>(a: seq<Condition<K>>, b: seq<Condition<K>>, kind: K)
    ensures Says(a + b, kind) == if Says(b, kind).Some? then Says(b, kind) else Says(a, kind)
  {
    LastOfSum(a, b, kind);
  }

  lemma SaysOfAppend<K(!new)>(a: seq<Condition<K>>, m: Condition<K>, kind: K)
    ensures Says(a + [m], kind) == if m.kind == kind then Some(m.status) else Says(a, kind)
  {
    SaysOfSum(a, [m], kind);
    LastOfOne(m, kind);
  }

  lemma EmptySaysNothing<K(!new)>()
    ensures forall k: K :: Says<K>([], k).None?
  {
  }

  lemma SaysOfOne<K(!new)>(m: Condition<K>, kind: K)
    ensures Says([m], kind) == if m.kind == kind then Some(m.status) else None
  {
    LastOfOne(m, kind);
  }

  lemma SaysOfTwo<K(!new)>(a: Condition<K>, b: Condition<K>, kind: K)
    ensures Says([a, b], kind)
         == if b.kind == kind then Some(b.status) else if a.kind == kind then Some(a.status) else None
  {
    assert [a, b] == [a] + [b];
    SaysOfAppend([a], b, kind);
    SaysOfOne(a, kind);
  }

  /** The status of a type in a condition list, if it has one. */
  function Stored<K(==,!new)>(cs: seq<Condition<K>>, kind: K): Option<Status> {
    var m := Find(cs, kind);
    if m.Some? then Some(m.value.status) else None
  }

  lemma StoredAfter<K(!new)>(cs: seq<Condition<K>>, marks: seq<Condition<K>>, kind: K)
    ensures Stored(SetAll(cs, marks), kind) == if Says(marks, kind).Some? then Says(marks, kind) else Stored(cs, kind)
  {
    LastUpdateCounts(cs, marks, kind);
  }
}
