/** The Kubernetes API server as the controllers see it: one custom resource, and one
    document (a Secret or a ConfigMap) with its resource versions. */
module Cluster {
  import opened GoValues
  import opened Conditions
  import opened SolrClient

  /** A custom resource as stored. `finalised` is the operator's own finaliser, `foreign`
      says whether another controller's finaliser is present. */
  datatype Resource<K> = Resource(
    finalised: bool, foreign: bool, deleting: bool,
    conditions: seq<Condition<K>>, name: GoString)

  type Data = map<string, GoString>

  /** Every stored state of the document, oldest first; the index of a state is its resource
      version, and `None` means that the document did not exist. */
  type History = h: seq<Option<Data>> | |h| > 0 witness [None]

  datatype Store<K> = Store(resource: Option<Resource<K>>, versions: History)

  /** All that one kind of custom resource is reconciled against. */
  datatype World<K> = World(store: Store<K>, solr: SolrState)

  function Bare<K>(r: Option<Resource<K>>): Option<Resource<K>> {
    if r.None? then None else Some(r.value.(conditions := []))
  }

  /** Two worlds that differ at most in the stored conditions. */
  predicate SameButConditions<K(==)>(v: World<K>, w: World<K>) {
    && v.solr == w.solr && v.store.versions == w.store.versions
    && Bare(v.store.resource) == Bare(w.store.resource)
  }

  lemma SameFields<K>(r: Resource<K>, s: Resource<K>)
    requires r.(conditions := []) == s.(conditions := [])
    ensures r.finalised == s.finalised && r.foreign == s.foreign && r.deleting == s.deleting && r.name == s.name
  {
    assert r.(conditions := []).name == s.(conditions := []).name;
  }

  /** A copy of the document held by a reconcile pass. */
  datatype Copy = Copy(version: nat, data: Data)

  /** How a read of the document fares: it fails, or it sees the state `lag` versions ago. */
  datatype ReadOutcome = Unavailable | Lagging(lag: nat) {
    /** The read fails or sees the current state. */
    predicate Fresh() {
      this == CURRENT || this == Unavailable
    }
  }

  const CURRENT := Lagging(0)

  datatype ApiCall =
    | GetDocument
    | CreateDocument
    | UpdateDocument(copy: Copy)
    | UpdateFinaliser(present: bool)
    | UpdateStatus

  /** What one pass sends out, and whether it reports an error. */
  datatype Calls = Calls(api: seq<ApiCall>, solr: seq<SolrCall>, failed: bool)

  function Latest(h: History): Option<Data> {
    h[|h| - 1]
  }

  /** `Error` is a failed call, `Ok(None)` is "not found". */
  function ReadVersion(h: History, outcome: ReadOutcome): (r: Result<Option<Copy>>)
  {
    if outcome.Unavailable? || outcome.lag >= |h| then Error
    else
      var version := |h| - 1 - outcome.lag;
      match h[version]
      case None => Ok(None)
      case Some(data) => Ok(Some(Copy(version, data)))
  }

  /** A failed read is not "not found": a read that succeeds tells what one version was. */
  lemma ReadsSeeVersions(h: History, lag: nat)
    ensures ReadVersion(h, Unavailable) == Error
    ensures lag < |h| ==>
              var v := |h| - 1 - lag;
              ReadVersion(h, Lagging(lag)) == Ok(if h[v].None? then None else Some(Copy(v, h[v].value)))
    ensures lag >= |h| ==> ReadVersion(h, Lagging(lag)) == Error
  {
  }

  /** A create commits when it is reached and the document does not exist. */
  function AfterCreate(h: History, reply: Reply): (History, Result<Copy>) {
    if reply.reached && Latest(h).None? then
      (h + [Some(map[])], if reply.answered then Ok(Copy(|h|, map[])) else Error)
    else (h, Error)
  }

  /** An update commits when it is reached and carries the current resource version. */
  function AfterUpdate(h: History, copy: Copy, reply: Reply): (History, bool) {
    if reply.reached && Latest(h).Some? && copy.version == |h| - 1 then
      (h + [Some(copy.data)], reply.answered)
    else (h, false)
  }

  /** Removing the last finaliser of a resource being deleted removes the resource. */
  function AfterFinaliser<K>(r: Option<Resource<K>>, present: bool, reply: Reply): (Option<Resource<K>>, bool) {
    if !reply.reached || r.None? then (r, false)
    else if r.value.deleting && !present && !r.value.foreign then (None, reply.answered)
    else (Some(r.value.(finalised := present)), reply.answered)
  }

  function AfterStatus<K>(r: Option<Resource<K>>, conditions: seq<Condition<K>>, name: GoString, reply: Reply)
    : (Option<Resource<K>>, bool)
  {
    if !reply.reached || r.None? then (r, false)
    else (Some(r.value.(conditions := conditions, name := name)), reply.answered)
  }

  /** The copy of the custom resource that one pass works on. `stored` and `marks` remember
      how `conditions` came about: the list as read, and every update since. */
  class LocalResource<K(==,!new)> {
    var finalised: bool
    const deleting: bool
    var conditions: seq<Condition<K>>
    var name: GoString
    ghost const stored: seq<Condition<K>>
    ghost var marks: seq<Condition<K>>

    ghost predicate Valid()
      reads this`conditions, this`marks
    {
      conditions == SetAll(stored, marks)
    }

    constructor (r: Resource<K>)
      ensures Valid() && marks == []
      ensures finalised == r.finalised && deleting == r.deleting && name == r.name
      ensures conditions == r.conditions == stored
    {
      finalised, deleting, conditions, name := r.finalised, r.deleting, r.conditions, r.name;
      stored, marks := r.conditions, [];
    }

    method Mark(kind: K, status: Status, reason: string)
      requires Valid()
      modifies this`conditions, this`marks
      ensures Valid() && marks == old(marks) + [Condition(kind, status, reason)]
      ensures Holds(kind) == (status == True)
      ensures forall k :: k != kind ==> Holds(k) == old(Holds(k))
    {
      var c := Condition(kind, status, reason);
      var updated := Set(conditions, c);
      assert updated == SetAll(stored, marks + [c]) by {
        SetAllAppend(stored, marks, c);
      }
      conditions, marks := updated, marks + [c];
    }

    function Holds(kind: K): bool
      reads this`conditions
    {
      IsTrue(conditions, kind)
    }
  }

  class ApiServer<K(==,!new)> {
    var resource: Option<Resource<K>>
    var versions: History
    ghost var calls: seq<ApiCall>

    ghost function View(): Store<K>
      reads this`resource, this`versions
    {
      Store(resource, versions)
    }

    constructor (resource: Option<Resource<K>>, versions: History)
      ensures View() == Store(resource, versions) && calls == []
    {
      this.resource, this.versions, calls := resource, versions, [];
    }

    method Get(outcome: ReadOutcome) returns (r: Result<Option<Copy>>)
      modifies this`calls
      ensures calls == old(calls) + [GetDocument]
      ensures r == ReadVersion(versions, outcome)
    {
      calls := calls + [GetDocument];
      if outcome.Unavailable? || outcome.lag >= |versions| {
        return Error;
      }
      var version := |versions| - 1 - outcome.lag;
      match versions[version] {
        case None => return Ok(None);
        case Some(data) => return Ok(Some(Copy(version, data)));
      }
    }

    method Create(reply: Reply) returns (r: Result<Copy>)
      modifies this`versions, this`calls
      ensures calls == old(calls) + [CreateDocument]
      ensures (versions, r) == AfterCreate(old(versions), reply)
    {
      calls := calls + [CreateDocument];
      if reply.reached && Latest(versions).None? {
        var version := |versions|;
        versions := versions + [Some(map[])];
        return if reply.answered then Ok(Copy(version, map[])) else Error;
      }
      return Error;
    }

    method Update(copy: Copy, reply: Reply) returns (ok: bool)
      modifies this`versions, this`calls
      ensures calls == old(calls) + [UpdateDocument(copy)]
      ensures (versions, ok) == AfterUpdate(old(versions), copy, reply)
    {
      calls := calls + [UpdateDocument(copy)];
      if reply.reached && Latest(versions).Some? && copy.version == |versions| - 1 {
        versions := versions + [Some(copy.data)];
        return reply.answered;
      }
      return false;
    }

    /** Writes the local copy's finaliser; its status is a separate subresource. */
    method UpdateResource(local: LocalResource<K>, reply: Reply) returns (ok: bool)
      modifies this`resource, this`calls
      ensures calls == old(calls) + [UpdateFinaliser(local.finalised)]
      ensures (resource, ok) == AfterFinaliser(old(resource), local.finalised, reply)
    {
      calls := calls + [UpdateFinaliser(local.finalised)];
      if !reply.reached || resource.None? {
        return false;
      }
      if resource.value.deleting && !local.finalised && !resource.value.foreign {
        resource := None;
      } else {
        resource := Some(resource.value.(finalised := local.finalised));
      }
      return reply.answered;
    }

    method UpdateResourceStatus(local: LocalResource<K>, reply: Reply) returns (ok: bool)
      modifies this`resource, this`calls
      ensures calls == old(calls) + [UpdateStatus]
      ensures (resource, ok) == AfterStatus(old(resource), local.conditions, local.name, reply)
    {
      calls := calls + [UpdateStatus];
      if !reply.reached || resource.None? {
        return false;
      }
      resource := Some(resource.value.(conditions := local.conditions, name := local.name));
      return reply.answered;
    }
  }
}
