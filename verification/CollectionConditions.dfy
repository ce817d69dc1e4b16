/** The Collection's status conditions: they never decide anything, they sum up their parts,
    and every list that is written satisfies the custom resource definition. */
module CollectionConditions {
  import opened GoValues
  import opened Conditions
  import opened Cluster
  import opened CollectionPlan
  import opened CollectionRuns

  lemma PassIgnoresConditions(c: CollectionConfig, o: CollectionOracle, v: CollectionWorld, w: CollectionWorld)
    requires SameButConditions(v, w)
    ensures var a, b := PlanPass(c, o, v), PlanPass(c, o, w);
            && a.apiCalls == b.apiCalls && a.solrCalls == b.solrCalls
            && a.failed == b.failed && a.requeue == b.requeue
            && SameButConditions(a.world, b.world)
  {
    hide PlanEnsure, PlanDelete, SetAll;
    if v.store.resource.Some? {
      SameFields(v.store.resource.value, w.store.resource.value);
    }
  }

  /** What each pass of a run sends out. */
  function RunCalls(c: CollectionConfig, w: CollectionWorld, steps: seq<CollectionStep>): seq<Calls>
    decreases |steps|
  {
    if steps == [] then []
    else
      (match steps[0]
       case Pass(o) => var out := PlanPass(c, o, w); [Calls(out.apiCalls, out.solrCalls, out.failed)]
       case _ => [])
      + RunCalls(c, Next(c, w, steps[0]), steps[1..])
  }

  /** Stored conditions never steer a run. */
  lemma {:induction false} RunIgnoresConditions(c: CollectionConfig, v: CollectionWorld, w: CollectionWorld,
                                                steps: seq<CollectionStep>)
    requires SameButConditions(v, w)
    ensures RunCalls(c, v, steps) == RunCalls(c, w, steps)
    ensures SameButConditions(Run(c, v, steps), Run(c, w, steps))
    decreases |steps|
  {
    hide PlanPass;
    if steps != [] {
      if steps[0].Pass? {
        PassIgnoresConditions(c, steps[0].o, v, w);
      } else if v.store.resource.Some? {
        SameFields(v.store.resource.value, w.store.resource.value);
      }
      RunIgnoresConditions(c, Next(c, v, steps[0]), Next(c, w, steps[0]), steps[1..]);
    }
  }

  /** From any stored conditions, after observing, `ConfigMapAvailable` is True exactly when
      `ConfigMapExists` and `ConfigMapHasCollection` are, and when the map was seen with its
      name: the source's "not all clear" update of an available map cannot occur. */
  lemma ObservationSummary(o: CollectionOracle, h: History, name: GoString, stored: seq<Mark>)
    ensures var seen := PlanObserve(o, h, name);
            var cs := SetAll(stored, seen.marks);
            && IsTrue(cs, MapExists) == seen.present && IsTrue(cs, MapHasCollection) == seen.named
            && IsTrue(cs, MapAvailable) == (IsTrue(cs, MapExists) && IsTrue(cs, MapHasCollection))
  {
    hide Find, Set;
    var look, seen := PlanLook(o, h, name), PlanObserve(o, h, name);
    LookMarks(o, h, name, stored);
    SetAllAppend(stored, look.marks, StatusMark(look.present && look.named));
  }

  lemma LookMarks(o: CollectionOracle, h: History, name: GoString, stored: seq<Mark>)
    ensures var look := PlanLook(o, h, name);
            var cs := SetAll(stored, look.marks);
            IsTrue(cs, MapExists) == look.present && IsTrue(cs, MapHasCollection) == look.named
  {
    hide Find, Set, SetAll, ReadVersion;
    var m := PlanLook(o, h, name).marks;
    assert m[..0] + [m[0]] == m[..1] && m[..1] + [m[1]] == m[..2];
    SetAllAppend(stored, m[..0], m[0]);
    SetAllAppend(stored, m[..1], m[1]);
    if |m| == 3 {
      assert m[..2] + [m[2]] == m;
      SetAllAppend(stored, m[..2], m[2]);
    } else {
      assert m[..2] == m;
    }
  }

  /** The reason left out by `observeCollection` is never written: `checkMapStatus` sets the
      same condition again, with a reason, right after. */
  lemma ObservedListIsAcceptable(o: CollectionOracle, h: History, name: GoString, stored: seq<Mark>)
    requires Acceptable(stored)
    ensures Acceptable(SetAll(stored, PlanObserve(o, h, name).marks))
  {
    hide Find, Set, SetAll, ReadVersion, Acceptable;
    var look, m := PlanLook(o, h, name), PlanObserve(o, h, name).marks;
    if |m| == 4 {
      var cs := SetAll(stored, m[..2]);
      SetAllKeepsAcceptable(stored, m[..2]);
      assert m[..2] + [m[2]] == m[..3] && m[..3] + [m[3]] == m;
      SetAllAppend(stored, m[..2], m[2]);
      SetAllAppend(stored, m[..3], m[3]);
      SetTwice(cs, m[2], m[3]);
      SetKeepsAcceptable(cs, m[3]);
    } else {
      SetAllKeepsAcceptable(stored, m);
    }
  }

  lemma EnsuredListIsAcceptable(c: CollectionConfig, o: CollectionOracle, h: History, name: GoString, stored: seq<Mark>)
    requires Acceptable(stored)
    ensures Acceptable(SetAll(stored, PlanEnsure(c, o, h, name).marks))
  {
    hide Find, Set, SetAll, Acceptable, PlanObserve, ReadVersion, AfterCreate, AfterUpdate, MintedName;
    var seen := PlanObserve(o, h, name);
    ObservedListIsAcceptable(o, h, name, stored);
    if !(seen.present && seen.named) {
      var u := PlanUpdate(c, o, h, seen.name, seen.present, seen.named);
      SetAllSum(stored, seen.marks, u.marks);
      SetAllKeepsAcceptable(SetAll(stored, seen.marks), u.marks);
    }
  }

  /** Every condition list a pass writes, starting from an acceptable one, has unique types and
      non-empty reasons. */
  lemma PassWritesAcceptable(c: CollectionConfig, o: CollectionOracle, w: CollectionWorld)
    requires w.store.resource.Some? && Acceptable(w.store.resource.value.conditions)
    ensures var r' := PlanPass(c, o, w).world.store.resource;
            r'.Some? ==> Acceptable(r'.value.conditions)
  {
    hide Find, Set, SetAll, Acceptable, PlanEnsure, PlanDelete;
    var r := w.store.resource.value;
    var e := PlanEnsure(c, o, w.store.versions, r.name);
    forall marks: seq<Mark> | marks == [] || marks == ReconcilingMarks()
      ensures Acceptable(SetAll(r.conditions, marks))
      ensures Acceptable(SetAll(r.conditions, marks + e.marks + [ReadyMark(e.ready)]))
    {
      SetAllKeepsAcceptable(r.conditions, marks);
      EnsuredListIsAcceptable(c, o, w.store.versions, r.name, SetAll(r.conditions, marks));
      SetAllSum(r.conditions, marks, e.marks);
      SetAllAppend(r.conditions, marks + e.marks, ReadyMark(e.ready));
      SetKeepsAcceptable(SetAll(r.conditions, marks + e.marks), ReadyMark(e.ready));
    }
  }

  ghost predicate StoredAcceptable(w: CollectionWorld) {
    w.store.resource.Some? ==> Acceptable(w.store.resource.value.conditions)
  }

  /** So in every reachable state the stored conditions satisfy the resource definition. */
  lemma {:induction false} AlwaysAcceptable(c: CollectionConfig, w: CollectionWorld, steps: seq<CollectionStep>)
    requires StoredAcceptable(w)
    requires forall i :: 0 <= i < |steps| && steps[i].CreateCollectionResource? ==> Acceptable(steps[i].conditions)
    ensures StoredAcceptable(Run(c, w, steps))
    decreases |steps|
  {
    hide PlanPass, Acceptable;
    if steps != [] {
      if steps[0].Pass? {
        if w.store.resource.Some? {
          PassWritesAcceptable(c, steps[0].o, w);
        } else {
          NothingToReconcile(c, steps[0].o, w);
        }
      }
      AlwaysAcceptable(c, Next(c, w, steps[0]), steps[1..]);
    }
  }
}
