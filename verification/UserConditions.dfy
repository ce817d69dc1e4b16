/** The role of the User's status conditions: they are written, and never decide anything. */
module UserConditions {
  import opened GoValues
  import opened Conditions
  import opened Cluster
  import opened UserPlan
  import opened UserRuns

  /** Two passes from worlds that differ at most in the stored conditions make the same calls in
      the same order, end alike, and leave worlds that again differ at most in them. */
  lemma PassIgnoresConditions(c: Config, o: UserOracle, v: UserWorld, w: UserWorld)
    requires SameButConditions(v, w)
    ensures var a, b := PlanPass(c, o, v), PlanPass(c, o, w);
            && a.apiCalls == b.apiCalls && a.solrCalls == b.solrCalls
            && a.failed == b.failed && a.requeue == b.requeue
            && SameButConditions(a.world, b.world)
  {
    hide PlanReconcile, SetAll;
    if v.store.resource.Some? {
      SameFields(v.store.resource.value, w.store.resource.value);
    }
  }

  /** What each pass of a run sends out. */
  function RunCalls(c: Config, w: UserWorld, steps: seq<UserStep>): seq<Calls>
    decreases |steps|
  {
    if steps == [] then []
    else
      (match steps[0]
       case Pass(o) => var out := PlanPass(c, o, w); [Calls(out.apiCalls, out.solrCalls, out.failed)]
       case _ => [])
      + RunCalls(c, Next(c, w, steps[0]), steps[1..])
  }

  /** Stored conditions never steer a run: whatever was stored at the start, every pass of the
      run sends the same calls, and the secret and Solr end up the same. */
  lemma {:induction false} RunIgnoresConditions(c: Config, v: UserWorld, w: UserWorld, steps: seq<UserStep>)
    requires SameButConditions(v, w)
    ensures RunCalls(c, v, steps) == RunCalls(c, w, steps)
    ensures SameButConditions(Run(c, v, steps), Run(c, w, steps))
    decreases |steps|
  {
    hide PlanPass;
    if steps != [] {
      if steps[0].Pass? {
        PassIgnoresConditions(c, steps[0].o, v, w);
      } else if v.store.resource.Some? {
        SameFields(v.store.resource.value, w.store.resource.value);
      }
      RunIgnoresConditions(c, Next(c, v, steps[0]), Next(c, w, steps[0]), steps[1..]);
    }
  }

  /** Whenever a pass has filled in the secret, its conditions say that the secret is available,
      whatever was stored: the source's "dirty but not available" error cannot occur. */
  lemma FilledSecretIsAvailable(c: Config, o: UserOracle, h: History, name: GoString, ensure: bool, stored: seq<Mark>)
    ensures var p := PlanPrepare(c, o, h, name, ensure);
            !p.failed && p.copy.Some? ==> IsTrue(SetAll(stored, p.marks), SecretAvailable)
  {
    hide PlanCredentials, FieldMarks, MintUsername, MintPassword, PutEndpoint, PutHostname, SetAll, Set, Find;
    var p := PlanPrepare(c, o, h, name, ensure);
    if !p.failed && p.copy.Some? {
      var ready := Condition(SecretAvailable, True, "Ready");
      assert p.marks[|p.marks| - 1] == ready;
      SetAllAppend(stored, p.marks[..|p.marks| - 1], ready);
      assert p.marks == p.marks[..|p.marks| - 1] + [ready];
      assert Find(SetAll(stored, p.marks), SecretAvailable) == Some(ready);
    }
  }
}
