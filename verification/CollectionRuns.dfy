/** Runs of the Collection reconciler: the published name is stable, readiness is honest, and
    removal stays within the removal policy. */
module CollectionRuns {
  import opened GoValues
  import opened Conditions
  import opened SolrClient
  import opened Cluster
  import opened CollectionPlan

  datatype CollectionStep =
    | Pass(o: CollectionOracle)
    | CreateCollectionResource(foreign: bool, conditions: seq<Mark>)
    | RequestDeletion
    | SetForeign(foreign: bool)
    | EditMap(data: Option<Data>)
    | EditSolr(solr: SolrState)

  function WithResource(w: CollectionWorld, r: Option<Resource<CollectionCondition>>): CollectionWorld {
    w.(store := w.store.(resource := r))
  }

  function Next(c: CollectionConfig, w: CollectionWorld, step: CollectionStep): CollectionWorld {
    var r := w.store.resource;
    match step
    case Pass(o) => PlanPass(c, o, w).world
    case CreateCollectionResource(foreign, conditions) =>
      if r.Some? then w else WithResource(w, Some(Resource(false, foreign, false, conditions, [])))
    case RequestDeletion =>
      if r.None? then w
      else if r.value.finalised || r.value.foreign then WithResource(w, Some(r.value.(deleting := true)))
      else WithResource(w, None)
    case SetForeign(foreign) =>
      if r.None? || (foreign && r.value.deleting) then w
      else if r.value.deleting && !r.value.finalised then WithResource(w, None)
      else WithResource(w, Some(r.value.(foreign := foreign)))
    case EditMap(data) => w.(store := w.store.(versions := w.store.versions + [data]))
    case EditSolr(solr) => w.(solr := solr)
  }

  function Run(c: CollectionConfig, w: CollectionWorld, steps: seq<CollectionStep>): CollectionWorld
    decreases |steps|
  {
    if steps == [] then w else Run(c, Next(c, w, steps[0]), steps[1..])
  }

  /** Whether a pass gets as far as reconciling, and then whether it ensures existence. */
  function Stage(o: CollectionOracle, w: CollectionWorld): Option<bool> {
    if !o.getCollection || w.store.resource.None? then None
    else
      var r := w.store.resource.value;
      if r.deleting then Some(!r.finalised)
      else if r.finalised || (o.addFinaliser.Committed() && o.markReconciling.Committed()) then Some(true)
      else None
  }

  lemma PassStores(c: CollectionConfig, o: CollectionOracle, w: CollectionWorld)
    ensures var out, stage := PlanPass(c, o, w), Stage(o, w);
            match stage
            case None => out.world.store.versions == w.store.versions && out.world.solr == w.solr && out.solrCalls == []
            case Some(true) =>
              var e := PlanEnsure(c, o, w.store.versions, w.store.resource.value.name);
              out.world.store.versions == e.versions && out.world.solr == w.solr && out.solrCalls == []
            case Some(false) =>
              var d := PlanDelete(c, o, w.solr, w.store.resource.value.name);
              out.world.store.versions == w.store.versions && out.world.solr == d.solr && out.solrCalls == d.calls
  {
    hide PlanEnsure, PlanDelete, SetAll;
  }

  lemma PassResource(c: CollectionConfig, o: CollectionOracle, w: CollectionWorld)
    requires w.store.resource.Some?
    ensures var out, r, stage := PlanPass(c, o, w), w.store.resource.value, Stage(o, w);
            var r' := out.world.store.resource;
            && (stage != Some(false) ==> r'.Some?)
            && (r'.Some? ==> r'.value.foreign == r.foreign && r'.value.deleting == r.deleting)
            && (stage == None ==> r'.value.name == r.name)
            && (stage == None && (r.finalised || r.deleting) ==> r' == Some(r))
            && (stage == Some(true) ==> r'.value.finalised == (r.finalised || !r.deleting))
            && (stage == Some(false) && r' != Some(r) ==>
                  && !PlanDelete(c, o, w.solr, r.name).failed
                  && o.removeFinaliser.reached
                  && r' == (if r.foreign then Some(r.(finalised := false)) else None))
  {
    hide PlanEnsure, PlanDelete, SetAll;
  }

  lemma NothingToReconcile(c: CollectionConfig, o: CollectionOracle, w: CollectionWorld)
    requires w.store.resource.None?
    ensures PlanPass(c, o, w).world == w
  {
  }

  // ---------------------------------------------------------------- the published name

  function Published(h: History): Option<GoString> {
    if Latest(h).Some? && COLLECTION_KEY in Latest(h).value then Some(Latest(h).value[COLLECTION_KEY]) else None
  }

  /** The version of the map the first read of a pass sees, if it sees one. */
  function Observed(o: CollectionOracle, h: History): Option<Copy> {
    var read := ReadVersion(h, o.observeRead);
    if read.Ok? then read.value else None
  }

  /** The first read sees an old map without a name, the second the current one, and the
      update, carrying a new name, reaches the API server. */
  predicate Overwrites(c: CollectionConfig, o: CollectionOracle, h: History) {
    && Observed(o, h).Some? && COLLECTION_KEY !in Observed(o, h).value.data
    && o.reread == CURRENT && o.updateMap.reached
    && o.suffix.Some? && Some(MintedName(c, o.suffix.value)) != Published(h)
  }

  /** A pass replaces a published name exactly when its two reads straddle the publication. */
  lemma NameReplacedIff(c: CollectionConfig, o: CollectionOracle, w: CollectionWorld)
    requires Published(w.store.versions).Some?
    ensures var h, h' := w.store.versions, PlanPass(c, o, w).world.store.versions;
            (Published(h') != Published(h)) <==> (Stage(o, w) == Some(true) && Overwrites(c, o, h))
  {
    hide PlanPass, MintedName;
    PassStores(c, o, w);
  }

  /** Other entries of the map are never touched, and a map is never deleted. */
  lemma PassKeepsMap(c: CollectionConfig, o: CollectionOracle, w: CollectionWorld)
    requires Latest(w.store.versions).Some?
    ensures var h, h' := w.store.versions, PlanPass(c, o, w).world.store.versions;
            && Latest(h').Some?
            && (forall key :: key != COLLECTION_KEY ==>
                 (key in Latest(h').value <==> key in Latest(h).value)
                 && (key in Latest(h).value ==> Latest(h').value[key] == Latest(h).value[key]))
  {
    hide PlanPass, MintedName;
    PassStores(c, o, w);
  }

  /** The first read of the pass is not stale: it sees the current map, or fails. */
  predicate FreshLook(step: CollectionStep) {
    step.Pass? ==> step.o.observeRead.Fresh()
  }

  /** Published name stability over all runs: passes whose first read is not stale never
      replace a published name, whatever else fails or lags, including a failed first read
      followed by an attempt to create the existing map. */
  lemma {:induction false} NameStable(c: CollectionConfig, w: CollectionWorld, steps: seq<CollectionStep>)
    requires Published(w.store.versions).Some?
    requires forall i :: 0 <= i < |steps| ==> FreshLook(steps[i]) && !steps[i].EditMap?
    ensures Published(Run(c, w, steps).store.versions) == Published(w.store.versions)
    decreases |steps|
  {
    hide PlanPass, Published, MintedName;
    if steps != [] {
      if steps[0].Pass? {
        FreshLookNeverOverwrites(c, steps[0].o, w.store.versions);
        NameReplacedIff(c, steps[0].o, w);
      }
      NameStable(c, Next(c, w, steps[0]), steps[1..]);
    }
  }

  lemma FreshLookNeverOverwrites(c: CollectionConfig, o: CollectionOracle, h: History)
    requires Published(h).Some?
    requires o.observeRead.Fresh() || o.observeRead == o.reread
    ensures !Overwrites(c, o, h)
  {
  }

  /** A stale first read does replace it: the map held no name one version ago, and holds one now. */
  lemma StaleLookReplacesName(c: CollectionConfig, o: CollectionOracle, name: GoString, suffix: seq<Byte>)
    requires o.getCollection && o.observeRead == Lagging(1) && o.reread == CURRENT && o.updateMap.reached
    requires o.suffix == Some(suffix) && MintedName(c, suffix) != name
    ensures var h := [Some(map[]), Some(map[COLLECTION_KEY := name])];
            var w := World(Store(Some(Resource(true, false, false, [], name)), h), SolrState(map[], map[], {}));
            Published(h) == Some(name) && Published(PlanPass(c, o, w).world.store.versions) != Some(name)
  {
    hide PlanPass, MintedName;
    var h: History := [Some(map[]), Some(map[COLLECTION_KEY := name])];
    var w := World(Store(Some(Resource(true, false, false, [], name)), h), SolrState(map[], map[], {}));
    NameReplacedIff(c, o, w);
  }

  // ---------------------------------------------------------------- readiness

  /** A Collection reported available has its name in the config map. */
  predicate HonestlyAvailable(w: CollectionWorld) {
    w.store.resource.Some? && IsTrue(w.store.resource.value.conditions, CollectionAvailable) ==>
      Published(w.store.versions) == Some(w.store.resource.value.name)
  }

  /** The first read saw a version with a name that is not the one published now. */
  predicate SeesOther(o: CollectionOracle, h: History) {
    var seen := Observed(o, h);
    seen.Some? && COLLECTION_KEY in seen.value.data && Published(h) != Some(seen.value.data[COLLECTION_KEY])
  }

  /** The map part of a pass: ready means published, unless another name was seen; and what was
      published before stays, unless the reads straddled its publication. */
  lemma EnsuredIsPublished(c: CollectionConfig, o: CollectionOracle, h: History, name: GoString)
    ensures var e := PlanEnsure(c, o, h, name);
            && (SeesOther(o, h) ==> e.ready)
            && (e.ready ==> (Published(e.versions) == Some(e.name) <==> !SeesOther(o, h)))
            && (Published(h).Some? ==> (Published(e.versions) == Published(h) <==> !Overwrites(c, o, h)))
  {
    hide MintedName;
  }

  /** The status written at the end of a pass: the name and the readiness of its map part. */
  lemma FinalStatus(c: CollectionConfig, o: CollectionOracle, r: Resource<CollectionCondition>, marks: seq<Mark>,
                    e: Ensured)
    ensures IsTrue(SetAll(r.conditions, marks + e.marks + [ReadyMark(e.ready)]), CollectionAvailable) == e.ready
  {
    hide Find, Set;
    SetAllAppend(r.conditions, marks + e.marks, ReadyMark(e.ready));
  }

  /** Which status a pass leaves: its final one; or, if it cannot write that, the stored one
      when the Collection was finalised or being deleted, and else one that is not available. */
  lemma WrittenStatus(c: CollectionConfig, o: CollectionOracle, w: CollectionWorld)
    requires w.store.resource.Some?
    ensures var r, r' := w.store.resource.value, PlanPass(c, o, w).world.store.resource;
            var e := PlanEnsure(c, o, w.store.versions, r.name);
            && (Stage(o, w) == Some(true) ==> r'.Some?)
            && (r'.Some? ==>
                  if Stage(o, w) == Some(true) && o.writeStatus.reached then
                    r'.value.name == e.name && IsTrue(r'.value.conditions, CollectionAvailable) == e.ready
                  else
                    && r'.value.name == r.name
                    && (r'.value.conditions == r.conditions
                        || (!r.finalised && !r.deleting && !IsTrue(r'.value.conditions, CollectionAvailable)))
                    && (Stage(o, w) == Some(true) && !r.finalised && !r.deleting ==>
                          !IsTrue(r'.value.conditions, CollectionAvailable)))
  {
    hide PlanEnsure, PlanDelete, SetAll, IsTrue, ReconcilingMarks;
    var r := w.store.resource.value;
    var e := PlanEnsure(c, o, w.store.versions, r.name);
    FinalStatus(c, o, r, [], e);
    FinalStatus(c, o, r, ReconcilingMarks(), e);
    ReconcilingIsNotAvailable(r.conditions);
  }

  lemma CommittedStatus(c: CollectionConfig, o: CollectionOracle, w: CollectionWorld)
    requires Stage(o, w) == Some(true) && o.writeStatus.Committed()
    ensures var r' := PlanPass(c, o, w).world.store.resource;
            var e := PlanEnsure(c, o, w.store.versions, w.store.resource.value.name);
            && r'.Some? && r'.value.name == e.name && IsTrue(r'.value.conditions, CollectionAvailable) == e.ready
            && !PlanPass(c, o, w).failed
  {
    hide PlanEnsure, PlanDelete, SetAll, IsTrue, ReconcilingMarks;
    var r := w.store.resource.value;
    var e := PlanEnsure(c, o, w.store.versions, r.name);
    FinalStatus(c, o, r, [], e);
    FinalStatus(c, o, r, ReconcilingMarks(), e);
  }

  lemma ReconcilingIsNotAvailable(cs: seq<Mark>)
    ensures !IsTrue(SetAll(cs, ReconcilingMarks()), CollectionAvailable)
  {
    hide Find, Set;
    var m := ReconcilingMarks();
    assert m == [m[0]] + [m[1]] + [m[2]] + [m[3]];
    SetAllAppend(cs, [m[0]] + [m[1]] + [m[2]], m[3]);
    SetAllAppend(cs, [m[0]] + [m[1]], m[2]);
    SetAllAppend(cs, [m[0]], m[1]);
    SetAllAppend(cs, [], m[0]);
    assert [] + [m[0]] == [m[0]];
  }

  /** The status that a pass leaves is honest: a final status is, unless another name was seen; a
      stored status that claims availability stays so, unless its name is overwritten under it. */
  predicate LeavesHonest(c: CollectionConfig, o: CollectionOracle, w: CollectionWorld) {
    Stage(o, w) == Some(true) ==>
      var r, h := w.store.resource.value, w.store.versions;
      if o.writeStatus.reached then !SeesOther(o, h)
      else !(IsTrue(r.conditions, CollectionAvailable) && (r.finalised || r.deleting) && Overwrites(c, o, h))
  }

  /** Exactly when a pass keeps readiness honest. */
  lemma PassStaysHonestIff(c: CollectionConfig, o: CollectionOracle, w: CollectionWorld)
    requires HonestlyAvailable(w)
    ensures HonestlyAvailable(PlanPass(c, o, w).world) <==> LeavesHonest(c, o, w)
  {
    hide PlanPass, PlanEnsure, PlanDelete, Published, IsTrue, SeesOther, Overwrites;
    if w.store.resource.None? {
      NothingToReconcile(c, o, w);
    } else {
      PassStores(c, o, w);
      WrittenStatus(c, o, w);
      EnsuredIsPublished(c, o, w.store.versions, w.store.resource.value.name);
    }
  }

  /** A first read that is not stale is enough. */
  lemma FreshLookLeavesHonest(c: CollectionConfig, o: CollectionOracle, w: CollectionWorld)
    requires HonestlyAvailable(w) && o.observeRead.Fresh()
    ensures LeavesHonest(c, o, w)
  {
    hide IsTrue, MintedName;
  }

  /** Every state of a run is honest. */
  predicate HonestThroughout(c: CollectionConfig, w: CollectionWorld, steps: seq<CollectionStep>)
    decreases |steps|
  {
    HonestlyAvailable(w) && (steps != [] ==> HonestThroughout(c, Next(c, w, steps[0]), steps[1..]))
  }

  /** Every pass of a run leaves an honest status. */
  predicate PassesLeaveHonest(c: CollectionConfig, w: CollectionWorld, steps: seq<CollectionStep>)
    decreases |steps|
  {
    steps != [] ==>
      && (steps[0].Pass? ==> LeavesHonest(c, steps[0].o, w))
      && PassesLeaveHonest(c, Next(c, w, steps[0]), steps[1..])
  }

  /** What others do to the Collection and to Solr cannot make it dishonest. */
  predicate Harmless(step: CollectionStep) {
    && !step.EditMap?
    && (step.CreateCollectionResource? ==> !IsTrue(step.conditions, CollectionAvailable))
  }

  /** Readiness is honest in every reachable state, whenever the stored status says Available the
      stored config map holds the name that the status publishes, if and only if every pass meets
      the condition above. */
  lemma {:induction false} AlwaysHonest(c: CollectionConfig, w: CollectionWorld, steps: seq<CollectionStep>)
    requires HonestlyAvailable(w) && forall i :: 0 <= i < |steps| ==> Harmless(steps[i])
    ensures HonestThroughout(c, w, steps) <==> PassesLeaveHonest(c, w, steps)
    decreases |steps|
  {
    hide PlanPass, Published, IsTrue, LeavesHonest, HonestlyAvailable;
    if steps != [] {
      HonestStep(c, w, steps[0]);
      var w1 := Next(c, w, steps[0]);
      if HonestlyAvailable(w1) {
        AlwaysHonest(c, w1, steps[1..]);
      }
    }
  }

  lemma HonestStep(c: CollectionConfig, w: CollectionWorld, step: CollectionStep)
    requires HonestlyAvailable(w) && Harmless(step)
    ensures HonestlyAvailable(Next(c, w, step)) <==> (step.Pass? ==> LeavesHonest(c, step.o, w))
  {
    hide PlanPass, Published, IsTrue, LeavesHonest;
    if step.Pass? {
      PassStaysHonestIff(c, step.o, w);
    }
  }

  /** In particular when no pass has a stale first read, whatever else fails or lags. */
  lemma {:induction false} FreshLooksStayHonest(c: CollectionConfig, w: CollectionWorld, steps: seq<CollectionStep>)
    requires HonestlyAvailable(w) && forall i :: 0 <= i < |steps| ==> Harmless(steps[i]) && FreshLook(steps[i])
    ensures HonestThroughout(c, w, steps) && HonestlyAvailable(Run(c, w, steps))
    decreases |steps|
  {
    hide PlanPass, Published, IsTrue, LeavesHonest, HonestlyAvailable;
    if steps != [] {
      if steps[0].Pass? {
        FreshLookLeavesHonest(c, steps[0].o, w);
      }
      HonestStep(c, w, steps[0]);
      FreshLooksStayHonest(c, Next(c, w, steps[0]), steps[1..]);
    }
  }

  /** A concrete case: the first read misses the publication, the name is replaced in the map, and
      the status that still claims the old one cannot be rewritten. */
  lemma StaleLookLeavesFalseClaim(c: CollectionConfig, o: CollectionOracle, name: GoString, suffix: seq<Byte>)
    requires o.getCollection && o.observeRead == Lagging(1) && o.reread == CURRENT && o.updateMap.reached
    requires o.suffix == Some(suffix) && MintedName(c, suffix) != name && !o.writeStatus.reached
    ensures var available := [Condition(CollectionAvailable, True, "Ready")];
            var w := World(Store(Some(Resource(true, false, false, available, name)),
                                 [None, Some(map[]), Some(map[COLLECTION_KEY := name])]), SolrState(map[], map[], {}));
            HonestlyAvailable(w) && !HonestlyAvailable(PlanPass(c, o, w).world)
  {
    hide PlanPass, MintedName;
    var available := [Condition(CollectionAvailable, True, "Ready")];
    var w := World(Store(Some(Resource(true, false, false, available, name)),
                         [None, Some(map[]), Some(map[COLLECTION_KEY := name])]), SolrState(map[], map[], {}));
    assert Find(available, CollectionAvailable) == Some(available[0]);
    PassStaysHonestIff(c, o, w);
  }

  /** Another: the first read sees a name that somebody has since changed, and the pass reports it
      available, although no call has to fail. */
  lemma StaleLookClaimsOldName(c: CollectionConfig, o: CollectionOracle, seen: GoString, name: GoString)
    requires o.getCollection && o.observeRead == Lagging(1) && o.writeStatus.reached && seen != name
    ensures var w := World(Store(Some(Resource(true, false, false, [], seen)),
                                 [Some(map[COLLECTION_KEY := seen]), Some(map[COLLECTION_KEY := name])]),
                           SolrState(map[], map[], {}));
            HonestlyAvailable(w) && !HonestlyAvailable(PlanPass(c, o, w).world)
  {
    hide PlanPass, MintedName;
    var w := World(Store(Some(Resource(true, false, false, [], seen)),
                         [Some(map[COLLECTION_KEY := seen]), Some(map[COLLECTION_KEY := name])]),
                   SolrState(map[], map[], {}));
    PassStaysHonestIff(c, o, w);
  }

  /** A pass that ensures existence, sees the current map and writes its status reports
      Available exactly when the map already had a name, or a name could be minted and stored. */
  lemma ReadyIff(c: CollectionConfig, o: CollectionOracle, w: CollectionWorld)
    requires Stage(o, w) == Some(true) && o.writeStatus.Committed() && o.observeRead == CURRENT
    ensures var r' := PlanPass(c, o, w).world.store.resource;
            && r'.Some? && !PlanPass(c, o, w).failed
            && (IsTrue(r'.value.conditions, CollectionAvailable)
                <==> Published(w.store.versions).Some? || CanPublish(o, w.store.versions))
  {
    hide PlanPass, MintedName, IsTrue;
    CommittedStatus(c, o, w);
  }

  predicate CanPublish(o: CollectionOracle, h: History) {
    && o.suffix.Some? && o.updateMap.Committed()
    && (if Latest(h).None? then o.createMap.Committed()
        else o.reread == CURRENT)
  }

  /** A name that was minted but could not be stored: the map part is not ready although
      `ConfigMapHasCollection` was set to True, and the status carries the unstored name. */
  lemma UnstoredNameIsNotReady(c: CollectionConfig, o: CollectionOracle, h: History, name: GoString, stored: seq<Mark>)
    requires o.observeRead == CURRENT && o.reread == CURRENT && Latest(h).Some? && Published(h).None?
    requires o.suffix.Some? && !o.updateMap.reached
    ensures var e := PlanEnsure(c, o, h, name);
            && !e.ready && e.versions == h && e.name == MintedName(c, o.suffix.value)
            && IsTrue(SetAll(stored, e.marks), MapHasCollection)
  {
    hide MintedName, Find, Set, SetAll;
    var e := PlanEnsure(c, o, h, name);
    var minted := Condition(MapHasCollection, True, "GeneratedCollectionName");
    assert e.marks == e.marks[..|e.marks| - 1] + [minted];
    SetAllAppend(stored, e.marks[..|e.marks| - 1], minted);
  }
}
