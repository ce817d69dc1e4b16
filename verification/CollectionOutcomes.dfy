/** What a pass over a Collection reports and publishes: its error, the name and the conditions in
    the status, and a whole first pass written out. */
module CollectionOutcomes {
  import opened GoValues
  import opened Conditions
  import opened SolrClient
  import opened Cluster
  import opened CollectionPlan
  import opened CollectionRuns

  /** Exactly when a pass reports an error: the Collection cannot be read; or it is there and the
      pass does not get as far as reconciling, or cannot delete, or cannot make its last write. A
      map that cannot be created or completed is no error. Every error but the first comes with a
      request to try again, and nothing else does. */
  lemma PassFailsIff(c: CollectionConfig, o: CollectionOracle, w: CollectionWorld)
    ensures var out, r, stage := PlanPass(c, o, w), w.store.resource, Stage(o, w);
            && (out.failed <==>
                  || !o.getCollection
                  || (r.Some?
                      && (stage.None?
                          || (!stage.value && PlanDelete(c, o, w.solr, r.value.name).failed)
                          || !(if stage.value then o.writeStatus else o.removeFinaliser).Committed())))
            && (out.requeue <==> out.failed && o.getCollection)
  {
    hide PlanEnsure, PlanDelete, SetAll;
  }

  /** When a deletion in Solr is an error, by policy and call by call; and when it happens, which an
      error does not rule out. */
  lemma DeletionFailsIff(c: CollectionConfig, o: CollectionOracle, s: SolrState, name: GoString)
    ensures PlanDelete(c, o, s, name).failed
       <==> name != [] && c.policy != "retain"
            && (c.policy == "delete" ==>
                  !o.getClient || !o.listCollections || (name in s.collections && !o.dropCollection.Committed()))
    ensures PlanDelete(c, o, s, name).solr.collections
         == if name != [] && c.policy == "delete" && o.getClient && o.listCollections && o.dropCollection.reached
            then s.collections - {name} else s.collections
  {
  }

  /** What is minted is text of the namespace and the random bytes; different bytes give different
      names. */
  lemma MintedByParts(c: CollectionConfig, suffix: seq<Byte>, other: seq<Byte>)
    ensures MintedName(c, suffix) == Ascii("coll--") + c.namespace + Ascii("--") + Hex(suffix)
    ensures MintedName(c, suffix) == MintedName(c, other) <==> suffix == other
  {
    hide Hex;
    assert Ascii("--") == DASHES && Ascii("coll--") == [99, 111, 108, 108] + DASHES;
    var prefix := [99, 111, 108, 108] + DASHES + c.namespace + DASHES;
    assert MintedName(c, suffix)[|prefix|..] == Hex(suffix) && MintedName(c, other)[|prefix|..] == Hex(other);
    HexInjective(suffix, other);
  }

  /** The writes of the Collection object: the status last, whether the map is ready or not, and the
      finaliser first if it was missing; it is taken off only by a pass that could delete. */
  lemma ResourceWrites(c: CollectionConfig, o: CollectionOracle, w: CollectionWorld)
    requires Stage(o, w).Some?
    ensures var calls, r := PlanPass(c, o, w).apiCalls, w.store.resource.value;
            if Stage(o, w).value then
              calls == (if r.finalised || r.deleting then [] else [UpdateFinaliser(true), UpdateStatus])
                       + PlanEnsure(c, o, w.store.versions, r.name).calls + [UpdateStatus]
            else
              calls == if PlanDelete(c, o, w.solr, r.name).failed then [] else [UpdateFinaliser(false)]
  {
    hide PlanEnsure, PlanDelete, SetAll;
  }

  // ---------------------------------------------------------------- the map and its name

  /** The first read saw a map with a name. */
  predicate SeesName(o: CollectionOracle, h: History) {
    Observed(o, h).Some? && COLLECTION_KEY in Observed(o, h).value.data
  }

  /** The pass has a map in hand to complete: the one it saw, read again, or one it created. */
  predicate HasMap(o: CollectionOracle, h: History) {
    if Observed(o, h).Some? then ReadVersion(h, o.reread).Ok? && ReadVersion(h, o.reread).value.Some?
    else Latest(h).None? && o.createMap.Committed()
  }

  /** That map is the latest version. */
  predicate HasLatestMap(o: CollectionOracle, h: History) {
    HasMap(o, h) && (Observed(o, h).Some? ==> o.reread == CURRENT)
  }

  /** Which name an ensuring pass works out, what it stores, and when it is ready: the name it saw;
      else a minted one, if it has a map and random bytes, which it stores in the latest version
      only; else the old one. */
  lemma EnsuredNameAndMap(c: CollectionConfig, o: CollectionOracle, h: History, name: GoString)
    ensures var e := PlanEnsure(c, o, h, name);
            var mints := !SeesName(o, h) && HasMap(o, h) && o.suffix.Some?;
            var stores := mints && HasLatestMap(o, h) && o.updateMap.reached;
            && e.name == (if SeesName(o, h) then Observed(o, h).value.data[COLLECTION_KEY]
                          else if mints then MintedName(c, o.suffix.value) else name)
            && (e.ready <==> SeesName(o, h) || (stores && o.updateMap.answered))
            && (stores ==> Published(e.versions) == Some(MintedName(c, o.suffix.value)))
            && (!stores ==> Published(e.versions) == Published(h))
  {
    hide MintedName, PlanObserve, Observed;
    SeenIsObserved(o, h, name);
    ObservedIsRead(o, h);
    ReadVersionOf(h, o.reread);
  }

  lemma ReadVersionOf(h: History, outcome: ReadOutcome)
    ensures var read := ReadVersion(h, outcome);
            read.Ok? && read.value.Some? ==>
              && read.value.value.version < |h| && h[read.value.value.version] == Some(read.value.value.data)
              && (read.value.value.version == |h| - 1 <==> outcome == CURRENT)
  {
  }

  // ---------------------------------------------------------------- the conditions

  /** What observing the map reports: a failed read leaves its existence unknown, "not found" does
      not; and the map is available if it is there with its name. */
  lemma ObservationSays(o: CollectionOracle, h: History, name: GoString, kind: CollectionCondition)
    ensures var read, seen, m := ReadVersion(h, o.observeRead), Observed(o, h), PlanObserve(o, h, name).marks;
            Says(m, kind) ==
            match kind
            case MapExists => Some(if read.Error? then Unknown else if seen.Some? then True else False)
            case MapHasCollection => Some(if read.Error? then Unknown else if SeesName(o, h) then True else False)
            case MapAvailable => Some(if SeesName(o, h) then True else False)
            case _ => None
  {
    hide Says;
    var look, m := PlanLook(o, h, name).marks, PlanObserve(o, h, name).marks;
    SaysOfTwo(look[0], look[1], kind);
    assert look[..2] == [look[0], look[1]];
    if |look| == 3 {
      assert look == look[..2] + [look[2]];
      SaysOfAppend(look[..2], look[2], kind);
    } else {
      assert look == look[..2];
    }
    SaysOfAppend(look, m[|look|], kind);
  }

  lemma SeenIsObserved(o: CollectionOracle, h: History, name: GoString)
    ensures var seen := PlanObserve(o, h, name);
            && seen.present == Observed(o, h).Some? && seen.named == SeesName(o, h)
            && seen.name == if SeesName(o, h) then Observed(o, h).value.data[COLLECTION_KEY] else name
  {
  }

  /** What creating or completing the map adds to what was observed. */
  function UpdateWord(o: CollectionOracle, h: History, ready: bool, kind: CollectionCondition): Option<Status> {
    match kind
    case MapExists => if Observed(o, h).None? && HasMap(o, h) then Some(True) else None
    case MapHasCollection => if HasMap(o, h) && o.suffix.Some? then Some(True) else None
    case MapAvailable => if ready then Some(True) else None
    case _ => None
  }

  lemma UpdateSays(c: CollectionConfig, o: CollectionOracle, h: History, name: GoString, kind: CollectionCondition)
    requires !SeesName(o, h)
    ensures var u := PlanUpdate(c, o, h, name, Observed(o, h).Some?, false);
            Says(u.marks, kind) == UpdateWord(o, h, !u.failed, kind)
  {
    hide Says, MintedName;
    EmptySaysNothing<CollectionCondition>();
    var u, g := PlanUpdate(c, o, h, name, Observed(o, h).Some?, false), PlanObtain(o, h, Observed(o, h).Some?);
    if g.copy.Some? && o.suffix.Some? {
      var marks := g.marks + [Condition(MapHasCollection, True, "GeneratedCollectionName")];
      SaysOfAppend(g.marks, Condition(MapHasCollection, True, "GeneratedCollectionName"), kind);
      SaysOfAppend(marks, StatusMark(true), kind);
    }
    SaysOfOne(Condition(MapExists, True, "Created"), kind);
  }

  lemma EnsuredWord(c: CollectionConfig, o: CollectionOracle, h: History, name: GoString, kind: CollectionCondition)
    ensures var e, word := PlanEnsure(c, o, h, name), UpdateWord(o, h, PlanEnsure(c, o, h, name).ready, kind);
            Says(e.marks, kind)
            == if !SeesName(o, h) && word.Some? then word else Says(PlanObserve(o, h, name).marks, kind)
  {
    hide Says, PlanObserve, PlanUpdate;
    var seen := PlanObserve(o, h, name);
    SeenIsObserved(o, h, name);
    if !SeesName(o, h) {
      UpdateSays(c, o, h, seen.name, kind);
      SaysOfSum(seen.marks, PlanUpdate(c, o, h, seen.name, seen.present, seen.named).marks, kind);
    }
  }

  /** What an ensuring pass reports about the map in the end. */
  lemma EnsuredSays(c: CollectionConfig, o: CollectionOracle, h: History, name: GoString)
    ensures var e := PlanEnsure(c, o, h, name);
            && (Says(e.marks, MapExists) == Some(True) <==> Observed(o, h).Some? || HasMap(o, h))
            && (Says(e.marks, MapHasCollection) == Some(True)
                <==> SeesName(o, h) || (HasMap(o, h) && o.suffix.Some?))
            && (Says(e.marks, MapAvailable) == Some(True) <==> e.ready)
            && Says(e.marks, CollectionAvailable).None?
  {
    hide Says, PlanEnsure, PlanObserve, Observed, HasMap;
    forall kind | kind in {MapExists, MapHasCollection, MapAvailable, CollectionAvailable}
      ensures var e, word := PlanEnsure(c, o, h, name), UpdateWord(o, h, PlanEnsure(c, o, h, name).ready, kind);
              Says(e.marks, kind)
              == if !SeesName(o, h) && word.Some? then word else Says(PlanObserve(o, h, name).marks, kind)
    {
      EnsuredWord(c, o, h, name, kind);
    }
    EnsuredNameAndMap(c, o, h, name);
    ObservedIsRead(o, h);
    ObservationSays(o, h, name, MapExists);
    ObservationSays(o, h, name, MapHasCollection);
    ObservationSays(o, h, name, MapAvailable);
    ObservationSays(o, h, name, CollectionAvailable);
  }

  lemma ObservedIsRead(o: CollectionOracle, h: History)
    ensures Observed(o, h).Some? ==> !ReadVersion(h, o.observeRead).Error?
  {
  }

  lemma ReconcilingSays(kind: CollectionCondition)
    ensures Says(ReconcilingMarks(), kind)
         == if kind == CollectionAvailable then Some(False)
            else if kind in {MapAvailable, MapExists, MapHasCollection} then Some(Unknown) else None
  {
    var m := ReconcilingMarks();
    hide Says;
    assert m == [m[0], m[1]] + [m[2], m[3]];
    SaysOfSum([m[0], m[1]], [m[2], m[3]], kind);
    SaysOfTwo(m[0], m[1], kind);
    SaysOfTwo(m[2], m[3], kind);
  }

  /** The status after an ensuring pass, condition by condition: with the last write, what the pass
      has reported, and whether the map was ready; without it, "Reconciling" for a new Collection,
      and what was stored for any other. */
  lemma StatusAfterPass(c: CollectionConfig, o: CollectionOracle, w: CollectionWorld, kind: CollectionCondition)
    requires Stage(o, w) == Some(true)
    ensures var r, r' := w.store.resource.value, PlanPass(c, o, w).world.store.resource;
            var e := PlanEnsure(c, o, w.store.versions, r.name);
            var start := if r.finalised || r.deleting then Stored(r.conditions, kind)
                         else if kind == CollectionAvailable then Some(False)
                         else if kind in {MapAvailable, MapExists, MapHasCollection} then Some(Unknown)
                         else Stored(r.conditions, kind);
            && r'.Some?
            && Stored(r'.value.conditions, kind) ==
               if !o.writeStatus.reached then start
               else if kind == CollectionAvailable then Some(if e.ready then True else False)
               else if Says(e.marks, kind).Some? then Says(e.marks, kind) else start
  {
    hide PlanEnsure, Says, Stored, SetAll, ReconcilingMarks;
    var r := w.store.resource.value;
    var e := PlanEnsure(c, o, w.store.versions, r.name);
    forall marks
      ensures Says(marks + e.marks + [ReadyMark(e.ready)], kind)
           == if kind == CollectionAvailable then Some(if e.ready then True else False)
              else if Says(e.marks, kind).Some? then Says(e.marks, kind) else Says(marks, kind)
      ensures Stored(SetAll(r.conditions, marks + e.marks + [ReadyMark(e.ready)]), kind)
           == if kind == CollectionAvailable then Some(if e.ready then True else False)
              else if Says(e.marks, kind).Some? then Says(e.marks, kind)
              else if Says(marks, kind).Some? then Says(marks, kind) else Stored(r.conditions, kind)
    {
      SaysOfAppend(marks + e.marks, ReadyMark(e.ready), kind);
      SaysOfSum(marks, e.marks, kind);
      StoredAfter(r.conditions, marks + e.marks + [ReadyMark(e.ready)], kind);
    }
    ReconcilingSays(kind);
    StoredAfter(r.conditions, ReconcilingMarks(), kind);
    EmptySaysNothing<CollectionCondition>();
  }

  // ---------------------------------------------------------------- whole passes, written out

  /** All the condition updates of a first pass. */
  function FirstMarks(): seq<Mark> {
    [Condition(CollectionAvailable, False, "Reconciling"), Condition(MapAvailable, Unknown, "Reconciling"),
     Condition(MapExists, Unknown, "Reconciling"), Condition(MapHasCollection, Unknown, "Reconciling"),
     Condition(MapExists, False, "ConfigMapDoesNotExist"), Condition(MapHasCollection, False, "ConfigMapDoesNotExist"),
     Condition(MapAvailable, False, "NotReady"),
     Condition(MapExists, True, "Created"), Condition(MapHasCollection, True, "GeneratedCollectionName"),
     Condition(MapAvailable, True, "Ready"),
     Condition(CollectionAvailable, True, "Ready")]
  }

  /** Nothing exists yet and nothing fails: every store, call and condition, in order. */
  lemma FirstPass(c: CollectionConfig, o: CollectionOracle, solr: SolrState)
    requires o.getCollection && o.addFinaliser.Committed() && o.markReconciling.Committed() && o.observeRead == CURRENT
    requires o.createMap.Committed() && o.suffix.Some? && o.updateMap.Committed() && o.writeStatus.Committed()
    ensures var w := World(Store(Some(Resource(false, false, false, [], [])), [None]), solr);
            var out, name := PlanPass(c, o, w), MintedName(c, o.suffix.value);
            && !out.failed && !out.requeue && out.solrCalls == [] && out.world.solr == solr
            && out.apiCalls == [UpdateFinaliser(true), UpdateStatus, GetDocument, CreateDocument,
                                UpdateDocument(Copy(1, map["collectionName" := name])), UpdateStatus]
            && out.world.store.versions == [None, Some(map[]), Some(map["collectionName" := name])]
            && out.world.store.resource == Some(Resource(true, false, false, SetAll([], FirstMarks()), name))
  {
    hide MintedName, SetAll;
    var e := PlanEnsure(c, o, [None], []);
    assert ReconcilingMarks() + e.marks + [ReadyMark(e.ready)] == FirstMarks();
  }

  /** A map without a name, and something else in it, is completed. */
  lemma CompletingPass(c: CollectionConfig, o: CollectionOracle, solr: SolrState, stored: seq<Mark>, name: GoString)
    requires o.getCollection && o.observeRead == o.reread == CURRENT
    requires o.suffix.Some? && o.updateMap.Committed() && o.writeStatus.Committed()
    ensures var w := World(Store(Some(Resource(true, false, false, stored, name)), [Some(map["other" := []])]), solr);
            var out, minted := PlanPass(c, o, w), MintedName(c, o.suffix.value);
            var data := map["other" := [], "collectionName" := minted];
            var marks := [Condition(MapExists, True, "FoundConfigMap"),
                          Condition(MapHasCollection, False, "ConfigMapMissingCollection"),
                          Condition(MapAvailable, False, "NotReady"),
                          Condition(MapHasCollection, True, "GeneratedCollectionName"),
                          Condition(MapAvailable, True, "Ready"), Condition(CollectionAvailable, True, "Ready")];
            && !out.failed && !out.requeue && out.world.solr == solr
            && out.apiCalls == [GetDocument, GetDocument, UpdateDocument(Copy(0, data)), UpdateStatus]
            && out.world.store.versions == [Some(map["other" := []]), Some(data)]
            && out.world.store.resource == Some(Resource(true, false, false, SetAll(stored, marks), minted))
  {
    hide MintedName, SetAll;
    var e := PlanEnsure(c, o, [Some(map["other" := []])], name);
    assert [] + e.marks + [ReadyMark(e.ready)]
        == [Condition(MapExists, True, "FoundConfigMap"),
            Condition(MapHasCollection, False, "ConfigMapMissingCollection"),
            Condition(MapAvailable, False, "NotReady"), Condition(MapHasCollection, True, "GeneratedCollectionName"),
            Condition(MapAvailable, True, "Ready"), Condition(CollectionAvailable, True, "Ready")];
  }

  /** A Collection with a published name is only looked at. */
  lemma LookingPass(c: CollectionConfig, o: CollectionOracle, solr: SolrState, stored: seq<Mark>, name: GoString,
                    published: GoString)
    requires o.getCollection && o.observeRead == CURRENT && o.writeStatus.Committed()
    ensures var h: History := [Some(map["collectionName" := published])];
            var out := PlanPass(c, o, World(Store(Some(Resource(true, false, false, stored, name)), h), solr));
            var marks := [Condition(MapExists, True, "FoundConfigMap"),
                          Condition(MapHasCollection, True, "ConfigMapHasCollection"),
                          Condition(MapAvailable, True, "Ready"), Condition(CollectionAvailable, True, "Ready")];
            && !out.failed && out.apiCalls == [GetDocument, UpdateStatus] && out.solrCalls == []
            && out.world
               == World(Store(Some(Resource(true, false, false, SetAll(stored, marks), published)), h), solr)
  {
    hide SetAll;
    var e := PlanEnsure(c, o, [Some(map["collectionName" := published])], name);
    assert [] + e.marks + [ReadyMark(e.ready)]
        == [Condition(MapExists, True, "FoundConfigMap"), Condition(MapHasCollection, True, "ConfigMapHasCollection"),
            Condition(MapAvailable, True, "Ready"), Condition(CollectionAvailable, True, "Ready")];
  }

  /** Under "delete" the named collection goes from Solr, then the finaliser. */
  lemma LastPass(c: CollectionConfig, o: CollectionOracle, w: CollectionWorld)
    requires c.policy == "delete" && w.store.resource.Some? && o.getCollection && o.getClient && o.listCollections
    requires var r := w.store.resource.value;
             r.deleting && r.finalised && !r.foreign && r.name != [] && r.name in w.solr.collections
    requires o.dropCollection.Committed() && o.removeFinaliser.Committed()
    ensures var out, name := PlanPass(c, o, w), w.store.resource.value.name;
            && !out.failed && out.apiCalls == [UpdateFinaliser(false)]
            && out.solrCalls == [ListCollections, DropCollection(name)]
            && out.world == World(Store(None, w.store.versions),
                                  w.solr.(collections := w.solr.collections - {name}))
  {
    hide PlanEnsure, SetAll;
  }
}
