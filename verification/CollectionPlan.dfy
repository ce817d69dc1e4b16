/** What one pass of the Collection reconciler does, as a function of the stores and of how
    each call fares; like the User's plan it never looks at stored status conditions. */
module CollectionPlan {
  import opened GoValues
  import opened Conditions
  import opened SolrClient
  import opened Cluster

  datatype CollectionCondition =
    | CollectionAvailable | MapAvailable | MapExists | MapHasCollection
    | OtherCondition(name: string)

  type Mark = Condition<CollectionCondition>

  const COLLECTION_KEY := "collectionName"

  /** `policy` is the removal policy as written in the spec, whatever it says. */
  datatype CollectionConfig = CollectionConfig(namespace: GoString, policy: string)

  /** How every call of one pass fares. A pass makes each call at most once; `observeRead` is
      the first read of the config map and `reread` the second, before an update. */
  datatype CollectionOracle = CollectionOracle(
    getCollection: bool,
    addFinaliser: Reply, markReconciling: Reply,
    observeRead: ReadOutcome, createMap: Reply, reread: ReadOutcome,
    suffix: Option<seq<Byte>>, updateMap: Reply,
    getClient: bool, listCollections: bool, dropCollection: Reply,
    removeFinaliser: Reply, writeStatus: Reply)

  type CollectionWorld = World<CollectionCondition>

  /** "coll--", the namespace and a random suffix. */
  function MintedName(c: CollectionConfig, suffix: seq<Byte>): (r: GoString)
    ensures r != []
  {
    [99, 111, 108, 108] + DASHES + c.namespace + DASHES + Hex(suffix)
  }

  // ---------------------------------------------------------------- observeCollection

  datatype Seen = Seen(present: bool, named: bool, name: GoString, marks: seq<Mark>)

  function PlanLook(o: CollectionOracle, h: History, name: GoString): Seen {
    match ReadVersion(h, o.observeRead)
    case Error =>
      Seen(false, false, name,
           [Condition(MapExists, Unknown, "ConfigMapLookupFailed"),
            Condition(MapHasCollection, Unknown, "ConfigMapLookupFailed"),
            Condition(MapAvailable, False, "")])
    case Ok(None) =>
      Seen(false, false, name,
           [Condition(MapExists, False, "ConfigMapDoesNotExist"),
            Condition(MapHasCollection, False, "ConfigMapDoesNotExist")])
    case Ok(Some(copy)) =>
      var found := Condition(MapExists, True, "FoundConfigMap");
      if COLLECTION_KEY in copy.data then
        Seen(true, true, copy.data[COLLECTION_KEY],
             [found, Condition(MapHasCollection, True, "ConfigMapHasCollection")])
      else
        Seen(true, false, name, [found, Condition(MapHasCollection, False, "ConfigMapMissingCollection")])
  }

  function StatusMark(ready: bool): Mark {
    if ready then Condition(MapAvailable, True, "Ready") else Condition(MapAvailable, False, "NotReady")
  }

  /** The observation, summarised at the end by `checkMapStatus`. */
  function PlanObserve(o: CollectionOracle, h: History, name: GoString): Seen {
    var seen := PlanLook(o, h, name);
    seen.(marks := seen.marks + [StatusMark(seen.present && seen.named)])
  }

  // ---------------------------------------------------------------- updateCollection

  datatype Update = Update(failed: bool, versions: History, name: GoString, marks: seq<Mark>, calls: seq<ApiCall>)

  /** The copy to be updated: a new map, or the present one read again. */
  datatype Obtained = Obtained(copy: Option<Copy>, versions: History, marks: seq<Mark>, call: ApiCall)

  function PlanObtain(o: CollectionOracle, h: History, present: bool): Obtained {
    if !present then
      var (h', created) := AfterCreate(h, o.createMap);
      if created.Error? then Obtained(None, h', [], CreateDocument)
      else Obtained(Some(created.value), h', [Condition(MapExists, True, "Created")], CreateDocument)
    else
      var read := ReadVersion(h, o.reread);
      Obtained(if read.Ok? then read.value else None, h, [], GetDocument)
  }

  function PlanUpdate(c: CollectionConfig, o: CollectionOracle, h: History, name: GoString, present: bool, named: bool)
    : Update {
    var g := PlanObtain(o, h, present);
    if g.copy.None? then Update(true, g.versions, name, g.marks, [g.call])
    else if named then Update(false, g.versions, name, g.marks + [StatusMark(true)], [g.call])
    else if o.suffix.None? then Update(true, g.versions, name, g.marks, [g.call])
    else
      var minted := MintedName(c, o.suffix.value);
      var copy := g.copy.value.(data := g.copy.value.data[COLLECTION_KEY := minted]);
      var marks := g.marks + [Condition(MapHasCollection, True, "GeneratedCollectionName")];
      var (h', ok) := AfterUpdate(g.versions, copy, o.updateMap);
      // The minted name stays in the status even when storing it in the map failed.
      Update(!ok, h', minted, if ok then marks + [StatusMark(true)] else marks, [g.call, UpdateDocument(copy)])
  }

  // ---------------------------------------------------------------- deleteCollection

  datatype Removal = Removal(failed: bool, solr: SolrState, calls: seq<SolrCall>)

  function PlanDelete(c: CollectionConfig, o: CollectionOracle, s: SolrState, name: GoString): Removal {
    if name == [] then Removal(false, s, [])
    else if c.policy == "delete" then
      if !o.getClient then Removal(true, s, [])
      else if !o.listCollections then Removal(true, s, [ListCollections])
      else if name !in s.collections then Removal(false, s, [ListCollections])
      else
        Removal(!(o.dropCollection.reached && o.dropCollection.answered),
                if o.dropCollection.reached then WithoutCollection(s, name) else s,
                [ListCollections, DropCollection(name)])
    else Removal(c.policy != "retain", s, [])
  }

  // ---------------------------------------------------------------- Reconcile

  datatype CollectionOutcome = CollectionOutcome(
    world: CollectionWorld, apiCalls: seq<ApiCall>, solrCalls: seq<SolrCall>, failed: bool, requeue: bool)

  function ReconcilingMarks(): seq<Mark> {
    [Condition(CollectionAvailable, False, "Reconciling"), Condition(MapAvailable, Unknown, "Reconciling"),
     Condition(MapExists, Unknown, "Reconciling"), Condition(MapHasCollection, Unknown, "Reconciling")]
  }

  /** The map as a pass that ensures existence leaves it, and whether it is ready. */
  datatype Ensured = Ensured(ready: bool, versions: History, name: GoString, marks: seq<Mark>, calls: seq<ApiCall>)

  function PlanEnsure(c: CollectionConfig, o: CollectionOracle, h: History, name: GoString): Ensured {
    var seen := PlanObserve(o, h, name);
    if seen.present && seen.named then Ensured(true, h, seen.name, seen.marks, [GetDocument])
    else
      // A failed creation is only logged.
      var u := PlanUpdate(c, o, h, seen.name, seen.present, seen.named);
      Ensured(!u.failed, u.versions, u.name, seen.marks + u.marks, [GetDocument] + u.calls)
  }

  /** One pass over the current state of the Collection. */
  function PlanPass(c: CollectionConfig, o: CollectionOracle, w: CollectionWorld): CollectionOutcome {
    if !o.getCollection then CollectionOutcome(w, [], [], true, false)
    else if w.store.resource.None? then CollectionOutcome(w, [], [], false, false)
    else
      var r := w.store.resource.value;
      if !r.deleting && !r.finalised then
        var (r1, ok1) := AfterFinaliser(Some(r), true, o.addFinaliser);
        if !ok1 then CollectionOutcome(w.(store := w.store.(resource := r1)), [UpdateFinaliser(true)], [], true, true)
        else
          var (r2, ok2) := AfterStatus(r1, SetAll(r.conditions, ReconcilingMarks()), r.name, o.markReconciling);
          var calls := [UpdateFinaliser(true), UpdateStatus];
          if !ok2 then CollectionOutcome(w.(store := w.store.(resource := r2)), calls, [], true, true)
          else PlanEnsurePass(c, o, w, r, r2, ReconcilingMarks(), calls)
      else if r.deleting && r.finalised then PlanDeletePass(c, o, w, r)
      else PlanEnsurePass(c, o, w, r, Some(r), [], [])
  }

  function ReadyMark(ready: bool): Mark {
    if ready then Condition(CollectionAvailable, True, "Ready") else Condition(CollectionAvailable, False, "NotReady")
  }

  function PlanEnsurePass(c: CollectionConfig, o: CollectionOracle, w: CollectionWorld,
                          r: Resource<CollectionCondition>, stored: Option<Resource<CollectionCondition>>,
                          marks: seq<Mark>, calls: seq<ApiCall>): CollectionOutcome
  {
    var e := PlanEnsure(c, o, w.store.versions, r.name);
    var conditions := SetAll(r.conditions, marks + e.marks + [ReadyMark(e.ready)]);
    var (stored', ok) := AfterStatus(stored, conditions, e.name, o.writeStatus);
    CollectionOutcome(World(Store(stored', e.versions), w.solr), calls + e.calls + [UpdateStatus], [], !ok, !ok)
  }

  function PlanDeletePass(c: CollectionConfig, o: CollectionOracle, w: CollectionWorld,
                          r: Resource<CollectionCondition>)
    : CollectionOutcome
  {
    var d := PlanDelete(c, o, w.solr, r.name);
    if d.failed then CollectionOutcome(w.(solr := d.solr), [], d.calls, true, true)
    else
      var (r', ok) := AfterFinaliser(Some(r), false, o.removeFinaliser);
      CollectionOutcome(World(w.store.(resource := r'), d.solr), [UpdateFinaliser(false)], d.calls, !ok, !ok)
  }
}
