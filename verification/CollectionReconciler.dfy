/** The Collection reconciler, statement by statement, proved against its plan. */
module CollectionReconciler {
  import opened GoValues
  import opened Conditions
  import opened SolrClient
  import opened Cluster
  import opened CollectionPlan

  class CollectionReconciler {
    const config: CollectionConfig
    const api: ApiServer<CollectionCondition>
    const solr: Client

    ghost function View(): CollectionWorld
      reads api`resource, api`versions, solr`credentials, solr`roles, solr`collections
    {
      World(api.View(), solr.View())
    }

    constructor (config: CollectionConfig, api: ApiServer<CollectionCondition>, solr: Client)
      ensures this.config == config && this.api == api && this.solr == solr
    {
      this.config, this.api, this.solr := config, api, solr;
    }

    /** Looks at the config map; the name it publishes goes into the status. */
    method ObserveCollection(collection: LocalResource<CollectionCondition>, o: CollectionOracle)
      requires collection.Valid()
      modifies collection`conditions, collection`marks, collection`name, api`calls
      ensures collection.Valid()
      ensures var p := PlanObserve(o, api.versions, old(collection.name));
              && collection.name == p.name && collection.marks == old(collection.marks) + p.marks
              && collection.Holds(MapExists) == p.present
              && collection.Holds(MapHasCollection) == p.named
              && collection.Holds(MapAvailable) == (p.present && p.named)
      ensures api.calls == old(api.calls) + [GetDocument]
    {
      hide SetAll, Find, IsTrue, collection.Valid, collection.Holds, ReadVersion;
      Look(collection, o);
      CheckMapStatus(collection);
    }

    method Look(collection: LocalResource<CollectionCondition>, o: CollectionOracle)
      requires collection.Valid()
      modifies collection`conditions, collection`marks, collection`name, api`calls
      ensures collection.Valid()
      ensures var p := PlanLook(o, api.versions, old(collection.name));
              && collection.name == p.name && collection.marks == old(collection.marks) + p.marks
              && collection.Holds(MapExists) == p.present
              && collection.Holds(MapHasCollection) == p.named
      ensures api.calls == old(api.calls) + [GetDocument]
    {
      hide SetAll, Find, IsTrue, collection.Valid, collection.Holds, ReadVersion;
      var read := api.Get(o.observeRead);
      if read.Error? || read.value.None? {
        if read.Ok? {
          MarkBoth(collection, False, "ConfigMapDoesNotExist");
        } else {
          MarkBoth(collection, Unknown, "ConfigMapLookupFailed");
          collection.Mark(MapAvailable, False, "");
        }
      } else {
        var data := read.value.value.data;
        collection.Mark(MapExists, True, "FoundConfigMap");
        if COLLECTION_KEY in data {
          collection.Mark(MapHasCollection, True, "ConfigMapHasCollection");
          collection.name := data[COLLECTION_KEY];
        } else {
          collection.Mark(MapHasCollection, False, "ConfigMapMissingCollection");
        }
      }
    }

    method MarkBoth(collection: LocalResource<CollectionCondition>, status: Status, reason: string)
      requires collection.Valid()
      modifies collection`conditions, collection`marks
      ensures collection.Valid()
      ensures collection.marks == old(collection.marks) +
                [Condition(MapExists, status, reason), Condition(MapHasCollection, status, reason)]
      ensures collection.Holds(MapExists) == collection.Holds(MapHasCollection) == (status == True)
    {
      hide SetAll, Find, IsTrue, collection.Valid, collection.Holds;
      var kinds := [MapExists, MapHasCollection];
      var i := 0;
      while i < |kinds|
        invariant 0 <= i <= |kinds| && collection.Valid()
        invariant collection.marks == old(collection.marks) +
                    [Condition(MapExists, status, reason), Condition(MapHasCollection, status, reason)][..i]
        invariant i > 0 ==> collection.Holds(MapExists) == (status == True)
        invariant i > 1 ==> collection.Holds(MapHasCollection) == (status == True)
      {
        collection.Mark(kinds[i], status, reason);
        i := i + 1;
      }
    }

    /** Derives `ConfigMapAvailable` from its two parts. */
    method CheckMapStatus(collection: LocalResource<CollectionCondition>)
      requires collection.Valid()
      modifies collection`conditions, collection`marks
      ensures collection.Valid()
      ensures var ready := old(collection.Holds(MapExists) && collection.Holds(MapHasCollection));
              && collection.marks == old(collection.marks) + [StatusMark(ready)]
              && collection.Holds(MapAvailable) == ready
      ensures forall k :: k != MapAvailable ==> collection.Holds(k) == old(collection.Holds(k))
    {
      hide SetAll, Find, IsTrue, collection.Valid, collection.Holds;
      var kinds := [MapExists, MapHasCollection];
      var statuses: seq<bool> := [];
      var i := 0;
      while i < |kinds|
        invariant 0 <= i <= |kinds| && |statuses| == i
        invariant forall j :: 0 <= j < i ==> statuses[j] == collection.Holds(kinds[j])
      {
        statuses := statuses + [collection.Holds(kinds[i])];
        i := i + 1;
      }
      assert statuses[0] == collection.Holds(MapExists) && statuses[1] == collection.Holds(MapHasCollection);
      if false !in statuses {
        collection.Mark(MapAvailable, True, "Ready");
      } else {
        collection.Mark(MapAvailable, False, "NotReady");
      }
    }

    /** Creates the config map when it was not seen, mints the name when it was not seen. */
    method UpdateCollection(collection: LocalResource<CollectionCondition>, o: CollectionOracle) returns (ok: bool)
      requires collection.Valid()
      modifies collection`conditions, collection`marks, collection`name, api`versions, api`calls
      ensures collection.Valid()
      ensures var p := PlanUpdate(config, o, old(api.versions), old(collection.name), old(collection.Holds(MapExists)),
                                  old(collection.Holds(MapHasCollection)));
              && ok == !p.failed && api.versions == p.versions && collection.name == p.name
              && collection.marks == old(collection.marks) + p.marks
              && api.calls == old(api.calls) + p.calls
              && collection.Holds(MapAvailable) == (ok || old(collection.Holds(MapAvailable)))
    {
      hide SetAll, Find, IsTrue, collection.Valid, collection.Holds, ReadVersion, AfterCreate, AfterUpdate, MintedName;
      ghost var g := PlanObtain(o, api.versions, collection.Holds(MapExists));
      var document: Copy;
      if !collection.Holds(MapExists) {
        var created := api.Create(o.createMap);
        if created.Error? {
          return false;
        }
        collection.Mark(MapExists, True, "Created");
        document := created.value;
      } else {
        var read := api.Get(o.reread);
        if read.Error? || read.value.None? {
          return false;
        }
        document := read.value.value;
      }
      assert g.copy == Some(document) && api.versions == g.versions
             && collection.marks == old(collection.marks) + g.marks;
      hide PlanObtain;
      var dirty := false;
      if !collection.Holds(MapHasCollection) {
        if o.suffix.None? {
          return false;
        }
        var name := MintedName(config, o.suffix.value);
        collection.name := name;
        document := document.(data := document.data[COLLECTION_KEY := name]);
        dirty := true;
        collection.Mark(MapHasCollection, True, "GeneratedCollectionName");
      }
      if dirty {
        ok := api.Update(document, o.updateMap);
        if !ok {
          return false;
        }
      }
      CheckMapStatus(collection);
      return true;
    }

    method CreateCollection(collection: LocalResource<CollectionCondition>, o: CollectionOracle) returns (ok: bool)
      requires collection.Valid()
      modifies collection`conditions, collection`marks, collection`name, api`versions, api`calls
      ensures collection.Valid()
      ensures var p := PlanUpdate(config, o, old(api.versions), old(collection.name), old(collection.Holds(MapExists)),
                                  old(collection.Holds(MapHasCollection)));
              && ok == !p.failed && api.versions == p.versions && collection.name == p.name
              && collection.marks == old(collection.marks) + p.marks
              && api.calls == old(api.calls) + p.calls
              && collection.Holds(MapAvailable) == (ok || old(collection.Holds(MapAvailable)))
    {
      ok := UpdateCollection(collection, o);
    }

    /** Applies the removal policy to the collection named in the status. */
    method DeleteCollection(collection: LocalResource<CollectionCondition>, o: CollectionOracle) returns (ok: bool)
      modifies solr`collections, solr`calls
      ensures var p := PlanDelete(config, o, old(solr.View()), collection.name);
              && ok == !p.failed && solr.View() == p.solr && solr.calls == old(solr.calls) + p.calls
    {
      hide solr.View, WithoutCollection;
      if collection.name == [] {
        return true;
      }
      if config.policy == "delete" {
        if !o.getClient {
          return false;
        }
        var found := solr.CollectionExists(collection.name, o.listCollections);
        if found.Error? {
          return false;
        }
        if found.value {
          ok := solr.DeleteCollection(collection.name, o.dropCollection);
          if !ok {
            return false;
          }
        }
      } else if config.policy == "retain" {
      } else {
        return false;
      }
      return true;
    }

    method AddFinaliser(collection: LocalResource<CollectionCondition>, o: CollectionOracle) returns (ok: bool)
      requires collection.Valid() && collection.marks == [] && !collection.finalised
      modifies collection, api`resource, api`calls
      ensures collection.Valid() && collection.name == old(collection.name)
      ensures var (r1, ok1) := AfterFinaliser(old(api.resource), true, o.addFinaliser);
              if !ok1 then !ok && api.resource == r1 && api.calls == old(api.calls) + [UpdateFinaliser(true)]
              else
                && collection.marks == ReconcilingMarks()
                && (api.resource, ok) == AfterStatus(r1, collection.conditions, collection.name, o.markReconciling)
                && api.calls == old(api.calls) + [UpdateFinaliser(true), UpdateStatus]
    {
      hide SetAll, Find, IsTrue, collection.Valid, collection.Holds, AfterFinaliser, AfterStatus;
      collection.finalised := true;
      ok := api.UpdateResource(collection, o.addFinaliser);
      if !ok {
        return false;
      }
      collection.Mark(CollectionAvailable, False, "Reconciling");
      var kinds := [MapAvailable, MapExists, MapHasCollection];
      ghost var expected := ReconcilingMarks();
      var i := 0;
      while i < |kinds|
        modifies collection`conditions, collection`marks
        invariant 0 <= i <= |kinds|
        invariant collection.Valid() && collection.marks == expected[..i + 1]
      {
        collection.Mark(kinds[i], Unknown, "Reconciling");
        assert expected[..i + 2] == expected[..i + 1] + [Condition(kinds[i], Unknown, "Reconciling")];
        i := i + 1;
      }
      assert expected[..i + 1] == expected;
      ok := api.UpdateResourceStatus(collection, o.markReconciling);
    }

    /** Observes the map and creates or completes it when it is not available. */
    method EnsureMap(collection: LocalResource<CollectionCondition>, o: CollectionOracle)
      requires collection.Valid()
      modifies collection`conditions, collection`marks, collection`name, api`versions, api`calls
      ensures collection.Valid()
      ensures var e := PlanEnsure(config, o, old(api.versions), old(collection.name));
              && api.versions == e.versions && collection.name == e.name
              && collection.marks == old(collection.marks) + e.marks
              && api.calls == old(api.calls) + e.calls
              && collection.Holds(MapAvailable) == e.ready
    {
      hide SetAll, Find, IsTrue, collection.Valid, collection.Holds, PlanObserve, PlanUpdate;
      ObserveCollection(collection, o);
      if collection.Holds(MapAvailable) {
        var kinds := [MapAvailable, MapExists, MapHasCollection];
        var allClear := true;
        var i := 0;
        while i < |kinds|
          invariant 0 <= i <= |kinds| && allClear
        {
          if !collection.Holds(kinds[i]) {
            allClear := false;
            break;
          }
          i := i + 1;
        }
        if !allClear {
          // The source updates the collection here.
          assert false;
        }
      } else {
        // The outcome is only logged.
        var _ := CreateCollection(collection, o);
      }
    }

    /** The end of a pass over a Collection that should exist. */
    method EnsurePass(collection: LocalResource<CollectionCondition>, o: CollectionOracle)
      returns (failed: bool, requeue: bool)
      requires collection.Valid()
      modifies collection, api
      ensures var e := PlanEnsure(config, o, old(api.versions), old(collection.name));
              var (stored, ok) := AfterStatus(old(api.resource),
                                              SetAll(collection.stored,
                                                     old(collection.marks) + e.marks + [ReadyMark(e.ready)]),
                                              e.name, o.writeStatus);
              && api.resource == stored && api.versions == e.versions
              && api.calls == old(api.calls) + e.calls + [UpdateStatus]
              && failed == requeue == !ok
    {
      hide SetAll, Find, IsTrue, collection.Holds, AfterStatus, PlanEnsure;
      EnsureMap(collection, o);
      if collection.Holds(MapAvailable) {
        collection.Mark(CollectionAvailable, True, "Ready");
      } else {
        collection.Mark(CollectionAvailable, False, "NotReady");
      }
      var ok := api.UpdateResourceStatus(collection, o.writeStatus);
      return !ok, !ok;
    }

    /** One reconcile pass. */
    method Reconcile(o: CollectionOracle) returns (failed: bool, requeue: bool)
      modifies api, solr`collections, solr`calls
      ensures var p := PlanPass(config, o, old(View()));
              && View() == p.world && failed == p.failed && requeue == p.requeue
              && api.calls == old(api.calls) + p.apiCalls
              && solr.calls == old(solr.calls) + p.solrCalls
    {
      hide SetAll, Find, IsTrue, solr.View, AfterFinaliser, AfterStatus, PlanEnsure, PlanDelete, ReconcilingMarks;
      if !o.getCollection {
        return true, false;
      }
      if api.resource.None? {
        return false, false;
      }
      var collection: LocalResource<CollectionCondition> := new LocalResource(api.resource.value);
      if !collection.deleting {
        if !collection.finalised {
          var ok := AddFinaliser(collection, o);
          if !ok {
            return true, true;
          }
        }
      } else if collection.finalised {
        var ok := DeleteCollection(collection, o);
        if !ok {
          return true, true;
        }
        collection.finalised := false;
        ok := api.UpdateResource(collection, o.removeFinaliser);
        if !ok {
          return true, true;
        }
        return false, false;
      }
      failed, requeue := EnsurePass(collection, o);
    }
  }
}
