/** Removing a Collection: what the removal policy lets a run take away from Solr. */
module CollectionRemoval {
  import opened GoValues
  import opened SolrClient
  import opened Cluster
  import opened CollectionPlan
  import opened CollectionRuns

  /** The finaliser came off in this pass. */
  predicate Releases(c: CollectionConfig, o: CollectionOracle, w: CollectionWorld) {
    var r, r' := w.store.resource, PlanPass(c, o, w).world.store.resource;
    r.Some? && r.value.finalised && (r'.None? || !r'.value.finalised)
  }

  /** The only collection a pass can take away, or ask Solr to take away. */
  predicate MayDrop(c: CollectionConfig, w: CollectionWorld, name: GoString) {
    && c.policy == "delete" && name != []
    && w.store.resource.Some? && w.store.resource.value.deleting && w.store.resource.value.finalised
    && w.store.resource.value.name == name
  }

  /** Removal frame of one pass: it asks to drop, and drops, only the collection named by the
      status of a Collection being deleted under the policy "delete"; it never adds one. */
  lemma PassDropsOnlyNamed(c: CollectionConfig, o: CollectionOracle, w: CollectionWorld, name: GoString)
    requires !MayDrop(c, w, name)
    ensures var out := PlanPass(c, o, w);
            && DropCollection(name) !in out.solrCalls
            && (name in out.world.solr.collections <==> name in w.solr.collections)
  {
    hide PlanPass;
    PassStores(c, o, w);
  }

  /** The finaliser comes off exactly as the policy allows: without a name always; under
      "retain" always; under "delete" only once the named collection is not in Solr. */
  lemma ReleaseMeansPolicyApplied(c: CollectionConfig, o: CollectionOracle, w: CollectionWorld)
    requires Releases(c, o, w)
    ensures var name := w.store.resource.value.name;
            && w.store.resource.value.deleting
            && (name == [] || c.policy == "retain"
                || (c.policy == "delete" && name !in PlanPass(c, o, w).world.solr.collections))
  {
    hide PlanPass;
    PassStores(c, o, w);
    PassResource(c, o, w);
  }

  /** Exactly when the finaliser comes off, call by call; a release reports an error only if the
      answer to its last update is lost. */
  lemma ReleasesIff(c: CollectionConfig, o: CollectionOracle, w: CollectionWorld)
    ensures Releases(c, o, w)
       <==> Stage(o, w) == Some(false) && o.removeFinaliser.reached
            && var name := w.store.resource.value.name;
               || name == [] || c.policy == "retain"
               || (c.policy == "delete" && o.getClient && o.listCollections
                   && (name in w.solr.collections ==> o.dropCollection.Committed()))
    ensures Releases(c, o, w) ==> (PlanPass(c, o, w).failed <==> !o.removeFinaliser.answered)
  {
    hide PlanEnsure, WithoutCollection;
  }

  /** No pass touches a user in Solr, and only a deleting one touches Solr at all. */
  lemma UsersAreUntouched(c: CollectionConfig, o: CollectionOracle, w: CollectionWorld)
    ensures var s, t := w.solr, PlanPass(c, o, w).world.solr;
            && t.credentials == s.credentials && t.roles == s.roles
            && (Stage(o, w) != Some(false) ==> t == s)
  {
    hide PlanPass;
    PassStores(c, o, w);
  }

  /** The collection that the config map publishes is taken away by a release exactly when the
      policy is "delete" and the status names the same one. */
  lemma PublishedCollectionRemovedIff(c: CollectionConfig, o: CollectionOracle, w: CollectionWorld, name: GoString)
    requires Releases(c, o, w) && Published(w.store.versions) == Some(name) && name != [] && name in w.solr.collections
    ensures name !in PlanPass(c, o, w).world.solr.collections
       <==> c.policy == "delete" && w.store.resource.value.name == name
  {
    hide PlanPass;
    ReleaseMeansPolicyApplied(c, o, w);
    PassStores(c, o, w);
    PassResource(c, o, w);
  }

  /** A concrete case: the status carries a name whose storing failed, the map holds another, and
      under "delete" a pass without failures releases the Collection and leaves that one in Solr. */
  lemma UnstoredNameLeavesPublished(c: CollectionConfig, o: CollectionOracle, unstored: GoString, name: GoString)
    requires c.policy == "delete" && unstored != name && name != [] && o.getCollection
    requires o.getClient && o.listCollections && o.dropCollection.Committed() && o.removeFinaliser.Committed()
    ensures var w := World(Store(Some(Resource(true, false, true, [], unstored)), [Some(map[COLLECTION_KEY := name])]),
                           SolrState(map[], map[], {name}));
            var out := PlanPass(c, o, w);
            Releases(c, o, w) && !out.failed && out.world.store.resource.None? && name in out.world.solr.collections
  {
    var w := World(Store(Some(Resource(true, false, true, [], unstored)), [Some(map[COLLECTION_KEY := name])]),
                   SolrState(map[], map[], {name}));
    SmoothDeletionReleasesIff(c, o, w);
    PublishedCollectionRemovedIff(c, o, w, name);
  }

  /** A deleting pass in which nothing fails releases the Collection unless the policy is
      unknown and there is a name. */
  lemma SmoothDeletionReleasesIff(c: CollectionConfig, o: CollectionOracle, w: CollectionWorld)
    requires Stage(o, w) == Some(false)
    requires o.getClient && o.listCollections && o.dropCollection.Committed() && o.removeFinaliser.Committed()
    ensures Releases(c, o, w) <==> w.store.resource.value.name == [] || c.policy == "delete" || c.policy == "retain"
  {
  }

  /** Under any policy but "delete", no run of passes ever takes a collection away. */
  lemma {:induction false} RetainedForever(c: CollectionConfig, w: CollectionWorld, steps: seq<CollectionStep>)
    requires c.policy != "delete"
    requires forall i :: 0 <= i < |steps| ==> !steps[i].EditSolr?
    ensures Run(c, w, steps).solr.collections == w.solr.collections
    decreases |steps|
  {
    hide PlanPass;
    if steps != [] {
      if steps[0].Pass? {
        forall name
          ensures name in PlanPass(c, steps[0].o, w).world.solr.collections <==> name in w.solr.collections
        {
          PassDropsOnlyNamed(c, steps[0].o, w, name);
        }
      }
      RetainedForever(c, Next(c, w, steps[0]), steps[1..]);
    }
  }

  /** The names the status carries at some moment of a run. */
  function NamesOver(c: CollectionConfig, w: CollectionWorld, steps: seq<CollectionStep>): set<GoString>
    decreases |steps|
  {
    (if w.store.resource.Some? then {w.store.resource.value.name} else {})
    + (if steps == [] then {} else NamesOver(c, Next(c, w, steps[0]), steps[1..]))
  }

  /** Under any policy, whatever a run takes away was at some moment named by the status. */
  lemma {:induction false} OnlyNamedAreDropped(c: CollectionConfig, w: CollectionWorld, steps: seq<CollectionStep>,
                                               name: GoString)
    requires forall i :: 0 <= i < |steps| ==> !steps[i].EditSolr?
    requires name in w.solr.collections && name !in Run(c, w, steps).solr.collections
    ensures c.policy == "delete" && name != [] && name in NamesOver(c, w, steps)
    decreases |steps|
  {
    hide PlanPass;
    if steps != [] {
      var w1 := Next(c, w, steps[0]);
      if name in w1.solr.collections {
        OnlyNamedAreDropped(c, w1, steps[1..], name);
      } else if !MayDrop(c, w, name) {
        PassDropsOnlyNamed(c, steps[0].o, w, name);
      }
    }
  }

  /** Stuck: being deleted, with a name, under a policy that is neither "delete" nor "retain". */
  predicate Stuck(c: CollectionConfig, w: CollectionWorld) {
    && c.policy != "delete" && c.policy != "retain"
    && w.store.resource.Some? && w.store.resource.value.deleting && w.store.resource.value.finalised
    && w.store.resource.value.name != []
  }

  /** An unrecognised policy keeps the finaliser on a named Collection forever, whatever the
      passes and everybody else do. */
  lemma {:induction false} StuckForever(c: CollectionConfig, w: CollectionWorld, steps: seq<CollectionStep>)
    requires Stuck(c, w)
    ensures Stuck(c, Run(c, w, steps))
    decreases |steps|
  {
    hide PlanPass;
    if steps != [] {
      if steps[0].Pass? {
        PassResource(c, steps[0].o, w);
        StuckPass(c, steps[0].o, w);
      }
      StuckForever(c, Next(c, w, steps[0]), steps[1..]);
    }
  }

  lemma StuckPass(c: CollectionConfig, o: CollectionOracle, w: CollectionWorld)
    requires Stuck(c, w)
    ensures PlanPass(c, o, w).world.store.resource == w.store.resource
  {
  }
}
