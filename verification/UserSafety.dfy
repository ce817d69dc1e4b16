/** What no run of the User reconciler does: lose or change an entry of the secret other than
    the derived ones, or add an entry that is not its own; and when, with keys configured alike,
    a stored credential is replaced after all. */
module UserSafety {
  import opened GoValues
  import opened Conditions
  import opened SolrClient
  import opened Cluster
  import opened UserPlan
  import opened UserRuns
  import opened UserDeletion
  import opened UserConvergence

  /** The keys whose entries the reconciler keeps rewriting. */
  predicate IsDerivedKey(c: Config, key: string) {
    key == SecretKey(Endpoint, c.ref) || key == SecretKey(Hostname, c.ref)
  }

  predicate IsOwnKey(c: Config, key: string) {
    IsDerivedKey(c, key) || key == SecretKey(Username, c.ref) || key == SecretKey(Password, c.ref)
  }

  /** Nothing stored before is lost or changed, except the derived entries, and nothing is
      added but the reconciler's own entries. */
  ghost predicate Preserves(c: Config, before: Data, after: Data) {
    && (forall key :: key in before && !IsDerivedKey(c, key) ==> key in after && after[key] == before[key])
    && (forall key :: key in after && key !in before ==> IsOwnKey(c, key))
  }

  lemma FillingPreserves(c: Config, o: UserOracle, data: Data, name: GoString)
    ensures Preserves(c, data, SecretFilled(c, o, data, name).data)
  {
    hide SecretKey, Hex, MintedUsername, PlanCredentials, IsDerivedKey, IsOwnKey;
    MintingPreserves(c, o, data, PlanCredentials(c, Some(Copy(0, data)), name));
    forall d: Draft | Preserves(c, data, d.data)
      ensures Preserves(c, data, PutEndpoint(c, d).data)
      ensures c.url.Some? ==> Preserves(c, data, PutHostname(c, c.url.value, d).data)
    {
      PuttingPreserves(c, data, d);
    }
  }

  lemma MintingPreserves(c: Config, o: UserOracle, data: Data, creds: Creds)
    ensures var d0 := Draft(data, creds, false, []);
            && Preserves(c, data, d0.data)
            && (!FieldIn(c, data, Username) && o.usernameSuffix.Some? ==>
                 Preserves(c, data, MintUsername(c, o.usernameSuffix.value, d0).data))
            && (!FieldIn(c, data, Password) && o.passwordBytes.Some? ==>
                 && Preserves(c, data, MintPassword(c, o.passwordBytes.value, d0).data)
                 && (!FieldIn(c, data, Username) && o.usernameSuffix.Some? ==>
                      Preserves(c, data, MintPassword(c, o.passwordBytes.value,
                                                      MintUsername(c, o.usernameSuffix.value, d0)).data)))
  {
    hide SecretKey, Hex, MintedUsername;
  }

  lemma PuttingPreserves(c: Config, data: Data, d: Draft)
    requires Preserves(c, data, d.data)
    ensures Preserves(c, data, PutEndpoint(c, d).data)
    ensures c.url.Some? ==> Preserves(c, data, PutHostname(c, c.url.value, d).data)
  {
    hide SecretKey;
  }

  lemma PassPreserves(c: Config, o: UserOracle, w: UserWorld)
    requires Latest(w.store.versions).Some?
    ensures var h' := PlanPass(c, o, w).world.store.versions;
            Latest(h').Some? && Preserves(c, Latest(w.store.versions).value, Latest(h').value)
  {
    hide PlanPass, PlanReconcile, PlanGetSecret, SecretFilled, SecretSeen, SecretKey;
    PassStores(c, o, w);
    var stage := Stage(o, w);
    if stage.Some? {
      ReconcileVersions(c, o, w.store.versions, w.solr, w.store.resource.value.name, stage.value);
      var copy := SecretSeen(o, w.store.versions, stage.value);
      if copy.Some? {
        FillingPreserves(c, o, copy.value.data, w.store.resource.value.name);
      }
    }
  }

  /** Over all runs, whatever fails, however stale the reads are, and whatever others do to the
      User or to Solr, no stored entry but a derived one is changed, and none but an own one is
      added; keys that are configured alike make no difference to that. */
  lemma {:induction false} RunPreserves(c: Config, w: UserWorld, steps: seq<UserStep>)
    requires Latest(w.store.versions).Some?
    requires forall i :: 0 <= i < |steps| ==> !steps[i].EditSecret?
    ensures var h' := Run(c, w, steps).store.versions;
            Latest(h').Some? && Preserves(c, Latest(w.store.versions).value, Latest(h').value)
    decreases |steps|
  {
    hide PlanPass, SecretKey;
    if steps != [] {
      if steps[0].Pass? {
        PassPreserves(c, steps[0].o, w);
      }
      RunPreserves(c, Next(c, w, steps[0]), steps[1..]);
    }
  }

  /** Credential stability: a stored username or password is never changed unless its key is
      also the endpoint's or the host name's. */
  lemma StoredCredentialKept(c: Config, w: UserWorld, steps: seq<UserStep>, f: Field)
    requires f in {Username, Password} && Latest(w.store.versions).Some?
    requires forall i :: 0 <= i < |steps| ==> !steps[i].EditSecret?
    ensures var d, h', key := Latest(w.store.versions).value, Run(c, w, steps).store.versions, SecretKey(f, c.ref);
            key in d && !IsDerivedKey(c, key) ==>
              Latest(h').Some? && key in Latest(h').value && Latest(h').value[key] == d[key]
    ensures DistinctKeys(c.ref) ==> !IsDerivedKey(c, SecretKey(f, c.ref))
  {
    hide Run, SecretKey;
    RunPreserves(c, w, steps);
    assert f != Endpoint && f != Hostname;
  }

  /** What a filled-in secret holds under a derived key; the host name is written last. */
  function DerivedValue(c: Config, url: Url, key: string): GoString {
    if key == SecretKey(Hostname, c.ref) then url.hostname else c.endpoint
  }

  lemma FilledDerivedEntry(c: Config, o: UserOracle, data: Data, name: GoString, key: string)
    requires !SecretFilled(c, o, data, name).failed && IsDerivedKey(c, key)
    ensures c.url.Some? && Entry(SecretFilled(c, o, data, name).data, key) == DerivedValue(c, c.url.value, key)
    ensures key in data ==> key in SecretFilled(c, o, data, name).data
  {
    hide SecretKey, Hex, MintedUsername, PlanCredentials;
  }

  /** The exact condition: a pass replaces a stored entry, of a credential or of anything else,
      if and only if it stores a new version and the entry's key is derived, with another value. */
  lemma StoredEntryReplacedIff(c: Config, o: UserOracle, w: UserWorld, key: string)
    requires Latest(w.store.versions).Some? && key in Latest(w.store.versions).value
    ensures var h, h' := w.store.versions, PlanPass(c, o, w).world.store.versions;
            && Latest(h').Some? && key in Latest(h').value
            && (Latest(h').value[key] != Latest(h).value[key]
                <==> h' != h && IsDerivedKey(c, key) && c.url.Some?
                     && DerivedValue(c, c.url.value, key) != Latest(h).value[key])
  {
    hide PlanPass, PlanReconcile, PlanGetSecret, SecretFilled, SecretSeen, SecretKey, IsDerivedKey;
    PassStores(c, o, w);
    var h, stage := w.store.versions, Stage(o, w);
    if stage.Some? {
      var name := w.store.resource.value.name;
      ReconcileVersions(c, o, h, w.solr, name, stage.value);
      var copy := SecretSeen(o, h, stage.value);
      if copy.Some? && !SecretFilled(c, o, copy.value.data, name).failed {
        FillingPreserves(c, o, copy.value.data, name);
        if IsDerivedKey(c, key) {
          FilledDerivedEntry(c, o, copy.value.data, name, key);
        }
      }
    }
  }

  /** When nothing fails, the condition can be read off before the pass. */
  lemma SmoothPassReplacesIff(c: Config, o: UserOracle, w: UserWorld, key: string)
    requires Smooth(o) && Stage(o, w) == Some(true) && c.url.Some?
    requires Parses(c, w.solr, Wanted(c, o, w).username) && Intact(c, Wanted(c, o, w))
    requires Latest(w.store.versions).Some? && key in Latest(w.store.versions).value
    ensures var d, h' := Latest(w.store.versions).value, PlanPass(c, o, w).world.store.versions;
            && Latest(h').Some? && key in Latest(h').value
            && (Latest(h').value[key] != d[key]
                <==> IsDerivedKey(c, key) && DerivedValue(c, c.url.value, key) != d[key])
  {
    hide PlanPass, PlanReconcile, PlanPrepare, SecretFilled, SecretKey, Accepts, HoldsDefaultRoles, Parses,
         IsDerivedKey;
    var h, name := w.store.versions, w.store.resource.value.name;
    SmoothPreparation(c, o, h, name);
    FillingPreserves(c, o, StoredData(h), name);
    if IsDerivedKey(c, key) {
      FilledDerivedEntry(c, o, StoredData(h), name, key);
    }
    SmoothReconcile(c, o, h, w.solr, name);
    PassStores(c, o, w);
  }

  /** A concrete case: with the username and the endpoint under one key, a pass in which nothing
      fails replaces the stored username by the endpoint, having created that user in Solr. */
  lemma SharedKeyReplacesUsername(c: Config, u: GoString, suffix: seq<Byte>, bytes: seq<Byte>, salt: seq<Byte>)
    requires SecretKey(Username, c.ref) == SecretKey(Endpoint, c.ref) != SecretKey(Hostname, c.ref)
    requires SecretKey(Password, c.ref) != SecretKey(Username, c.ref)
    requires c.url.Some? && u != [] && u != c.endpoint
    requires c.settings.wire(u) == u && c.settings.wire(Hex(bytes)) == Hex(bytes)
    ensures var key := SecretKey(Username, c.ref);
            var w := World(Store(Some(Resource(true, false, false, [], u)), [Some(map[key := u])]),
                           SolrState(map[], map[], {}));
            var out := PlanPass(c, SmoothOracle(suffix, bytes, salt), w);
            && !out.failed && out.world.store.resource.Some? && out.world.store.resource.value.name == u
            && Accepts(c.settings, out.world.solr, u, Hex(bytes))
            && Latest(out.world.store.versions).Some?
            && Entry(Latest(out.world.store.versions).value, key) == c.endpoint
  {
    hide PlanPass, PlanReconcile, PlanPrepare, SecretFilled, SecretKey, Hex, Accepts, HoldsDefaultRoles, Parses, SetAll;
    var key := SecretKey(Username, c.ref);
    var w := World(Store(Some(Resource(true, false, false, [], u)), [Some(map[key := u])]),
                   SolrState(map[], map[], {}));
    var o, h := SmoothOracle(suffix, bytes, salt), w.store.versions;
    SmoothPreparation(c, o, h, u);
    FilledCredentials(c, o, map[key := u], u);
    FilledDerivedEntry(c, o, map[key := u], u, key);
    assert Parses(c, w.solr, u) by { AbsentUserParses(c, w.solr, u); }
    SmoothReconcile(c, o, h, w.solr, u);
    PassStores(c, o, w);
    WrittenStatus(c, o, w);
  }
}
