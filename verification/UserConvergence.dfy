/** Bringing a User up: one pass in which nothing fails settles it from any state, and a
    settled User stays settled, without a single write, whatever fails later. */
module UserConvergence {
  import opened GoValues
  import opened Conditions
  import opened Credentials
  import opened SolrClient
  import opened Cluster
  import opened UserPlan
  import opened UserRuns
  import opened UserDeletion

  /** The secret has its four entries, the status carries its username, and Solr accepts
      exactly that user with that password and has given it the default roles. */
  predicate Settled(c: Config, w: UserWorld) {
    && w.store.resource.Some? && Latest(w.store.versions).Some? && c.url.Some?
    && var r, d := w.store.resource.value, Latest(w.store.versions).value;
    && r.finalised && !r.deleting
    && SecretComplete(c, d)
    && d[SecretKey(Username, c.ref)] in {[], r.name}
    && Accepts(c.settings, w.solr, r.name, d[SecretKey(Password, c.ref)])
    && HoldsDefaultRoles(w.solr, r.name)
  }

  predicate SecretComplete(c: Config, d: Data) {
    && c.url.Some?
    && FieldIn(c, d, Username) && FieldIn(c, d, Password)
    && Entry(d, SecretKey(Endpoint, c.ref)) == c.endpoint
    && Entry(d, SecretKey(Hostname, c.ref)) == c.url.value.hostname
  }

  /** The username and password a pass works with, as resolved from the secret and the status. */
  function Wanted(c: Config, o: UserOracle, w: UserWorld): Creds
    requires w.store.resource.Some?
  {
    PlanPrepare(c, o, w.store.versions, w.store.resource.value.name, true).creds
  }

  lemma KeysDiffer(c: Config)
    requires DistinctKeys(c.ref)
    ensures var u, p, e := SecretKey(Username, c.ref), SecretKey(Password, c.ref), SecretKey(Endpoint, c.ref);
            u != p && u != e && p != e && SecretKey(Hostname, c.ref) !in {u, p, e}
  {
    hide SecretKey;
  }

  lemma FilledEntries(c: Config, o: UserOracle, data: Data, name: GoString)
    requires DistinctKeys(c.ref) && !SecretFilled(c, o, data, name).failed
    ensures var d := SecretFilled(c, o, data, name).data;
            && SecretComplete(c, d)
            && (FieldIn(c, data, Username) ==> d[SecretKey(Username, c.ref)] == data[SecretKey(Username, c.ref)])
            && (FieldIn(c, data, Password) ==> d[SecretKey(Password, c.ref)] == data[SecretKey(Password, c.ref)])
            && (FieldIn(c, data, Username) || o.usernameSuffix.Some?)
            && (FieldIn(c, data, Password) || o.passwordBytes.Some?)
            && (!FieldIn(c, data, Username) ==>
                  d[SecretKey(Username, c.ref)] == MintedUsername(c, o.usernameSuffix.value))
            && (!FieldIn(c, data, Password) ==> d[SecretKey(Password, c.ref)] == Hex(o.passwordBytes.value))
  {
    hide SecretKey, Hex, MintedUsername, PlanCredentials;
    FillingFailsIff(c, o, data, name);
    KeysDiffer(c);
  }

  /** The resolved credentials are those of the filled-in secret; only an empty username that
      was already there is replaced by the status' name. */
  lemma FilledCredentials(c: Config, o: UserOracle, data: Data, name: GoString)
    requires !SecretFilled(c, o, data, name).failed
    ensures var s := SecretFilled(c, o, data, name);
            && s.creds.username == (if !FieldIn(c, data, Username) then MintedUsername(c, o.usernameSuffix.value)
                                    else if data[SecretKey(Username, c.ref)] != [] then data[SecretKey(Username, c.ref)]
                                    else name)
            && s.creds.password == (if FieldIn(c, data, Password) then data[SecretKey(Password, c.ref)]
                                    else Hex(o.passwordBytes.value))
  {
    hide SecretKey, Hex, MintedUsername;
  }

  /** The secret is rewritten exactly when filling it in changed it. */
  lemma DirtyIffChanged(c: Config, o: UserOracle, data: Data, name: GoString)
    requires DistinctKeys(c.ref) && !SecretFilled(c, o, data, name).failed
    ensures var s := SecretFilled(c, o, data, name); s.dirty <==> s.data != data
  {
    hide SecretKey, Hex, MintedUsername, PlanCredentials;
    FilledEntries(c, o, data, name);
    var s := SecretFilled(c, o, data, name);
    if s.data == data {
      assert SecretComplete(c, data);
    }
    CompleteStaysClean(c, o, data, name);
  }

  lemma CompleteStaysClean(c: Config, o: UserOracle, data: Data, name: GoString)
    requires c.url.Some?
    ensures SecretComplete(c, data) ==>
              var s := SecretFilled(c, o, data, name); !s.failed && !s.dirty && s.data == data
    ensures var s := SecretFilled(c, o, data, name); !s.dirty && !s.failed ==> s.data == data
  {
    hide SecretKey, Hex, MintedUsername, PlanCredentials;
  }

  // ---------------------------------------------------------------- one smooth pass

  function StoredData(h: History): Data {
    if Latest(h).Some? then Latest(h).value else map[]
  }

  /** What a pass makes of a secret that it reads as it is. */
  lemma SmoothPreparation(c: Config, o: UserOracle, h: History, name: GoString)
    requires SmoothCalls(o) && o.readSecret == CURRENT && c.url.Some?
    ensures var p, s := PlanPrepare(c, o, h, name, true), SecretFilled(c, o, StoredData(h), name);
            && !p.failed && !s.failed && p.copy.Some?
            && p.copy.value == Copy(|p.versions| - 1, s.data)
            && p.creds == s.creds && p.dirty == s.dirty
            && Latest(p.versions) == Some(StoredData(h))
  {
    hide FieldMarks, PlanSecret, CredentialsIn, SecretKey;
    FillingFailsIff(c, o, StoredData(h), name);
  }

  /** A look at Solr that does not fail sees what is there. */
  lemma ObservationIsTrue(c: Config, o: UserOracle, s: SolrState, creds: Creds)
    ensures var ob := PlanObserve(c, o, s, creds);
            !ob.failed ==>
              && ob.hasRoles == HoldsDefaultRoles(s, creds.username)
              && (ob.present && ob.current <==> Accepts(c.settings, s, creds.username, creds.password))
              && (ob.present <==> creds.username in s.credentials)
  {
    hide HoldsDefaultRoles;
  }

  lemma SmoothObservation(c: Config, o: UserOracle, s: SolrState, creds: Creds)
    requires SmoothCalls(o)
    ensures PlanObserve(c, o, s, creds).failed <==> !Parses(c, s, creds.username)
  {
    hide HoldsDefaultRoles;
    ParsesForAnyPassword(c, s, creds.username, creds.password);
  }

  /** When the observation and the Solr writes report success and their answers can be trusted,
      Solr accepts the wanted user and gives it the default roles. */
  lemma SolrWritesWork(c: Config, o: UserOracle, s: SolrState, creds: Creds)
    requires o.setUser.Honest() && o.setRoles.Honest()
    requires Intact(c, creds)
    ensures var ob := PlanObserve(c, o, s, creds);
            var u := PlanSetUser(c, o, s, ob, creds);
            var r := PlanSetRoles(c, o, u.solr, ob, creds);
            !ob.failed && !u.failed && !r.failed ==>
              && Accepts(c.settings, r.solr, creds.username, creds.password)
              && HoldsDefaultRoles(r.solr, creds.username)
  {
    hide HoldsDefaultRoles, PlanObserve, Accepts;
    var ob := PlanObserve(c, o, s, creds);
    var u := PlanSetUser(c, o, s, ob, creds);
    if !ob.failed && !u.failed {
      ObservationIsTrue(c, o, s, creds);
      StoredUserIsAccepted(c.settings, s, creds.username, creds.password, o.salt);
      SameRoles(s, u.solr, creds.username);
      UpsertIsUnion(c.settings, u.solr, creds.username);
      SameCredentials(c, u.solr, WithDefaultRoles(c.settings, u.solr, creds.username), creds);
    }
  }

  lemma SmoothSolrWrites(c: Config, o: UserOracle, s: SolrState, creds: Creds)
    requires SmoothCalls(o) && Parses(c, s, creds.username)
    requires Intact(c, creds)
    ensures var ob := PlanObserve(c, o, s, creds);
            var u := PlanSetUser(c, o, s, ob, creds);
            var r := PlanSetRoles(c, o, u.solr, ob, creds);
            && !ob.failed && !u.failed && !r.failed
            && Accepts(c.settings, r.solr, creds.username, creds.password)
            && HoldsDefaultRoles(r.solr, creds.username)
  {
    hide HoldsDefaultRoles, PlanObserve, Parses, Accepts;
    SmoothObservation(c, o, s, creds);
    SolrWritesWork(c, o, s, creds);
  }

  /** The secret is written last: whatever fails, a pass that sends an update of the secret has
      already made Solr accept the username it publishes with the password it stores. */
  lemma SecretIsWrittenLast(c: Config, o: UserOracle, w: UserWorld, copy: Copy)
    requires w.store.resource.Some?
    requires o.setUser.Honest() && o.setRoles.Honest()
    ensures var n, solr := Wanted(c, o, w), PlanPass(c, o, w).world.solr;
            UpdateDocument(copy) in PlanPass(c, o, w).apiCalls && Intact(c, n) ==>
              && Accepts(c.settings, solr, n.username, n.password) && HoldsDefaultRoles(solr, n.username)
    ensures UpdateDocument(copy) in PlanPass(c, o, w).apiCalls && DistinctKeys(c.ref) ==>
              && SecretComplete(c, copy.data)
              && copy.data[SecretKey(Password, c.ref)] == Wanted(c, o, w).password
              && copy.data[SecretKey(Username, c.ref)] in {[], Wanted(c, o, w).username}
  {
    hide PlanReconcile, PlanPrepare, SecretComplete, Accepts, HoldsDefaultRoles, SetAll, SecretKey, DistinctKeys;
    if UpdateDocument(copy) in PlanPass(c, o, w).apiCalls {
      var h, name := w.store.versions, w.store.resource.value.name;
      var n := Wanted(c, o, w);
      OnlyEnsuringUpdates(c, o, h, w.solr, name, false, copy);
      OnlyEnsuringUpdates(c, o, h, w.solr, name, true, copy);
      if Intact(c, n) {
        SolrWritesWork(c, o, w.solr, n);
      }
      UpdatedSecret(c, o, h, name);
    }
  }

  /** A reconcile sends an update of the secret only at the end of ensuring existence. */
  lemma OnlyEnsuringUpdates(c: Config, o: UserOracle, h: History, s: SolrState, name: GoString, ensure: bool,
                            copy: Copy)
    ensures var r, p := PlanReconcile(c, o, h, s, name, ensure), PlanPrepare(c, o, h, name, ensure);
            var ob := PlanObserve(c, o, s, p.creds);
            var u := PlanSetUser(c, o, s, ob, p.creds);
            var t := PlanSetRoles(c, o, u.solr, ob, p.creds);
            UpdateDocument(copy) in r.apiCalls ==>
              ensure && !r.failed && !p.failed && !ob.failed && !u.failed && !t.failed
              && r.solr == t.solr && p.copy == Some(copy)
  {
    hide PlanObserve, PlanSetUser, PlanSetRoles, PlanSecret, PlanCredentials, FieldMarks, PlanRemove;
  }

  /** What a prepared secret holds, and the credentials resolved with it. */
  lemma UpdatedSecret(c: Config, o: UserOracle, h: History, name: GoString)
    requires !PlanPrepare(c, o, h, name, true).failed
    ensures var p := PlanPrepare(c, o, h, name, true);
            && p.copy.Some?
            && (DistinctKeys(c.ref) ==>
                  && SecretComplete(c, p.copy.value.data)
                  && p.copy.value.data[SecretKey(Password, c.ref)] == p.creds.password
                  && p.copy.value.data[SecretKey(Username, c.ref)] in {[], p.creds.username})
  {
    hide FieldMarks, PlanSecret, CredentialsIn, SecretKey, DistinctKeys;
    var data := PlanGetSecret(o, h, true).copy.value.data;
    FilledCredentials(c, o, data, name);
    if DistinctKeys(c.ref) {
      FilledEntries(c, o, data, name);
    }
  }

  lemma SameRoles(s: SolrState, t: SolrState, name: GoString)
    ensures s.roles == t.roles ==> HoldsDefaultRoles(s, name) == HoldsDefaultRoles(t, name)
  {
  }

  lemma SameCredentials(c: Config, s: SolrState, t: SolrState, creds: Creds)
    ensures s.credentials == t.credentials ==>
              Accepts(c.settings, s, creds.username, creds.password)
              == Accepts(c.settings, t, creds.username, creds.password)
  {
  }

  /** What a smooth reconcile leaves behind. */
  lemma SmoothReconcile(c: Config, o: UserOracle, h: History, s: SolrState, name: GoString)
    requires SmoothCalls(o) && o.readSecret == CURRENT && c.url.Some?
    requires var n := PlanPrepare(c, o, h, name, true).creds;
             Parses(c, s, n.username) && Intact(c, n)
    ensures var r, n := PlanReconcile(c, o, h, s, name, true), PlanPrepare(c, o, h, name, true).creds;
            && !r.failed && r.name == n.username
            && (o.updateSecret.Committed() ==> Latest(r.versions) == Some(SecretFilled(c, o, StoredData(h), name).data))
            && Accepts(c.settings, r.solr, n.username, n.password)
            && HoldsDefaultRoles(r.solr, n.username)
  {
    hide PlanPrepare, PlanObserve, PlanSetUser, PlanSetRoles, SecretFilled, HoldsDefaultRoles, Accepts, Parses,
         StoredData, DistinctKeys;
    SmoothPreparation(c, o, h, name);
    SmoothSolrWrites(c, o, s, PlanPrepare(c, o, h, name, true).creds);
    CompleteStaysClean(c, o, StoredData(h), name);
  }

  /** The final conditions and name of a pass that ensures existence and whose status is written. */
  lemma WrittenStatus(c: Config, o: UserOracle, w: UserWorld)
    requires Stage(o, w) == Some(true) && o.writeStatus.Committed()
    ensures var out := PlanPass(c, o, w);
            var p := PlanReconcile(c, o, w.store.versions, w.solr, w.store.resource.value.name, true);
            && out.failed == p.failed
            && out.world.store.resource.Some?
            && out.world.store.resource.value.name == p.name
            && IsTrue(out.world.store.resource.value.conditions, UserAvailable) == !p.failed
  {
    hide PlanReconcile, Find, Set;
    var p := PlanReconcile(c, o, w.store.versions, w.solr, w.store.resource.value.name, true);
    forall cs: seq<Mark>, marks: seq<Mark>, m: Mark
      ensures SetAll(cs, marks + [m]) == Set(SetAll(cs, marks), m)
    {
      SetAllAppend(cs, marks, m);
    }
  }

  /** The status and the secret name the same user. */
  predicate PublishesSecretName(c: Config, w: UserWorld) {
    && w.store.resource.Some? && Latest(w.store.versions).Some?
    && var d := Latest(w.store.versions).value;
    && FieldIn(c, d, Username) && d[SecretKey(Username, c.ref)] == w.store.resource.value.name
  }

  /** One-pass convergence: from any stored conditions, any secret and any Solr state in which
      the wanted user's entry is readable, a pass in which nothing fails settles the User and
      reports it available. The published name is the one in the secret exactly when the secret
      did not come with an empty username while the status has another. */
  lemma OnePassConverges(c: Config, o: UserOracle, w: UserWorld)
    requires DistinctKeys(c.ref) && Smooth(o) && c.url.Some?
    requires w.store.resource.Some? && !w.store.resource.value.deleting
    requires Parses(c, w.solr, Wanted(c, o, w).username) && Intact(c, Wanted(c, o, w))
    ensures var out := PlanPass(c, o, w);
            && !out.failed && Settled(c, out.world)
            && IsTrue(out.world.store.resource.value.conditions, UserAvailable)
    ensures var d, key := StoredData(w.store.versions), SecretKey(Username, c.ref);
            PublishesSecretName(c, PlanPass(c, o, w).world)
            <==> (key !in d || d[key] != [] || w.store.resource.value.name == [])
  {
    hide PlanPass, PlanReconcile, PlanPrepare, SecretFilled, SecretKey, Accepts, HoldsDefaultRoles, Parses, SetAll,
         DistinctKeys;
    var h, name := w.store.versions, w.store.resource.value.name;
    SmoothPreparation(c, o, h, name);
    FilledEntries(c, o, StoredData(h), name);
    FilledCredentials(c, o, StoredData(h), name);
    SmoothReconcile(c, o, h, w.solr, name);
    PassStores(c, o, w);
    PassResource(c, o, w);
    WrittenStatus(c, o, w);
  }

  /** A concrete case of the exception: the secret came with an empty username, and keeps it. */
  lemma EmptyUsernameStays(c: Config, name: GoString, suffix: seq<Byte>, bytes: seq<Byte>, salt: seq<Byte>)
    requires DistinctKeys(c.ref) && c.url.Some? && name != []
    requires c.settings.wire(name) == name && c.settings.wire(Hex(bytes)) == Hex(bytes)
    ensures var w := World(Store(Some(Resource(true, false, false, [], name)),
                                 [Some(map[SecretKey(Username, c.ref) := []])]),
                           SolrState(map[], map[], {}));
            var w' := PlanPass(c, SmoothOracle(suffix, bytes, salt), w).world;
            Settled(c, w') && w'.store.resource.value.name == name && !PublishesSecretName(c, w')
  {
    hide PlanPass, PlanPrepare, PlanReconcile, SecretFilled, SecretKey, MintedUsername, Hex, Parses, Accepts,
         HoldsDefaultRoles, SecretComplete;
    assert SecretKey(Username, c.ref) != SecretKey(Password, c.ref);
    var data := map[SecretKey(Username, c.ref) := []];
    var w := World(Store(Some(Resource(true, false, false, [], name)), [Some(data)]), SolrState(map[], map[], {}));
    var o := SmoothOracle(suffix, bytes, salt);
    SmoothPreparation(c, o, w.store.versions, name);
    FilledCredentials(c, o, data, name);
    AbsentUserParses(c, w.solr, name);
    SmoothReconcile(c, o, w.store.versions, w.solr, name);
    WrittenStatus(c, o, w);
    OnePassConverges(c, o, w);
  }

  /** When nothing fails on the way, a pass that ensures existence fails exactly when the
      endpoint does not parse or Solr's entry for the wanted user cannot be read. */
  lemma SmoothPassFailsIff(c: Config, o: UserOracle, w: UserWorld)
    requires Smooth(o) && Stage(o, w) == Some(true)
    ensures PlanPass(c, o, w).failed <==> c.url.None? || !Parses(c, w.solr, Wanted(c, o, w).username)
  {
    hide PlanPass, PlanPrepare, PlanObserve, Parses;
    WrittenStatus(c, o, w);
    var h, name := w.store.versions, w.store.resource.value.name;
    SmoothObservation(c, o, w.solr, PlanPrepare(c, o, h, name, true).creds);
    if c.url.Some? {
      SmoothPreparation(c, o, h, name);
    } else {
      UnreadableEndpointFails(c, o, h, name);
    }
  }

  lemma UnreadableEndpointFails(c: Config, o: UserOracle, h: History, name: GoString)
    requires c.url.None?
    ensures PlanPrepare(c, o, h, name, true).failed
  {
    hide FieldMarks, SecretKey, MintedUsername, Hex, MintUsername, MintPassword, PutEndpoint;
  }

  /** Whether Solr will accept `candidate` for the user that a pass has seen to: by its present
      entry if that accepts the wanted password, else by the entry written for it. */
  predicate AnswersFor(c: Config, o: UserOracle, s: SolrState, n: Creds, candidate: GoString) {
    if Accepts(c.settings, s, n.username, n.password) then Accepts(c.settings, s, n.username, candidate)
    else Twice(c.settings.digest, o.salt + n.password) == Twice(c.settings.digest, o.salt + candidate)
  }

  lemma WrittenUserAnswers(c: Config, o: UserOracle, s: SolrState, n: Creds, candidate: GoString)
    requires o.setUser.Honest() && Intact(c, n)
    ensures var ob := PlanObserve(c, o, s, n);
            var u := PlanSetUser(c, o, s, ob, n);
            var r := PlanSetRoles(c, o, u.solr, ob, n);
            !ob.failed && !u.failed ==>
              (Accepts(c.settings, r.solr, n.username, candidate) <==> AnswersFor(c, o, s, n, candidate))
  {
    hide PlanObserve, HoldsDefaultRoles, RolesOf;
    ObservationIsTrue(c, o, s, n);
    PrintedChecks(c.settings.digest, o.salt, n.password, candidate);
  }

  /** The pass has the latest version of the secret in hand, read or created. */
  predicate HasLatest(o: UserOracle, h: History) {
    var g := PlanGetSecret(o, h, true);
    g.copy.Some? && g.copy.value.version == |g.versions| - 1
  }

  /** A readiness report can be wrong: a failed update of the secret is only logged. When a pass
      reports success, the User is available by its status. It is settled if and only if the pass
      stored the secret it filled in, or the stored one is complete and its credentials answer for
      those the pass worked with; they do if the secret was read as it is. */
  lemma AvailableIsSettledIff(c: Config, o: UserOracle, w: UserWorld)
    requires DistinctKeys(c.ref) && Stage(o, w) == Some(true) && !w.store.resource.value.deleting
    requires o.writeStatus.Committed() && o.setUser.Honest() && o.setRoles.Honest()
    ensures var out, d, n := PlanPass(c, o, w), StoredData(w.store.versions), Wanted(c, o, w);
            !out.failed && Intact(c, n) ==>
              && out.world.store.resource.Some?
              && IsTrue(out.world.store.resource.value.conditions, UserAvailable)
              && (Settled(c, out.world)
                  <==> (HasLatest(o, w.store.versions) && o.updateSecret.reached)
                       || (SecretComplete(c, d) && d[SecretKey(Username, c.ref)] in {[], n.username}
                           && AnswersFor(c, o, w.solr, n, d[SecretKey(Password, c.ref)])))
              && (o.readSecret == CURRENT ==>
                    (Settled(c, out.world) <==> SecretComplete(c, d) || o.updateSecret.reached))
  {
    hide PlanPass, PlanPrepare, PlanObserve, PlanSetUser, PlanSetRoles, SecretFilled, SecretComplete, SecretKey,
         Accepts, HoldsDefaultRoles, SetAll, DistinctKeys, AnswersFor;
    var h, name, n := w.store.versions, w.store.resource.value.name, Wanted(c, o, w);
    var d := StoredData(h);
    PassStores(c, o, w);
    PassResource(c, o, w);
    WrittenStatus(c, o, w);
    if !PlanPass(c, o, w).failed && Intact(c, n) {
      SolrWritesWork(c, o, w.solr, n);
      UpdatedSecret(c, o, h, name);
      PreparedCopy(c, o, h, name);
      CompleteHasCredentials(c, d);
      if SecretComplete(c, d) {
        WrittenUserAnswers(c, o, w.solr, n, d[SecretKey(Password, c.ref)]);
      }
    }
  }

  /** The copy in hand when a pass prepares the secret; an unchanged latest one is the stored one. */
  lemma PreparedCopy(c: Config, o: UserOracle, h: History, name: GoString)
    requires !PlanPrepare(c, o, h, name, true).failed
    ensures var p := PlanPrepare(c, o, h, name, true);
            && p.copy.Some? && c.url.Some?
            && (HasLatest(o, h) <==> p.copy.value.version == |p.versions| - 1)
            && (Latest(p.versions).Some? ==> Latest(p.versions).value == StoredData(h))
            && (Latest(p.versions).None? ==> StoredData(h) == map[])
            && (HasLatest(o, h) ==> Latest(p.versions).Some?)
            && (HasLatest(o, h) && !p.dirty ==> p.copy.value.data == StoredData(h))
            && (HasLatest(o, h) && SecretComplete(c, StoredData(h)) ==> !p.dirty)
            && (o.readSecret == CURRENT ==> HasLatest(o, h))
  {
    hide FieldMarks, PlanSecret, CredentialsIn, SecretKey, SecretComplete;
    var data := SecretSeen(o, h, true).value.data;
    FillingFailsIff(c, o, data, name);
    CompleteStaysClean(c, o, data, name);
  }

  /** A concrete case: the first pass creates the secret but its update is lost. It reports no
      error and the User available; the credentials that Solr got are stored nowhere. */
  lemma UnstoredSecretIsAvailable(c: Config, suffix: seq<Byte>, bytes: seq<Byte>, salt: seq<Byte>)
    requires DistinctKeys(c.ref) && c.url.Some?
    requires c.settings.wire(MintedUsername(c, suffix)) == MintedUsername(c, suffix)
    requires c.settings.wire(Hex(bytes)) == Hex(bytes)
    ensures var w := World(Store(Some(Resource(true, false, false, [], [])), [None]), SolrState(map[], map[], {}));
            var out := PlanPass(c, SmoothOracle(suffix, bytes, salt).(updateSecret := Reply(false, false)), w);
            && !out.failed && out.world.store.resource.Some?
            && IsTrue(out.world.store.resource.value.conditions, UserAvailable) && !Settled(c, out.world)
  {
    hide PlanPass, PlanPrepare, PlanReconcile, PlanObserve, SecretFilled, SecretKey, MintedUsername, Hex, Parses,
         DistinctKeys, Accepts, HoldsDefaultRoles, AnswersFor, Settled;
    var w := World(Store(Some(Resource(true, false, false, [], [])), [None]), SolrState(map[], map[], {}));
    var o := SmoothOracle(suffix, bytes, salt).(updateSecret := Reply(false, false));
    FillingFailsIff(c, o, map[], []);
    FilledCredentials(c, o, map[], []);
    SmoothPreparation(c, o, w.store.versions, []);
    AbsentUserParses(c, w.solr, MintedUsername(c, suffix));
    SmoothReconcile(c, o, w.store.versions, w.solr, []);
    WrittenStatus(c, o, w);
    AvailableIsSettledIff(c, o, w);
  }

  // ---------------------------------------------------------------- the fixed point

  /** A settled User's secret is neither created nor, by an outdated copy, updated; reads that
      see it as it is find it complete. */
  lemma SettledPreparation(c: Config, o: UserOracle, w: UserWorld)
    requires w.store.resource.Some?
    ensures var h, r := w.store.versions, w.store.resource.value;
            var p := PlanPrepare(c, o, h, r.name, true);
            Settled(c, w) ==>
              && p.versions == h
              && (!p.failed && p.dirty ==> p.copy.Some? && p.copy.value.version != |h| - 1)
              && (o.readSecret == CURRENT ==>
                    && !p.failed && !p.dirty && p.calls == [GetDocument]
                    && p.creds.username == r.name && p.creds.password == Latest(h).value[SecretKey(Password, c.ref)])
              && (o.readSecret == Unavailable ==> p.failed)
  {
    hide FieldMarks, SecretKey, PlanSecret, Accepts, HoldsDefaultRoles, SecretComplete;
    if Settled(c, w) {
      var h, r := w.store.versions, w.store.resource.value;
      var d := Latest(h).value;
      CompleteStaysClean(c, o, d, r.name);
      if !SecretFilled(c, o, d, r.name).failed {
        FilledCredentials(c, o, d, r.name);
      }
      CompleteHasCredentials(c, d);
    }
  }

  lemma CompleteHasCredentials(c: Config, d: Data)
    ensures SecretComplete(c, d) ==> FieldIn(c, d, Username) && FieldIn(c, d, Password)
  {
  }

  predicate NoSolrWrites(calls: seq<SolrCall>) {
    forall i :: 0 <= i < |calls| ==> !calls[i].IsWrite()
  }

  /** Looking at a settled user finds nothing to do, if the look succeeds. */
  lemma SettledObservation(c: Config, o: UserOracle, s: SolrState, creds: Creds)
    ensures var ob := PlanObserve(c, o, s, creds);
            Accepts(c.settings, s, creds.username, creds.password) && HoldsDefaultRoles(s, creds.username) ==>
              && NoSolrWrites(ob.calls)
              && (!ob.failed ==> ob.present && ob.current && ob.hasRoles)
              && (o.readExistence && o.readCredential && o.readRoles ==>
                    !ob.failed && ob.calls == [GetCredentials, GetCredentials, GetRoles])
  {
    hide HoldsDefaultRoles;
  }

  /** What the pass sees of the secret leads it to the settled user and a password that Solr
      accepts, or to a dead end: nothing can be filled in, or Solr's entry cannot be read. */
  predicate LooksSettled(c: Config, o: UserOracle, w: UserWorld)
    requires w.store.resource.Some?
  {
    var r := w.store.resource.value;
    var p := PlanPrepare(c, o, w.store.versions, r.name, true);
    || p.failed || !Parses(c, w.solr, p.creds.username)
    || (p.creds.username == r.name && Accepts(c.settings, w.solr, r.name, p.creds.password))
  }

  /** Exactly which seen versions look settled: none at all; one that cannot be filled in for want
      of random bytes; and one whose user Solr cannot be asked about, or is the settled one with a
      password that Solr accepts. What the version lacks is minted, and an empty username is taken
      from the status. */
  lemma SeenVersionLooksSettled(c: Config, o: UserOracle, w: UserWorld)
    requires w.store.resource.Some?
    ensures var r, seen := w.store.resource.value, ReadVersion(w.store.versions, o.readSecret);
            Settled(c, w) ==>
              if seen.Error? || seen.value.None? then LooksSettled(c, o, w)
              else
                var d, user, pass := seen.value.value.data, SecretKey(Username, c.ref), SecretKey(Password, c.ref);
                LooksSettled(c, o, w)
                <==> (user !in d && o.usernameSuffix.None?) || (pass !in d && o.passwordBytes.None?)
                     || var n := if user !in d then MintedUsername(c, o.usernameSuffix.value)
                                 else if d[user] == [] then r.name else d[user];
                        var p := if pass !in d then Hex(o.passwordBytes.value) else d[pass];
                        !Parses(c, w.solr, n) || (n == r.name && Accepts(c.settings, w.solr, n, p))
  {
    hide FieldMarks, SecretKey, PlanSecret, MintedUsername, Hex, HoldsDefaultRoles, SecretComplete, Parses, Accepts;
    var r, seen := w.store.resource.value, ReadVersion(w.store.versions, o.readSecret);
    if Settled(c, w) && seen.Ok? && seen.value.Some? {
      var d := seen.value.value.data;
      FillingFailsIff(c, o, d, r.name);
      if !SecretFilled(c, o, d, r.name).failed {
        FilledCredentials(c, o, d, r.name);
      }
    }
  }

  lemma FreshReadLooksSettled(c: Config, o: UserOracle, w: UserWorld)
    requires Settled(c, w) && o.readSecret.Fresh()
    ensures LooksSettled(c, o, w)
  {
    hide PlanPrepare, Accepts, HoldsDefaultRoles, SecretComplete, SecretKey, Parses;
    SettledPreparation(c, o, w);
  }

  /** Fixed point: from a settled state a pass to which it looks settled changes neither Solr nor
      the secret, and sends Solr no write, whatever fails in it. */
  lemma SettledStays(c: Config, o: UserOracle, w: UserWorld)
    ensures var out := PlanPass(c, o, w);
            Settled(c, w) && LooksSettled(c, o, w) ==>
              && NoSolrWrites(out.solrCalls)
              && out.world.solr == w.solr && out.world.store.versions == w.store.versions
              && Settled(c, out.world)
              && out.world.store.resource.value.name == w.store.resource.value.name
  {
    hide PlanPass, PlanPrepare, PlanObserve, SecretComplete, Accepts, HoldsDefaultRoles, SetAll, SecretKey, Parses;
    if Settled(c, w) && LooksSettled(c, o, w) {
      PassStores(c, o, w);
      PassResource(c, o, w);
      SettledPreparation(c, o, w);
      var p := PlanPrepare(c, o, w.store.versions, w.store.resource.value.name, true);
      if !p.failed {
        UnreadableObservation(c, o, w.solr, p.creds);
        SettledObservation(c, o, w.solr, p.creds);
      }
      SettledKeepsName(c, o, w);
    }
  }

  lemma UnreadableObservation(c: Config, o: UserOracle, s: SolrState, creds: Creds)
    ensures var ob := PlanObserve(c, o, s, creds);
            NoSolrWrites(ob.calls) && (!Parses(c, s, creds.username) ==> ob.failed)
  {
    hide HoldsDefaultRoles;
    ParsesForAnyPassword(c, s, creds.username, creds.password);
  }

  /** The converse, when nothing but the read of the secret goes wrong: a stale read to which the
      User does not look settled makes the pass write to Solr or publish another name. */
  lemma StaleReadDisturbsIff(c: Config, o: UserOracle, w: UserWorld)
    requires Settled(c, w) && SmoothButRead(o)
    ensures var out := PlanPass(c, o, w);
            NoSolrWrites(out.solrCalls) && out.world.store.resource.Some?
            && out.world.store.resource.value.name == w.store.resource.value.name
            <==> LooksSettled(c, o, w)
  {
    hide PlanPass, PlanPrepare, PlanObserve, SecretComplete, Accepts, HoldsDefaultRoles, SetAll, SecretKey, Parses;
    SettledStays(c, o, w);
    PassStores(c, o, w);
    WrittenStatus(c, o, w);
    var p := PlanPrepare(c, o, w.store.versions, w.store.resource.value.name, true);
    if !LooksSettled(c, o, w) {
      SmoothObservation(c, o, w.solr, p.creds);
      ObservationIsTrue(c, o, w.solr, p.creds);
      var ob := PlanObserve(c, o, w.solr, p.creds);
      if !Accepts(c.settings, w.solr, p.creds.username, p.creds.password) {
        var sent := SetUser(p.creds.username, p.creds.password);
        assert sent in PlanReconcile(c, o, w.store.versions, w.solr, w.store.resource.value.name, true).solrCalls;
        assert sent.IsWrite();
      }
    }
  }

  /** Whether such a pass leaves the User settled after all: only if the stored username is the
      one the pass worked on, or empty, and the password that Solr ends up with for it answers
      for the stored one. */
  lemma StaleReadKeepsSettledIff(c: Config, o: UserOracle, w: UserWorld)
    requires Settled(c, w) && SmoothButRead(o)
    requires Intact(c, Wanted(c, o, w))
    ensures var n, d := Wanted(c, o, w), Latest(w.store.versions).value;
            var password := d[SecretKey(Password, c.ref)];
            Settled(c, PlanPass(c, o, w).world)
            <==> LooksSettled(c, o, w)
                 || (d[SecretKey(Username, c.ref)] in {[], n.username}
                     && AnswersFor(c, o, w.solr, n, password))
  {
    hide PlanPass, PlanPrepare, PlanObserve, SecretComplete, Accepts, HoldsDefaultRoles, SetAll, SecretKey, Parses;
    SettledStays(c, o, w);
    if !LooksSettled(c, o, w) {
      var h, name, n := w.store.versions, w.store.resource.value.name, Wanted(c, o, w);
      PassStores(c, o, w);
      PassResource(c, o, w);
      WrittenStatus(c, o, w);
      SettledPreparation(c, o, w);
      SmoothObservation(c, o, w.solr, n);
      SmoothSolrWrites(c, o, w.solr, n);
      CompleteHasCredentials(c, Latest(h).value);
      WrittenUserAnswers(c, o, w.solr, n, Latest(h).value[SecretKey(Password, c.ref)]);
    }
  }

  /** When a settled User's secret is seen as it was created, still empty, a pass that reports no
      error unsettles it: Solr has a second user then, and the status names that one. */
  lemma EmptyReadMintsSecondUser(c: Config, o: UserOracle, w: UserWorld)
    requires Settled(c, w) && SmoothButRead(o) && StoresName(c, w.store.versions, w.store.resource.value.name)
    requires var seen := ReadVersion(w.store.versions, o.readSecret);
             seen.Ok? && seen.value.Some? && seen.value.value.data == map[]
    requires var n := MintedUsername(c, o.usernameSuffix.value); c.settings.wire(n) == n && n !in w.solr.credentials
    requires var p := Hex(o.passwordBytes.value); c.settings.wire(p) == p
    ensures var out, u, n := PlanPass(c, o, w), w.store.resource.value.name, MintedUsername(c, o.usernameSuffix.value);
            && !out.failed && !Settled(c, out.world) && {u, n} <= out.world.solr.credentials.Keys
            && out.world.store.resource.Some? && out.world.store.resource.value.name == n != u
  {
    hide PlanPass, PlanPrepare, PlanObserve, PlanSetUser, PlanSetRoles, SecretFilled, SecretKey, MintedUsername, Hex,
         Parses, SecretComplete, HoldsDefaultRoles, AnswersFor;
    var h, name, n := w.store.versions, w.store.resource.value.name, MintedUsername(c, o.usernameSuffix.value);
    FillingFailsIff(c, o, map[], name);
    FilledCredentials(c, o, map[], name);
    SeenPreparation(c, o, h, name);
    AbsentUserParses(c, w.solr, n);
    SmoothSolrWrites(c, o, w.solr, Wanted(c, o, w));
    EnsuringKeepsUsers(c, o, h, w.solr, name);
    StaleReadKeepsSettledIff(c, o, w);
    PassStores(c, o, w);
    WrittenStatus(c, o, w);
  }

  lemma SeenPreparation(c: Config, o: UserOracle, h: History, name: GoString)
    ensures var seen, p := ReadVersion(h, o.readSecret), PlanPrepare(c, o, h, name, true);
            seen.Ok? && seen.value.Some? ==>
              var s := SecretFilled(c, o, seen.value.value.data, name);
              p.failed == s.failed && p.creds == s.creds
  {
    hide FieldMarks, PlanSecret, CredentialsIn, SecretKey;
  }

  lemma EnsuringKeepsUsers(c: Config, o: UserOracle, h: History, s: SolrState, name: GoString)
    ensures s.credentials.Keys <= PlanReconcile(c, o, h, s, name, true).solr.credentials.Keys
  {
    hide PlanPrepare, PlanObserve, RolesOf, HoldsDefaultRoles, Print;
  }

  /** A concrete case of that: the secret had two versions, an empty one and the complete one. */
  lemma StaleReadMintsSecondUser(c: Config, u: GoString, password: GoString, o: UserOracle)
    requires DistinctKeys(c.ref) && c.url.Some? && u != []
    requires SmoothButRead(o) && o.readSecret == Lagging(1)
    requires var n := MintedUsername(c, o.usernameSuffix.value); c.settings.wire(n) == n != u
    requires var p := Hex(o.passwordBytes.value); c.settings.wire(p) == p
    ensures var w := World(Store(Some(Resource(true, false, false, [], u)),
                                 [Some(map[]), Some(CompleteData(c, u, password))]),
                           SolrState(map[u := Print(c.settings.digest, [], password)],
                                     map[u := Elements(DEFAULT_ROLES)], {}));
            var out, n := PlanPass(c, o, w), MintedUsername(c, o.usernameSuffix.value);
            && Settled(c, w) && !out.failed && !Settled(c, out.world) && {u, n} <= out.world.solr.credentials.Keys
  {
    hide PlanPass, SecretKey, MintedUsername, Hex, Print, CompleteData, SecretComplete;
    var w := World(Store(Some(Resource(true, false, false, [], u)), [Some(map[]), Some(CompleteData(c, u, password))]),
                   SolrState(map[u := Print(c.settings.digest, [], password)], map[u := Elements(DEFAULT_ROLES)], {}));
    DataIsComplete(c, u, password);
    CompleteHasCredentials(c, CompleteData(c, u, password));
    PrintedChecks(c.settings.digest, [], password, password);
    EmptyReadMintsSecondUser(c, o, w);
  }

  function CompleteData(c: Config, username: GoString, password: GoString): Data
    requires c.url.Some?
  {
    map[SecretKey(Username, c.ref) := username, SecretKey(Password, c.ref) := password,
        SecretKey(Endpoint, c.ref) := c.endpoint, SecretKey(Hostname, c.ref) := c.url.value.hostname]
  }

  lemma DataIsComplete(c: Config, username: GoString, password: GoString)
    requires c.url.Some? && DistinctKeys(c.ref)
    ensures var d := CompleteData(c, username, password);
            SecretComplete(c, d) && d[SecretKey(Username, c.ref)] == username
            && d[SecretKey(Password, c.ref)] == password
  {
    hide SecretKey;
    KeysDiffer(c);
  }

  lemma SettledKeepsName(c: Config, o: UserOracle, w: UserWorld)
    requires w.store.resource.Some?
    requires var p := PlanReconcile(c, o, w.store.versions, w.solr, w.store.resource.value.name, true);
             p.name == w.store.resource.value.name
    ensures Stage(o, w) != Some(false) ==>
              PlanPass(c, o, w).world.store.resource.Some? &&
              PlanPass(c, o, w).world.store.resource.value.name == w.store.resource.value.name
  {
    hide PlanReconcile, SetAll;
  }

  /** When nothing fails either, such a pass only looks, and writes the status. */
  lemma SettledSmoothPassOnlyLooks(c: Config, o: UserOracle, w: UserWorld)
    requires Settled(c, w) && Smooth(o)
    ensures var out := PlanPass(c, o, w);
            && !out.failed
            && out.apiCalls == [GetDocument, UpdateStatus]
            && out.solrCalls == [GetCredentials, GetCredentials, GetRoles]
  {
    hide PlanPrepare, PlanObserve, SecretComplete, Accepts, HoldsDefaultRoles, SetAll, SecretKey;
    SettledPreparation(c, o, w);
    var p := PlanPrepare(c, o, w.store.versions, w.store.resource.value.name, true);
    SettledObservation(c, o, w.solr, p.creds);
  }

  /** Passes to which the User looks settled. */
  predicate AllLookSettled(c: Config, w: UserWorld, steps: seq<UserStep>)
    requires w.store.resource.Some?
  {
    forall i :: 0 <= i < |steps| ==> steps[i].Pass? && LooksSettled(c, steps[i].o, w)
  }

  /** After convergence, any number of passes with any failures leaves Solr and the secret as
      they are, as long as the User looks settled to each. */
  lemma {:induction false} SettledForever(c: Config, w: UserWorld, steps: seq<UserStep>)
    ensures var w' := Run(c, w, steps);
            Settled(c, w) && AllLookSettled(c, w, steps) ==>
              Settled(c, w') && w'.solr == w.solr && w'.store.versions == w.store.versions
    decreases |steps|
  {
    hide PlanPass, PlanPrepare, Parses, SecretComplete, Accepts, HoldsDefaultRoles, SecretKey;
    if Settled(c, w) && AllLookSettled(c, w, steps) && steps != [] {
      SettledStays(c, steps[0].o, w);
      SettledForever(c, PlanPass(c, steps[0].o, w).world, steps[1..]);
    }
  }
}
