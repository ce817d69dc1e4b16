/** What a pass over a User reports and publishes: its error, the name and the conditions in the
    status, the keys of the secret; and what it leaves alone. */
module UserOutcomes {
  import opened GoValues
  import opened Conditions
  import opened SolrClient
  import opened Cluster
  import opened UserPlan
  import opened UserRuns
  import opened UserDeletion
  import opened UserConvergence

  // ---------------------------------------------------------------- the error

  /** Exactly when a pass reports an error: the User cannot be read; or it is there and the pass
      does not get as far as reconciling, or that fails, or the last write does. Every error but
      the first comes with a request to try again, and nothing else does. */
  lemma PassFailsIff(c: Config, o: UserOracle, w: UserWorld)
    ensures var out, r, stage := PlanPass(c, o, w), w.store.resource, Stage(o, w);
            && (out.failed <==>
                  || !o.getUser
                  || (r.Some?
                      && (stage.None?
                          || PlanReconcile(c, o, w.store.versions, w.solr, r.value.name, stage.value).failed
                          || !(if stage.value then o.writeStatus else o.removeFinaliser).Committed())))
            && (out.requeue <==> out.failed && o.getUser)
  {
    hide PlanReconcile, SetAll;
  }

  /** So a pass that reports no error on an existing User has reconciled it. */
  lemma QuietPassReconciles(c: Config, o: UserOracle, w: UserWorld)
    ensures !PlanPass(c, o, w).failed && w.store.resource.Some? ==> Stage(o, w).Some? && o.getClient
  {
    hide PlanReconcile, SetAll;
  }

  /** The writes of the User object: an ensuring pass sends its status last, whether it succeeded or
      not, and puts the finaliser on first, before anything else, if it was missing; the finaliser
      is taken off last, and only by a pass that removed everything. */
  lemma ResourceWrites(c: Config, o: UserOracle, w: UserWorld)
    requires Stage(o, w).Some?
    ensures var calls, r := PlanPass(c, o, w).apiCalls, w.store.resource.value;
            var p := PlanReconcile(c, o, w.store.versions, w.solr, r.name, Stage(o, w).value);
            if Stage(o, w).value then
              calls == (if r.finalised || r.deleting then [] else [UpdateFinaliser(true), UpdateStatus])
                       + p.apiCalls + [UpdateStatus]
            else
              calls == p.apiCalls + (if p.failed then [] else [UpdateFinaliser(false)])
  {
    hide PlanReconcile, SetAll;
  }

  /** No reconcile writes the User object itself. */
  lemma ReconcileWritesNoResource(c: Config, o: UserOracle, h: History, s: SolrState, name: GoString, ensure: bool)
    ensures var calls := PlanReconcile(c, o, h, s, name, ensure).apiCalls;
            && UpdateStatus !in calls && UpdateFinaliser(true) !in calls && UpdateFinaliser(false) !in calls
            && |calls| >= 1 && calls[0] == GetDocument
  {
    hide PlanObserve, PlanSetUser, PlanSetRoles, PlanRemove, PlanSecret, PlanCredentials, FieldMarks;
  }

  // ---------------------------------------------------------------- the published name

  /** The look at Solr for the user `n` is answered. */
  predicate LookAnswered(c: Config, o: UserOracle, s: SolrState, n: GoString) {
    o.readExistence && o.readRoles && (n in s.credentials ==> o.readCredential && Parses(c, s, n))
  }

  lemma LookSucceedsIff(c: Config, o: UserOracle, s: SolrState, creds: Creds)
    ensures !PlanObserve(c, o, s, creds).failed <==> LookAnswered(c, o, s, creds.username)
  {
    hide HoldsDefaultRoles;
    ParsesForAnyPassword(c, s, creds.username, creds.password);
  }

  /** Which name an ensuring reconcile puts into the status: the one it works on as soon as Solr
      has the user, by then or before, even if it fails later; else the old one stays. */
  lemma ReconciledName(c: Config, o: UserOracle, h: History, s: SolrState, name: GoString)
    ensures var p := PlanPrepare(c, o, h, name, true);
            PlanReconcile(c, o, h, s, name, true).name ==
            if !p.failed && LookAnswered(c, o, s, p.creds.username)
               && (Accepts(c.settings, s, p.creds.username, p.creds.password) || o.setUser.answered)
            then p.creds.username else name
  {
    hide PlanPrepare, PlanObserve, HoldsDefaultRoles, RolesOf, AfterUpdate, LookAnswered, Accepts;
    var creds := PlanPrepare(c, o, h, name, true).creds;
    LookSucceedsIff(c, o, s, creds);
    ObservationIsTrue(c, o, s, creds);
  }

  /** The published name after a pass whose last status write is committed. */
  lemma PublishedNameIff(c: Config, o: UserOracle, w: UserWorld)
    requires Stage(o, w) == Some(true) && o.writeStatus.Committed()
    ensures var r, r', n := w.store.resource.value, PlanPass(c, o, w).world.store.resource, Wanted(c, o, w);
            && r'.Some?
            && r'.value.name ==
               if !PlanPrepare(c, o, w.store.versions, r.name, true).failed && LookAnswered(c, o, w.solr, n.username)
                  && (Accepts(c.settings, w.solr, n.username, n.password) || o.setUser.answered)
               then n.username else r.name
  {
    hide PlanPass, PlanPrepare, PlanReconcile, LookAnswered, Accepts;
    WrittenStatus(c, o, w);
    ReconciledName(c, o, w.store.versions, w.solr, w.store.resource.value.name);
  }

  /** What an ensuring reconcile asks Solr to set: the wanted user with the wanted password, and
      only if the look at Solr was answered and did not find just that. */
  lemma ReconcileSends(c: Config, o: UserOracle, h: History, s: SolrState, name: GoString, n: GoString,
                       password: GoString)
    ensures var p := PlanPrepare(c, o, h, name, true);
            SetUser(n, password) in PlanReconcile(c, o, h, s, name, true).solrCalls <==>
              && !p.failed && n == p.creds.username && password == p.creds.password
              && LookAnswered(c, o, s, n) && !Accepts(c.settings, s, n, password)
  {
    hide PlanPrepare, PlanObserve, PlanSetUser, PlanSetRoles, AfterUpdate, Accepts, LookAnswered;
    var creds := PlanPrepare(c, o, h, name, true).creds;
    var ob := PlanObserve(c, o, s, creds);
    LookSucceedsIff(c, o, s, creds);
    ObservationIsTrue(c, o, s, creds);
    LooksOnlyRead(c, o, s, creds);
    SetUserSends(c, o, s, ob, creds, n, password);
    SetRolesEffect(c, o, PlanSetUser(c, o, s, ob, creds).solr, ob, creds);
  }

  lemma SetUserSends(c: Config, o: UserOracle, s: SolrState, ob: Observation, creds: Creds, n: GoString,
                     password: GoString)
    ensures SetUser(n, password) in PlanSetUser(c, o, s, ob, creds).calls
       <==> !(ob.present && ob.current) && n == creds.username && password == creds.password
  {
  }

  /** A user whose creation was sent and answered is published, whatever fails after that; one
      whose creation was not answered is not. */
  lemma SentUserIsPublishedIff(c: Config, o: UserOracle, w: UserWorld, n: GoString, password: GoString)
    requires Stage(o, w) == Some(true) && o.writeStatus.Committed()
    ensures var out, r := PlanPass(c, o, w), w.store.resource.value;
            SetUser(n, password) in out.solrCalls ==>
              && out.world.store.resource.Some?
              && out.world.store.resource.value.name == if o.setUser.answered then n else r.name
  {
    hide PlanPass, PlanPrepare, PlanReconcile, LookAnswered, Accepts;
    PassStores(c, o, w);
    PublishedNameIff(c, o, w);
    ReconcileSends(c, o, w.store.versions, w.solr, w.store.resource.value.name, n, password);
  }

  /** Solr holds after an ensuring reconcile what was asked for and reached it, answered or not. */
  lemma SolrAfterEnsuring(c: Config, o: UserOracle, h: History, s: SolrState, name: GoString)
    ensures var r, n := PlanReconcile(c, o, h, s, name, true), PlanPrepare(c, o, h, name, true).creds;
            var roles := RolesOf(s, n.username) + Elements(DEFAULT_ROLES);
            && r.solr.credentials == (if SetUser(n.username, n.password) in r.solrCalls && o.setUser.reached
                                      then WithUser(c.settings, s, n.username, n.password, o.salt).credentials
                                      else s.credentials)
            && r.solr.roles == (if SetRoles(n.username, roles) in r.solrCalls && o.setRoles.reached
                                then s.roles[c.settings.wire(n.username) := roles] else s.roles)
  {
    hide PlanPrepare, PlanObserve, PlanSetUser, PlanSetRoles, WithUser, Elements, AfterUpdate;
    var n := PlanPrepare(c, o, h, name, true).creds;
    var ob := PlanObserve(c, o, s, n);
    LooksOnlyRead(c, o, s, n);
    SetUserEffect(c, o, s, ob, n);
    SetRolesEffect(c, o, PlanSetUser(c, o, s, ob, n).solr, ob, n);
  }

  lemma LooksOnlyRead(c: Config, o: UserOracle, s: SolrState, n: Creds)
    ensures forall call :: call in PlanObserve(c, o, s, n).calls ==> call == GetCredentials || call == GetRoles
  {
    hide HoldsDefaultRoles, CheckUserAnswer;
  }

  lemma SetUserEffect(c: Config, o: UserOracle, s: SolrState, ob: Observation, n: Creds)
    ensures var e := PlanSetUser(c, o, s, ob, n);
            && (forall call :: call in e.calls ==> call == SetUser(n.username, n.password))
            && e.solr.roles == s.roles
            && e.solr.credentials == (if SetUser(n.username, n.password) in e.calls && o.setUser.reached
                                      then WithUser(c.settings, s, n.username, n.password, o.salt).credentials
                                      else s.credentials)
  {
  }

  lemma SetRolesEffect(c: Config, o: UserOracle, s: SolrState, ob: Observation, n: Creds)
    ensures var e, roles := PlanSetRoles(c, o, s, ob, n), RolesOf(s, n.username) + Elements(DEFAULT_ROLES);
            && (forall call :: call in e.calls ==> call == GetRoles || call == SetRoles(n.username, roles))
            && e.solr.credentials == s.credentials
            && e.solr.roles == (if SetRoles(n.username, roles) in e.calls && o.setRoles.reached
                                then s.roles[c.settings.wire(n.username) := roles] else s.roles)
  {
    hide Elements, RolesOf;
  }

  /** And after a removing one. */
  lemma SolrAfterRemoving(c: Config, o: UserOracle, h: History, s: SolrState, name: GoString)
    ensures var r, n := PlanReconcile(c, o, h, s, name, false), PlanPrepare(c, o, h, name, false).creds.username;
            && r.solr.credentials == (if DropUser(n) in r.solrCalls && o.dropUser.reached
                                      then s.credentials - {c.settings.wire(n)} else s.credentials)
            && r.solr.roles == (if ClearRoles(n) in r.solrCalls && o.clearRoles.reached
                                then s.roles - {c.settings.wire(n)} else s.roles)
  {
    hide PlanPrepare, PlanObserve, HoldsDefaultRoles;
    LooksOnlyRead(c, o, s, PlanPrepare(c, o, h, name, false).creds);
  }

  // ---------------------------------------------------------------- what is left alone

  /** The user `u` is in Solr as before: its credential, if any, and its roles. */
  predicate Untouched(s: SolrState, t: SolrState, u: GoString) {
    && (u in s.credentials <==> u in t.credentials)
    && (u in s.credentials ==> s.credentials[u] == t.credentials[u])
    && RolesOf(s, u) == RolesOf(t, u)
  }

  /** The user a pass may change in Solr. */
  function Concerned(c: Config, o: UserOracle, w: UserWorld): Option<GoString> {
    match Stage(o, w)
    case None => None
    case Some(true) => Some(Wanted(c, o, w).username)
    case Some(false) => Some(Target(c, o, w))
  }

  /** Every group of Solr writes concerns the user it is about. */
  lemma SetUserFrame(c: Config, o: UserOracle, s: SolrState, ob: Observation, creds: Creds, u: GoString)
    ensures var t := PlanSetUser(c, o, s, ob, creds).solr;
            t.collections == s.collections && (u != c.settings.wire(creds.username) ==> Untouched(s, t, u))
  {
  }

  lemma SetRolesFrame(c: Config, o: UserOracle, s: SolrState, ob: Observation, creds: Creds, u: GoString)
    ensures var t := PlanSetRoles(c, o, s, ob, creds).solr;
            t.collections == s.collections && (u != c.settings.wire(creds.username) ==> Untouched(s, t, u))
  {
    hide Elements;
  }

  lemma RemoveFrame(c: Config, o: UserOracle, s: SolrState, ob: Observation, creds: Creds, u: GoString)
    ensures var t := PlanRemove(c, o, s, ob, creds).solr;
            t.collections == s.collections && (u != c.settings.wire(creds.username) ==> Untouched(s, t, u))
  {
  }

  lemma ReconcileFrame(c: Config, o: UserOracle, h: History, s: SolrState, name: GoString, ensure: bool, u: GoString)
    ensures var p, r := PlanPrepare(c, o, h, name, ensure), PlanReconcile(c, o, h, s, name, ensure);
            && r.solr.collections == s.collections
            && (p.failed ==> r.solr == s)
            && (u != c.settings.wire(p.creds.username) ==> Untouched(s, r.solr, u))
  {
    hide PlanPrepare, PlanObserve, PlanSetUser, PlanSetRoles, PlanRemove, AfterUpdate;
    var creds := PlanPrepare(c, o, h, name, ensure).creds;
    var ob := PlanObserve(c, o, s, creds);
    var t := PlanSetUser(c, o, s, ob, creds).solr;
    SetUserFrame(c, o, s, ob, creds, u);
    SetRolesFrame(c, o, t, ob, creds, u);
    RemoveFrame(c, o, s, ob, creds, u);
  }

  /** No pass touches any other user, or any collection, in Solr. */
  lemma PassFrame(c: Config, o: UserOracle, w: UserWorld, u: GoString)
    ensures var s, t, n := w.solr, PlanPass(c, o, w).world.solr, Concerned(c, o, w);
            && t.collections == s.collections
            && (n.Some? && c.settings.wire(n.value) == n.value && u != n.value ==> Untouched(s, t, u))
            && (n.None? ==> t == s)
  {
    hide PlanPass, PlanPrepare, PlanReconcile, ResolvedName, Untouched;
    PassStores(c, o, w);
    var stage := Stage(o, w);
    if stage.Some? {
      var h, name := w.store.versions, w.store.resource.value.name;
      ReconcileFrame(c, o, h, w.solr, name, stage.value, u);
      PreparedName(c, o, h, name);
      assert Untouched(w.solr, w.solr, u) by { SameIsUntouched(w.solr, u); }
    }
  }

  lemma SameIsUntouched(s: SolrState, u: GoString)
    ensures Untouched(s, s, u)
  {
  }

  // ---------------------------------------------------------------- the published secret

  /** The four keys as written in the spec; a User that names none gets the layout of
      kubernetes.io/basic-auth and the documented names. */
  function KeysInUse(ref: SecretRef): (string, string, string, string) {
    (if ref.usernameKey == "" then "username" else ref.usernameKey,
     if ref.passwordKey == "" then "password" else ref.passwordKey,
     if ref.endpointKey == "" then "endpoint" else ref.endpointKey,
     if ref.hostnameKey == "" then "endpoint-hostname" else ref.hostnameKey)
  }

  /** What a settled User's secret holds, key by key. */
  lemma SettledSecretByKey(c: Config, w: UserWorld)
    requires Settled(c, w)
    ensures var d, r := Latest(w.store.versions).value, w.store.resource.value;
            var (user, pass, endpoint, host) := KeysInUse(c.ref);
            && user in d && d[user] in {[], r.name}
            && pass in d && Accepts(c.settings, w.solr, r.name, d[pass])
            && Entry(d, endpoint) == c.endpoint && Entry(d, host) == c.url.value.hostname
  {
    hide Accepts, HoldsDefaultRoles;
    CompleteHasCredentials(c, Latest(w.store.versions).value);
  }

  /** What is minted is text of the namespace, the name and the random bytes; different bytes give
      different usernames and passwords. */
  lemma MintedByParts(c: Config, suffix: seq<Byte>, other: seq<Byte>)
    ensures MintedUsername(c, suffix) == c.namespace + Ascii("--") + c.name + Ascii("--") + Hex(suffix)
    ensures MintedUsername(c, suffix) == MintedUsername(c, other) <==> suffix == other
  {
    hide Hex;
    assert Ascii("--") == DASHES;
    var prefix := c.namespace + DASHES + c.name + DASHES;
    assert MintedUsername(c, suffix)[|prefix|..] == Hex(suffix) && MintedUsername(c, other)[|prefix|..] == Hex(other);
    HexInjective(suffix, other);
  }

  /** When a pass that ensures existence loads no secret, by a failed read or because there was
      none, it creates one, if none is stored; a deleting pass never does. */
  lemma SecretCreatedIff(c: Config, o: UserOracle, h: History, ensure: bool)
    ensures var g, read := PlanGetSecret(o, h, ensure), ReadVersion(h, o.readSecret);
            var loaded := read.Ok? && read.value.Some?;
            && (CreateDocument in g.calls <==> ensure && !loaded)
            && (g.versions != h <==> ensure && !loaded && Latest(h).None? && o.createSecret.reached)
            && (g.versions != h ==> g.versions == h + [Some(map[])])
            && (g.copy.Some? <==> loaded || (g.versions != h && o.createSecret.answered))
            && (loaded ==> g.copy == read.value)
  {
  }
}
