/** Deleting a User: what is gone from Solr when the finaliser goes, and how an interrupted
    deletion makes progress. */
module UserDeletion {
  import opened GoValues
  import opened Conditions
  import opened Credentials
  import opened SolrClient
  import opened Cluster
  import opened UserPlan
  import opened UserRuns

  /** The POSTs of a deleting pass can be trusted: no error means Solr applied them. */
  predicate HonestRemoval(o: UserOracle) {
    o.clearRoles.Honest() && o.dropUser.Honest()
  }

  /** The name a deleting pass works on: the secret's, unless the secret was not loaded or its
      entry is empty (then the status'), or was loaded without the key (then a new one). */
  function ResolvedName(c: Config, o: UserOracle, h: History, statusName: GoString): GoString {
    var copy := SecretSeen(o, h, false);
    var key := SecretKey(Username, c.ref);
    if copy.None? then statusName
    else if key in copy.value.data then
      if copy.value.data[key] == [] then statusName else copy.value.data[key]
    else if o.usernameSuffix.Some? then MintedUsername(c, o.usernameSuffix.value)
    else statusName
  }

  lemma PreparedName(c: Config, o: UserOracle, h: History, statusName: GoString)
    ensures var p := PlanPrepare(c, o, h, statusName, false);
            !p.failed ==> p.creds.username == ResolvedName(c, o, h, statusName)
  {
    hide FieldMarks, MintedUsername, SecretKey, Hex;
  }

  /** The secret stage of a deleting pass succeeds: nothing was loaded, or what was loaded can
      be filled in. */
  predicate Prepares(c: Config, o: UserOracle, h: History) {
    var copy := SecretSeen(o, h, false);
    copy.Some? ==>
      && c.url.Some?
      && (FieldIn(c, copy.value.data, Username) || o.usernameSuffix.Some?)
      && (FieldIn(c, copy.value.data, Password) || o.passwordBytes.Some?)
  }

  lemma PreparesIff(c: Config, o: UserOracle, h: History, name: GoString)
    ensures Prepares(c, o, h) <==> !PlanPrepare(c, o, h, name, false).failed
  {
    hide PlanSecret, FieldMarks;
    var copy := SecretSeen(o, h, false);
    if copy.Some? {
      FillingFailsIff(c, o, copy.value.data, name);
    }
  }

  /** Solr's entry for the name, if any, is one the client can parse. */
  predicate Parses(c: Config, s: SolrState, n: GoString) {
    CheckUserAnswer(c.settings, s, n, []).Ok?
  }

  lemma ParsesForAnyPassword(c: Config, s: SolrState, n: GoString, password: GoString)
    ensures CheckUserAnswer(c.settings, s, n, password).Ok? <==> Parses(c, s, n)
  {
  }

  lemma AbsentUserParses(c: Config, s: SolrState, n: GoString)
    ensures n !in s.credentials ==> Parses(c, s, n)
  {
  }

  /** Every call that removing `n` from Solr takes is answered. */
  predicate RemovalAnswered(c: Config, o: UserOracle, s: SolrState, n: GoString) {
    && o.readExistence && o.readRoles
    && (n in s.credentials ==> o.readCredential && Parses(c, s, n) && o.dropUser.answered)
    && (HoldsDefaultRoles(s, n) ==> o.clearRoles.answered)
  }

  /** Exactly when the removing part of a pass reports success. */
  lemma RemovalSucceedsIff(c: Config, o: UserOracle, h: History, s: SolrState, name: GoString)
    ensures !PlanReconcile(c, o, h, s, name, false).failed
       <==> Prepares(c, o, h) && RemovalAnswered(c, o, s, ResolvedName(c, o, h, name))
  {
    hide PlanPrepare, HoldsDefaultRoles, CheckUserAnswer, Prepares, ResolvedName;
    PreparesIff(c, o, h, name);
    PreparedName(c, o, h, name);
    var creds := PlanPrepare(c, o, h, name, false).creds;
    ParsesForAnyPassword(c, s, creds.username, creds.password);
  }

  lemma NoRolesAfterClearing(c: Settings, s: SolrState, name: GoString)
    requires c.wire(name) == name
    ensures !HoldsDefaultRoles(WithoutRoles(c, s, name), name)
  {
    assert DEFAULT_ROLES[0] in Elements(DEFAULT_ROLES);
  }

  /** A deleting reconcile that reports success has seen every call it made answered, has removed
      the resolved user, and has removed its roles if it held all the default ones. Otherwise the
      roles stay: their removal is asked for only when the whole default set is held. */
  lemma SuccessfulRemoval(c: Config, o: UserOracle, h: History, s: SolrState, statusName: GoString)
    requires !PlanReconcile(c, o, h, s, statusName, false).failed
    ensures var n := ResolvedName(c, o, h, statusName);
            && o.readExistence && o.readRoles
            && (n in s.credentials ==> o.readCredential && o.dropUser.answered)
            && (HoldsDefaultRoles(s, n) ==> o.clearRoles.answered)
    ensures var n, s' := ResolvedName(c, o, h, statusName), PlanReconcile(c, o, h, s, statusName, false).solr;
            HonestRemoval(o) && c.settings.wire(n) == n ==>
              && n !in s'.credentials && !HoldsDefaultRoles(s', n)
              && RolesOf(s', n) == (if HoldsDefaultRoles(s, n) then {} else RolesOf(s, n))
    ensures var n, s' := ResolvedName(c, o, h, statusName), PlanReconcile(c, o, h, s, statusName, false).solr;
            c.settings.wire(n) == n ==>
              && (forall u :: u != n ==> (u in s'.credentials <==> u in s.credentials))
              && (forall u :: u != n ==> RolesOf(s', u) == RolesOf(s, u))
    ensures var n, s' := ResolvedName(c, o, h, statusName), PlanReconcile(c, o, h, s, statusName, false).solr;
            n !in s.credentials && !HoldsDefaultRoles(s, n) ==> s' == s
  {
    hide SetAll, PlanPrepare, HoldsDefaultRoles, CheckUserAnswer, Elements;
    PreparedName(c, o, h, statusName);
    var n := ResolvedName(c, o, h, statusName);
    if c.settings.wire(n) == n {
      NoRolesAfterClearing(c.settings, s, n);
      assert HoldsDefaultRoles(WithoutUser(c.settings, WithoutRoles(c.settings, s, n), n), n)
          == HoldsDefaultRoles(WithoutRoles(c.settings, s, n), n) by {
        OnlyRolesMatter(c.settings, WithoutRoles(c.settings, s, n), n);
      }
      OnlyRolesMatter(c.settings, s, n);
    }
  }

  /** A deleting pass that asks Solr to drop a user drops the resolved one, and before it its roles
      if and only if it holds the whole default set, whose removal was then answered. */
  lemma RolesGoFirst(c: Config, o: UserOracle, w: UserWorld, n: GoString)
    requires Stage(o, w) == Some(false)
    ensures var calls := PlanPass(c, o, w).solrCalls;
            DropUser(n) in calls ==>
            && n == Target(c, o, w)
            && n in w.solr.credentials
            && calls == [GetCredentials, GetCredentials, GetRoles]
                        + (if HoldsDefaultRoles(w.solr, n) then [ClearRoles(n)] else []) + [DropUser(n)]
            && (HoldsDefaultRoles(w.solr, n) ==> o.clearRoles.answered)
  {
    hide PlanPass, PlanPrepare, HoldsDefaultRoles, CheckUserAnswer, ResolvedName;
    PassStores(c, o, w);
    PreparedName(c, o, w.store.versions, w.store.resource.value.name);
  }

  lemma OnlyRolesMatter(c: Settings, s: SolrState, n: GoString)
    ensures HoldsDefaultRoles(WithoutUser(c, s, n), n) == HoldsDefaultRoles(s, n)
  {
  }

  /** The finaliser came off in this pass. */
  predicate Releases(c: Config, o: UserOracle, w: UserWorld) {
    var r, r' := w.store.resource, PlanPass(c, o, w).world.store.resource;
    r.Some? && r.value.finalised && (r'.None? || !r'.value.finalised)
  }

  /** The name a deleting pass over `w` works on. */
  function Target(c: Config, o: UserOracle, w: UserWorld): GoString
    requires w.store.resource.Some?
  {
    ResolvedName(c, o, w.store.versions, w.store.resource.value.name)
  }

  /** Exactly when the finaliser comes off: in a deleting pass whose secret stage succeeds,
      whose every call to Solr is answered, and whose update reaches the API server. Neither a
      failed read of the secret nor a lost answer to the last update keeps it on; the latter is
      the only error that a releasing pass can report. */
  lemma ReleasesIff(c: Config, o: UserOracle, w: UserWorld)
    ensures Releases(c, o, w)
       <==> Stage(o, w) == Some(false) && Prepares(c, o, w.store.versions)
            && RemovalAnswered(c, o, w.solr, Target(c, o, w)) && o.removeFinaliser.reached
    ensures Releases(c, o, w) ==> w.store.resource.value.deleting
                                  && (PlanPass(c, o, w).failed <==> !o.removeFinaliser.answered)
  {
    hide PlanReconcile, Prepares, RemovalAnswered, ResolvedName, SetAll;
    if w.store.resource.Some? {
      RemovalSucceedsIff(c, o, w.store.versions, w.solr, w.store.resource.value.name);
    }
  }

  /** Deletion completeness, for every pass of every run: the finaliser comes off only from a
      resource being deleted, and then the resolved user is gone from Solr and no longer holds all
      the default roles, while other users are as they were. Its roles are gone exactly if it held
      the whole default set, or none: a part of the set, or roles of other kinds without it, stay
      assigned. */
  lemma ReleaseMeansRemoved(c: Config, o: UserOracle, w: UserWorld)
    requires Releases(c, o, w)
    ensures w.store.resource.value.deleting && Stage(o, w) == Some(false)
    ensures var n, s, s' := Target(c, o, w), w.solr, PlanPass(c, o, w).world.solr;
            && RemovalAnswered(c, o, s, n)
            && (n !in s.credentials && !HoldsDefaultRoles(s, n) ==> s' == s)
            && (c.settings.wire(n) == n ==>
                 && (HonestRemoval(o) ==>
                       && n !in s'.credentials && !HoldsDefaultRoles(s', n)
                       && RolesOf(s', n) == (if HoldsDefaultRoles(s, n) then {} else RolesOf(s, n))
                       && (RolesOf(s', n) == {} <==> RolesOf(s, n) == {} || HoldsDefaultRoles(s, n)))
                 && (forall u :: u != n ==> (u in s'.credentials <==> u in s.credentials))
                 && (forall u :: u != n ==> RolesOf(s', u) == RolesOf(s, u)))
  {
    hide PlanPass, Releases, PlanReconcile, Prepares, RemovalAnswered, HoldsDefaultRoles, ResolvedName, RolesOf;
    ReleasesIff(c, o, w);
    PassStores(c, o, w);
    RemovalSucceedsIff(c, o, w.store.versions, w.solr, w.store.resource.value.name);
    SuccessfulRemoval(c, o, w.store.versions, w.solr, w.store.resource.value.name);
  }

  // ---------------------------------------------------------------- the wrong user

  /** The secret was not loaded, or names the user or nobody, or a minted name coincides. */
  predicate SecretPointsTo(c: Config, o: UserOracle, h: History, name: GoString) {
    var copy := SecretSeen(o, h, false);
    || copy.None?
    || (FieldIn(c, copy.value.data, Username) && copy.value.data[SecretKey(Username, c.ref)] in {[], name})
    || (!FieldIn(c, copy.value.data, Username) && o.usernameSuffix.Some?
        && MintedUsername(c, o.usernameSuffix.value) == name)
  }

  /** The name published in the status is cleaned up exactly when it is the resolved one. It is
      not when the secret was loaded without its username key: then a fresh name is resolved,
      the finaliser comes off, and the published user stays in Solr. */
  lemma PublishedUserRemovedIff(c: Config, o: UserOracle, w: UserWorld)
    requires Releases(c, o, w) && HonestRemoval(o)
    requires w.store.resource.value.name in w.solr.credentials
    requires c.settings.wire(Target(c, o, w)) == Target(c, o, w)
    ensures w.store.resource.value.name !in PlanPass(c, o, w).world.solr.credentials
       <==> SecretPointsTo(c, o, w.store.versions, w.store.resource.value.name)
  {
    hide PlanPass, Releases, SecretSeen, MintedUsername, SecretKey, RemovalAnswered;
    ReleaseMeansRemoved(c, o, w);
    ReleasesIff(c, o, w);
  }

  /** The user that the stored secret names is cleaned up exactly when it is the resolved one;
      if the secret is read as it is, always, and if its read fails, only when the status
      happens to name the same user. */
  lemma SecretUserRemovedIff(c: Config, o: UserOracle, w: UserWorld, u: GoString)
    requires Releases(c, o, w) && HonestRemoval(o) && u in w.solr.credentials
    requires StoresName(c, w.store.versions, u)
    requires c.settings.wire(Target(c, o, w)) == Target(c, o, w)
    ensures u !in PlanPass(c, o, w).world.solr.credentials <==> Target(c, o, w) == u
    ensures o.readSecret.Fresh() ==>
              (Target(c, o, w) == u <==> o.readSecret == CURRENT || w.store.resource.value.name == u)
  {
    hide PlanPass, Releases, MintedUsername, SecretKey, RemovalAnswered;
    ReleaseMeansRemoved(c, o, w);
  }

  /** The secret exists and names the user `u`. */
  predicate StoresName(c: Config, h: History, u: GoString) {
    && u != [] && Latest(h).Some?
    && FieldIn(c, Latest(h).value, Username) && Latest(h).value[SecretKey(Username, c.ref)] == u
  }

  /** A concrete case: the secret exists but is empty, nothing fails, the finaliser comes off,
      and the published user still exists in Solr. */
  lemma EmptySecretLeavesPublishedUser(c: Config, name: GoString, raw: GoString, suffix: seq<Byte>)
    requires c.url.Some? && c.settings.wire(MintedUsername(c, suffix)) == MintedUsername(c, suffix) != name
    ensures var w := World(Store(Some(Resource(true, false, true, [], name)), [Some(map[])]),
                           SolrState(map[name := raw], map[], {}));
            var o := SmoothOracle(suffix, [], []);
            && Releases(c, o, w) && PlanPass(c, o, w).world.store.resource.None?
            && name in PlanPass(c, o, w).world.solr.credentials
  {
    hide PlanPass, Releases, MintedUsername, CheckUserAnswer;
    var w := World(Store(Some(Resource(true, false, true, [], name)), [Some(map[])]),
                   SolrState(map[name := raw], map[], {}));
    var o := SmoothOracle(suffix, [], []);
    assert Target(c, o, w) == MintedUsername(c, suffix);
    ReleasesIff(c, o, w);
    ReleaseGoes(c, o, w);
    PublishedUserRemovedIff(c, o, w);
  }

  /** A concrete case: the first pass stored the secret and created the user, but could not
      write the status; then the deleting pass cannot read the secret. It reports no error, the
      object goes, and the user stays in Solr with its roles. */
  lemma FailedReadLeavesSecretUser(c: Config, u: GoString, raw: GoString, roles: set<string>)
    requires u != []
    ensures var w := World(Store(Some(Resource(true, false, true, [], [])),
                                 [Some(map[SecretKey(Username, c.ref) := u])]),
                           SolrState(map[u := raw], map[u := roles], {}));
            var o := SmoothOracle([], [], []).(readSecret := Unavailable);
            var out := PlanPass(c, o, w);
            && Releases(c, o, w) && !out.failed && out.world.store.resource.None?
            && u in out.world.solr.credentials && RolesOf(out.world.solr, u) == roles
  {
    hide PlanPass, Releases, MintedUsername, CheckUserAnswer, SecretKey;
    var w := World(Store(Some(Resource(true, false, true, [], [])), [Some(map[SecretKey(Username, c.ref) := u])]),
                   SolrState(map[u := raw], map[u := roles], {}));
    var o := SmoothOracle([], [], []).(readSecret := Unavailable);
    assert Target(c, o, w) == [];
    assert !HoldsDefaultRoles(w.solr, []) by {
      assert DEFAULT_ROLES[0] in Elements(DEFAULT_ROLES);
    }
    ReleasesIff(c, o, w);
    ReleaseGoes(c, o, w);
    ReleaseMeansRemoved(c, o, w);
  }

  /** A concrete case: a user with only one of the default roles is dropped, no call asks for the
      removal of its roles, the object goes without an error, and the role stays assigned. */
  lemma PartOfTheRolesStays(c: Config, u: GoString, suffix: seq<Byte>, password: GoString, salt: seq<Byte>)
    requires c.settings.wire(u) == u
    ensures var w := World(Store(Some(Resource(true, false, true, [], u)), [None]),
                           SolrState(map[u := Print(c.settings.digest, salt, password)], map[u := {"admin"}], {}));
            var o := SmoothOracle(suffix, [], []);
            var out := PlanPass(c, o, w);
            && Releases(c, o, w) && !out.failed && out.world.store.resource.None?
            && DropUser(u) in out.solrCalls && ClearRoles(u) !in out.solrCalls
            && u !in out.world.solr.credentials && RolesOf(out.world.solr, u) == {"admin"}
  {
    hide PlanPass, Releases, Print;
    var raw := Print(c.settings.digest, salt, password);
    var w := World(Store(Some(Resource(true, false, true, [], u)), [None]),
                   SolrState(map[u := raw], map[u := {"admin"}], {}));
    var o := SmoothOracle(suffix, [], []);
    assert Target(c, o, w) == u;
    PrintedChecks(c.settings.digest, salt, password, []);
    assert Parses(c, w.solr, u);
    assert !HoldsDefaultRoles(w.solr, u) by {
      assert DEFAULT_ROLES[1] in Elements(DEFAULT_ROLES);
    }
    ReleasesIff(c, o, w);
    ReleaseGoes(c, o, w);
    ReleaseMeansRemoved(c, o, w);
    DeletionResumesWithUser(c, o, w);
  }

  // ---------------------------------------------------------------- progress

  /** What is still to be removed for the user `n`. */
  function Pending(w: UserWorld, n: GoString): nat {
    (if HoldsDefaultRoles(w.solr, n) then 1 else 0)
    + (if n in w.solr.credentials then 1 else 0)
    + (if w.store.resource.Some? && w.store.resource.value.finalised then 1 else 0)
  }

  /** A User being deleted that carries the operator's finaliser and no other. */
  predicate Deleting(w: UserWorld) {
    w.store.resource.Some? && w.store.resource.value.deleting
    && w.store.resource.value.finalised && !w.store.resource.value.foreign
  }

  /** The API server removes a released resource that has no other finaliser. */
  lemma ReleaseGoes(c: Config, o: UserOracle, w: UserWorld)
    requires Deleting(w)
    ensures Releases(c, o, w) <==> PlanPass(c, o, w).world.store.resource.None?
  {
    hide PlanPass;
    PassResource(c, o, w);
  }

  lemma RemovalShrinks(c: Config, o: UserOracle, s: SolrState, ob: Observation, creds: Creds, n: GoString)
    ensures var s' := PlanRemove(c, o, s, ob, creds).solr;
            && (n in s'.credentials ==> n in s.credentials && s'.credentials[n] == s.credentials[n])
            && (HoldsDefaultRoles(s', n) ==> HoldsDefaultRoles(s, n))
  {
    assert DEFAULT_ROLES[0] in Elements(DEFAULT_ROLES);
  }

  /** Whatever fails, a deleting pass never adds to what is pending, for any user. */
  lemma DeletingPassNeverAdds(c: Config, o: UserOracle, w: UserWorld, n: GoString)
    requires Deleting(w)
    ensures var w' := PlanPass(c, o, w).world;
            && Pending(w', n) <= Pending(w, n)
            && (n in w'.solr.credentials ==> n in w.solr.credentials)
            && (Parses(c, w.solr, n) ==> Parses(c, w'.solr, n))
            && w'.store.versions == w.store.versions
            && (w'.store.resource == w.store.resource || w'.store.resource.None?)
  {
    hide PlanPass, PlanObserve, PlanPrepare, PlanRemove, HoldsDefaultRoles, SetAll;
    PassResource(c, o, w);
    PassStores(c, o, w);
    ReconcileVersions(c, o, w.store.versions, w.solr, w.store.resource.value.name, false);
    if Stage(o, w) == Some(false) {
      var p := PlanPrepare(c, o, w.store.versions, w.store.resource.value.name, false);
      RemovalShrinks(c, o, w.solr, PlanObserve(c, o, w.solr, p.creds), p.creds, n);
    }
  }

  /** An interrupted deletion resumes where it stopped: once the roles are gone the next Solr
      write is the removal of the user. */
  lemma DeletionResumesWithUser(c: Config, o: UserOracle, w: UserWorld)
    requires Deleting(w) && Prepares(c, o, w.store.versions)
    requires o.getUser && o.getClient && o.readExistence && o.readCredential && o.readRoles
    ensures var n := Target(c, o, w);
            n in w.solr.credentials && Parses(c, w.solr, n) && !HoldsDefaultRoles(w.solr, n) ==>
              PlanPass(c, o, w).solrCalls == [GetCredentials, GetCredentials, GetRoles, DropUser(n)]
  {
    hide PlanPass, PlanPrepare, HoldsDefaultRoles, CheckUserAnswer, Prepares, ResolvedName;
    var h, name := w.store.versions, w.store.resource.value.name;
    PassStores(c, o, w);
    PreparesIff(c, o, h, name);
    PreparedName(c, o, h, name);
    var creds := PlanPrepare(c, o, h, name, false).creds;
    ParsesForAnyPassword(c, w.solr, creds.username, creds.password);
  }

  /** When nothing fails on the way, a deleting pass takes the finaliser off exactly when the
      endpoint parses or is not needed, and Solr's entry for the resolved user can be read. */
  lemma SmoothDeletionReleasesIff(c: Config, o: UserOracle, w: UserWorld)
    requires Deleting(w) && Smooth(o)
    ensures Releases(c, o, w)
       <==> (Latest(w.store.versions).None? || c.url.Some?) && Parses(c, w.solr, Target(c, o, w))
  {
    hide PlanPass, Releases, HoldsDefaultRoles, CheckUserAnswer, ResolvedName;
    AbsentUserParses(c, w.solr, Target(c, o, w));
    ReleasesIff(c, o, w);
  }

  /** And then the job is finished. */
  lemma SmoothRemovalCompletes(c: Config, o: UserOracle, w: UserWorld)
    requires Deleting(w) && Smooth(o) && c.settings.wire(Target(c, o, w)) == Target(c, o, w)
    requires Latest(w.store.versions).None? || c.url.Some?
    requires Parses(c, w.solr, Target(c, o, w))
    ensures var w' := PlanPass(c, o, w).world; w'.store.resource.None? && Pending(w', Target(c, o, w)) == 0
  {
    hide PlanPass, Releases, HoldsDefaultRoles, CheckUserAnswer, ResolvedName, RemovalAnswered;
    SmoothDeletionReleasesIff(c, o, w);
    ReleaseGoes(c, o, w);
    ReleaseMeansRemoved(c, o, w);
  }

  // ---------------------------------------------------------------- runs of deleting passes

  /** Passes whose answers can be trusted and which all work on the user `n`. */
  predicate PassesFor(c: Config, w: UserWorld, steps: seq<UserStep>, n: GoString)
    requires w.store.resource.Some?
  {
    forall i :: 0 <= i < |steps| ==> steps[i].Pass? && HonestRemoval(steps[i].o) && Target(c, steps[i].o, w) == n
  }

  /** Deletion completes: in any sequence of passes, whatever fails in them, the first pass in
      which nothing fails, or an earlier one, removes the resource, and nothing is left. */
  lemma {:induction false} DeletionCompletes(c: Config, w: UserWorld, steps: seq<UserStep>, k: nat, n: GoString)
    requires Deleting(w) && PassesFor(c, w, steps, n) && c.settings.wire(n) == n
    requires Latest(w.store.versions).None? || c.url.Some?
    requires Parses(c, w.solr, n) && k < |steps| && Smooth(steps[k].o)
    ensures var w' := Run(c, w, steps); w'.store.resource.None? && Pending(w', n) == 0
    decreases |steps|
  {
    hide PlanPass, Releases, HoldsDefaultRoles, CheckUserAnswer, Smooth, ResolvedName, Parses, Pending;
    var o := steps[0].o;
    var w1 := PlanPass(c, o, w).world;
    if k == 0 {
      SmoothRemovalCompletes(c, o, w);
      GoneStaysGone(c, w1, steps[1..]);
    } else {
      DeletingPassNeverAdds(c, o, w, n);
      if w1.store.resource.None? {
        ReleasedIsClean(c, o, w);
        GoneStaysGone(c, w1, steps[1..]);
      } else {
        DeletionCompletes(c, w1, steps[1..], k - 1, n);
      }
    }
  }

  lemma ReleasedIsClean(c: Config, o: UserOracle, w: UserWorld)
    requires Deleting(w) && HonestRemoval(o) && c.settings.wire(Target(c, o, w)) == Target(c, o, w)
    requires PlanPass(c, o, w).world.store.resource.None?
    ensures Pending(PlanPass(c, o, w).world, Target(c, o, w)) == 0
  {
    hide PlanPass, Releases, HoldsDefaultRoles, ResolvedName, RemovalAnswered;
    ReleaseGoes(c, o, w);
    ReleaseMeansRemoved(c, o, w);
  }

  lemma {:induction false} GoneStaysGone(c: Config, w: UserWorld, steps: seq<UserStep>)
    requires w.store.resource.None?
    requires forall i :: 0 <= i < |steps| ==> steps[i].Pass?
    ensures Run(c, w, steps) == w
    decreases |steps|
  {
    if steps != [] {
      assert Next(c, w, steps[0]) == w;
      GoneStaysGone(c, w, steps[1..]);
    }
  }

  /** The stored secret, if any, does not contradict the name `n` of the status. */
  predicate NameAgrees(c: Config, w: UserWorld, n: GoString) {
    && w.store.resource.Some? && w.store.resource.value.name == n
    && (Latest(w.store.versions).Some? ==>
         var d := Latest(w.store.versions).value;
         FieldIn(c, d, Username) && d[SecretKey(Username, c.ref)] in {[], n})
  }

  /** Two ways for all passes to work on one user: the secret and the status agree, and reads of
      the secret are current or fail; or the secret names the user, whatever the status says,
      and reads are current. */
  lemma AllForOneUser(c: Config, w: UserWorld, steps: seq<UserStep>, n: GoString)
    requires w.store.resource.Some?
    requires forall i :: 0 <= i < |steps| ==> steps[i].Pass? && HonestRemoval(steps[i].o)
    ensures NameAgrees(c, w, n) && (forall i :: 0 <= i < |steps| ==> steps[i].o.readSecret.Fresh()) ==>
              PassesFor(c, w, steps, n)
    ensures StoresName(c, w.store.versions, n)
            && (forall i :: 0 <= i < |steps| ==> steps[i].o.readSecret == CURRENT) ==>
              PassesFor(c, w, steps, n)
  {
    hide SecretKey, MintedUsername;
  }

  // ---------------------------------------------------------------- blocked deletions

  /** No answers can help this pass: the loaded secret needs an endpoint that does not parse, or
      Solr's entry for the resolved user cannot be read. */
  predicate Blocked(c: Config, o: UserOracle, w: UserWorld)
    requires w.store.resource.Some?
  {
    (SecretSeen(o, w.store.versions, false).Some? && c.url.None?) || !Parses(c, w.solr, Target(c, o, w))
  }

  lemma BlockedPassChangesNothing(c: Config, o: UserOracle, w: UserWorld)
    requires Deleting(w) && Blocked(c, o, w)
    ensures PlanPass(c, o, w).world == w
  {
    hide PlanPass, PlanPrepare, HoldsDefaultRoles, CheckUserAnswer, ResolvedName, SecretSeen;
    var h, name := w.store.versions, w.store.resource.value.name;
    PassResource(c, o, w);
    PassStores(c, o, w);
    ReconcileVersions(c, o, h, w.solr, name, false);
    PreparesIff(c, o, h, name);
    PreparedName(c, o, h, name);
    AbsentUserParses(c, w.solr, Target(c, o, w));
    RemovalSucceedsIff(c, o, h, w.solr, name);
    var creds := PlanPrepare(c, o, h, name, false).creds;
    ParsesForAnyPassword(c, w.solr, creds.username, creds.password);
  }

  /** So the finaliser stays, and Solr and the secret with it, through any such passes. */
  lemma {:induction false} BlockedForever(c: Config, w: UserWorld, steps: seq<UserStep>)
    requires Deleting(w)
    requires forall i :: 0 <= i < |steps| ==> steps[i].Pass? && Blocked(c, steps[i].o, w)
    ensures Run(c, w, steps) == w
    decreases |steps|
  {
    hide PlanPass, Blocked;
    if steps != [] {
      BlockedPassChangesNothing(c, steps[0].o, w);
      BlockedForever(c, w, steps[1..]);
    }
  }

  /** A malformed entry in Solr blocks every pass that works on its user: with a name that the
      secret and the status agree on, every pass whose read of the secret is current or fails;
      with a name that the secret has, every pass whose read is current. */
  lemma MalformedEntryBlocks(c: Config, o: UserOracle, w: UserWorld, n: GoString)
    requires w.store.resource.Some?
    ensures !Parses(c, w.solr, n) && NameAgrees(c, w, n) && o.readSecret.Fresh() ==> Blocked(c, o, w)
    ensures !Parses(c, w.solr, n) && StoresName(c, w.store.versions, n) && o.readSecret == CURRENT ==> Blocked(c, o, w)
  {
    hide SecretKey, MintedUsername, Parses;
  }

  /** A concrete case: the secret is gone and Solr's entry is empty. No pass, whatever happens in
      it, gets the User any further. */
  lemma {:induction false} EmptyEntryBlocksForever(c: Config, n: GoString, steps: seq<UserStep>)
    requires forall i :: 0 <= i < |steps| ==> steps[i].Pass?
    ensures var w := World(Store(Some(Resource(true, false, true, [], n)), [None]), SolrState(map[n := []], map[], {}));
            Run(c, w, steps) == w
  {
    hide Run;
    var w := World(Store(Some(Resource(true, false, true, [], n)), [None]), SolrState(map[n := []], map[], {}));
    assert |Split([], SPACE)| == 1;
    assert !Parses(c, w.solr, n);
    BlockedForever(c, w, steps);
  }
}
