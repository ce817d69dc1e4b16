/** Counting over runs of the User reconciler: which usernames it minted, which it asked Solr
    to create, how often it failed to store one, and whether it created anything for the
    present User object. */
module UserLedger {
  import opened GoValues
  import opened Conditions
  import opened SolrClient
  import opened Cluster
  import opened UserPlan
  import opened UserRuns
  import opened UserDeletion
  import opened UserConvergence

  datatype Ledger = Ledger(
    world: UserWorld,
    minted: set<GoString>,      // every username minted so far
    asked: set<GoString>,       // every username sent to Solr for creation or a password update
    unpersisted: nat,           // passes that minted a username without storing it in the secret
    sent: set<GoString>,        // every username sent to Solr by the pass that minted it
    lost: nat,                  // passes that sent the username they minted without storing it
    touched: bool)              // a creation was attempted for the present User object

  function AskedFor(calls: seq<SolrCall>): set<GoString> {
    set i | 0 <= i < |calls| && calls[i].SetUser? :: calls[i].name
  }

  function HasUsername(c: Config, h: History): bool {
    Latest(h).Some? && FieldIn(c, Latest(h).value, Username)
  }

  /** The username this pass mints, if any. */
  function Minted(c: Config, o: UserOracle, w: UserWorld): Option<GoString> {
    var stage := Stage(o, w);
    if stage.None? then None
    else
      var copy := SecretSeen(o, w.store.versions, stage.value);
      if copy.Some? && !FieldIn(c, copy.value.data, Username) && o.usernameSuffix.Some?
      then Some(MintedUsername(c, o.usernameSuffix.value)) else None
  }

  /** The pass stored the username it minted: the secret got a new version that holds it. */
  predicate Persisted(c: Config, o: UserOracle, w: UserWorld) {
    var h, h' := w.store.versions, PlanPass(c, o, w).world.store.versions;
    && Minted(c, o, w).Some? && |h'| > |h| && HasUsername(c, h')
    && Latest(h').value[SecretKey(Username, c.ref)] == Minted(c, o, w).value
  }

  function Count(b: bool): nat {
    if b then 1 else 0
  }

  function Advance(c: Config, l: Ledger, step: UserStep): Ledger {
    var world := Next(c, l.world, step);
    match step
    case Pass(o) =>
      var out, m := PlanPass(c, o, l.world), Minted(c, o, l.world);
      var sent := m.Some? && m.value in AskedFor(out.solrCalls);
      Ledger(world,
             l.minted + (if m.Some? then {m.value} else {}),
             l.asked + AskedFor(out.solrCalls),
             l.unpersisted + Count(m.Some? && !Persisted(c, o, l.world)),
             l.sent + (if sent then {m.value} else {}),
             l.lost + Count(sent && !Persisted(c, o, l.world)),
             l.touched || CreateDocument in out.apiCalls || AskedFor(out.solrCalls) != {})
    case CreateUserResource(_, _) => l.(world := world, touched := l.touched && l.world.store.resource.Some?)
    case _ => l.(world := world)
  }

  function Keep(c: Config, l: Ledger, steps: seq<UserStep>): Ledger
    decreases |steps|
  {
    if steps == [] then l else Keep(c, Advance(c, l, steps[0]), steps[1..])
  }

  function Opened(w: UserWorld): Ledger {
    Ledger(w, {}, {}, 0, {}, 0, false)
  }

  /** The ledger only watches: its world is the world of the run. */
  lemma {:induction false} KeepFollowsRun(c: Config, l: Ledger, steps: seq<UserStep>)
    ensures Keep(c, l, steps).world == Run(c, l.world, steps)
    decreases |steps|
  {
    hide PlanPass, Next, Minted, Persisted;
    if steps != [] {
      KeepFollowsRun(c, Advance(c, l, steps[0]), steps[1..]);
    }
  }

  // ---------------------------------------------------------------- bounded orphans

  lemma FillingKeepsUsername(c: Config, o: UserOracle, data: Data, name: GoString)
    ensures FieldIn(c, data, Username) ==> FieldIn(c, SecretFilled(c, o, data, name).data, Username)
  {
    hide SecretKey, Hex, MintedUsername, PlanCredentials;
  }

  /** A username is stored at most once: storing a minted one needs a latest version without a
      username, and once there is one it stays. */
  lemma PersistedOnce(c: Config, o: UserOracle, w: UserWorld)
    ensures var h, h' := w.store.versions, PlanPass(c, o, w).world.store.versions;
            && (Persisted(c, o, w) ==> !HasUsername(c, h) && HasUsername(c, h'))
            && (HasUsername(c, h) ==> HasUsername(c, h'))
  {
    hide PlanPass, PlanReconcile, PlanGetSecret, SecretFilled, SecretSeen, SecretKey, MintedUsername;
    PassStores(c, o, w);
    var stage := Stage(o, w);
    if stage.Some? {
      ReconcileVersions(c, o, w.store.versions, w.solr, w.store.resource.value.name, stage.value);
      var copy := SecretSeen(o, w.store.versions, stage.value);
      if copy.Some? {
        FillingKeepsUsername(c, o, copy.value.data, w.store.resource.value.name);
      }
    }
  }

  /** Minted usernames that neither a failed store nor the stored secret accounts for. */
  function Surplus(c: Config, l: Ledger): int {
    |l.minted| - l.unpersisted - Count(HasUsername(c, l.world.store.versions))
  }

  /** The same among the usernames that went to Solr. */
  function SentSurplus(c: Config, l: Ledger): int {
    |l.sent| - l.lost - Count(HasUsername(c, l.world.store.versions))
  }

  lemma AdvanceMintBound(c: Config, l: Ledger, step: UserStep)
    ensures var l', edit := Advance(c, l, step), Count(step.EditSecret?);
            Surplus(c, l') <= Surplus(c, l) + edit && SentSurplus(c, l') <= SentSurplus(c, l) + edit
  {
    hide PlanPass, Persisted, Minted, HasUsername, AskedFor;
    if step.Pass? {
      PersistedOnce(c, step.o, l.world);
    }
  }

  /** How often others write the secret in a run. */
  function SecretEdits(steps: seq<UserStep>): nat {
    if steps == [] then 0 else Count(steps[0].EditSecret?) + SecretEdits(steps[1..])
  }

  lemma {:induction false} KeepMintBound(c: Config, l: Ledger, steps: seq<UserStep>)
    ensures var l', edits := Keep(c, l, steps), SecretEdits(steps);
            Surplus(c, l') <= Surplus(c, l) + edits && SentSurplus(c, l') <= SentSurplus(c, l) + edits
    decreases |steps|
  {
    hide PlanPass, Next, Advance, Surplus, SentSurplus;
    if steps != [] {
      AdvanceMintBound(c, l, steps[0]);
      KeepMintBound(c, Advance(c, l, steps[0]), steps[1..]);
    }
  }

  /** Bounded orphans: in every run, for any failures and however stale the secret reads are,
      the minted usernames ever sent to Solr number at most one more than the minting passes
      that did not store theirs and the writes of the secret by others; none more if the secret
      had a username to begin with. Only passes that did send the username they minted need to
      be counted for the usernames sent on minting. */
  lemma BoundedOrphans(c: Config, w: UserWorld, steps: seq<UserStep>)
    ensures var l, edits := Keep(c, Opened(w), steps), SecretEdits(steps);
            var had := Count(HasUsername(c, w.store.versions));
            && l.world == Run(c, w, steps)
            && |l.asked * l.minted| <= |l.minted| <= 1 + l.unpersisted + edits - had
            && |l.sent| <= 1 + l.lost + edits - had
  {
    hide Keep, Run, HasUsername;
    KeepFollowsRun(c, Opened(w), steps);
    KeepMintBound(c, Opened(w), steps);
    var l := Keep(c, Opened(w), steps);
    SubsetSize(l.asked * l.minted, l.minted);
  }

  lemma {:induction false} SubsetSize<T>(a: set<T>, b: set<T>)
    requires a <= b
    ensures |a| <= |b|
  {
    if a != {} {
      var x :| x in a;
      SubsetSize(a - {x}, b - {x});
    }
  }

  // ---------------------------------------------------------------- nothing else is left behind

  /** Minted names are text: the namespace and the name of an object are, and so are hex digits. */
  ghost predicate MintsText(c: Config) {
    forall suffix: seq<Byte> :: c.settings.wire(MintedUsername(c, suffix)) == MintedUsername(c, suffix)
  }

  /** Every username found in the secret's versions, in the status, or in Solr beyond the users
      `base` that were there before, was minted in this run. */
  ghost predicate Accountable(c: Config, l: Ledger, base: set<GoString>) {
    && (forall n :: n in l.minted ==> n != [] && c.settings.wire(n) == n)
    && VersionsName(c, l.world.store.versions, l.minted)
    && (l.world.store.resource.Some? ==> l.world.store.resource.value.name in l.minted + {[]})
    && l.world.solr.credentials.Keys <= base + l.minted
    && Surplus(c, l) <= 0
  }

  ghost predicate VersionsName(c: Config, h: History, names: set<GoString>) {
    forall i :: 0 <= i < |h| && h[i].Some? && FieldIn(c, h[i].value, Username) ==>
      h[i].value[SecretKey(Username, c.ref)] in names
  }

  /** The username an ensuring pass works with is the secret's or a new one. */
  lemma EnsuredNameIsAccountable(c: Config, o: UserOracle, h: History, name: GoString, names: set<GoString>)
    requires VersionsName(c, h, names) && [] !in names
    requires !PlanPrepare(c, o, h, name, true).failed
    ensures var p, copy := PlanPrepare(c, o, h, name, true), SecretSeen(o, h, true);
            && copy.Some?
            && (FieldIn(c, copy.value.data, Username) ==> p.creds.username in names)
            && (!FieldIn(c, copy.value.data, Username) ==>
                  o.usernameSuffix.Some? && p.creds.username == MintedUsername(c, o.usernameSuffix.value))
  {
    hide FieldMarks, SecretKey, PlanSecret, MintedUsername, CredentialsIn;
    var copy := SecretSeen(o, h, true);
    FillingFailsIff(c, o, copy.value.data, name);
    FilledCredentials(c, o, copy.value.data, name);
    SeenIsAVersion(c, o, h, true, names);
  }

  lemma SeenIsAVersion(c: Config, o: UserOracle, h: History, ensure: bool, names: set<GoString>)
    requires VersionsName(c, h, names)
    ensures var copy := SecretSeen(o, h, ensure);
            copy.Some? && FieldIn(c, copy.value.data, Username) ==> copy.value.data[SecretKey(Username, c.ref)] in names
    ensures VersionsName(c, PlanGetSecret(o, h, ensure).versions, names)
  {
    hide SecretKey;
  }

  /** The names a reconcile adds to Solr or to the status are the one it resolved. */
  lemma ReconcileNames(c: Config, o: UserOracle, h: History, s: SolrState, name: GoString, ensure: bool)
    ensures var r, p := PlanReconcile(c, o, h, s, name, ensure), PlanPrepare(c, o, h, name, ensure);
            && r.solr.credentials.Keys <= s.credentials.Keys
                 + (if ensure && !p.failed then {c.settings.wire(p.creds.username)} else {})
            && (r.name == name || (ensure && !p.failed && r.name == p.creds.username))
  {
    hide PlanPrepare, PlanObserve, HoldsDefaultRoles, RolesOf, AfterUpdate;
  }

  lemma PassName(c: Config, o: UserOracle, w: UserWorld)
    requires w.store.resource.Some?
    ensures var r' := PlanPass(c, o, w).world.store.resource;
            r'.Some? ==>
              r'.value.name == w.store.resource.value.name
              || (Stage(o, w) == Some(true) && r'.value.name
                    == PlanReconcile(c, o, w.store.versions, w.solr, w.store.resource.value.name, true).name)
  {
    hide PlanReconcile, SetAll;
  }

  /** The versions stored by a pass name only users minted before or in this pass. */
  lemma PassVersionsAccountable(c: Config, l: Ledger, o: UserOracle)
    requires DistinctKeys(c.ref) && VersionsName(c, l.world.store.versions, l.minted)
    ensures var l' := Advance(c, l, Pass(o)); VersionsName(c, l'.world.store.versions, l'.minted)
  {
    hide PlanPass, PlanReconcile, PlanPrepare, PlanGetSecret, SecretFilled, SecretSeen, SecretKey, MintedUsername,
         Persisted, DistinctKeys, AskedFor;
    var w, l', stage := l.world, Advance(c, l, Pass(o)), Stage(o, l.world);
    PassStores(c, o, w);
    if stage.Some? {
      var h, name := w.store.versions, w.store.resource.value.name;
      ReconcileVersions(c, o, h, w.solr, name, stage.value);
      SeenIsAVersion(c, o, h, stage.value, l.minted);
      var copy := SecretSeen(o, h, stage.value);
      if copy.Some? && !SecretFilled(c, o, copy.value.data, name).failed {
        FilledEntries(c, o, copy.value.data, name);
      }
    }
  }

  /** So do the names a pass puts into Solr and into the status. */
  lemma PassNamesAccountable(c: Config, l: Ledger, o: UserOracle, base: set<GoString>)
    requires MintsText(c) && Accountable(c, l, base)
    ensures var l' := Advance(c, l, Pass(o));
            && (l'.world.store.resource.Some? ==> l'.world.store.resource.value.name in l'.minted + {[]})
            && l'.world.solr.credentials.Keys <= base + l'.minted
  {
    hide PlanPass, PlanReconcile, PlanPrepare, PlanGetSecret, SecretSeen, SecretKey, MintedUsername, Persisted, Surplus,
         AskedFor, VersionsName;
    var w, l', stage := l.world, Advance(c, l, Pass(o)), Stage(o, l.world);
    PassStores(c, o, w);
    if w.store.resource.Some? {
      PassName(c, o, w);
    } else {
      NothingToReconcile(c, o, w);
    }
    if stage.Some? {
      var h, name := w.store.versions, w.store.resource.value.name;
      ReconcileNames(c, o, h, w.solr, name, stage.value);
      if stage.value && !PlanPrepare(c, o, h, name, true).failed {
        EnsuredNameIsAccountable(c, o, h, name, l.minted);
      }
    }
  }

  lemma PassStaysAccountable(c: Config, l: Ledger, o: UserOracle, base: set<GoString>)
    requires DistinctKeys(c.ref) && MintsText(c) && Accountable(c, l, base)
    ensures Accountable(c, Advance(c, l, Pass(o)), base)
  {
    hide PlanPass, SecretKey, MintedUsername, Persisted, Surplus, SentSurplus, DistinctKeys, AskedFor, VersionsName,
         SecretSeen;
    AdvanceMintBound(c, l, Pass(o));
    PassVersionsAccountable(c, l, o);
    PassNamesAccountable(c, l, o, base);
  }

  lemma AdvanceStaysAccountable(c: Config, l: Ledger, step: UserStep, base: set<GoString>)
    requires DistinctKeys(c.ref) && MintsText(c) && Accountable(c, l, base)
    requires !step.EditSecret? && !step.EditSolr?
    ensures Accountable(c, Advance(c, l, step), base)
  {
    hide PlanPass, HasUsername, SecretKey;
    if step.Pass? {
      PassStaysAccountable(c, l, step.o, base);
    }
  }

  lemma {:induction false} KeepStaysAccountable(c: Config, l: Ledger, steps: seq<UserStep>, base: set<GoString>)
    requires DistinctKeys(c.ref) && MintsText(c) && Accountable(c, l, base)
    requires forall i :: 0 <= i < |steps| ==> !steps[i].EditSecret? && !steps[i].EditSolr?
    ensures Accountable(c, Keep(c, l, steps), base)
    decreases |steps|
  {
    hide Advance, Accountable, DistinctKeys, MintsText;
    if steps != [] {
      AdvanceStaysAccountable(c, l, steps[0], base);
      KeepStaysAccountable(c, Advance(c, l, steps[0]), steps[1..], base);
    }
  }

  /** The stored username will outlive a pass that releases the User: it is in Solr, was not
      there from the start, and is not the one that the pass works on. */
  predicate StoredUserStays(c: Config, o: UserOracle, w: UserWorld, base: set<GoString>) {
    && w.store.resource.Some? && HasUsername(c, w.store.versions)
    && var u := Latest(w.store.versions).value[SecretKey(Username, c.ref)];
    && u in w.solr.credentials && u !in base && Target(c, o, w) != u
  }

  /** End to end: start without a secret or a User, let the operator run with any failures and
      stale secret reads, and let any pass take the finaliser off. The users that the operator
      left behind in Solr are at most one more than the minting passes that did not store their
      username. With removals that can be trusted the one more is there only if the stored user
      stays; and if every minted username was stored, something is left if and only if it does. */
  lemma LeftoversBounded(c: Config, solr: SolrState, steps: seq<UserStep>, o: UserOracle)
    requires DistinctKeys(c.ref) && MintsText(c)
    requires forall i :: 0 <= i < |steps| ==> !steps[i].EditSecret? && !steps[i].EditSolr?
    requires Releases(c, o, Keep(c, Fresh(solr), steps).world)
    ensures var l, base := Keep(c, Fresh(solr), steps), solr.credentials.Keys;
            var l', stays := Advance(c, l, Pass(o)), StoredUserStays(c, o, l.world, base);
            var left := l'.world.solr.credentials.Keys - base;
            && |left| <= 1 + l'.unpersisted
            && (HonestRemoval(o) ==>
                  && |left| <= l'.unpersisted + Count(stays)
                  && (c.settings.wire([]) == [] && l'.unpersisted == 0 ==> (left != {} <==> stays)))
  {
    hide PlanPass, Releases, Keep, Advance, DistinctKeys, MintsText, HonestRemoval, StoredUserStays;
    assert Accountable(c, Fresh(solr), solr.credentials.Keys) by { FreshIsAccountable(c, solr); }
    KeepStaysAccountable(c, Fresh(solr), steps, solr.credentials.Keys);
    ReleaseLeavesAtMost(c, Keep(c, Fresh(solr), steps), o, solr.credentials.Keys);
  }

  /** The one more is real: the first pass stores its username but cannot write the status, the
      User is deleted, and the secret cannot be read then. Every minted username was stored, and
      still the user is left behind, after a pass that reports no error. */
  lemma OneLeftoverWithoutStatus(c: Config, suffix: seq<Byte>, bytes: seq<Byte>, salt: seq<Byte>)
    requires DistinctKeys(c.ref) && MintsText(c) && c.url.Some? && c.settings.wire([]) == []
    requires c.settings.wire(Hex(bytes)) == Hex(bytes)
    ensures var first := SmoothOracle(suffix, bytes, salt).(writeStatus := Reply(false, false));
            var steps := [CreateUserResource(false, []), Pass(first), RequestDeletion];
            var l := Keep(c, Fresh(SolrState(map[], map[], {})), steps);
            var o := SmoothOracle(suffix, bytes, salt).(readSecret := Unavailable);
            var l' := Advance(c, l, Pass(o));
            && Releases(c, o, l.world) && !PlanPass(c, o, l.world).failed && l'.unpersisted == 0
            && MintedUsername(c, suffix) in l'.world.solr.credentials
  {
    hide PlanPass, Releases, DistinctKeys, MintsText, MintedUsername, SecretKey, Hex, Minted, Persisted, AskedFor;
    var first := SmoothOracle(suffix, bytes, salt).(writeStatus := Reply(false, false));
    var o := SmoothOracle(suffix, bytes, salt).(readSecret := Unavailable);
    var l0 := Fresh(SolrState(map[], map[], {}));
    var l1 := Advance(c, l0, CreateUserResource(false, []));
    FirstPassWithoutStatus(c, l1, suffix, bytes, salt);
    FailedReadAfterwards(c, Advance(c, l1, Pass(first)), o, suffix);
    KeepThree(c, l0, CreateUserResource(false, []), Pass(first), RequestDeletion);
  }

  lemma KeepThree(c: Config, l: Ledger, s1: UserStep, s2: UserStep, s3: UserStep)
    ensures Keep(c, l, [s1, s2, s3]) == Advance(c, Advance(c, Advance(c, l, s1), s2), s3)
  {
    hide Advance;
    assert [s1, s2, s3][1..] == [s2, s3] && [s2, s3][1..] == [s3] && [s3][1..] == [];
    assert Keep(c, Advance(c, l, s1), [s2, s3]) == Keep(c, Advance(c, Advance(c, l, s1), s2), [s3]);
  }

  lemma FirstPassWithoutStatus(c: Config, l: Ledger, suffix: seq<Byte>, bytes: seq<Byte>, salt: seq<Byte>)
    requires l.world == World(Store(Some(Resource(false, false, false, [], [])), [None]), SolrState(map[], map[], {}))
    requires DistinctKeys(c.ref) && MintsText(c) && c.url.Some? && c.settings.wire(Hex(bytes)) == Hex(bytes)
    ensures var l' := Advance(c, l, Pass(SmoothOracle(suffix, bytes, salt).(writeStatus := Reply(false, false))));
            var w', u := l'.world, MintedUsername(c, suffix);
            && l'.unpersisted == l.unpersisted && StoresName(c, w'.store.versions, u) && w'.solr.credentials.Keys == {u}
            && w'.store.resource.Some?
            && w'.store.resource.value.(conditions := []) == Resource(true, false, false, [], [])
  {
    hide PlanPass, PlanReconcile, PlanPrepare, SecretFilled, SecretKey, MintedUsername, Hex, DistinctKeys, Parses,
         HoldsDefaultRoles, AskedFor;
    var o := SmoothOracle(suffix, bytes, salt).(writeStatus := Reply(false, false));
    var w, h, u := l.world, l.world.store.versions, MintedUsername(c, suffix);
    SmoothPreparation(c, o, h, []);
    FilledEntries(c, o, map[], []);
    FilledCredentials(c, o, map[], []);
    AbsentUserParses(c, w.solr, u);
    SmoothReconcile(c, o, h, w.solr, []);
    ReconcileNames(c, o, h, w.solr, [], true);
    ReconcileVersions(c, o, h, w.solr, [], true);
    PassStores(c, o, w);
    UnwrittenStatus(c, o, w);
    assert Minted(c, o, w) == Some(u);
    assert StoresName(c, PlanPass(c, o, w).world.store.versions, u);
    assert Persisted(c, o, w);
  }

  /** A pass whose last status write is lost leaves the name as it was. */
  lemma UnwrittenStatus(c: Config, o: UserOracle, w: UserWorld)
    requires Stage(o, w) == Some(true) && !o.writeStatus.reached
    ensures var r' := PlanPass(c, o, w).world.store.resource;
            && r'.Some? && r'.value.name == w.store.resource.value.name
            && r'.value.foreign == w.store.resource.value.foreign
            && r'.value.deleting == w.store.resource.value.deleting
            && (!w.store.resource.value.deleting ==> r'.value.finalised)
  {
    hide PlanReconcile, SetAll;
  }

  lemma FailedReadAfterwards(c: Config, l: Ledger, o: UserOracle, suffix: seq<Byte>)
    requires SmoothButRead(o) && o.readSecret == Unavailable && l.unpersisted == 0 && c.settings.wire([]) == []
    requires StoresName(c, l.world.store.versions, MintedUsername(c, suffix))
    requires l.world.solr.credentials.Keys == {MintedUsername(c, suffix)}
    requires l.world.store.resource.Some?
    requires l.world.store.resource.value.(conditions := []) == Resource(true, false, false, [], [])
    ensures var l1 := Advance(c, l, RequestDeletion);
            var l2 := Advance(c, l1, Pass(o));
            && Releases(c, o, l1.world) && !PlanPass(c, o, l1.world).failed && l2.unpersisted == 0
            && MintedUsername(c, suffix) in l2.world.solr.credentials
  {
    hide PlanPass, Releases, MintedUsername, SecretKey, AskedFor, CheckUserAnswer, HoldsDefaultRoles;
    var w, r := Advance(c, l, RequestDeletion).world, l.world.store.resource.value;
    assert r.(conditions := []).name == [] && r.(conditions := []).finalised && !r.(conditions := []).foreign;
    assert w.store.resource == Some(r.(deleting := true)) && w.solr == l.world.solr;
    assert Target(c, o, w) == [];
    ReleasesIff(c, o, w);
    ReleaseMeansRemoved(c, o, w);
  }

  /** No User, no secret, and whatever Solr holds. */
  function Fresh(solr: SolrState): Ledger {
    Opened(World(Store(None, [None]), solr))
  }

  lemma FreshIsAccountable(c: Config, solr: SolrState)
    ensures Accountable(c, Fresh(solr), solr.credentials.Keys)
  {
  }

  /** What a pass leaves in Solr was minted, and the minted usernames are accounted for. */
  lemma PassLeavesMinted(c: Config, l: Ledger, o: UserOracle, base: set<GoString>)
    requires DistinctKeys(c.ref) && MintsText(c) && Accountable(c, l, base)
    ensures var l' := Advance(c, l, Pass(o));
            && l'.world == PlanPass(c, o, l.world).world && l.minted <= l'.minted
            && l'.world.solr.credentials.Keys - base <= l'.minted
            && |l'.minted| <= l'.unpersisted + Count(HasUsername(c, l'.world.store.versions))
  {
    hide PlanPass, SecretKey, MintedUsername, Persisted, SentSurplus, DistinctKeys, AskedFor, VersionsName,
         HasUsername, Minted;
    PassStaysAccountable(c, l, o, base);
  }

  lemma ReleaseLeavesAtMost(c: Config, l: Ledger, o: UserOracle, base: set<GoString>)
    requires DistinctKeys(c.ref) && MintsText(c) && Accountable(c, l, base) && Releases(c, o, l.world)
    ensures var l', stays := Advance(c, l, Pass(o)), StoredUserStays(c, o, l.world, base);
            var left := l'.world.solr.credentials.Keys - base;
            && |left| <= 1 + l'.unpersisted
            && (HonestRemoval(o) ==>
                  && |left| <= l'.unpersisted + Count(stays)
                  && (c.settings.wire([]) == [] && l'.unpersisted == 0 ==> (left != {} <==> stays)))
  {
    hide PlanPass, Releases, SecretKey, DistinctKeys, Persisted, MintsText, VersionsName, Minted, HonestRemoval,
         StoredUserStays, Surplus, Accountable, Advance;
    PassLeavesMinted(c, l, o, base);
    var l', h := Advance(c, l, Pass(o)), l.world.store.versions;
    var left := l'.world.solr.credentials.Keys - base;
    SubsetSize(left, l'.minted);
    if HonestRemoval(o) {
      StoredNameAtRelease(c, l, o, base);
      if HasUsername(c, h) {
        var u := Latest(h).value[SecretKey(Username, c.ref)];
        if !StoredUserStays(c, o, l.world, base) {
          SubsetSize(left, l'.minted - {u});
        } else if c.settings.wire([]) == [] {
          assert u in left;
        }
      }
    }
  }

  /** The pass that releases the User stores nothing new, and removes the stored username if and
      only if it works on it. */
  lemma StoredNameAtRelease(c: Config, l: Ledger, o: UserOracle, base: set<GoString>)
    requires MintsText(c) && Accountable(c, l, base) && Releases(c, o, l.world) && HonestRemoval(o)
    ensures var h, w' := l.world.store.versions, PlanPass(c, o, l.world).world;
            && w'.store.versions == h
            && (HasUsername(c, h) ==>
                  var n := Latest(h).value[SecretKey(Username, c.ref)];
                  && n in l.minted
                  && (n in w'.solr.credentials.Keys - base ==> StoredUserStays(c, o, l.world, base))
                  && (c.settings.wire([]) == [] && StoredUserStays(c, o, l.world, base) ==>
                        n in w'.solr.credentials.Keys - base))
    ensures !HasUsername(c, l.world.store.versions) ==> !StoredUserStays(c, o, l.world, base)
  {
    hide PlanPass, PlanReconcile, Releases, SecretKey, MintedUsername, Surplus, ResolvedName, RemovalAnswered,
         HoldsDefaultRoles;
    var w := l.world;
    ReleasesIff(c, o, w);
    ReleaseMeansRemoved(c, o, w);
    PassStores(c, o, w);
    var h, name := w.store.versions, w.store.resource.value.name;
    ReconcileVersions(c, o, h, w.solr, name, false);
    ReconcileNames(c, o, h, w.solr, name, false);
    TargetIsAccountable(c, l, o, base);
  }

  /** A deleting pass works on a minted username, or on none. */
  lemma TargetIsAccountable(c: Config, l: Ledger, o: UserOracle, base: set<GoString>)
    requires MintsText(c) && Accountable(c, l, base) && l.world.store.resource.Some?
    ensures var n := Target(c, o, l.world); n == [] || c.settings.wire(n) == n
  {
    hide SecretKey, MintedUsername, Surplus;
    SeenIsAVersion(c, o, l.world.store.versions, false, l.minted);
  }

  // ---------------------------------------------------------------- the finaliser comes first

  /** The operator's own finaliser is on any User object for which it attempted a creation. */
  predicate FinalisedFirst(l: Ledger) {
    l.touched && l.world.store.resource.Some? ==> l.world.store.resource.value.finalised
  }

  /** No other controller finalises the User, and a User being deleted still has a finaliser. */
  predicate OnlyOurs(w: UserWorld) {
    w.store.resource.Some? ==>
      !w.store.resource.value.foreign && (w.store.resource.value.deleting ==> w.store.resource.value.finalised)
  }

  lemma CreationsComeFromEnsuring(c: Config, o: UserOracle, w: UserWorld)
    ensures var out := PlanPass(c, o, w);
            (CreateDocument in out.apiCalls || AskedFor(out.solrCalls) != {}) ==> Stage(o, w) == Some(true)
  {
    hide SetAll, HoldsDefaultRoles, RolesOf, PlanSecret, PlanCredentials, FieldMarks, CheckUserAnswer;
    if Stage(o, w) == Some(false) {
      var p := PlanReconcile(c, o, w.store.versions, w.solr, w.store.resource.value.name, false);
      assert CreateDocument !in p.apiCalls;
      assert forall i :: 0 <= i < |p.solrCalls| ==> !p.solrCalls[i].SetUser?;
    }
  }

  /** A creating pass leaves the finaliser in place, unless the User was being deleted without
      it before the pass began: only then can an unfinalised User be created for. */
  lemma CreationIsFinalised(c: Config, o: UserOracle, w: UserWorld)
    ensures var out := PlanPass(c, o, w);
            (CreateDocument in out.apiCalls || AskedFor(out.solrCalls) != {}) ==>
              && w.store.resource.Some? && out.world.store.resource.Some?
              && (out.world.store.resource.value.finalised
                  <==> w.store.resource.value.finalised || !w.store.resource.value.deleting)
  {
    hide PlanPass, AskedFor;
    CreationsComeFromEnsuring(c, o, w);
    if w.store.resource.Some? {
      PassResource(c, o, w);
    }
  }

  lemma AdvanceFinalisedFirst(c: Config, l: Ledger, step: UserStep)
    requires FinalisedFirst(l) && OnlyOurs(l.world)
    requires !(step.CreateUserResource? && step.foreign) && !(step.SetForeign? && step.foreign)
    ensures FinalisedFirst(Advance(c, l, step)) && OnlyOurs(Advance(c, l, step).world)
  {
    hide PlanPass, Minted, Persisted, AskedFor;
    if step.Pass? {
      CreationIsFinalised(c, step.o, l.world);
      if l.world.store.resource.Some? {
        PassResource(c, step.o, l.world);
      } else {
        NothingToReconcile(c, step.o, l.world);
      }
    }
  }

  /** Finaliser first, in every reachable state: as long as no other controller finalises the
      User, any User object for which the operator attempted to create a secret or a Solr user
      carries the operator's finaliser. */
  lemma {:induction false} AlwaysFinalisedFirst(c: Config, l: Ledger, steps: seq<UserStep>)
    requires FinalisedFirst(l) && OnlyOurs(l.world)
    requires forall i :: 0 <= i < |steps| ==>
               !(steps[i].CreateUserResource? && steps[i].foreign) && !(steps[i].SetForeign? && steps[i].foreign)
    ensures FinalisedFirst(Keep(c, l, steps))
    decreases |steps|
  {
    hide Advance, FinalisedFirst, OnlyOurs;
    if steps != [] {
      AdvanceFinalisedFirst(c, l, steps[0]);
      AlwaysFinalisedFirst(c, Advance(c, l, steps[0]), steps[1..]);
    }
  }

  /** Another controller's finaliser breaks it: a User that our clean-up released but that is
      still there is brought up again, without our finaliser. */
  lemma ForeignFinaliserRevives(c: Config, name: GoString, suffix: seq<Byte>, bytes: seq<Byte>, salt: seq<Byte>)
    ensures var w := World(Store(Some(Resource(false, true, true, [], name)), [None]), SolrState(map[], map[], {}));
            var l := Advance(c, Opened(w), Pass(SmoothOracle(suffix, bytes, salt)));
            l.touched && !FinalisedFirst(l)
  {
    hide SetAll, PlanSecret, PlanCredentials, FieldMarks, MintedUsername, Persisted, AskedFor, Minted,
         HoldsDefaultRoles, RolesOf;
    var w := World(Store(Some(Resource(false, true, true, [], name)), [None]), SolrState(map[], map[], {}));
    var o := SmoothOracle(suffix, bytes, salt);
    PassResource(c, o, w);
    assert CreateDocument in PlanGetSecret(o, w.store.versions, true).calls;
    assert CreateDocument in PlanReconcile(c, o, w.store.versions, w.solr, name, true).apiCalls;
  }
}
