/** The conditions in the status of a User: what each of them says after a pass, and when. */
module UserStatus {
  import opened GoValues
  import opened Conditions
  import opened SolrClient
  import opened Cluster
  import opened UserPlan
  import opened UserRuns
  import opened UserDeletion
  import opened UserConvergence
  import opened UserOutcomes

  // ---------------------------------------------------------------- the secret's conditions

  lemma EmptySecretSays()
    ensures forall k :: Says(EmptySecretMarks(), k)
                        == if k in {SecretUsername, SecretPassword, SecretEndpoint, SecretEndpointHostname}
                           then Some(False) else None
  {
    var m := EmptySecretMarks();
    hide Says;
    assert m == [m[0], m[1]] + [m[2], m[3]];
    forall k
      ensures Says(m, k) == if k in {SecretUsername, SecretPassword, SecretEndpoint, SecretEndpointHostname}
                            then Some(False) else None
    {
      SaysOfSum([m[0], m[1]], [m[2], m[3]], k);
      SaysOfTwo(m[0], m[1], k);
      SaysOfTwo(m[2], m[3], k);
    }
  }

  lemma LoadedSays(o: UserOracle, h: History, kind: UserCondition)
    ensures var g := PlanGetSecret(o, h, true);
            && Says(g.marks, SecretExists) == Some(if g.copy.Some? then True else Unknown)
            && (kind in SOLR_CONDITIONS + [UserAvailable, SecretAvailable] ==> Says(g.marks, kind).None?)
  {
    hide Says, EmptySecretMarks;
    var g := PlanGetSecret(o, h, true);
    if |g.calls| == 1 {
      SaysOfOne(g.marks[0], SecretExists);
      SaysOfOne(g.marks[0], kind);
    } else {
      var two := [Condition(SecretExists, Unknown, "FailedLoad"),
                  if g.copy.Some? then Condition(SecretExists, True, "Created")
                  else Condition(SecretExists, Unknown, "FailedCreation")];
      EmptySecretSays();
      SaysOfTwo(two[0], two[1], SecretExists);
      SaysOfTwo(two[0], two[1], kind);
      SaysOfSum(two, EmptySecretMarks(), SecretExists);
      SaysOfSum(two, EmptySecretMarks(), kind);
    }
  }

  /** The four conditions of a loaded secret: an entry is there or it is not. */
  lemma FieldsSay(c: Config, data: Data, kind: UserCondition)
    ensures forall f :: Says(FieldMarks(c, data), ConditionOf(f)) == Some(if FieldIn(c, data, f) then True else False)
    ensures kind in SOLR_CONDITIONS + [UserAvailable, SecretExists, SecretAvailable] ==>
              Says(FieldMarks(c, data), kind).None?
  {
    hide FieldIn;
    var m := FieldMarks(c, data);
    assert m == [m[0], m[1]] + [m[2], m[3]];
    forall k
      ensures Says(m, k) == if m[3].kind == k then Some(m[3].status) else if m[2].kind == k then Some(m[2].status)
                            else if m[1].kind == k then Some(m[1].status) else if m[0].kind == k then Some(m[0].status)
                            else None
    {
      SaysOfSum([m[0], m[1]], [m[2], m[3]], k);
      SaysOfTwo(m[0], m[1], k);
      SaysOfTwo(m[2], m[3], k);
    }
  }

  const SECRET_CONDITIONS :=
    [SecretExists, SecretUsername, SecretPassword, SecretEndpoint, SecretEndpointHostname, SecretAvailable]
  const SOLR_CONDITIONS := [UserExists, PasswordUpToDate, UserHasRoles]

  /** What filling in the secret adds: everything it lacked is there afterwards. */
  lemma FilledSays(c: Config, o: UserOracle, data: Data, name: GoString, kind: UserCondition)
    ensures var s := SecretFilled(c, o, data, name);
            if s.failed then s.marks == []
            else
              Says(s.marks, kind) ==
              match kind
              case SecretUsername => if FieldIn(c, data, Username) then None else Some(True)
              case SecretPassword => if FieldIn(c, data, Password) then None else Some(True)
              case SecretEndpoint => Some(True)
              case SecretEndpointHostname => Some(True)
              case SecretAvailable => Some(True)
              case _ => None
  {
    hide Says, SecretKey, FieldIn, PlanCredentials, MintUsername, MintPassword, PutEndpoint, PutHostname;
    var s := SecretFilled(c, o, data, name);
    if !s.failed {
      EmptySaysNothing<UserCondition>();
      var d0 := Draft(data, PlanCredentials(c, Some(Copy(0, data)), name), false, []);
      var d1 := if FieldIn(c, data, Username) then d0 else MintUsername(c, o.usernameSuffix.value, d0);
      var d2 := if FieldIn(c, data, Password) then d1 else MintPassword(c, o.passwordBytes.value, d1);
      var d3 := PutEndpoint(c, d2);
      var d4 := PutHostname(c, c.url.value, d3);
      if !FieldIn(c, data, Username) {
        MintingSays(c, o.usernameSuffix.value, d0, kind);
      }
      if !FieldIn(c, data, Password) {
        MintingSays(c, o.passwordBytes.value, d1, kind);
      }
      PuttingSays(c, c.url.value, d2, kind);
      PuttingSays(c, c.url.value, d3, kind);
      SaysOfAppend(d4.marks, Condition(SecretAvailable, True, "Ready"), kind);
    }
  }

  lemma MintingSays(c: Config, bytes: seq<Byte>, d: Draft, kind: UserCondition)
    ensures Says(MintUsername(c, bytes, d).marks, kind)
         == if kind == SecretUsername then Some(True) else Says(d.marks, kind)
    ensures Says(MintPassword(c, bytes, d).marks, kind)
         == if kind == SecretPassword then Some(True) else Says(d.marks, kind)
  {
    hide Says, SecretKey, MintedUsername, Hex;
    SaysOfAppend(d.marks, Condition(SecretUsername, True, "GeneratedUsername"), kind);
    SaysOfAppend(d.marks, Condition(SecretPassword, True, "GeneratedPassword"), kind);
  }

  lemma PuttingSays(c: Config, url: Url, d: Draft, kind: UserCondition)
    ensures Says(PutEndpoint(c, d).marks, kind) == if kind == SecretEndpoint then Some(True) else Says(d.marks, kind)
    ensures Says(PutHostname(c, url, d).marks, kind)
         == if kind == SecretEndpointHostname then Some(True) else Says(d.marks, kind)
  {
    hide Says, SecretKey;
    var e, n := PutEndpoint(c, d).marks, PutHostname(c, url, d).marks;
    SaysOfAppend(d.marks, e[|d.marks|], kind);
    SaysOfAppend(d.marks, n[|d.marks|], kind);
  }

  /** A prepared secret is reported complete, and nothing is said about Solr. */
  lemma PreparedSays(c: Config, o: UserOracle, h: History, name: GoString, kind: UserCondition)
    ensures var p := PlanPrepare(c, o, h, name, true);
            && (!p.failed && kind in SECRET_CONDITIONS ==> Says(p.marks, kind) == Some(True))
            && (kind in SOLR_CONDITIONS + [UserAvailable] ==> Says(p.marks, kind).None?)
  {
    hide Says, SecretKey, FieldIn, FieldMarks, PlanSecret, CredentialsIn;
    var g := PlanGetSecret(o, h, true);
    LoadedSays(o, h, kind);
    if g.copy.Some? {
      var data, s := g.copy.value.data, SecretFilled(c, o, g.copy.value.data, name);
      FieldsSay(c, data, kind);
      assert ConditionOf(Username) == SecretUsername && ConditionOf(Password) == SecretPassword;
      FilledSays(c, o, data, name, kind);
      SaysOfSum(g.marks, FieldMarks(c, data), kind);
      SaysOfSum(g.marks + FieldMarks(c, data), s.marks, kind);
      EmptySaysNothing<UserCondition>();
    }
  }

  // ---------------------------------------------------------------- Solr's conditions

  /** Two conditions come first, the roles after them, if the look gets that far. */
  lemma ObservedMarksSay(c: Config, o: UserOracle, s: SolrState, n: Creds, kind: UserCondition)
    requires o.readExistence
    ensures var m := PlanObserve(c, o, s, n).marks;
            && |m| >= 2 && m[0].kind == UserExists && m[1].kind == PasswordUpToDate
            && (kind == UserExists ==> Says(m, kind) == Some(m[0].status))
            && (kind == PasswordUpToDate ==> Says(m, kind) == Some(m[1].status))
            && (kind == UserHasRoles ==> Says(m, kind) == if |m| > 2 then Some(m[2].status) else None)
            && (kind !in SOLR_CONDITIONS ==> Says(m, kind).None?)
            && (|m| > 2 ==> m[2].kind == UserHasRoles)
  {
    hide Says, HoldsDefaultRoles, CheckUserAnswer;
    var m := PlanObserve(c, o, s, n).marks;
    SaysOfTwo(m[0], m[1], kind);
    if |m| > 2 {
      SaysOfAppend([m[0], m[1]], m[2], kind);
      assert m == [m[0], m[1]] + [m[2]];
    } else {
      assert m == [m[0], m[1]];
    }
  }

  /** What a look at Solr reports, as far as it gets. */
  lemma ObservationSays(c: Config, o: UserOracle, s: SolrState, n: Creds, kind: UserCondition)
    ensures var m, here := PlanObserve(c, o, s, n).marks, n.username in s.credentials;
            Says(m, kind) ==
            match kind
            case UserExists => if !o.readExistence then None else Some(if here then True else False)
            case PasswordUpToDate =>
              if !o.readExistence then None
              else if here && !(o.readCredential && Parses(c, s, n.username)) then Some(Unknown)
              else Some(if Accepts(c.settings, s, n.username, n.password) then True else False)
            case UserHasRoles =>
              if !LookAnswered(c, o, s, n.username) then None
              else Some(if HoldsDefaultRoles(s, n.username) then True else False)
            case _ => None
  {
    hide Says, HoldsDefaultRoles, CheckUserAnswer;
    ParsesForAnyPassword(c, s, n.username, n.password);
    AbsentUserParses(c, s, n.username);
    AcceptsIfAnswered(c, s, n.username, n.password);
    if o.readExistence {
      ObservedMarksSay(c, o, s, n, kind);
    } else {
      EmptySaysNothing<UserCondition>();
    }
  }

  lemma AcceptsIfAnswered(c: Config, s: SolrState, n: GoString, password: GoString)
    ensures Accepts(c.settings, s, n, password)
       <==> n in s.credentials && CheckUserAnswer(c.settings, s, n, password) == Ok(true)
  {
  }

  /** The user is as wanted in Solr, by then or before, as far as answers tell. */
  predicate UserSet(c: Config, o: UserOracle, s: SolrState, n: Creds) {
    LookAnswered(c, o, s, n.username) && (Accepts(c.settings, s, n.username, n.password) || o.setUser.answered)
  }

  /** What the writes to Solr add to that. */
  lemma WritesSay(c: Config, o: UserOracle, s: SolrState, n: Creds, kind: UserCondition)
    ensures var ob := PlanObserve(c, o, s, n);
            var u := PlanSetUser(c, o, s, ob, n);
            var m, sent := u.marks, !Accepts(c.settings, s, n.username, n.password);
            !ob.failed ==>
              && (u.failed <==> sent && !o.setUser.answered)
              && Says(m, UserExists)
                 == (if sent && o.setUser.answered && n.username !in s.credentials then Some(True) else None)
              && Says(m, PasswordUpToDate)
                 == (if !sent || (!o.setUser.answered && n.username !in s.credentials) then None
                     else Some(if o.setUser.answered then True else Unknown))
              && (kind !in {UserExists, PasswordUpToDate} ==> Says(m, kind).None?)
  {
    hide Says, PlanObserve, Accepts;
    EmptySaysNothing<UserCondition>();
    ObservationIsTrue(c, o, s, n);
    var m := PlanSetUser(c, o, s, PlanObserve(c, o, s, n), n).marks;
    forall k
      ensures |m| == 1 ==> Says(m, k) == if k == m[0].kind then Some(m[0].status) else None
      ensures |m| == 2 ==> Says(m, k) == if k == m[1].kind then Some(m[1].status)
                                         else if k == m[0].kind then Some(m[0].status) else None
    {
      if |m| == 1 {
        SaysOfOne(m[0], k);
        assert m == [m[0]];
      } else if |m| == 2 {
        SaysOfTwo(m[0], m[1], k);
        assert m == [m[0], m[1]];
      }
    }
  }

  lemma RolesSay(c: Config, o: UserOracle, s: SolrState, ob: Observation, n: Creds, kind: UserCondition)
    ensures var r := PlanSetRoles(c, o, s, ob, n);
            && (r.failed <==> !ob.hasRoles && !(o.rereadRoles && o.setRoles.answered))
            && Says(r.marks, kind) == if kind == UserHasRoles && !ob.hasRoles && !r.failed then Some(True) else None
  {
    hide Says, RolesOf;
    EmptySaysNothing<UserCondition>();
    SaysOfOne(Condition(UserHasRoles, True, "AddededRoles"), kind);
  }

  /** Exactly when an ensuring reconcile reports success, answer by answer. */
  lemma ReconcileSucceedsIff(c: Config, o: UserOracle, h: History, s: SolrState, name: GoString)
    ensures var p := PlanPrepare(c, o, h, name, true);
            !PlanReconcile(c, o, h, s, name, true).failed
            <==> !p.failed && UserSet(c, o, s, p.creds)
                 && (HoldsDefaultRoles(s, p.creds.username) || (o.rereadRoles && o.setRoles.answered))
  {
    hide Says, PlanPrepare, PlanObserve, Accepts, HoldsDefaultRoles, LookAnswered, AfterUpdate, RolesOf;
    var n := PlanPrepare(c, o, h, name, true).creds;
    LookSucceedsIff(c, o, s, n);
    ObservationIsTrue(c, o, s, n);
  }

  /** What a pass has found or been answered about the user in Solr. */
  predicate KnownTrue(c: Config, o: UserOracle, s: SolrState, n: Creds, kind: UserCondition) {
    match kind
    case UserExists => n.username in s.credentials || UserSet(c, o, s, n)
    case PasswordUpToDate =>
      (o.readCredential && Accepts(c.settings, s, n.username, n.password)) || UserSet(c, o, s, n)
    case UserHasRoles =>
      LookAnswered(c, o, s, n.username)
      && (HoldsDefaultRoles(s, n.username) || (UserSet(c, o, s, n) && o.rereadRoles && o.setRoles.answered))
    case _ => false
  }

  /** All that an ensuring reconcile reports: a condition of Solr is True if and only if the pass
      found it so, or was answered that it is so now, and what the pass did not get to is not
      reported; the conditions of the secret are as its preparation left them. */
  lemma ReconcileSays(c: Config, o: UserOracle, h: History, s: SolrState, name: GoString, kind: UserCondition)
    ensures var p, m := PlanPrepare(c, o, h, name, true), PlanReconcile(c, o, h, s, name, true).marks;
            var looked := !p.failed && o.readExistence
                          && (kind == UserHasRoles ==> LookAnswered(c, o, s, p.creds.username));
            if kind in SOLR_CONDITIONS then
              && (Says(m, kind).Some? <==> looked)
              && (Says(m, kind) == Some(True) <==> looked && KnownTrue(c, o, s, p.creds, kind))
            else Says(m, kind) == Says(p.marks, kind)
  {
    hide Says, PlanPrepare, PlanObserve, PlanSetUser, PlanSetRoles, PlanEnsure, Accepts, HoldsDefaultRoles;
    var p := PlanPrepare(c, o, h, name, true);
    PreparedSays(c, o, h, name, kind);
    if !p.failed {
      var n, ob := p.creds, PlanObserve(c, o, s, p.creds);
      ObservationSays(c, o, s, n, kind);
      LookSucceedsIff(c, o, s, n);
      ObservationIsTrue(c, o, s, n);
      AcceptsIfAnswered(c, s, n.username, n.password);
      WritesSay(c, o, s, n, kind);
      RolesSay(c, o, PlanSetUser(c, o, s, ob, n).solr, ob, n, kind);
      ReconcileMarks(c, o, h, s, name, kind);
    }
  }

  /** Later parts of a reconcile have the last word. */
  lemma ReconcileMarks(c: Config, o: UserOracle, h: History, s: SolrState, name: GoString, kind: UserCondition)
    ensures var p := PlanPrepare(c, o, h, name, true);
            var ob := PlanObserve(c, o, s, p.creds);
            var u := PlanSetUser(c, o, s, ob, p.creds);
            var r := PlanSetRoles(c, o, u.solr, ob, p.creds);
            !p.failed ==>
              Says(PlanReconcile(c, o, h, s, name, true).marks, kind)
              == if !ob.failed && !u.failed && Says(r.marks, kind).Some? then Says(r.marks, kind)
                 else if !ob.failed && Says(u.marks, kind).Some? then Says(u.marks, kind)
                 else if Says(ob.marks, kind).Some? then Says(ob.marks, kind)
                 else Says(p.marks, kind)
  {
    hide Says, PlanPrepare, PlanObserve, PlanSetUser, PlanSetRoles, AfterUpdate;
    var p := PlanPrepare(c, o, h, name, true);
    var ob := PlanObserve(c, o, s, p.creds);
    var u := PlanSetUser(c, o, s, ob, p.creds);
    var r := PlanSetRoles(c, o, u.solr, ob, p.creds);
    SaysOfSum(p.marks, ob.marks, kind);
    SaysOfSum(p.marks + ob.marks, u.marks, kind);
    SaysOfSum(p.marks + ob.marks, u.marks + r.marks, kind);
    SaysOfSum(u.marks, r.marks, kind);
  }

  // ---------------------------------------------------------------- the stored status

  lemma ReconcilingSays(kind: UserCondition)
    ensures Says(ReconcilingMarks(), kind)
         == if kind == UserAvailable then Some(False) else if kind in SOLR_CONDITIONS then Some(Unknown) else None
  {
    var m := ReconcilingMarks();
    hide Says;
    assert m == [m[0], m[1]] + [m[2], m[3]];
    SaysOfSum([m[0], m[1]], [m[2], m[3]], kind);
    SaysOfTwo(m[0], m[1], kind);
    SaysOfTwo(m[2], m[3], kind);
  }

  /** The status after an ensuring pass, condition by condition: with the last write, what the pass
      has reported, and whether it succeeded; without it, "Reconciling" for a new User, and what
      was stored for any other. */
  lemma StatusAfterPass(c: Config, o: UserOracle, w: UserWorld, kind: UserCondition)
    requires Stage(o, w) == Some(true)
    ensures var r, r' := w.store.resource.value, PlanPass(c, o, w).world.store.resource;
            var p := PlanReconcile(c, o, w.store.versions, w.solr, r.name, true);
            var start := if r.finalised || r.deleting then Stored(r.conditions, kind)
                         else if kind == UserAvailable then Some(False)
                         else if kind in SOLR_CONDITIONS then Some(Unknown) else Stored(r.conditions, kind);
            && r'.Some?
            && Stored(r'.value.conditions, kind) ==
               if !o.writeStatus.reached then start
               else if kind == UserAvailable then Some(if p.failed then False else True)
               else if Says(p.marks, kind).Some? then Says(p.marks, kind) else start
  {
    hide PlanReconcile, Says, Stored, SetAll, ReconcilingMarks;
    var r := w.store.resource.value;
    var p := PlanReconcile(c, o, w.store.versions, w.solr, r.name, true);
    var verdict := if p.failed then Condition(UserAvailable, False, "ReconciliationFailed")
                   else Condition(UserAvailable, True, "ReconcileSuccess");
    forall marks
      ensures Says(marks + p.marks + [verdict], kind)
           == if kind == UserAvailable then Some(verdict.status)
              else if Says(p.marks, kind).Some? then Says(p.marks, kind) else Says(marks, kind)
      ensures Stored(SetAll(r.conditions, marks + p.marks + [verdict]), kind)
           == if kind == UserAvailable then Some(verdict.status)
              else if Says(p.marks, kind).Some? then Says(p.marks, kind)
              else if Says(marks, kind).Some? then Says(marks, kind) else Stored(r.conditions, kind)
    {
      SaysOfAppend(marks + p.marks, verdict, kind);
      SaysOfSum(marks, p.marks, kind);
      StoredAfter(r.conditions, marks + p.marks + [verdict], kind);
    }
    ReconcilingSays(kind);
    StoredAfter(r.conditions, ReconcilingMarks(), kind);
    assert Says([], kind).None? by { EmptySaysNothing<UserCondition>(); }
  }

  /** After a pass without an error every condition is True. */
  lemma SuccessIsReported(c: Config, o: UserOracle, w: UserWorld, kind: UserCondition)
    requires Stage(o, w) == Some(true)
    requires kind in SECRET_CONDITIONS + SOLR_CONDITIONS + [UserAvailable]
    ensures var out := PlanPass(c, o, w);
            !out.failed ==>
              && out.world.store.resource.Some?
              && Stored(out.world.store.resource.value.conditions, kind) == Some(True)
  {
    hide PlanPass, PlanReconcile, PlanPrepare, Says, Stored, Accepts, HoldsDefaultRoles;
    var h, name := w.store.versions, w.store.resource.value.name;
    PassFailsIff(c, o, w);
    StatusAfterPass(c, o, w, kind);
    ReconcileSucceedsIff(c, o, h, w.solr, name);
    ReconcileSays(c, o, h, w.solr, name, kind);
    PreparedSays(c, o, h, name, kind);
  }
}
