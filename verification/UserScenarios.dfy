/** Whole passes over a User written out, call by call and condition by condition: the first one,
    one that finds another password and other roles in Solr, and the last one. Nothing fails. */
module UserScenarios {
  import opened GoValues
  import opened Conditions
  import opened Credentials
  import opened SolrClient
  import opened Cluster
  import opened UserPlan
  import opened UserRuns
  import opened UserLedger

  /** The secret of a User that names no keys. */
  function PublishedData(c: Config, url: Url, username: GoString, password: GoString): Data {
    map["username" := username, "password" := password, "endpoint" := c.endpoint, "endpoint-hostname" := url.hostname]
  }

  lemma PreparedFromNothing(c: Config, o: UserOracle)
    requires c.ref == SecretRef("", "", "", "") && c.url.Some? && c.endpoint != [] && c.url.value.hostname != []
    requires SmoothCalls(o) && o.readSecret == CURRENT
    ensures var username, password := MintedUsername(c, o.usernameSuffix.value), Hex(o.passwordBytes.value);
            var p := PlanPrepare(c, o, [None], [], true);
            && !p.failed && p.dirty && p.versions == [None, Some(map[])] && p.calls == [GetDocument, CreateDocument]
            && p.copy == Some(Copy(1, PublishedData(c, c.url.value, username, password)))
            && p.creds == Creds(username, password, c.endpoint, c.url.value.host)
            && p.marks == [Condition(SecretExists, Unknown, "FailedLoad"), Condition(SecretExists, True, "Created"),
                           Condition(SecretUsername, False, "Created"), Condition(SecretPassword, False, "Created"),
                           Condition(SecretEndpoint, False, "Created"),
                           Condition(SecretEndpointHostname, False, "Created"),
                           Condition(SecretUsername, False, "NotInSecret"),
                           Condition(SecretPassword, False, "NotInSecret"),
                           Condition(SecretEndpoint, False, "NotInSecret"),
                           Condition(SecretEndpointHostname, False, "NotInSecret"),
                           Condition(SecretUsername, True, "GeneratedUsername"),
                           Condition(SecretPassword, True, "GeneratedPassword"),
                           Condition(SecretEndpoint, True, "SetEndpoint"),
                           Condition(SecretEndpointHostname, True, "SetHostname"),
                           Condition(SecretAvailable, True, "Ready")]
  {
    hide MintedUsername, Hex, PlanSecret;
    var data: Data := map[];
    var creds := PlanCredentials(c, Some(Copy(1, data)), []);
    assert creds == NO_CREDS;
    FilledFromNothing(c, o);
  }

  lemma FilledFromNothing(c: Config, o: UserOracle)
    requires c.ref == SecretRef("", "", "", "") && c.url.Some? && c.endpoint != [] && c.url.value.hostname != []
    requires o.usernameSuffix.Some? && o.passwordBytes.Some?
    ensures var username, password := MintedUsername(c, o.usernameSuffix.value), Hex(o.passwordBytes.value);
            PlanSecret(c, o, map[], NO_CREDS, false, false, true)
            == SecretPlan(false, true, PublishedData(c, c.url.value, username, password),
                          Creds(username, password, c.endpoint, c.url.value.host),
                          [Condition(SecretUsername, True, "GeneratedUsername"),
                           Condition(SecretPassword, True, "GeneratedPassword"),
                           Condition(SecretEndpoint, True, "SetEndpoint"),
                           Condition(SecretEndpointHostname, True, "SetHostname"),
                           Condition(SecretAvailable, True, "Ready")])
  {
    hide MintedUsername, Hex;
  }

  lemma SolrFromNothing(c: Config, o: UserOracle, n: Creds)
    requires SmoothCalls(o) && Intact(c, n)
    ensures var s := SolrState(map[], map[], {});
            var ob := PlanObserve(c, o, s, n);
            var u := PlanSetUser(c, o, s, ob, n);
            var r := PlanSetRoles(c, o, u.solr, ob, n);
            && !ob.failed && !u.failed && !r.failed
            && ob.calls + u.calls + r.calls
               == [GetCredentials, GetRoles, SetUser(n.username, n.password), GetRoles,
                   SetRoles(n.username, {"admin", "k8s"})]
            && r.solr == SolrState(map[n.username := Print(c.settings.digest, o.salt, n.password)],
                                   map[n.username := {"admin", "k8s"}], {})
            && ob.marks + u.marks + r.marks
               == [Condition(UserExists, False, "UserNotInConfig"),
                   Condition(PasswordUpToDate, False, "UserNotInConfig"),
                   Condition(UserHasRoles, False, "UserMissingRoles"),
                   Condition(UserExists, True, "CreateUser"), Condition(PasswordUpToDate, True, "CreateUser"),
                   Condition(UserHasRoles, True, "AddededRoles")]
  {
    hide Print;
    var s := SolrState(map[], map[], {});
    var defaults := Elements(DEFAULT_ROLES);
    assert defaults == {DEFAULT_ROLES[0], DEFAULT_ROLES[1]} == {"admin", "k8s"};
    assert DEFAULT_ROLES[0] in defaults && !HoldsDefaultRoles(s, n.username);
    assert {} + defaults == defaults;
    hide Elements, HoldsDefaultRoles;
  }

  /** Every store, every call in its order, and every condition in its order. */
  lemma FirstPass(c: Config, o: UserOracle)
    requires c.ref == SecretRef("", "", "", "") && c.url.Some? && c.endpoint != [] && c.url.value.hostname != []
    requires Smooth(o)
    requires var n := MintedUsername(c, o.usernameSuffix.value); c.settings.wire(n) == n
    requires var p := Hex(o.passwordBytes.value); c.settings.wire(p) == p
    ensures var w := World(Store(Some(Resource(false, false, false, [], [])), [None]), SolrState(map[], map[], {}));
            var out := PlanPass(c, o, w);
            var username, password := MintedUsername(c, o.usernameSuffix.value), Hex(o.passwordBytes.value);
            var data := PublishedData(c, c.url.value, username, password);
            && !out.failed && !out.requeue
            && out.apiCalls == [UpdateFinaliser(true), UpdateStatus, GetDocument, CreateDocument,
                                UpdateDocument(Copy(1, data)), UpdateStatus]
            && out.solrCalls == [GetCredentials, GetRoles, SetUser(username, password), GetRoles,
                                 SetRoles(username, {"admin", "k8s"})]
            && out.world.store.versions == [None, Some(map[]), Some(data)]
            && out.world.solr == SolrState(map[username := Print(c.settings.digest, o.salt, password)],
                                           map[username := {"admin", "k8s"}], {})
            && out.world.store.resource == Some(Resource(true, false, false, SetAll([], FirstMarks()), username))
  {
    hide MintedUsername, Hex, Print, PublishedData, PlanPrepare, PlanObserve, PlanSetUser, PlanSetRoles, SetAll;
    var s := SolrState(map[], map[], {});
    PreparedFromNothing(c, o);
    var p := PlanPrepare(c, o, [None], [], true);
    SolrFromNothing(c, o, p.creds);
    var r := PlanReconcile(c, o, [None], s, [], true);
    var ob := PlanObserve(c, o, s, p.creds);
    var u := PlanSetUser(c, o, s, ob, p.creds);
    var t := PlanSetRoles(c, o, u.solr, ob, p.creds);
    assert r.marks == p.marks + (ob.marks + u.marks + t.marks);
    assert r.solrCalls == ob.calls + u.calls + t.calls;
    assert ReconcilingMarks() + r.marks + [Condition(UserAvailable, True, "ReconcileSuccess")] == FirstMarks();
  }

  /** All the condition updates of such a pass. */
  function FirstMarks(): seq<Mark> {
    [Condition(UserAvailable, False, "Reconciling"), Condition(UserExists, Unknown, "Reconciling"),
     Condition(UserHasRoles, Unknown, "Reconciling"), Condition(PasswordUpToDate, Unknown, "Reconciling"),
     Condition(SecretExists, Unknown, "FailedLoad"), Condition(SecretExists, True, "Created"),
     Condition(SecretUsername, False, "Created"), Condition(SecretPassword, False, "Created"),
     Condition(SecretEndpoint, False, "Created"), Condition(SecretEndpointHostname, False, "Created"),
     Condition(SecretUsername, False, "NotInSecret"), Condition(SecretPassword, False, "NotInSecret"),
     Condition(SecretEndpoint, False, "NotInSecret"), Condition(SecretEndpointHostname, False, "NotInSecret"),
     Condition(SecretUsername, True, "GeneratedUsername"), Condition(SecretPassword, True, "GeneratedPassword"),
     Condition(SecretEndpoint, True, "SetEndpoint"), Condition(SecretEndpointHostname, True, "SetHostname"),
     Condition(SecretAvailable, True, "Ready"),
     Condition(UserExists, False, "UserNotInConfig"), Condition(PasswordUpToDate, False, "UserNotInConfig"),
     Condition(UserHasRoles, False, "UserMissingRoles"),
     Condition(UserExists, True, "CreateUser"), Condition(PasswordUpToDate, True, "CreateUser"),
     Condition(UserHasRoles, True, "AddededRoles"),
     Condition(UserAvailable, True, "ReconcileSuccess")]
  }

  /** How the ledger counts that pass: its one username is minted, sent and stored. */
  lemma FirstPassCounted(c: Config, o: UserOracle)
    requires c.ref == SecretRef("", "", "", "") && c.url.Some? && c.endpoint != [] && c.url.value.hostname != []
    requires Smooth(o)
    requires var n := MintedUsername(c, o.usernameSuffix.value); c.settings.wire(n) == n
    requires var p := Hex(o.passwordBytes.value); c.settings.wire(p) == p
    ensures var w := World(Store(Some(Resource(false, false, false, [], [])), [None]), SolrState(map[], map[], {}));
            var l, n := Advance(c, Opened(w), Pass(o)), MintedUsername(c, o.usernameSuffix.value);
            l.minted == l.asked == l.sent == {n} && l.unpersisted == l.lost == 0 && l.touched
  {
    hide MintedUsername, Hex, Print, PlanPass, SetAll;
    FirstPass(c, o);
    var w := World(Store(Some(Resource(false, false, false, [], [])), [None]), SolrState(map[], map[], {}));
    var calls, n := PlanPass(c, o, w).solrCalls, MintedUsername(c, o.usernameSuffix.value);
    assert Minted(c, o, w) == Some(n);
    assert calls[2].SetUser? && calls[2].name == n && AskedFor(calls) == {n};
    assert PlanPass(c, o, w).apiCalls[3] == CreateDocument;
    assert Persisted(c, o, w);
  }

  // ---------------------------------------------------------------- a later pass

  lemma PreparedFromComplete(c: Config, o: UserOracle, username: GoString, password: GoString, ensure: bool)
    requires c.ref == SecretRef("", "", "", "") && c.url.Some? && username != [] && o.readSecret == CURRENT
    ensures var data := PublishedData(c, c.url.value, username, password);
            var p := PlanPrepare(c, o, [Some(data)], username, ensure);
            && !p.failed && !p.dirty && p.versions == [Some(data)] && p.calls == [GetDocument]
            && p.creds == Creds(username, password, c.endpoint, c.url.value.host)
            && p.marks == [Condition(SecretExists, True, "Exists"),
                           Condition(SecretUsername, True, "InSecret"), Condition(SecretPassword, True, "InSecret"),
                           Condition(SecretEndpoint, True, "InSecret"),
                           Condition(SecretEndpointHostname, True, "InSecret"),
                           Condition(SecretEndpoint, True, "EndpointAlreadySet"),
                           Condition(SecretEndpointHostname, True, "HostnameAlreadySet"),
                           Condition(SecretAvailable, True, "Ready")]
  {
    hide MintUsername, MintPassword;
  }

  lemma SolrWithOtherPassword(c: Config, o: UserOracle, n: Creds, salt: seq<Byte>, other: GoString)
    requires SmoothCalls(o) && Intact(c, n)
    requires Twice(c.settings.digest, salt + other) != Twice(c.settings.digest, salt + n.password)
    ensures var s := SolrState(map[n.username := Print(c.settings.digest, salt, other)], map[n.username := {"editor"}],
                               {});
            var ob := PlanObserve(c, o, s, n);
            var u := PlanSetUser(c, o, s, ob, n);
            var r := PlanSetRoles(c, o, u.solr, ob, n);
            && !ob.failed && !u.failed && !r.failed
            && ob.calls + u.calls + r.calls
               == [GetCredentials, GetCredentials, GetRoles, SetUser(n.username, n.password), GetRoles,
                   SetRoles(n.username, {"editor", "admin", "k8s"})]
            && r.solr == SolrState(map[n.username := Print(c.settings.digest, o.salt, n.password)],
                                   map[n.username := {"editor", "admin", "k8s"}], {})
            && ob.marks + u.marks + r.marks
               == [Condition(UserExists, True, "UserInConfig"), Condition(PasswordUpToDate, False, "PasswordDifferent"),
                   Condition(UserHasRoles, False, "UserMissingRoles"),
                   Condition(PasswordUpToDate, True, "UpdatedPassword"), Condition(UserHasRoles, True, "AddededRoles")]
  {
    hide Print;
    var s := SolrState(map[n.username := Print(c.settings.digest, salt, other)], map[n.username := {"editor"}], {});
    PrintedChecks(c.settings.digest, salt, other, n.password);
    var defaults := Elements(DEFAULT_ROLES);
    assert defaults == {DEFAULT_ROLES[0], DEFAULT_ROLES[1]} == {"admin", "k8s"};
    assert DEFAULT_ROLES[0] in defaults && !HoldsDefaultRoles(s, n.username);
    assert {"editor"} + defaults == {"editor", "admin", "k8s"};
    hide Elements, HoldsDefaultRoles, Check;
    assert s.credentials[n.username := Print(c.settings.digest, o.salt, n.password)]
        == map[n.username := Print(c.settings.digest, o.salt, n.password)];
    assert s.roles[n.username := {"editor", "admin", "k8s"}] == map[n.username := {"editor", "admin", "k8s"}];
  }

  /** All the condition updates of such a pass. */
  function ResetMarks(): seq<Mark> {
    [Condition(SecretExists, True, "Exists"),
     Condition(SecretUsername, True, "InSecret"), Condition(SecretPassword, True, "InSecret"),
     Condition(SecretEndpoint, True, "InSecret"), Condition(SecretEndpointHostname, True, "InSecret"),
     Condition(SecretEndpoint, True, "EndpointAlreadySet"),
     Condition(SecretEndpointHostname, True, "HostnameAlreadySet"), Condition(SecretAvailable, True, "Ready"),
     Condition(UserExists, True, "UserInConfig"), Condition(PasswordUpToDate, False, "PasswordDifferent"),
     Condition(UserHasRoles, False, "UserMissingRoles"),
     Condition(PasswordUpToDate, True, "UpdatedPassword"), Condition(UserHasRoles, True, "AddededRoles"),
     Condition(UserAvailable, True, "ReconcileSuccess")]
  }

  /** Somebody gave the user another password and another role: the password of the secret is set
      again, the default roles are added to the other one, and the secret is not written. */
  lemma PasswordReset(c: Config, o: UserOracle, username: GoString, password: GoString, salt: seq<Byte>,
                      other: GoString, stored: seq<Mark>)
    requires c.ref == SecretRef("", "", "", "") && c.url.Some? && username != [] && Smooth(o)
    requires c.settings.wire(username) == username && c.settings.wire(password) == password
    requires Twice(c.settings.digest, salt + other) != Twice(c.settings.digest, salt + password)
    ensures var data := PublishedData(c, c.url.value, username, password);
            var w := World(Store(Some(Resource(true, false, false, stored, username)), [Some(data)]),
                           SolrState(map[username := Print(c.settings.digest, salt, other)],
                                     map[username := {"editor"}], {}));
            var out := PlanPass(c, o, w);
            && !out.failed && out.apiCalls == [GetDocument, UpdateStatus]
            && out.solrCalls == [GetCredentials, GetCredentials, GetRoles, SetUser(username, password), GetRoles,
                                 SetRoles(username, {"editor", "admin", "k8s"})]
            && out.world.store.versions == [Some(data)]
            && out.world.solr == SolrState(map[username := Print(c.settings.digest, o.salt, password)],
                                           map[username := {"editor", "admin", "k8s"}], {})
            && out.world.store.resource == Some(Resource(true, false, false, SetAll(stored, ResetMarks()), username))
  {
    hide Print, Twice, PublishedData, PlanPrepare, PlanObserve, PlanSetUser, PlanSetRoles, SetAll;
    var h: History := [Some(PublishedData(c, c.url.value, username, password))];
    var s := SolrState(map[username := Print(c.settings.digest, salt, other)], map[username := {"editor"}], {});
    PreparedFromComplete(c, o, username, password, true);
    var p := PlanPrepare(c, o, h, username, true);
    SolrWithOtherPassword(c, o, p.creds, salt, other);
    var r := PlanReconcile(c, o, h, s, username, true);
    var ob := PlanObserve(c, o, s, p.creds);
    var u := PlanSetUser(c, o, s, ob, p.creds);
    var t := PlanSetRoles(c, o, u.solr, ob, p.creds);
    assert r.marks == p.marks + (ob.marks + u.marks + t.marks);
    assert r.solrCalls == ob.calls + u.calls + t.calls;
    assert [] + r.marks + [Condition(UserAvailable, True, "ReconcileSuccess")] == ResetMarks();
  }

  // ---------------------------------------------------------------- the last pass

  /** The User is deleted: roles and user go from Solr, in that order, then the finaliser. */
  lemma LastPass(c: Config, o: UserOracle, username: GoString, password: GoString, salt: seq<Byte>, stored: seq<Mark>)
    requires c.ref == SecretRef("", "", "", "") && c.url.Some? && username != [] && Smooth(o)
    requires c.settings.wire(username) == username
    ensures var data := PublishedData(c, c.url.value, username, password);
            var w := World(Store(Some(Resource(true, false, true, stored, username)), [Some(data)]),
                           SolrState(map[username := Print(c.settings.digest, salt, password)],
                                     map[username := {"editor", "admin", "k8s"}], {}));
            var out := PlanPass(c, o, w);
            && !out.failed && out.apiCalls == [GetDocument, UpdateFinaliser(false)]
            && out.solrCalls == [GetCredentials, GetCredentials, GetRoles, ClearRoles(username), DropUser(username)]
            && out.world == World(Store(None, [Some(data)]), SolrState(map[], map[], {}))
  {
    hide Print, PublishedData, PlanPrepare;
    var h: History := [Some(PublishedData(c, c.url.value, username, password))];
    var s := SolrState(map[username := Print(c.settings.digest, salt, password)],
                       map[username := {"editor", "admin", "k8s"}], {});
    PreparedFromComplete(c, o, username, password, false);
    var n := PlanPrepare(c, o, h, username, false).creds;
    PrintedChecks(c.settings.digest, salt, password, password);
    assert Elements(DEFAULT_ROLES) == {DEFAULT_ROLES[0], DEFAULT_ROLES[1]} == {"admin", "k8s"};
    assert HoldsDefaultRoles(s, username);
    hide Elements, HoldsDefaultRoles, Check;
    assert s.credentials - {username} == map[] && s.roles - {username} == map[];
    var ob := PlanObserve(c, o, s, n);
    assert !ob.failed && ob.present && ob.hasRoles && ob.calls == [GetCredentials, GetCredentials, GetRoles];
    hide PlanObserve;
    assert PlanRemove(c, o, s, ob, n) == Effect(false, SolrState(map[], map[], {}), [],
                                                [ClearRoles(username)] + [DropUser(username)]);
  }
}
