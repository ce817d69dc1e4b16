/** What one pass of the User reconciler does, as a function of the stores and of how each
    call fares. No function here looks at the status conditions: the reconciler's methods
    are proved to make exactly these calls, whatever conditions are stored. */
module UserPlan {
  import opened GoValues
  import opened Conditions
  import opened SolrClient
  import opened Cluster

  datatype UserCondition =
    | SecretAvailable | SecretExists
    | SecretUsername | SecretPassword | SecretEndpoint | SecretEndpointHostname
    | UserAvailable | UserExists | UserHasRoles | PasswordUpToDate
    | OtherCondition(name: string)

  type Mark = Condition<UserCondition>

  // ---------------------------------------------------------------- the credential table

  datatype Field = Username | Password | Endpoint | Hostname

  const FIELDS := [Username, Password, Endpoint, Hostname]

  /** The keys configured in the User's spec; an empty key means the default. */
  datatype SecretRef = SecretRef(usernameKey: string, passwordKey: string, endpointKey: string, hostnameKey: string)

  function ConfiguredKey(f: Field, ref: SecretRef): string {
    match f
    case Username => ref.usernameKey
    case Password => ref.passwordKey
    case Endpoint => ref.endpointKey
    case Hostname => ref.hostnameKey
  }

  function DefaultKey(f: Field): string {
    match f
    case Username => "username"
    case Password => "password"
    case Endpoint => "endpoint"
    case Hostname => "endpoint-hostname"
  }

  function SecretKey(f: Field, ref: SecretRef): string {
    if ConfiguredKey(f, ref) == "" then DefaultKey(f) else ConfiguredKey(f, ref)
  }

  function ConditionOf(f: Field): UserCondition {
    match f
    case Username => SecretUsername
    case Password => SecretPassword
    case Endpoint => SecretEndpoint
    case Hostname => SecretEndpointHostname
  }

  /** The four resolved keys differ, so that writing one entry does not clobber another. */
  predicate DistinctKeys(ref: SecretRef) {
    forall f, g :: f != g ==> SecretKey(f, ref) != SecretKey(g, ref)
  }

  datatype Creds = Creds(username: GoString, password: GoString, endpoint: GoString, hostname: GoString) {
    function Get(f: Field): GoString {
      match f
      case Username => username
      case Password => password
      case Endpoint => endpoint
      case Hostname => hostname
    }

    function With(f: Field, value: GoString): Creds {
      match f
      case Username => this.(username := value)
      case Password => this.(password := value)
      case Endpoint => this.(endpoint := value)
      case Hostname => this.(hostname := value)
    }
  }

  const NO_CREDS := Creds([], [], [], [])

  // ---------------------------------------------------------------- inputs of a pass

  /** The parts of the parsed endpoint URL that are used. */
  datatype Url = Url(host: GoString, hostname: GoString)

  /** What does not change between passes; `url` is `None` when the endpoint does not parse. */
  datatype Config = Config(
    settings: Settings, ref: SecretRef,
    namespace: GoString, name: GoString,
    endpoint: GoString, url: Option<Url>)

  /** How every call of one pass fares. A pass makes each call at most once. */
  datatype UserOracle = UserOracle(
    getUser: bool, getClient: bool,
    addFinaliser: Reply, markReconciling: Reply,
    readSecret: ReadOutcome, createSecret: Reply,
    usernameSuffix: Option<seq<Byte>>, passwordBytes: Option<seq<Byte>>,
    readExistence: bool, readCredential: bool, readRoles: bool,
    setUser: Reply, salt: seq<Byte>,
    rereadRoles: bool, setRoles: Reply,
    updateSecret: Reply,
    clearRoles: Reply, dropUser: Reply,
    removeFinaliser: Reply, writeStatus: Reply)

  type UserWorld = World<UserCondition>

  /** Credentials that JSON encoding leaves as they are. */
  predicate Intact(c: Config, creds: Creds) {
    c.settings.wire(creds.username) == creds.username && c.settings.wire(creds.password) == creds.password
  }

  // ---------------------------------------------------------------- getSecret

  datatype SecretRead = SecretRead(copy: Option<Copy>, versions: History, marks: seq<Mark>, calls: seq<ApiCall>)

  function PlanGetSecret(o: UserOracle, h: History, create: bool): SecretRead {
    var read := ReadVersion(h, o.readSecret);
    if read.Ok? && read.value.Some? then
      SecretRead(read.value, h, [Condition(SecretExists, True, "Exists")], [GetDocument])
    else if !create then
      SecretRead(None, h, [Condition(SecretExists, Unknown, "FailedLoad")], [GetDocument])
    else
      var (h', created) := AfterCreate(h, o.createSecret);
      if created.Error? then
        SecretRead(None, h',
                   [Condition(SecretExists, Unknown, "FailedLoad"), Condition(SecretExists, Unknown, "FailedCreation")],
                   [GetDocument, CreateDocument])
      else
        SecretRead(Some(created.value), h',
                   [Condition(SecretExists, Unknown, "FailedLoad"), Condition(SecretExists, True, "Created")]
                   + EmptySecretMarks(),
                   [GetDocument, CreateDocument])
  }

  function EmptySecretMarks(): seq<Mark> {
    [Condition(SecretUsername, False, "Created"), Condition(SecretPassword, False, "Created"),
     Condition(SecretEndpoint, False, "Created"), Condition(SecretEndpointHostname, False, "Created")]
  }

  // ---------------------------------------------------------------- credentials

  function Entry(data: Data, key: string): GoString {
    if key in data then data[key] else []
  }

  function FieldIn(c: Config, data: Data, f: Field): bool {
    SecretKey(f, c.ref) in data
  }

  function FieldMark(c: Config, data: Data, f: Field): Mark {
    if FieldIn(c, data, f) then Condition(ConditionOf(f), True, "InSecret")
    else Condition(ConditionOf(f), False, "NotInSecret")
  }

  function FieldMarks(c: Config, data: Data): (marks: seq<Mark>)
    ensures |marks| == |FIELDS|
    ensures forall i :: 0 <= i < |FIELDS| ==> marks[i] == FieldMark(c, data, FIELDS[i])
  {
    [FieldMark(c, data, Username), FieldMark(c, data, Password),
     FieldMark(c, data, Endpoint), FieldMark(c, data, Hostname)]
  }

  /** The credentials after copying the first `n` fields whose keys are in the secret. */
  function Extracted(c: Config, data: Data, creds: Creds, n: nat): Creds
    requires n <= |FIELDS|
  {
    if n == 0 then creds
    else
      var before, f := Extracted(c, data, creds, n - 1), FIELDS[n - 1];
      if FieldIn(c, data, f) then before.With(f, data[SecretKey(f, c.ref)]) else before
  }

  function CredentialsIn(c: Config, data: Data): Creds {
    Creds(Entry(data, SecretKey(Username, c.ref)), Entry(data, SecretKey(Password, c.ref)),
          Entry(data, SecretKey(Endpoint, c.ref)), Entry(data, SecretKey(Hostname, c.ref)))
  }

  lemma ExtractedIsCredentialsIn(c: Config, data: Data)
    ensures Extracted(c, data, NO_CREDS, |FIELDS|) == CredentialsIn(c, data)
  {
    assert Extracted(c, data, NO_CREDS, 0) == NO_CREDS;
    var e1 := Extracted(c, data, NO_CREDS, 1);
    assert e1 == NO_CREDS.(username := Entry(data, SecretKey(Username, c.ref)));
    var e2 := Extracted(c, data, NO_CREDS, 2);
    assert e2 == e1.(password := Entry(data, SecretKey(Password, c.ref)));
    var e3 := Extracted(c, data, NO_CREDS, 3);
    assert e3 == e2.(endpoint := Entry(data, SecretKey(Endpoint, c.ref)));
  }

  /** The credentials in the secret; an empty or missing username falls back to the status. */
  function PlanCredentials(c: Config, copy: Option<Copy>, statusName: GoString): Creds {
    var found := if copy.None? then NO_CREDS else CredentialsIn(c, copy.value.data);
    if found.username == [] then found.(username := statusName) else found
  }

  // ---------------------------------------------------------------- reconcileSecret

  /** The secret as it is being filled in: its data, the credentials, and what was set. */
  datatype Draft = Draft(data: Data, creds: Creds, dirty: bool, marks: seq<Mark>)

  function MintedUsername(c: Config, suffix: seq<Byte>): (r: GoString)
    ensures r != []
  {
    c.namespace + DASHES + c.name + DASHES + Hex(suffix)
  }

  function MintUsername(c: Config, suffix: seq<Byte>, d: Draft): Draft {
    var username := MintedUsername(c, suffix);
    Draft(d.data[SecretKey(Username, c.ref) := username], d.creds.(username := username), true,
          d.marks + [Condition(SecretUsername, True, "GeneratedUsername")])
  }

  function MintPassword(c: Config, bytes: seq<Byte>, d: Draft): Draft {
    Draft(d.data[SecretKey(Password, c.ref) := Hex(bytes)], d.creds.(password := Hex(bytes)), true,
          d.marks + [Condition(SecretPassword, True, "GeneratedPassword")])
  }

  function PutEndpoint(c: Config, d: Draft): Draft {
    var key, creds := SecretKey(Endpoint, c.ref), d.creds.(endpoint := c.endpoint);
    if Entry(d.data, key) != c.endpoint then
      Draft(d.data[key := c.endpoint], creds, true, d.marks + [Condition(SecretEndpoint, True, "SetEndpoint")])
    else
      Draft(d.data, creds, d.dirty, d.marks + [Condition(SecretEndpoint, True, "EndpointAlreadySet")])
  }

  /** The credentials get the URL's host, the secret gets its host name. */
  function PutHostname(c: Config, url: Url, d: Draft): Draft {
    var key, creds := SecretKey(Hostname, c.ref), d.creds.(hostname := url.host);
    if Entry(d.data, key) != url.hostname then
      Draft(d.data[key := url.hostname], creds, true,
            d.marks + [Condition(SecretEndpointHostname, True, "SetHostname")])
    else
      Draft(d.data, creds, d.dirty, d.marks + [Condition(SecretEndpointHostname, True, "HostnameAlreadySet")])
  }

  datatype SecretPlan = SecretPlan(failed: bool, dirty: bool, data: Data, creds: Creds, marks: seq<Mark>)

  /** An abandoned draft: the conditions collected so far are not applied. */
  function Abandon(d: Draft): SecretPlan {
    SecretPlan(true, false, d.data, d.creds, [])
  }

  /** Fills in the secret. The three flags say what the status conditions claim about it. */
  function PlanSecret(c: Config, o: UserOracle, data: Data, creds: Creds,
                      hasUsername: bool, hasPassword: bool, present: bool): SecretPlan
  {
    var d0 := Draft(data, creds, false, []);
    if !hasUsername && o.usernameSuffix.None? then Abandon(d0)
    else
      var d1 := if hasUsername then d0 else MintUsername(c, o.usernameSuffix.value, d0);
      if !hasPassword && o.passwordBytes.None? then Abandon(d1)
      else
        var d2 := if hasPassword then d1 else MintPassword(c, o.passwordBytes.value, d1);
        var d3 := PutEndpoint(c, d2);
        if c.url.None? then Abandon(d3)
        else
          var d4 := PutHostname(c, c.url.value, d3);
          var summary := if present then Condition(SecretAvailable, True, "Ready")
                         else Condition(SecretAvailable, False, "NotReady");
          SecretPlan(false, d4.dirty, d4.data, d4.creds, d4.marks + [summary])
  }

  // ---------------------------------------------------------------- reconcileObserveUser

  datatype Observation = Observation(
    failed: bool, present: bool, current: bool, hasRoles: bool,
    marks: seq<Mark>, calls: seq<SolrCall>)

  function PlanObserve(c: Config, o: UserOracle, s: SolrState, creds: Creds): Observation {
    if !o.readExistence then Observation(true, false, false, false, [], [GetCredentials])
    else if creds.username !in s.credentials then
      WithRoles(PlanObserveRoles(o, s, creds), false, false,
                [Condition(UserExists, False, "UserNotInConfig"),
                 Condition(PasswordUpToDate, False, "UserNotInConfig")],
                [GetCredentials])
    else
      var answer := if o.readCredential then CheckUserAnswer(c.settings, s, creds.username, creds.password) else Error;
      var calls := [GetCredentials, GetCredentials];
      match answer
      case Error =>
        Observation(true, true, false, false,
                    [Condition(UserExists, True, "UserInConfig"), Condition(PasswordUpToDate, Unknown, "Error")], calls)
      case Ok(matches) =>
        WithRoles(PlanObserveRoles(o, s, creds), true, matches,
                  [Condition(UserExists, True, "UserInConfig"),
                   if matches then Condition(PasswordUpToDate, True, "PasswordUpToDate")
                   else Condition(PasswordUpToDate, False, "PasswordDifferent")], calls)
  }

  datatype RolesSeen = RolesSeen(failed: bool, hasRoles: bool, marks: seq<Mark>)

  function PlanObserveRoles(o: UserOracle, s: SolrState, creds: Creds): RolesSeen {
    if !o.readRoles then RolesSeen(true, false, [])
    else if HoldsDefaultRoles(s, creds.username) then
      RolesSeen(false, true, [Condition(UserHasRoles, True, "UserHasRoles")])
    else RolesSeen(false, false, [Condition(UserHasRoles, False, "UserMissingRoles")])
  }

  function WithRoles(seen: RolesSeen, present: bool, current: bool, marks: seq<Mark>, calls: seq<SolrCall>)
    : Observation {
    Observation(seen.failed, present, current, seen.hasRoles, marks + seen.marks, calls + [GetRoles])
  }

  // ---------------------------------------------------------------- reconcileUser

  /** One group of Solr writes. */
  datatype Effect = Effect(failed: bool, solr: SolrState, marks: seq<Mark>, calls: seq<SolrCall>)

  /** Creates the user, or updates its password, or does nothing. */
  function PlanSetUser(c: Config, o: UserOracle, s: SolrState, ob: Observation, creds: Creds): Effect {
    if ob.present && ob.current then Effect(false, s, [], [])
    else
      var s' := if o.setUser.reached then WithUser(c.settings, s, creds.username, creds.password, o.salt) else s;
      var calls := [SetUser(creds.username, creds.password)];
      if !ob.present then
        if !o.setUser.answered then Effect(true, s', [], calls)
        else Effect(false, s',
                    [Condition(UserExists, True, "CreateUser"), Condition(PasswordUpToDate, True, "CreateUser")], calls)
      else
        if !o.setUser.answered then
          Effect(true, s', [Condition(PasswordUpToDate, Unknown, "FailedPasswordCheck")], calls)
        else Effect(false, s', [Condition(PasswordUpToDate, True, "UpdatedPassword")], calls)
  }

  function PlanSetRoles(c: Config, o: UserOracle, s: SolrState, ob: Observation, creds: Creds): Effect {
    if ob.hasRoles then Effect(false, s, [], [])
    else if !o.rereadRoles then Effect(true, s, [], [GetRoles])
    else
      var s' := if o.setRoles.reached then WithDefaultRoles(c.settings, s, creds.username) else s;
      var calls := [GetRoles, SetRoles(creds.username, RolesOf(s, creds.username) + Elements(DEFAULT_ROLES))];
      if !o.setRoles.answered then Effect(true, s', [], calls)
      else Effect(false, s', [Condition(UserHasRoles, True, "AddededRoles")], calls)
  }

  /** Removes the roles, then the user; each only when it was observed. */
  function PlanRemove(c: Config, o: UserOracle, s: SolrState, ob: Observation, creds: Creds): Effect {
    var s1 := if ob.hasRoles && o.clearRoles.reached then WithoutRoles(c.settings, s, creds.username) else s;
    var calls1 := if ob.hasRoles then [ClearRoles(creds.username)] else [];
    if ob.hasRoles && !o.clearRoles.answered then Effect(true, s1, [], calls1)
    else if !ob.present then Effect(false, s1, [], calls1)
    else
      var s2 := if o.dropUser.reached then WithoutUser(c.settings, s1, creds.username) else s1;
      Effect(!o.dropUser.answered, s2, [], calls1 + [DropUser(creds.username)])
  }

  datatype Reconciled = Reconciled(
    failed: bool, versions: History, solr: SolrState, name: GoString, marks: seq<Mark>,
    apiCalls: seq<ApiCall>, solrCalls: seq<SolrCall>)

  /** The secret stage of `reconcileUser`: what is loaded, resolved and filled in. */
  datatype Prepared = Prepared(failed: bool, copy: Option<Copy>, dirty: bool, creds: Creds,
                               versions: History, marks: seq<Mark>, calls: seq<ApiCall>)

  function PlanPrepare(c: Config, o: UserOracle, h: History, name: GoString, ensure: bool): Prepared {
    var g := PlanGetSecret(o, h, ensure);
    var creds := PlanCredentials(c, g.copy, name);
    if g.copy.None? then
      Prepared(ensure, None, false, creds, g.versions, g.marks, g.calls)
    else
      var data := g.copy.value.data;
      var s := PlanSecret(c, o, data, creds, FieldIn(c, data, Username), FieldIn(c, data, Password), true);
      Prepared(s.failed, Some(g.copy.value.(data := s.data)), s.dirty, s.creds, g.versions,
               g.marks + FieldMarks(c, data) + s.marks, g.calls)
  }

  function PlanReconcile(c: Config, o: UserOracle, h: History, s: SolrState, name: GoString, ensure: bool): Reconciled {
    var p := PlanPrepare(c, o, h, name, ensure);
    if p.failed then Reconciled(true, p.versions, s, name, p.marks, p.calls, [])
    else
      var ob := PlanObserve(c, o, s, p.creds);
      if ob.failed then Reconciled(true, p.versions, s, name, p.marks + ob.marks, p.calls, ob.calls)
      else if ensure then
        var e := PlanEnsure(c, o, p, s, name, ob);
        e.(marks := p.marks + ob.marks + e.marks, apiCalls := p.calls + e.apiCalls, solrCalls := ob.calls + e.solrCalls)
      else
        var e := PlanRemove(c, o, s, ob, p.creds);
        Reconciled(e.failed, p.versions, e.solr, name, p.marks + ob.marks, p.calls, ob.calls + e.calls)
  }

  /** The writes of a pass that ensures existence, once the secret is prepared and Solr observed. */
  function PlanEnsure(c: Config, o: UserOracle, p: Prepared, s: SolrState, name: GoString, ob: Observation)
    : Reconciled {
    var u := PlanSetUser(c, o, s, ob, p.creds);
    if u.failed then Reconciled(true, p.versions, u.solr, name, u.marks, [], u.calls)
    else
      var r := PlanSetRoles(c, o, u.solr, ob, p.creds);
      var marks, calls := u.marks + r.marks, u.calls + r.calls;
      if r.failed then Reconciled(true, p.versions, r.solr, p.creds.username, marks, [], calls)
      else if p.dirty && p.copy.Some? then
        // A failed update of the secret is only logged.
        Reconciled(false, AfterUpdate(p.versions, p.copy.value, o.updateSecret).0, r.solr, p.creds.username, marks,
                   [UpdateDocument(p.copy.value)], calls)
      else Reconciled(false, p.versions, r.solr, p.creds.username, marks, [], calls)
  }

  // ---------------------------------------------------------------- Reconcile

  datatype UserOutcome = UserOutcome(
    world: UserWorld, apiCalls: seq<ApiCall>, solrCalls: seq<SolrCall>, failed: bool, requeue: bool)

  function ReconcilingMarks(): seq<Mark> {
    [Condition(UserAvailable, False, "Reconciling"), Condition(UserExists, Unknown, "Reconciling"),
     Condition(UserHasRoles, Unknown, "Reconciling"), Condition(PasswordUpToDate, Unknown, "Reconciling")]
  }

  /** One pass over the current state of the User. */
  function PlanPass(c: Config, o: UserOracle, w: UserWorld): UserOutcome {
    if !o.getUser then UserOutcome(w, [], [], true, false)
    else if w.store.resource.None? then UserOutcome(w, [], [], false, false)
    else if !o.getClient then UserOutcome(w, [], [], true, true)
    else
      var r := w.store.resource.value;
      if !r.deleting && !r.finalised then
        var (r1, ok1) := AfterFinaliser(Some(r), true, o.addFinaliser);
        if !ok1 then UserOutcome(w.(store := w.store.(resource := r1)), [UpdateFinaliser(true)], [], true, true)
        else
          var (r2, ok2) := AfterStatus(r1, SetAll(r.conditions, ReconcilingMarks()), r.name, o.markReconciling);
          var calls := [UpdateFinaliser(true), UpdateStatus];
          if !ok2 then UserOutcome(w.(store := w.store.(resource := r2)), calls, [], true, true)
          else PlanEnsurePass(c, o, w, r, r2, ReconcilingMarks(), calls)
      else if r.deleting && r.finalised then PlanDeletePass(c, o, w, r)
      else PlanEnsurePass(c, o, w, r, Some(r), [], [])
  }

  /** `r` is the resource as read, `stored` what the API server holds by now. */
  function PlanEnsurePass(c: Config, o: UserOracle, w: UserWorld, r: Resource<UserCondition>,
                          stored: Option<Resource<UserCondition>>, marks: seq<Mark>, calls: seq<ApiCall>): UserOutcome
  {
    var p := PlanReconcile(c, o, w.store.versions, w.solr, r.name, true);
    var verdict := if p.failed then Condition(UserAvailable, False, "ReconciliationFailed")
                   else Condition(UserAvailable, True, "ReconcileSuccess");
    var (stored', ok) := AfterStatus(stored, SetAll(r.conditions, marks + p.marks + [verdict]), p.name, o.writeStatus);
    UserOutcome(World(Store(stored', p.versions), p.solr), calls + p.apiCalls + [UpdateStatus], p.solrCalls,
                p.failed || !ok, p.failed || !ok)
  }

  function PlanDeletePass(c: Config, o: UserOracle, w: UserWorld, r: Resource<UserCondition>): UserOutcome {
    var p := PlanReconcile(c, o, w.store.versions, w.solr, r.name, false);
    if p.failed then
      UserOutcome(World(Store(Some(r), p.versions), p.solr), p.apiCalls, p.solrCalls, true, true)
    else
      var (r', ok) := AfterFinaliser(Some(r), false, o.removeFinaliser);
      UserOutcome(World(Store(r', p.versions), p.solr), p.apiCalls + [UpdateFinaliser(false)], p.solrCalls, !ok, !ok)
  }
}
