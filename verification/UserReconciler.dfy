/** The User reconciler, statement by statement. Each method is proved to have the effect its
    plan states. Branches that read a status condition come out as the plan says because every
    condition is derived again, in this pass, before it is read. */
module UserReconciler {
  import opened GoValues
  import opened Conditions
  import opened SolrClient
  import opened Cluster
  import opened UserPlan

  class Secret {
    const version: nat
    var data: Data

    constructor (copy: Copy)
      ensures View() == copy
    {
      version, data := copy.version, copy.data;
    }

    function View(): Copy
      reads this
    {
      Copy(version, data)
    }
  }

  class CredentialSet {
    var value: Creds

    constructor ()
      ensures value == NO_CREDS
    {
      value := NO_CREDS;
    }

    /** Copies the fields whose keys are in the secret, and marks which are. */
    method ExtractFromSecret(config: Config, user: LocalResource<UserCondition>, secret: Secret)
      requires user.Valid()
      modifies this, user`conditions, user`marks
      ensures user.Valid() && user.marks == old(user.marks) + FieldMarks(config, secret.data)
      ensures value == Extracted(config, secret.data, old(value), |FIELDS|)
      ensures user.Holds(SecretUsername) == FieldIn(config, secret.data, Username)
      ensures user.Holds(SecretPassword) == FieldIn(config, secret.data, Password)
      ensures user.Holds(SecretExists) == old(user.Holds(SecretExists))
    {
      hide SetAll, Find, IsTrue, user.Valid, user.Holds, SecretKey;
      ghost var expected := FieldMarks(config, secret.data);
      var i := 0;
      while i < |FIELDS|
        invariant 0 <= i <= |FIELDS|
        invariant user.Valid() && user.marks == old(user.marks) + expected[..i]
        invariant value == Extracted(config, secret.data, old(value), i)
        invariant i > 0 ==> user.Holds(SecretUsername) == FieldIn(config, secret.data, Username)
        invariant i > 1 ==> user.Holds(SecretPassword) == FieldIn(config, secret.data, Password)
        invariant user.Holds(SecretExists) == old(user.Holds(SecretExists))
      {
        var f := FIELDS[i];
        var key := SecretKey(f, config.ref);
        if key !in secret.data {
          user.Mark(ConditionOf(f), False, "NotInSecret");
        } else {
          value := value.With(f, secret.data[key]);
          user.Mark(ConditionOf(f), True, "InSecret");
        }
        assert expected[..i + 1] == expected[..i] + [FieldMark(config, secret.data, f)];
        i := i + 1;
      }
      assert expected[..i] == expected;
    }
  }

  ghost predicate Mentions(marks: seq<Mark>, kind: UserCondition) {
    exists m :: m in marks && m.kind == kind
  }

  /** Every collected condition says that a part of the secret is in place. */
  ghost predicate Positive(marks: seq<Mark>) {
    forall m :: m in marks ==> m.status == True && m.kind != SecretExists
  }

  /** `after` confirms one more part of the secret than `before`. */
  ghost predicate Confirmed(before: seq<Mark>, after: seq<Mark>, kind: UserCondition) {
    && Mentions(after, kind)
    && (forall k :: Mentions(before, k) ==> Mentions(after, k))
    && (Positive(before) ==> Positive(after))
  }

  class UserReconciler {
    const config: Config
    const api: ApiServer<UserCondition>
    const solr: Client

    ghost predicate Wired() {
      solr.settings == config.settings
    }

    ghost function View(): UserWorld
      reads api`resource, api`versions, solr`credentials, solr`roles, solr`collections
    {
      World(api.View(), solr.View())
    }

    constructor (config: Config, api: ApiServer<UserCondition>, solr: Client)
      requires solr.settings == config.settings
      ensures Wired() && this.config == config && this.api == api && this.solr == solr
    {
      this.config, this.api, this.solr := config, api, solr;
    }

    /** Loads the secret, creating it when asked to; null stands for the error return. */
    method GetSecret(user: LocalResource<UserCondition>, o: UserOracle, tryCreate: bool) returns (secret: Secret?)
      requires user.Valid()
      modifies user`conditions, user`marks, api`versions, api`calls
      ensures user.Valid()
      ensures var p := PlanGetSecret(o, old(api.versions), tryCreate);
              && api.versions == p.versions
              && api.calls == old(api.calls) + p.calls
              && user.marks == old(user.marks) + p.marks
              && (secret == null <==> p.copy.None?)
              && (secret != null ==> fresh(secret) && secret.View() == p.copy.value)
      ensures secret != null ==> user.Holds(SecretExists)
    {
      hide SetAll, Find, IsTrue, user.Valid, user.Holds, ReadVersion, AfterCreate;
      var read := api.Get(o.readSecret);
      if read.Error? || read.value.None? {
        user.Mark(SecretExists, Unknown, "FailedLoad");
        if !tryCreate {
          return null;
        }
        var created := api.Create(o.createSecret);
        if created.Error? {
          user.Mark(SecretExists, Unknown, "FailedCreation");
          return null;
        }
        user.Mark(SecretExists, True, "Created");
        MarkEmptySecret(user);
        secret := new Secret(created.value);
        return secret;
      }
      user.Mark(SecretExists, True, "Exists");
      secret := new Secret(read.value.value);
    }

    method MarkEmptySecret(user: LocalResource<UserCondition>)
      requires user.Valid()
      modifies user`conditions, user`marks
      ensures user.Valid() && user.marks == old(user.marks) + EmptySecretMarks()
      ensures user.Holds(SecretExists) == old(user.Holds(SecretExists))
    {
      hide SetAll, Find, IsTrue, user.Valid, user.Holds;
      var kinds := [SecretUsername, SecretPassword, SecretEndpoint, SecretEndpointHostname];
      ghost var expected := EmptySecretMarks();
      var i := 0;
      while i < |kinds|
        invariant 0 <= i <= |kinds|
        invariant user.Valid() && user.marks == old(user.marks) + expected[..i]
        invariant user.Holds(SecretExists) == old(user.Holds(SecretExists))
      {
        user.Mark(kinds[i], False, "Created");
        assert expected[..i + 1] == expected[..i] + [Condition(kinds[i], False, "Created")];
        i := i + 1;
      }
      assert expected[..i] == expected;
    }

    /** The credentials in the secret, with the status as the fallback for the username. */
    method GetCredentialsFromSecret(user: LocalResource<UserCondition>, secret: Secret?) returns (creds: CredentialSet)
      requires user.Valid()
      modifies user`conditions, user`marks
      ensures user.Valid() && fresh(creds)
      ensures creds.value == PlanCredentials(config, if secret == null then None else Some(secret.View()), user.name)
      ensures user.marks == old(user.marks) + if secret == null then [] else FieldMarks(config, secret.data)
      ensures secret != null ==> user.Holds(SecretUsername) == FieldIn(config, secret.data, Username)
      ensures secret != null ==> user.Holds(SecretPassword) == FieldIn(config, secret.data, Password)
      ensures user.Holds(SecretExists) == old(user.Holds(SecretExists))
    {
      hide SetAll, Find, IsTrue, user.Valid, user.Holds, FieldMarks, Extracted, CredentialsIn, FieldIn;
      creds := new CredentialSet();
      if secret != null {
        creds.ExtractFromSecret(config, user, secret);
        ExtractedIsCredentialsIn(config, secret.data);
      }
      if creds.value.username == [] {
        if user.name != [] {
          creds.value := creds.value.(username := user.name);
        }
      }
    }

    /** Fills in missing entries of the secret, in memory only, and summarises its conditions. */
    method ReconcileSecret(user: LocalResource<UserCondition>, creds: CredentialSet, secret: Secret?, o: UserOracle,
                           ensure: bool)
      returns (dirty: bool, ok: bool)
      requires user.Valid()
      modifies user`conditions, user`marks, creds
      modifies if secret == null then {} else {secret}
      ensures user.Valid()
      ensures secret == null ==>
                ok == !ensure && !dirty && user.marks == old(user.marks) && creds.value == old(creds.value)
      ensures secret != null ==>
                var p := PlanSecret(config, o, old(secret.data), old(creds.value), old(user.Holds(SecretUsername)),
                                    old(user.Holds(SecretPassword)), old(user.Holds(SecretExists)));
                && ok == !p.failed && dirty == p.dirty
                && secret.data == p.data && creds.value == p.creds
                && user.marks == old(user.marks) + p.marks
                && (ok ==> user.Holds(SecretAvailable) == old(user.Holds(SecretExists)))
    {
      hide SetAll, Find, IsTrue, user.Valid, user.Holds, MintUsername, MintPassword, PutEndpoint, PutHostname;
      hide Mentions;
      if secret == null {
        if !ensure {
          return false, true;
        } else {
          return false, false;
        }
      }
      var news: seq<Mark> := [];
      dirty := false;
      if !user.Holds(SecretUsername) {
        if o.usernameSuffix.None? {
          return false, false;
        }
        dirty, news := GenerateUsername(creds, secret, o.usernameSuffix.value, dirty, news);
      }
      if !user.Holds(SecretPassword) {
        if o.passwordBytes.None? {
          return false, false;
        }
        dirty, news := GeneratePassword(creds, secret, o.passwordBytes.value, dirty, news);
      }
      dirty, news := SetEndpoint(creds, secret, dirty, news);
      if config.url.None? {
        return false, false;
      }
      dirty, news := SetHostname(creds, secret, config.url.value, dirty, news);
      Summarise(user, news);
      return dirty, true;
    }

    method GenerateUsername(creds: CredentialSet, secret: Secret, suffix: seq<Byte>, dirty: bool, news: seq<Mark>)
      returns (dirty': bool, news': seq<Mark>)
      modifies creds, secret
      ensures Draft(secret.data, creds.value, dirty', news')
           == MintUsername(config, suffix, Draft(old(secret.data), old(creds.value), dirty, news))
      ensures Confirmed(news, news', SecretUsername)
    {
      var username := MintedUsername(config, suffix);
      creds.value := creds.value.(username := username);
      secret.data := secret.data[SecretKey(Username, config.ref) := username];
      news' := news + [Condition(SecretUsername, True, "GeneratedUsername")];
      assert Condition(SecretUsername, True, "GeneratedUsername") in news';
      dirty' := true;
    }

    method GeneratePassword(creds: CredentialSet, secret: Secret, bytes: seq<Byte>, dirty: bool, news: seq<Mark>)
      returns (dirty': bool, news': seq<Mark>)
      modifies creds, secret
      ensures Draft(secret.data, creds.value, dirty', news')
           == MintPassword(config, bytes, Draft(old(secret.data), old(creds.value), dirty, news))
      ensures Confirmed(news, news', SecretPassword)
    {
      var password := Hex(bytes);
      creds.value := creds.value.(password := password);
      secret.data := secret.data[SecretKey(Password, config.ref) := password];
      news' := news + [Condition(SecretPassword, True, "GeneratedPassword")];
      assert Condition(SecretPassword, True, "GeneratedPassword") in news';
      dirty' := true;
    }

    method SetEndpoint(creds: CredentialSet, secret: Secret, dirty: bool, news: seq<Mark>)
      returns (dirty': bool, news': seq<Mark>)
      modifies creds, secret
      ensures Draft(secret.data, creds.value, dirty', news')
           == PutEndpoint(config, Draft(old(secret.data), old(creds.value), dirty, news))
      ensures Confirmed(news, news', SecretEndpoint)
    {
      var key := SecretKey(Endpoint, config.ref);
      creds.value := creds.value.(endpoint := config.endpoint);
      var reason := "EndpointAlreadySet";
      dirty' := dirty;
      if Entry(secret.data, key) != config.endpoint {
        secret.data := secret.data[key := config.endpoint];
        dirty' := true;
        reason := "SetEndpoint";
      }
      news' := news + [Condition(SecretEndpoint, True, reason)];
      assert Condition(SecretEndpoint, True, reason) in news';
    }

    /** The credentials get the URL's host with its port, the secret the host name alone. */
    method SetHostname(creds: CredentialSet, secret: Secret, url: Url, dirty: bool, news: seq<Mark>)
      returns (dirty': bool, news': seq<Mark>)
      modifies creds, secret
      ensures Draft(secret.data, creds.value, dirty', news')
           == PutHostname(config, url, Draft(old(secret.data), old(creds.value), dirty, news))
      ensures Confirmed(news, news', SecretEndpointHostname)
    {
      var key := SecretKey(Hostname, config.ref);
      creds.value := creds.value.(hostname := url.host);
      var reason := "HostnameAlreadySet";
      dirty' := dirty;
      if Entry(secret.data, key) != url.hostname {
        secret.data := secret.data[key := url.hostname];
        dirty' := true;
        reason := "SetHostname";
      }
      news' := news + [Condition(SecretEndpointHostname, True, reason)];
      assert Condition(SecretEndpointHostname, True, reason) in news';
    }

    /** Applies the collected conditions, then derives `SecretAvailable` from its five parts. */
    method Summarise(user: LocalResource<UserCondition>, news: seq<Mark>)
      requires user.Valid()
      requires Positive(news)
      requires user.Holds(SecretUsername) || Mentions(news, SecretUsername)
      requires user.Holds(SecretPassword) || Mentions(news, SecretPassword)
      requires Mentions(news, SecretEndpoint) && Mentions(news, SecretEndpointHostname)
      modifies user`conditions, user`marks
      ensures user.Valid()
      ensures user.marks == old(user.marks) + (news +
                [if old(user.Holds(SecretExists)) then Condition(SecretAvailable, True, "Ready")
                 else Condition(SecretAvailable, False, "NotReady")])
      ensures user.Holds(SecretAvailable) == old(user.Holds(SecretExists))
    {
      hide SetAll, Find, IsTrue, user.Valid, user.Holds;
      if |news| > 0 {
        ApplyAll(user, news);
        var kinds := [SecretExists, SecretUsername, SecretPassword, SecretEndpoint, SecretEndpointHostname];
        var statuses: seq<bool> := [];
        var i := 0;
        while i < |kinds|
          invariant 0 <= i <= |kinds| && |statuses| == i
          invariant forall j :: 0 <= j < i ==> statuses[j] == user.Holds(kinds[j])
        {
          statuses := statuses + [user.Holds(kinds[i])];
          i := i + 1;
        }
        assert statuses[0] == user.Holds(SecretExists);
        if false !in statuses {
          user.Mark(SecretAvailable, True, "Ready");
        } else {
          user.Mark(SecretAvailable, False, "NotReady");
        }
      }
    }

    method ApplyAll(user: LocalResource<UserCondition>, news: seq<Mark>)
      requires user.Valid()
      requires Positive(news)
      modifies user`conditions, user`marks
      ensures user.Valid() && user.marks == old(user.marks) + news
      ensures forall m :: m in news ==> user.Holds(m.kind)
      ensures forall k :: old(user.Holds(k)) ==> user.Holds(k)
      ensures user.Holds(SecretExists) == old(user.Holds(SecretExists))
    {
      hide SetAll, Find, IsTrue, user.Valid, user.Holds;
      var i := 0;
      while i < |news|
        invariant 0 <= i <= |news|
        invariant user.Valid() && user.marks == old(user.marks) + news[..i]
        invariant forall j :: 0 <= j < i ==> user.Holds(news[j].kind)
        invariant forall k :: old(user.Holds(k)) ==> user.Holds(k)
        invariant user.Holds(SecretExists) == old(user.Holds(SecretExists))
      {
        user.Mark(news[i].kind, news[i].status, news[i].reason);
        assert news[..i + 1] == news[..i] + [news[i]];
        i := i + 1;
      }
      assert news[..i] == news;
    }

    /** The observation put together from the answers. */
    static lemma ObservationInParts(c: Config, o: UserOracle, s: SolrState, n: Creds)
      ensures var p, roles := PlanObserve(c, o, s, n), PlanObserveRoles(o, s, n);
              var here := n.username in s.credentials;
              var answer := if o.readCredential then CheckUserAnswer(c.settings, s, n.username, n.password) else Error;
              if !o.readExistence then p.failed && p.marks == [] && p.calls == [GetCredentials]
              else
                && p.present == here && p.current == (here && answer == Ok(true))
                && if !here then
                     && p.failed == roles.failed && p.hasRoles == roles.hasRoles
                     && p.calls == [GetCredentials] + [GetRoles]
                     && p.marks == [Condition(UserExists, False, "UserNotInConfig"),
                                    Condition(PasswordUpToDate, False, "UserNotInConfig")] + roles.marks
                   else if answer.Error? then
                     && p.failed && p.calls == [GetCredentials] + [GetCredentials]
                     && p.marks == [Condition(UserExists, True, "UserInConfig"),
                                    Condition(PasswordUpToDate, Unknown, "Error")]
                   else
                     && p.failed == roles.failed && p.hasRoles == roles.hasRoles
                     && p.calls == [GetCredentials] + [GetCredentials] + [GetRoles]
                     && p.marks == [Condition(UserExists, True, "UserInConfig"),
                                    if answer.value then Condition(PasswordUpToDate, True, "PasswordUpToDate")
                                    else Condition(PasswordUpToDate, False, "PasswordDifferent")] + roles.marks
    {
      hide CheckUserAnswer, PlanObserveRoles;
    }

    /** Reads Solr and marks whether the user, its password and its roles are as wanted. */
    method ReconcileObserveUser(user: LocalResource<UserCondition>, creds: CredentialSet, o: UserOracle)
      returns (ok: bool)
      requires Wired() && user.Valid()
      modifies user`conditions, user`marks, solr`calls
      ensures user.Valid()
      ensures var p := PlanObserve(config, o, solr.View(), creds.value);
              && ok == !p.failed
              && user.marks == old(user.marks) + p.marks
              && solr.calls == old(solr.calls) + p.calls
              && (ok ==> user.Holds(UserExists) == p.present)
              && (ok ==> user.Holds(PasswordUpToDate) == p.current)
              && (ok ==> user.Holds(UserHasRoles) == p.hasRoles)
      ensures user.Holds(SecretAvailable) == old(user.Holds(SecretAvailable))
    {
      hide SetAll, Find, IsTrue, user.Valid, user.Holds, CheckUserAnswer, PlanObserveRoles, solr.View;
      hide RolesOf, Elements, HoldsDefaultRoles;
      ObservationInParts(config, o, solr.View(), creds.value);
      hide PlanObserve;
      var found := solr.CheckUserExistence(creds.value.username, o.readExistence);
      if found.Error? {
        return false;
      } else if found.value {
        user.Mark(UserExists, True, "UserInConfig");
        var checked := ObservePassword(user, creds, o);
        if !checked {
          return false;
        }
      } else {
        user.Mark(UserExists, False, "UserNotInConfig");
        user.Mark(PasswordUpToDate, False, "UserNotInConfig");
      }
      ok := ObserveRoles(user, creds, o);
    }

    /** The part of `ReconcileObserveUser` that looks at an existing user's password. */
    method ObservePassword(user: LocalResource<UserCondition>, creds: CredentialSet, o: UserOracle) returns (ok: bool)
      requires Wired() && user.Valid()
      modifies user`conditions, user`marks, solr`calls
      ensures user.Valid()
      ensures var answer := if o.readCredential
                            then CheckUserAnswer(config.settings, solr.View(), creds.value.username,
                                                 creds.value.password)
                            else Error;
              && ok == answer.Ok?
              && user.marks == old(user.marks) +
                   [match answer
                    case Error => Condition(PasswordUpToDate, Unknown, "Error")
                    case Ok(true) => Condition(PasswordUpToDate, True, "PasswordUpToDate")
                    case Ok(false) => Condition(PasswordUpToDate, False, "PasswordDifferent")]
              && user.Holds(PasswordUpToDate) == (answer == Ok(true))
      ensures solr.calls == old(solr.calls) + [GetCredentials]
      ensures forall k :: k != PasswordUpToDate ==> user.Holds(k) == old(user.Holds(k))
    {
      hide SetAll, Find, IsTrue, user.Valid, user.Holds, CheckUserAnswer, solr.View;
      var matches := solr.CheckUser(creds.value.username, creds.value.password, o.readCredential);
      if matches.Error? {
        user.Mark(PasswordUpToDate, Unknown, "Error");
        return false;
      }
      if !matches.value {
        user.Mark(PasswordUpToDate, False, "PasswordDifferent");
      } else {
        user.Mark(PasswordUpToDate, True, "PasswordUpToDate");
      }
      return true;
    }

    /** The part of `ReconcileObserveUser` that looks at the roles. */
    method ObserveRoles(user: LocalResource<UserCondition>, creds: CredentialSet, o: UserOracle) returns (ok: bool)
      requires Wired() && user.Valid()
      modifies user`conditions, user`marks, solr`calls
      ensures user.Valid()
      ensures var p := PlanObserveRoles(o, solr.View(), creds.value);
              && ok == !p.failed
              && user.marks == old(user.marks) + p.marks
              && (ok ==> user.Holds(UserHasRoles) == p.hasRoles)
      ensures solr.calls == old(solr.calls) + [GetRoles]
      ensures forall k :: k != UserHasRoles ==> user.Holds(k) == old(user.Holds(k))
    {
      hide SetAll, Find, IsTrue, user.Valid, user.Holds, HoldsDefaultRoles, solr.View;
      var held := solr.HasRoles(creds.value.username, o.readRoles);
      if held.Error? {
        return false;
      } else if held.value {
        user.Mark(UserHasRoles, True, "UserHasRoles");
      } else {
        user.Mark(UserHasRoles, False, "UserMissingRoles");
      }
      return true;
    }

    /** Creates the Solr user or updates its password, as observed. */
    method EnsureSolrUser(user: LocalResource<UserCondition>, creds: CredentialSet, o: UserOracle,
                          ghost ob: Observation)
      returns (ok: bool)
      requires Wired() && user.Valid()
      requires user.Holds(UserExists) == ob.present && user.Holds(PasswordUpToDate) == ob.current
      modifies user`conditions, user`marks, solr`credentials, solr`calls
      ensures user.Valid()
      ensures var p := PlanSetUser(config, o, old(solr.View()), ob, creds.value);
              && ok == !p.failed && solr.View() == p.solr
              && user.marks == old(user.marks) + p.marks
              && solr.calls == old(solr.calls) + p.calls
      ensures forall k :: k != UserExists && k != PasswordUpToDate ==> user.Holds(k) == old(user.Holds(k))
    {
      hide SetAll, Find, IsTrue, user.Valid, user.Holds, solr.View, WithUser;
      if !user.Holds(UserExists) {
        ok := solr.CreateUser(creds.value.username, creds.value.password, o.setUser, o.salt);
        if !ok {
          return false;
        }
        user.Mark(UserExists, True, "CreateUser");
        user.Mark(PasswordUpToDate, True, "CreateUser");
      } else if !user.Holds(PasswordUpToDate) {
        ok := solr.UpdateUser(creds.value.username, creds.value.password, o.setUser, o.salt);
        if !ok {
          user.Mark(PasswordUpToDate, Unknown, "FailedPasswordCheck");
          return false;
        }
        user.Mark(PasswordUpToDate, True, "UpdatedPassword");
      }
      return true;
    }

    /** The part of `reconcileUser` that ensures existence. */
    method EnsureExists(user: LocalResource<UserCondition>, creds: CredentialSet, secret: Secret, dirty: bool,
                        o: UserOracle, ghost p: Prepared, ghost ob: Observation) returns (ok: bool)
      requires Wired() && user.Valid() && user.Holds(SecretAvailable)
      requires user.Holds(UserExists) == ob.present && user.Holds(PasswordUpToDate) == ob.current
      requires user.Holds(UserHasRoles) == ob.hasRoles
      requires p.copy == Some(secret.View()) && p.dirty == dirty && p.creds == creds.value && p.versions == api.versions
      modifies user`conditions, user`marks, user`name
      modifies api`versions, api`calls, solr`credentials, solr`roles, solr`calls
      ensures user.Valid()
      ensures var r := PlanEnsure(config, o, p, old(solr.View()), old(user.name), ob);
              && ok == !r.failed
              && api.versions == r.versions && solr.View() == r.solr && user.name == r.name
              && user.marks == old(user.marks) + r.marks
              && api.calls == old(api.calls) + r.apiCalls
              && solr.calls == old(solr.calls) + r.solrCalls
    {
      hide SetAll, Find, IsTrue, user.Valid, user.Holds, solr.View, PlanSetUser, PlanSetRoles, AfterUpdate;
      ok := EnsureSolrUser(user, creds, o, ob);
      if !ok {
        return false;
      }
      if user.name != creds.value.username {
        user.name := creds.value.username;
      }
      ok := EnsureRoles(user, creds, o, ob);
      if !ok {
        return false;
      }
      StoreSecret(user, secret, dirty, o);
      return true;
    }

    /** Adds the default roles when they were not observed. */
    method EnsureRoles(user: LocalResource<UserCondition>, creds: CredentialSet, o: UserOracle, ghost ob: Observation)
      returns (ok: bool)
      requires Wired() && user.Valid() && user.Holds(UserHasRoles) == ob.hasRoles
      modifies user`conditions, user`marks, solr`roles, solr`calls
      ensures user.Valid()
      ensures var p := PlanSetRoles(config, o, old(solr.View()), ob, creds.value);
              && ok == !p.failed && solr.View() == p.solr
              && user.marks == old(user.marks) + p.marks
              && solr.calls == old(solr.calls) + p.calls
      ensures forall k :: k != UserHasRoles ==> user.Holds(k) == old(user.Holds(k))
    {
      hide SetAll, Find, IsTrue, user.Valid, user.Holds, solr.View, WithDefaultRoles, RolesOf, Elements;
      if !user.Holds(UserHasRoles) {
        ok := solr.UpsertRoles(creds.value.username, o.rereadRoles, o.setRoles);
        if !ok {
          return false;
        }
        user.Mark(UserHasRoles, True, "AddededRoles");
      }
      return true;
    }

    /** Writes the secret back when it was changed; a failure is only logged. */
    method StoreSecret(user: LocalResource<UserCondition>, secret: Secret, dirty: bool, o: UserOracle)
      requires user.Holds(SecretAvailable)
      modifies api`versions, api`calls
      ensures api.versions == if dirty then AfterUpdate(old(api.versions), secret.View(), o.updateSecret).0
                              else old(api.versions)
      ensures api.calls == old(api.calls) + if dirty then [UpdateDocument(secret.View())] else []
    {
      hide user.Holds, AfterUpdate;
      if dirty {
        if user.Holds(SecretAvailable) {
          var _ := api.Update(secret.View(), o.updateSecret);
        } else {
          // The source returns an error here.
          assert false;
        }
      }
    }

    /** The part of `reconcileUser` that removes the user from Solr: roles first. */
    method RemoveFromSolr(user: LocalResource<UserCondition>, creds: CredentialSet, o: UserOracle,
                          ghost ob: Observation)
      returns (ok: bool)
      requires Wired()
      requires user.Holds(UserExists) == ob.present && user.Holds(UserHasRoles) == ob.hasRoles
      modifies solr`credentials, solr`roles, solr`calls
      ensures var e := PlanRemove(config, o, old(solr.View()), ob, creds.value);
              && ok == !e.failed && solr.View() == e.solr
              && solr.calls == old(solr.calls) + e.calls
    {
      hide Find, IsTrue, user.Holds, solr.View, WithoutRoles, WithoutUser;
      if user.Holds(UserHasRoles) {
        ok := solr.DeleteRoles(creds.value.username, o.clearRoles);
        if !ok {
          return false;
        }
      }
      if user.Holds(UserExists) {
        ok := solr.DeleteUser(creds.value.username, o.dropUser);
        if !ok {
          return false;
        }
      }
      return true;
    }

    /** The part of `reconcileUser` that loads the secret, resolves the credentials and fills
        in the secret. The error return, which stops the pass, is `ok == false`. */
    method Prepare(user: LocalResource<UserCondition>, o: UserOracle, ensure: bool)
      returns (secret: Secret?, creds: CredentialSet, dirty: bool, ok: bool)
      requires user.Valid()
      modifies user`conditions, user`marks, api`versions, api`calls
      ensures user.Valid()
      ensures var p := PlanPrepare(config, o, old(api.versions), user.name, ensure);
              && ok == !p.failed
              && api.versions == p.versions
              && user.marks == old(user.marks) + p.marks
              && api.calls == old(api.calls) + p.calls
              && (ok ==> dirty == p.dirty && creds.value == p.creds)
              && (ok ==> (secret == null <==> p.copy.None?) && (secret != null ==> p.copy == Some(secret.View())))
      ensures ok && secret != null ==> user.Holds(SecretAvailable)
      ensures ok ==> fresh(creds)
      ensures ok && ensure ==> secret != null
    {
      hide SetAll, Find, IsTrue, user.Valid, user.Holds, PlanGetSecret, PlanCredentials, PlanSecret, FieldMarks,
           FieldIn;
      secret := GetSecret(user, o, ensure);
      if secret == null && ensure {
        creds := new CredentialSet();
        return secret, creds, false, false;
      }
      ghost var m1 := user.marks;
      ghost var data := if secret == null then map[] else secret.data;
      creds := GetCredentialsFromSecret(user, secret);
      ghost var m2 := user.marks;
      dirty, ok := ReconcileSecret(user, creds, secret, o, ensure);
    }

    /** Brings Solr and the secret to the wanted state, or removes the user from Solr. */
    method ReconcileUser(user: LocalResource<UserCondition>, o: UserOracle, ensure: bool) returns (ok: bool)
      requires Wired() && user.Valid()
      modifies user`conditions, user`marks, user`name
      modifies api`versions, api`calls, solr`credentials, solr`roles, solr`calls
      ensures user.Valid()
      ensures var p := PlanReconcile(config, o, old(api.versions), old(solr.View()), old(user.name), ensure);
              && ok == !p.failed
              && api.versions == p.versions && solr.View() == p.solr
              && user.name == p.name && user.marks == old(user.marks) + p.marks
              && api.calls == old(api.calls) + p.apiCalls
              && solr.calls == old(solr.calls) + p.solrCalls
    {
      hide SetAll, Find, IsTrue, user.Valid, user.Holds, solr.View, PlanPrepare, PlanObserve, PlanEnsure, PlanRemove;
      ghost var p := PlanPrepare(config, o, api.versions, user.name, ensure);
      var secret, creds, dirty, prepared := Prepare(user, o, ensure);
      if !prepared {
        return false;
      }
      ghost var ob := PlanObserve(config, o, solr.View(), creds.value);
      var observed := ReconcileObserveUser(user, creds, o);
      if !observed {
        return false;
      }
      if ensure {
        ok := EnsureExists(user, creds, secret, dirty, o, p, ob);
      } else {
        ok := RemoveFromSolr(user, creds, o, ob);
      }
    }

    /** Adds the finaliser to a User that lacks it, and marks the User as being reconciled. */
    method AddFinaliser(user: LocalResource<UserCondition>, o: UserOracle) returns (ok: bool)
      requires user.Valid() && user.marks == [] && !user.finalised
      modifies user, api`resource, api`calls
      ensures user.Valid() && user.name == old(user.name)
      ensures var (r1, ok1) := AfterFinaliser(old(api.resource), true, o.addFinaliser);
              if !ok1 then !ok && api.resource == r1 && api.calls == old(api.calls) + [UpdateFinaliser(true)]
              else
                && user.marks == ReconcilingMarks()
                && (api.resource, ok) == AfterStatus(r1, user.conditions, user.name, o.markReconciling)
                && api.calls == old(api.calls) + [UpdateFinaliser(true), UpdateStatus]
    {
      hide SetAll, Find, IsTrue, user.Valid, user.Holds, AfterFinaliser, AfterStatus;
      user.finalised := true;
      ok := api.UpdateResource(user, o.addFinaliser);
      if !ok {
        return false;
      }
      user.Mark(UserAvailable, False, "Reconciling");
      var kinds := [UserExists, UserHasRoles, PasswordUpToDate];
      ghost var expected := ReconcilingMarks();
      var i := 0;
      while i < |kinds|
        modifies user`conditions, user`marks
        invariant 0 <= i <= |kinds|
        invariant user.Valid() && user.marks == expected[..i + 1]
      {
        user.Mark(kinds[i], Unknown, "Reconciling");
        assert expected[..i + 2] == expected[..i + 1] + [Condition(kinds[i], Unknown, "Reconciling")];
        i := i + 1;
      }
      assert expected[..i + 1] == expected;
      ok := api.UpdateResourceStatus(user, o.markReconciling);
    }

    /** The end of a pass over a User that should exist. */
    method EnsurePass(user: LocalResource<UserCondition>, o: UserOracle) returns (failed: bool, requeue: bool)
      requires Wired() && user.Valid()
      modifies user, api, solr`credentials, solr`roles, solr`calls
      ensures var p := PlanReconcile(config, o, old(api.versions), old(solr.View()), old(user.name), true);
              var verdict := if p.failed then Condition(UserAvailable, False, "ReconciliationFailed")
                             else Condition(UserAvailable, True, "ReconcileSuccess");
              var (stored, ok) := AfterStatus(old(api.resource),
                                              SetAll(user.stored, old(user.marks) + p.marks + [verdict]),
                                              p.name, o.writeStatus);
              && api.resource == stored && api.versions == p.versions && solr.View() == p.solr
              && api.calls == old(api.calls) + p.apiCalls + [UpdateStatus]
              && solr.calls == old(solr.calls) + p.solrCalls
              && failed == requeue == (p.failed || !ok)
    {
      hide SetAll, Find, IsTrue, user.Holds, solr.View, AfterStatus, PlanReconcile;
      var ok := ReconcileUser(user, o, true);
      if !ok {
        user.Mark(UserAvailable, False, "ReconciliationFailed");
        ok := api.UpdateResourceStatus(user, o.writeStatus);
        return true, true;
      } else {
        user.Mark(UserAvailable, True, "ReconcileSuccess");
        ok := api.UpdateResourceStatus(user, o.writeStatus);
        return !ok, !ok;
      }
    }

    /** One reconcile pass. */
    method Reconcile(o: UserOracle) returns (failed: bool, requeue: bool)
      requires Wired()
      modifies api, solr`credentials, solr`roles, solr`calls
      ensures var p := PlanPass(config, o, old(View()));
              && View() == p.world && failed == p.failed && requeue == p.requeue
              && api.calls == old(api.calls) + p.apiCalls
              && solr.calls == old(solr.calls) + p.solrCalls
    {
      hide SetAll, Find, IsTrue, solr.View, AfterFinaliser, AfterStatus, PlanReconcile, ReconcilingMarks;
      if !o.getUser {
        return true, false;
      }
      if api.resource.None? {
        return false, false;
      }
      var user: LocalResource<UserCondition> := new LocalResource(api.resource.value);
      if !o.getClient {
        return true, true;
      }
      if !user.deleting {
        if !user.finalised {
          var ok := AddFinaliser(user, o);
          if !ok {
            return true, true;
          }
        }
      } else if user.finalised {
        var ok := ReconcileUser(user, o, false);
        if !ok {
          return true, true;
        }
        user.finalised := false;
        ok := api.UpdateResource(user, o.removeFinaliser);
        if !ok {
          return true, true;
        }
        return false, false;
      }
      failed, requeue := EnsurePass(user, o);
    }
  }
}
