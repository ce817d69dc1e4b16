/** The Solr client: what its calls read and write in Solr's security and collection stores.
    A POST that returns no error was answered, not necessarily applied: the client does not
    look at the HTTP status of a POST. */
module SolrClient {
  import opened GoValues
  import opened Credentials

  /** How one request fares: whether it takes effect, and whether the caller gets an answer. */
  datatype Reply = Reply(reached: bool, answered: bool) {
    /** An answer that can be trusted: every answered request took effect. */
    predicate Honest() {
      answered ==> reached
    }

    predicate Committed() {
      reached && answered
    }
  }

  const DEFAULT_ROLES: seq<string> := ["admin", "k8s"]

  /** JSON encoding replaces bytes that are not UTF-8; `wire` is what arrives at Solr. */
  type Wire = GoString -> GoString

  datatype Settings = Settings(digest: Digest, wire: Wire)

  datatype SolrState = SolrState(
    credentials: map<GoString, GoString>,
    roles: map<GoString, set<string>>,
    collections: set<GoString>)

  /** One HTTP request, in the order the operator sends them. */
  datatype SolrCall =
    | GetCredentials
    | GetRoles
    | SetUser(name: GoString, password: GoString)
    | DropUser(name: GoString)
    | SetRoles(name: GoString, roles: set<string>)
    | ClearRoles(name: GoString)
    | ListCollections
    | DropCollection(name: GoString)
  {
    predicate IsWrite() {
      !GetCredentials? && !GetRoles? && !ListCollections?
    }
  }

  // ------------------------------------------------- what the calls mean for the stores

  function RolesOf(s: SolrState, name: GoString): set<string> {
    if name in s.roles then s.roles[name] else {}
  }

  predicate HoldsDefaultRoles(s: SolrState, name: GoString) {
    Elements(DEFAULT_ROLES) <= RolesOf(s, name)
  }

  /** Solr stores the printed credential under the name it received, with a salt it draws. */
  function WithUser(c: Settings, s: SolrState, name: GoString, password: GoString, salt: seq<Byte>): SolrState {
    s.(credentials := s.credentials[c.wire(name) := Print(c.digest, salt, c.wire(password))])
  }

  function WithoutUser(c: Settings, s: SolrState, name: GoString): SolrState {
    s.(credentials := s.credentials - {c.wire(name)})
  }

  function WithDefaultRoles(c: Settings, s: SolrState, name: GoString): SolrState {
    s.(roles := s.roles[c.wire(name) := RolesOf(s, name) + Elements(DEFAULT_ROLES)])
  }

  function WithoutRoles(c: Settings, s: SolrState, name: GoString): SolrState {
    s.(roles := s.roles - {c.wire(name)})
  }

  function WithoutCollection(s: SolrState, name: GoString): SolrState {
    s.(collections := s.collections - {name})
  }

  /** Solr accepts this password for this user. */
  predicate Accepts(c: Settings, s: SolrState, name: GoString, password: GoString) {
    name in s.credentials && Check(c.digest, s.credentials[name], password) == Ok(true)
  }

  /** What `CheckUser` answers when Solr can be read. */
  function CheckUserAnswer(c: Settings, s: SolrState, name: GoString, password: GoString): Result<bool> {
    if name !in s.credentials then Ok(false) else Check(c.digest, s.credentials[name], password)
  }

  /** What is stored by a user write is accepted by a user check, when the name and the
      password reach Solr as they are; no other user's credential changes, nor do roles. */
  lemma StoredUserIsAccepted(c: Settings, s: SolrState, name: GoString, password: GoString, salt: seq<Byte>)
    requires c.wire(name) == name && c.wire(password) == password
    ensures Accepts(c, WithUser(c, s, name, password, salt), name, password)
    ensures forall other :: other != name ==>
              (other in WithUser(c, s, name, password, salt).credentials <==> other in s.credentials)
    ensures forall other :: other != name && other in s.credentials ==>
              WithUser(c, s, name, password, salt).credentials[other] == s.credentials[other]
    ensures WithUser(c, s, name, password, salt).roles == s.roles
    ensures WithUser(c, s, name, password, salt).collections == s.collections
  {
    PrintedChecks(c.digest, salt, password, password);
  }

  /** The stored password answers exactly for the digest of what arrived, so a password that
      JSON encoding changed is refused unless the two salted double digests collide. */
  lemma MangledPasswordAnswer(c: Settings, s: SolrState, name: GoString, password: GoString, salt: seq<Byte>)
    requires c.wire(name) == name
    ensures Accepts(c, WithUser(c, s, name, password, salt), name, password)
       <==> Twice(c.digest, salt + c.wire(password)) == Twice(c.digest, salt + password)
  {
    PrintedChecks(c.digest, salt, c.wire(password), password);
  }

  /** Upserting roles is exact union: other users keep theirs, the check then succeeds, and
      upserting again changes nothing. */
  lemma UpsertIsUnion(c: Settings, s: SolrState, name: GoString)
    requires c.wire(name) == name
    ensures var s' := WithDefaultRoles(c, s, name);
            && RolesOf(s', name) == RolesOf(s, name) + Elements(DEFAULT_ROLES)
            && HoldsDefaultRoles(s', name)
            && (forall other :: other != name ==> RolesOf(s', other) == RolesOf(s, other))
            && WithDefaultRoles(c, s', name) == s'
            && (HoldsDefaultRoles(s, name) && name in s.roles ==> s' == s)
  {
    var s' := WithDefaultRoles(c, s, name);
    assert RolesOf(s', name) + Elements(DEFAULT_ROLES) == RolesOf(s', name);
    assert WithDefaultRoles(c, s', name).roles == s'.roles;
    if HoldsDefaultRoles(s, name) && name in s.roles {
      assert RolesOf(s, name) + Elements(DEFAULT_ROLES) == RolesOf(s, name);
      assert s'.roles == s.roles;
    }
  }

  /** A write puts one entry under the name that arrives, and changes nothing else. */
  lemma WritesAreExact(c: Settings, s: SolrState, name: GoString, password: GoString, salt: seq<Byte>)
    ensures var t, n := WithUser(c, s, name, password, salt), c.wire(name);
            && t.roles == s.roles && t.collections == s.collections
            && t.credentials.Keys == s.credentials.Keys + {n}
            && t.credentials[n] == Print(c.digest, salt, c.wire(password))
            && (forall other :: other != n && other in s.credentials ==> t.credentials[other] == s.credentials[other])
    ensures var t, n := WithDefaultRoles(c, s, name), c.wire(name);
            && t.credentials == s.credentials && t.collections == s.collections
            && t.roles.Keys == s.roles.Keys + {n}
            && t.roles[n] == RolesOf(s, name) + Elements(DEFAULT_ROLES)
            && (forall other :: other != n && other in s.roles ==> t.roles[other] == s.roles[other])
  {
  }

  /** Dropping a user, or its roles, takes away the entry under the name that arrives, and dropping
      a collection takes away that one; nothing else changes. */
  lemma RemovalsAreExact(c: Settings, s: SolrState, name: GoString)
    ensures var t, n := WithoutUser(c, s, name), c.wire(name);
            && t.roles == s.roles && t.collections == s.collections
            && t.credentials.Keys == s.credentials.Keys - {n}
            && (forall other :: other != n && other in s.credentials ==> t.credentials[other] == s.credentials[other])
    ensures var t, n := WithoutRoles(c, s, name), c.wire(name);
            && t.credentials == s.credentials && t.collections == s.collections
            && t.roles.Keys == s.roles.Keys - {n}
            && (forall other :: other != n && other in s.roles ==> t.roles[other] == s.roles[other])
    ensures var t := WithoutCollection(s, name);
            && t.collections == s.collections - {name} && t.credentials == s.credentials && t.roles == s.roles
  {
  }

  /** The roles every user is given, by name. */
  lemma DefaultRolesByName(c: Settings, s: SolrState, name: GoString)
    requires c.wire(name) == name
    ensures HoldsDefaultRoles(s, name) <==> name in s.roles && {"admin", "k8s"} <= s.roles[name]
    ensures var t := WithDefaultRoles(c, s, name);
            && name in t.roles && t.credentials == s.credentials && t.collections == s.collections
            && t.roles[name] == (if name in s.roles then s.roles[name] else {}) + {"admin", "k8s"}
  {
    assert Elements(DEFAULT_ROLES) == {DEFAULT_ROLES[0], DEFAULT_ROLES[1]} == {"admin", "k8s"};
  }

  /** A Go map used as a set of strings. */
  class StringSet {
    var members: set<string>

    constructor ()
      ensures members == {}
    {
      members := {};
    }

    method Add(value: string)
      modifies this
      ensures members == old(members) + {value}
    {
      members := members + {value};
    }

    method AddAll(values: seq<string>)
      modifies this
      ensures members == old(members) + Elements(values)
    {
      var i := 0;
      while i < |values|
        invariant 0 <= i <= |values|
        invariant members == old(members) + Elements(values[..i])
      {
        Add(values[i]);
        assert values[..i + 1] == values[..i] + [values[i]];
        ElementsOfSum(values[..i], [values[i]]);
        i := i + 1;
      }
      assert values[..i] == values;
    }

    /** The members in some iteration order: nothing more is promised about the order. */
    method KeySet() returns (keys: seq<string>)
      ensures Elements(keys) == members && NoDuplicates(keys)
    {
      keys := [];
      var rest := members;
      while rest != {}
        invariant rest <= members && Elements(keys) == members - rest
        invariant NoDuplicates(keys)
        decreases rest
      {
        var k :| k in rest;
        assert k !in Elements(keys);
        ElementsOfSum(keys, [k]);
        keys, rest := keys + [k], rest - {k};
      }
    }
  }

  /** The client together with the Solr stores its requests reach. */
  class Client {
    const settings: Settings
    var credentials: map<GoString, GoString>
    var roles: map<GoString, seq<string>>
    var collections: seq<GoString>
    ghost var calls: seq<SolrCall>

    ghost function View(): SolrState
      reads this`credentials, this`roles, this`collections
    {
      SolrState(credentials, map u | u in roles :: Elements(roles[u]), Elements(collections))
    }

    constructor (settings: Settings, credentials: map<GoString, GoString>, roles: map<GoString, seq<string>>,
                 collections: seq<GoString>)
      ensures this.settings == settings && this.credentials == credentials && this.roles == roles
      ensures this.collections == collections && calls == []
    {
      this.settings, this.credentials, this.roles, this.collections := settings, credentials, roles, collections;
      calls := [];
    }

    /** Sets a password, creating the user if needed. */
    method CreateUser(name: GoString, password: GoString, reply: Reply, salt: seq<Byte>) returns (ok: bool)
      modifies this`credentials, this`calls
      ensures ok == reply.answered
      ensures calls == old(calls) + [SetUser(name, password)]
      ensures View() == if reply.reached then WithUser(settings, old(View()), name, password, salt) else old(View())
    {
      calls := calls + [SetUser(name, password)];
      if reply.reached {
        credentials := credentials[settings.wire(name)
                       := Print(settings.digest, salt, settings.wire(password))];
      }
      return reply.answered;
    }

    method UpdateUser(name: GoString, password: GoString, reply: Reply, salt: seq<Byte>) returns (ok: bool)
      modifies this`credentials, this`calls
      ensures ok == reply.answered
      ensures calls == old(calls) + [SetUser(name, password)]
      ensures View() == if reply.reached then WithUser(settings, old(View()), name, password, salt) else old(View())
    {
      ok := CreateUser(name, password, reply, salt);
    }

    method CheckUserExistence(username: GoString, readable: bool) returns (answer: Result<bool>)
      modifies this`calls
      ensures calls == old(calls) + [GetCredentials]
      ensures answer == if readable then Ok(username in View().credentials) else Error
    {
      calls := calls + [GetCredentials];
      if !readable {
        return Error;
      }
      return Ok(username in credentials);
    }

    method CheckUser(username: GoString, password: GoString, readable: bool) returns (answer: Result<bool>)
      modifies this`calls
      ensures calls == old(calls) + [GetCredentials]
      ensures answer == if readable then CheckUserAnswer(settings, View(), username, password) else Error
    {
      calls := calls + [GetCredentials];
      if !readable {
        return Error;
      } else if username !in credentials {
        return Ok(false);
      }
      var info := new CredInfo(credentials[username]);
      answer := info.CheckPassword(settings.digest, password);
    }

    method DeleteUser(name: GoString, reply: Reply) returns (ok: bool)
      modifies this`credentials, this`calls
      ensures ok == reply.answered
      ensures calls == old(calls) + [DropUser(name)]
      ensures View() == if reply.reached then WithoutUser(settings, old(View()), name) else old(View())
    {
      calls := calls + [DropUser(name)];
      if reply.reached {
        credentials := credentials - {settings.wire(name)};
      }
      return reply.answered;
    }

    /** The roles assigned to a user; none when the user has no entry. */
    method ReadRoles(name: GoString, readable: bool) returns (answer: Result<seq<string>>)
      modifies this`calls
      ensures calls == old(calls) + [GetRoles]
      ensures answer.Ok? == readable
      ensures readable ==> answer.value == if name in roles then roles[name] else []
      ensures readable ==> Elements(answer.value) == RolesOf(View(), name)
    {
      calls := calls + [GetRoles];
      if !readable {
        return Error;
      }
      return Ok(if name in roles then roles[name] else []);
    }

    method HasRoles(name: GoString, readable: bool) returns (answer: Result<bool>)
      modifies this`calls
      ensures calls == old(calls) + [GetRoles]
      ensures answer == if readable then Ok(HoldsDefaultRoles(View(), name)) else Error
    {
      var found := ReadRoles(name, readable);
      if found.Error? {
        return Error;
      }
      var held := new StringSet();
      held.AddAll(found.value);
      var i := 0;
      while i < |DEFAULT_ROLES|
        invariant 0 <= i <= |DEFAULT_ROLES|
        invariant Elements(DEFAULT_ROLES[..i]) <= held.members
      {
        if DEFAULT_ROLES[i] !in held.members {
          assert DEFAULT_ROLES[i] in Elements(DEFAULT_ROLES);
          return Ok(false);
        }
        assert DEFAULT_ROLES[..i + 1] == DEFAULT_ROLES[..i] + [DEFAULT_ROLES[i]];
        i := i + 1;
      }
      assert DEFAULT_ROLES[..i] == DEFAULT_ROLES;
      return Ok(true);
    }

    /** Adds the default roles to a user's roles, whatever order the set is listed in. */
    method UpsertRoles(name: GoString, readable: bool, reply: Reply) returns (ok: bool)
      modifies this`roles, this`calls
      ensures ok == (readable && reply.answered)
      ensures calls == old(calls) + [GetRoles] +
                (if readable then [SetRoles(name, RolesOf(old(View()), name) + Elements(DEFAULT_ROLES))] else [])
      ensures View() == if readable && reply.reached then WithDefaultRoles(settings, old(View()), name) else old(View())
      ensures readable && reply.reached ==> settings.wire(name) in roles && NoDuplicates(roles[settings.wire(name)])
      ensures forall u :: u != settings.wire(name) ==>
                (u in roles <==> u in old(roles)) && (u in roles ==> roles[u] == old(roles)[u])
    {
      var found := ReadRoles(name, readable);
      if found.Error? {
        return false;
      }
      var keys := WithDefaults(found.value);
      calls := calls + [SetRoles(name, Elements(keys))];
      if reply.reached {
        roles := roles[settings.wire(name) := keys];
        assert View().roles == WithDefaultRoles(settings, old(View()), name).roles;
      }
      return reply.answered;
    }

    /** The members of the given roles and the default ones, each listed once, in any order. */
    static method WithDefaults(current: seq<string>) returns (keys: seq<string>)
      ensures Elements(keys) == Elements(current) + Elements(DEFAULT_ROLES) && NoDuplicates(keys)
    {
      var wanted := new StringSet();
      wanted.AddAll(current);
      wanted.AddAll(DEFAULT_ROLES);
      keys := wanted.KeySet();
    }

    method DeleteRoles(name: GoString, reply: Reply) returns (ok: bool)
      modifies this`roles, this`calls
      ensures ok == reply.answered
      ensures calls == old(calls) + [ClearRoles(name)]
      ensures View() == if reply.reached then WithoutRoles(settings, old(View()), name) else old(View())
    {
      calls := calls + [ClearRoles(name)];
      if reply.reached {
        roles := roles - {settings.wire(name)};
        assert View().roles == WithoutRoles(settings, old(View()), name).roles;
      }
      return reply.answered;
    }

    method CollectionExists(name: GoString, readable: bool) returns (answer: Result<bool>)
      modifies this`calls
      ensures calls == old(calls) + [ListCollections]
      ensures answer == if readable then Ok(name in View().collections) else Error
    {
      calls := calls + [ListCollections];
      if !readable {
        return Error;
      }
      return Ok(name in collections);
    }

    /** Unlike a POST, this request is a GET whose HTTP status is checked: no error means done. */
    method DeleteCollection(name: GoString, reply: Reply) returns (ok: bool)
      modifies this`collections, this`calls
      ensures ok == (reply.reached && reply.answered)
      ensures calls == old(calls) + [DropCollection(name)]
      ensures View() == if reply.reached then WithoutCollection(old(View()), name) else old(View())
    {
      calls := calls + [DropCollection(name)];
      if reply.reached {
        collections := Without(collections, name);
      }
      return reply.reached && reply.answered;
    }
  }

  function Without(names: seq<GoString>, name: GoString): (r: seq<GoString>)
    ensures Elements(r) == Elements(names) - {name}
  {
    if names == [] then []
    else
      var first := if names[0] == name then [] else [names[0]];
      var rest := Without(names[1..], name);
      assert names == [names[0]] + names[1..];
      ElementsOfSum([names[0]], names[1..]);
      ElementsOfSum(first, rest);
      first + rest
  }
}
