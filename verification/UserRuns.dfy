/** Runs of the User reconciler: any sequence of passes, each with its own failures, mixed
    with what others do to the User, its secret and Solr between passes. */
module UserRuns {
  import opened GoValues
  import opened Conditions
  import opened SolrClient
  import opened Cluster
  import opened UserPlan

  datatype UserStep =
    | Pass(o: UserOracle)
    | CreateUserResource(foreign: bool, conditions: seq<Mark>)
    | RequestDeletion
    | SetForeign(foreign: bool)
    | EditSecret(data: Option<Data>)
    | EditSolr(solr: SolrState)

  function WithResource(w: UserWorld, r: Option<Resource<UserCondition>>): UserWorld {
    w.(store := w.store.(resource := r))
  }

  function Next(c: Config, w: UserWorld, step: UserStep): UserWorld {
    var r := w.store.resource;
    match step
    case Pass(o) => PlanPass(c, o, w).world
    case CreateUserResource(foreign, conditions) =>
      if r.Some? then w else WithResource(w, Some(Resource(false, foreign, false, conditions, [])))
    case RequestDeletion =>
      if r.None? then w
      else if r.value.finalised || r.value.foreign then WithResource(w, Some(r.value.(deleting := true)))
      else WithResource(w, None)
    case SetForeign(foreign) =>
      if r.None? || (foreign && r.value.deleting) then w
      else if r.value.deleting && !r.value.finalised then WithResource(w, None)
      else WithResource(w, Some(r.value.(foreign := foreign)))
    case EditSecret(data) => w.(store := w.store.(versions := w.store.versions + [data]))
    case EditSolr(solr) => w.(solr := solr)
  }

  function Run(c: Config, w: UserWorld, steps: seq<UserStep>): UserWorld
    decreases |steps|
  {
    if steps == [] then w else Run(c, Next(c, w, steps[0]), steps[1..])
  }

  // ---------------------------------------------------------------- the shape of a pass

  /** Whether a pass gets as far as reconciling, and then whether it ensures existence. */
  function Stage(o: UserOracle, w: UserWorld): Option<bool> {
    if !o.getUser || !o.getClient || w.store.resource.None? then None
    else
      var r := w.store.resource.value;
      if r.deleting then Some(!r.finalised)
      else if r.finalised || (o.addFinaliser.Committed() && o.markReconciling.Committed()) then Some(true)
      else None
  }

  /** A pass in which every call succeeds, but perhaps the read and the update of the secret and
      the last write of the status. */
  predicate SmoothCalls(o: UserOracle) {
    && o.getUser && o.getClient
    && o.usernameSuffix.Some? && o.passwordBytes.Some?
    && o.readExistence && o.readCredential && o.readRoles && o.rereadRoles
    && o.addFinaliser.Committed() && o.markReconciling.Committed() && o.createSecret.Committed()
    && o.setUser.Committed() && o.setRoles.Committed()
    && o.clearRoles.Committed() && o.dropUser.Committed() && o.removeFinaliser.Committed()
  }

  predicate SmoothButRead(o: UserOracle) {
    SmoothCalls(o) && o.updateSecret.Committed() && o.writeStatus.Committed()
  }

  /** A pass in which every call succeeds and the secret is read as it is. */
  predicate Smooth(o: UserOracle) {
    SmoothButRead(o) && o.readSecret == CURRENT
  }

  function SmoothOracle(suffix: seq<Byte>, bytes: seq<Byte>, salt: seq<Byte>): (o: UserOracle)
    ensures Smooth(o)
  {
    var done := Reply(true, true);
    UserOracle(true, true, done, done, CURRENT, done, Some(suffix), Some(bytes), true, true, true, done, salt, true,
               done, done, done, done, done, done)
  }

  /** The stores and the Solr calls of a pass come from its reconciling part alone. */
  lemma PassStores(c: Config, o: UserOracle, w: UserWorld)
    ensures var out, stage := PlanPass(c, o, w), Stage(o, w);
            if stage.None? then
              out.world.store.versions == w.store.versions && out.world.solr == w.solr && out.solrCalls == []
            else
              var p := PlanReconcile(c, o, w.store.versions, w.solr, w.store.resource.value.name, stage.value);
              out.world.store.versions == p.versions && out.world.solr == p.solr && out.solrCalls == p.solrCalls
  {
    hide PlanReconcile, SetAll;
  }

  /** What a pass does to the resource: it never changes who else finalises it and never
      undoes a deletion request; a pass that ensures existence leaves the finaliser on unless
      the resource was being deleted without it; only a deleting pass takes it off. */
  lemma PassResource(c: Config, o: UserOracle, w: UserWorld)
    requires w.store.resource.Some?
    ensures var out, r, stage := PlanPass(c, o, w), w.store.resource.value, Stage(o, w);
            var r' := out.world.store.resource;
            && (stage != Some(false) ==> r'.Some?)
            && (r'.Some? ==> r'.value.foreign == r.foreign && r'.value.deleting == r.deleting)
            && (stage == Some(true) ==> r'.value.finalised == (r.finalised || !r.deleting))
            && (stage == None ==> r'.value.name == r.name)
            && (stage == None && (r.finalised || r.deleting) ==> r' == Some(r))
            && (stage == Some(false) && r' != Some(r) ==>
                  && !PlanReconcile(c, o, w.store.versions, w.solr, r.name, false).failed
                  && o.removeFinaliser.reached
                  && r' == (if r.foreign then Some(r.(finalised := false)) else None))
  {
    hide PlanReconcile, SetAll;
  }

  lemma NothingToReconcile(c: Config, o: UserOracle, w: UserWorld)
    requires w.store.resource.None?
    ensures PlanPass(c, o, w).world == w
  {
  }

  /** The secret as one pass loads or creates it. */
  function SecretSeen(o: UserOracle, h: History, ensure: bool): (copy: Option<Copy>)
    ensures copy.Some? ==> var g := PlanGetSecret(o, h, ensure).versions;
              copy.value.version < |g| && g[copy.value.version] == Some(copy.value.data)
  {
    PlanGetSecret(o, h, ensure).copy
  }

  /** What a pass makes of the secret it has seen. */
  function SecretFilled(c: Config, o: UserOracle, data: Data, name: GoString): SecretPlan {
    PlanSecret(c, o, data, PlanCredentials(c, Some(Copy(0, data)), name),
               FieldIn(c, data, Username), FieldIn(c, data, Password), true)
  }

  /** Filling in fails only for want of random bytes or a readable endpoint. */
  lemma FillingFailsIff(c: Config, o: UserOracle, data: Data, name: GoString)
    ensures SecretFilled(c, o, data, name).failed
       <==> (!FieldIn(c, data, Username) && o.usernameSuffix.None?)
            || (!FieldIn(c, data, Password) && o.passwordBytes.None?) || c.url.None?
  {
    hide SecretKey, Hex, MintedUsername, PlanCredentials, MintUsername, MintPassword, PutEndpoint, PutHostname;
  }

  /** The history grows by at most one creation and one update; the update commits only when
      the copy that was filled in is still the latest version. */
  lemma ReconcileVersions(c: Config, o: UserOracle, h: History, s: SolrState, name: GoString, ensure: bool)
    ensures var r := PlanReconcile(c, o, h, s, name, ensure);
            var g, copy := PlanGetSecret(o, h, ensure).versions, SecretSeen(o, h, ensure);
            && (g == h || (ensure && Latest(h).None? && g == h + [Some(map[])]))
            && (r.versions != g ==>
                  && ensure && copy.Some? && Latest(g) == Some(copy.value.data)
                  && !SecretFilled(c, o, copy.value.data, name).failed
                  && r.versions == g + [Some(SecretFilled(c, o, copy.value.data, name).data)])
  {
    hide SetAll, PlanObserve, PlanSetUser, PlanSetRoles, PlanRemove, PlanSecret, FieldMarks;
  }
}
