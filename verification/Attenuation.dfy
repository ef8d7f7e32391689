/**
 The credential attenuation end to end: the engine's two passes, their
 conjunction into one composite scope, and the relations reached from it. A
 request never sees or affects more than the owner and the claimant each may,
 where no table's handlers can be widened; its reference checks are kept where
 their names resolve back.
 */
module Attenuation {
  import opened Options
  import opened SchemaWalk
  import opened Filters
  import opened Scopes
  import opened RestrictOnly
  import opened Handlers
  import opened Claimants
  import opened WriteRefs
  import opened CompositeRefs
  import opened Relations
  import opened Engine
  import opened ConjunctionErrors

  /** One composite scope from the two passes; an empty list is a denied pass and throws. */
  function ConjoinArbacDbScopes(userScopes: seq<Scope>, credScopes: seq<Scope>,
                                opts: ConjoinOptions): Attempt<seq<Scope>> {
    if userScopes == [] || credScopes == [] then Threw
    else
      var c :- ConjoinScopes(userScopes, credScopes, opts);
      Returned([c])
  }

  /** The scopes a principal is served under; `None` when denied. */
  function EvaluateArbac(roles: map<string, Role<Scope>>, resource: string, action: string, user: User,
                         opts: ConjoinOptions)
    : Attempt<Option<seq<Scope>>>
  {
    match Evaluated(roles, resource, action, user, EMPTY_SCOPE)
    case Denied => Returned(None)
    case Allowed(scopes) => Returned(Some(scopes))
    case Attenuated(scopes, credScopes) =>
      var composite :- ConjoinArbacDbScopes(scopes, credScopes, opts);
      Returned(Some(composite))
  }

  /** The owner without the credential's claim. */
  function Owner(user: User): User {
    user.(attenuate := None)
  }

  /** The narrowed view as a principal of its own: the claimed roles and attributes. */
  function Claimant(roles: map<string, Role<Scope>>, user: User): User
    requires user.attenuate.Some?
  {
    User(user.id, CredRoles(roles, user.roles, user.attenuate.value), CredAttrs(user.attrs, user.attenuate.value), None)
  }

  /**
   The composite of an attenuated evaluation is the conjunction of what the
   owner and the claimant are each served, and attenuates both.
   */
  lemma CredentialNeverWidens(db: Db, roles: map<string, Role<Scope>>, resource: string, action: string, user: User,
                              opts: ConjoinOptions)
    requires user.attenuate.Some? && Descending(opts.schema)
    requires EvaluateArbac(roles, resource, action, user, opts).Returned?
    requires EvaluateArbac(roles, resource, action, user, opts).value.Some?
    ensures var served := EvaluateArbac(roles, resource, action, user, opts).value.value;
            var owner := EvaluateArbac(roles, resource, action, Owner(user), opts);
            var claimant := EvaluateArbac(roles, resource, action, Claimant(roles, user), opts);
            && owner.Returned? && owner.value.Some? && Attenuates(Values, db, served, owner.value.value)
            && claimant.Returned? && claimant.value.Some? && Attenuates(Values, db, served, claimant.value.value)
            && Returned(served) == ConjoinArbacDbScopes(owner.value.value, claimant.value.value, opts)
  {
    AttenuationIntersects(roles, resource, action, user, EMPTY_SCOPE);
    var o := Evaluated(roles, resource, action, user, EMPTY_SCOPE);
    assert Evaluated(roles, resource, action, Claimant(roles, user), EMPTY_SCOPE) == Allowed(o.credScopes);
    CompositeAttenuates(Values, db, o.scopes, o.credScopes, opts);
  }

  /** What makes the conjunction of two lists throw. */
  ghost predicate Uncombinable(a: seq<Scope>, b: seq<Scope>, opts: ConjoinOptions) {
    InvalidBelow(a, b, opts.fields.Keys) || (opts.refs.Some? && opts.refs.value(a, b).Threw?)
  }

  /** The composite throws on an empty list, which is a denied pass, and where the two lists cannot be combined. */
  lemma CompositeThrowsIff(userScopes: seq<Scope>, credScopes: seq<Scope>, opts: ConjoinOptions)
    ensures ConjoinArbacDbScopes(userScopes, credScopes, opts).Threw?
      <==> userScopes == [] || credScopes == [] || Uncombinable(userScopes, credScopes, opts)
  {
    ConjoinThrowsIff(userScopes, credScopes, opts);
  }

  /**
   What the composite of an owner's and a credential's list is: the rows and
   checks of both where a field is common and none elsewhere, the owner's fields
   where none is, and on a forced field the owner's value before the credential's.
   */
  lemma CompositeServes(db: Db, userScopes: seq<Scope>, credScopes: seq<Scope>, opts: ConjoinOptions, row: Value,
                        f: string, k: string)
    requires ConjoinArbacDbScopes(userScopes, credScopes, opts).Returned?
    ensures UnionProjection(userScopes).Returned? && UnionProjection(credScopes).Returned?
    ensures var served := ConjoinArbacDbScopes(userScopes, credScopes, opts).value;
            var kept := CommonFields(userScopes, credScopes, opts.schema).Some?;
            var forced, own, cred := UnionForced(served), UnionForced(userScopes), UnionForced(credScopes);
      && |served| == 1
      && (RowVisible(db, served, row) <==> kept && RowVisible(db, userScopes, row) && RowVisible(db, credScopes, row))
      && (CheckPasses(db, served, row) <==>
            kept && CheckPasses(db, userScopes, row) && CheckPasses(db, credScopes, row))
      && (!kept ==> (PathGranted(served, f) <==> PathGranted(userScopes, f)))
      && (k in forced <==> k in own || k in cred)
      && (k in forced ==> forced[k] == if k in own then own[k] else cred[k])
  {
    CompositeRowsExact(db, userScopes, credScopes, opts, row);
    var c := ConjoinScopes(userScopes, credScopes, opts).value;
    OneScopeWrites(c);
    if CommonFields(userScopes, credScopes, opts.schema).None? {
      UnionIsValid(userScopes);
      OneScopeProjection(c);
    }
  }

  /** An evaluation throws exactly where both principals are allowed and their lists cannot be combined. */
  lemma EvaluationThrowsIff(roles: map<string, Role<Scope>>, resource: string, action: string, user: User,
                            opts: ConjoinOptions)
    ensures EvaluateArbac(roles, resource, action, user, opts).Threw? <==>
      && user.attenuate.Some?
      && var owner := EvaluateArbac(roles, resource, action, Owner(user), opts);
         var claimant := EvaluateArbac(roles, resource, action, Claimant(roles, user), opts);
         && owner.Returned? && owner.value.Some? && claimant.Returned? && claimant.value.Some?
         && Uncombinable(owner.value.value, claimant.value.value, opts)
  {
    if user.attenuate.Some? {
      AttenuationIntersects(roles, resource, action, user, EMPTY_SCOPE);
      var o := Evaluated(roles, resource, action, user, EMPTY_SCOPE);
      if o.Attenuated? {
        CompositeThrowsIff(o.scopes, o.credScopes, opts);
      }
    }
  }

  /** Denied to the owner or to the claimant is denied to the credential. */
  lemma DenialIsKept(roles: map<string, Role<Scope>>, resource: string, action: string, user: User,
                     opts: ConjoinOptions)
    requires user.attenuate.Some?
    ensures EvaluateArbac(roles, resource, action, user, opts) == Returned(None)
            <==> || EvaluateArbac(roles, resource, action, Owner(user), opts) == Returned(None)
                 || EvaluateArbac(roles, resource, action, Claimant(roles, user), opts) == Returned(None)
  {
    AttenuationIntersects(roles, resource, action, user, EMPTY_SCOPE);
  }

  /** No value of a row is exposed that the owner or the claimant cannot see. */
  lemma ExposureNeverWidens(db: Db, roles: map<string, Role<Scope>>, resource: string, action: string, user: User,
                            opts: ConjoinOptions, row: Value, f: string)
    requires user.attenuate.Some? && Descending(opts.schema)
    requires EvaluateArbac(roles, resource, action, user, opts).Returned?
    requires EvaluateArbac(roles, resource, action, user, opts).value.Some?
    requires Exposes(db, EvaluateArbac(roles, resource, action, user, opts).value.value, row, f)
    ensures var owner := Evaluated(roles, resource, action, Owner(user), EMPTY_SCOPE);
            var claimant := Evaluated(roles, resource, action, Claimant(roles, user), EMPTY_SCOPE);
            && owner.Allowed? && Exposes(db, owner.scopes, row, f)
            && claimant.Allowed? && Exposes(db, claimant.scopes, row, f)
  {
    CredentialNeverWidens(db, roles, resource, action, user, opts);
  }

  /** A claim that narrows nothing changes nothing the principal can see. */
  lemma EmptyClaimChangesNothing(db: Db, roles: map<string, Role<Scope>>, resource: string, action: string, user: User,
                                 opts: ConjoinOptions, row: Value, f: string)
    requires user.attenuate.Some? && user.attenuate.value.roles.None? && user.attenuate.value.attrs.None?
    requires EvaluateArbac(roles, resource, action, user, opts).Returned?
    ensures var served := EvaluateArbac(roles, resource, action, user, opts);
            var owner := Evaluated(roles, resource, action, Owner(user), EMPTY_SCOPE);
      && (served.value.Some? <==> owner.Allowed?)
      && (served.value.Some? ==> (Exposes(db, served.value.value, row, f) <==> Exposes(db, owner.scopes, row, f)))
  {
    AttenuationIntersects(roles, resource, action, user, EMPTY_SCOPE);
    var o := Evaluated(roles, resource, action, user, EMPTY_SCOPE);
    if o.Attenuated? {
      CompositeExposesExactly(db, o.scopes, o.credScopes, opts, {}, row, f);
    }
  }

  // ── What a role serves ────────────

  ghost predicate PlainRegistry(roles: map<string, Role<Scope>>) {
    forall r, i, attrs, id :: r in roles && 0 <= i < |roles[r].rules| ==> PlainRule(roles[r].rules[i], attrs, id)
  }

  ghost predicate PlainRule(rule: Rule<Scope>, attrs: Attrs, id: string) {
    (rule.AllowRule? && rule.scope.Some? && rule.scope.value(attrs, id).Some?)
      ==> PlainScope(rule.scope.value(attrs, id).value)
  }

  ghost predicate PlainCompiled(rules: seq<CompiledRule<Scope>>, attrs: Attrs, id: string) {
    forall i :: 0 <= i < |rules| && rules[i].scope.Some? && rules[i].scope.value(attrs, id).Some?
      ==> PlainScope(rules[i].scope.value(attrs, id).value)
  }

  lemma {:induction false} CompiledPlain(rules: seq<Rule<Scope>>, resource: string, attrs: Attrs, id: string)
    requires forall i :: 0 <= i < |rules| ==> PlainRule(rules[i], attrs, id)
    ensures PlainCompiled(Compiled(rules, resource, false), attrs, id)
  {
    if rules != [] {
      CompiledPlain(rules[..|rules| - 1], resource, attrs, id);
      assert PlainRule(rules[|rules| - 1], attrs, id);
    }
  }

  lemma {:induction false} MatchingPlain(rules: seq<CompiledRule<Scope>>, action: string, attrs: Attrs, id: string)
    requires PlainCompiled(rules, attrs, id)
    ensures PlainCompiled(Matching(rules, action), attrs, id)
  {
    if rules != [] {
      MatchingPlain(rules[..|rules| - 1], action, attrs, id);
    }
  }

  lemma {:induction false} RuleScopesPlain(rules: seq<CompiledRule<Scope>>, attrs: Attrs, id: string)
    requires PlainCompiled(rules, attrs, id)
    ensures Plain(RuleScopes(rules, attrs, id, EMPTY_SCOPE))
  {
    if rules != [] {
      RuleScopesPlain(rules[..|rules| - 1], attrs, id);
    }
  }

  lemma {:induction false} MatchScopesPlain(roles: map<string, Role<Scope>>, resource: string, action: string,
                                            roleIds: seq<string>, attrs: Attrs, id: string)
    requires PlainRegistry(roles)
    ensures Plain(MatchScopes(RoleMatches(roles, resource, action, roleIds), attrs, id, EMPTY_SCOPE))
  {
    if roleIds != [] {
      var init, last := roleIds[..|roleIds| - 1], roleIds[|roleIds| - 1];
      MatchScopesPlain(roles, resource, action, init, attrs, id);
      if last in roles {
        CompiledPlain(roles[last].rules, resource, attrs, id);
        MatchingPlain(Compiled(roles[last].rules, resource, false), action, attrs, id);
        RuleScopesPlain(RoleMatch(roles[last], resource, action).allow, attrs, id);
        var matches := RoleMatches(roles, resource, action, roleIds);
        assert matches[..|matches| - 1] == RoleMatches(roles, resource, action, init);
      } else {
        assert RoleMatches(roles, resource, action, roleIds) == RoleMatches(roles, resource, action, init);
      }
    }
  }

  /** An unattenuated principal's evaluation returns, and serves a list of unmarked scopes that is not empty. */
  lemma ServedPlain(roles: map<string, Role<Scope>>, resource: string, action: string, user: User, opts: ConjoinOptions)
    requires PlainRegistry(roles) && user.attenuate.None?
    ensures var r := EvaluateArbac(roles, resource, action, user, opts);
      r.Returned? && (r.value.Some? ==> Plain(r.value.value) && r.value.value != [])
  {
    MatchScopesPlain(roles, resource, action, user.roles, user.attrs, user.id);
  }

  // ── The served tables ────────────

  /** The table a handler serves: its schema lookup, and its foreign keys when it has any. */
  datatype TableSource = TableSource(schema: Schema, refTable: Option<RefTable>)

  /** A handler reads are authorized as, evaluated against its own table. */
  datatype Handler = Handler(resource: string, action: string, source: TableSource)

  /** The served tables: their relations, the handlers registered for each, and the custom-field rules. */
  datatype Site = Site(
    related: (string, string) -> Option<string>,
    relations: string -> set<string>,
    handlers: string -> seq<Handler>,
    source: string -> TableSource,
    fields: FieldRules)

  ghost predicate LooksUpDownward(site: Site) {
    && (forall t :: Descending(site.source(t).schema))
    && (forall t, i :: 0 <= i < |site.handlers(t)| ==> Descending(site.handlers(t)[i].source.schema))
  }

  /** What a conjunction over a table knows: its schema, and its foreign keys if it has any. */
  function OptionsOf(site: Site, source: TableSource): ConjoinOptions {
    ConjoinOptions(source.schema, RefRule(source.refTable), site.fields)
  }

  /** One handler's outcome for a principal. */
  function Served(site: Site, roles: map<string, Role<Scope>>, user: User, h: Handler): Attempt<Grant> {
    EvaluateArbac(roles, h.resource, h.action, user, OptionsOf(site, h.source))
  }

  function OutcomesFor(site: Site, roles: map<string, Role<Scope>>, user: User, hs: seq<Handler>): seq<Attempt<Grant>> {
    seq(|hs|, i requires 0 <= i < |hs| => Served(site, roles, user, hs[i]))
  }

  function HandlerOptions(site: Site, hs: seq<Handler>): seq<ConjoinOptions> {
    seq(|hs|, i requires 0 <= i < |hs| => OptionsOf(site, hs[i].source))
  }

  /** Relation resolution for one principal: its own outcome on every handler of every table. */
  function WorldOf(site: Site, roles: map<string, Role<Scope>>, user: User): World {
    World(
      site.related,
      t => OutcomesFor(site, roles, user, site.handlers(t)),
      site.relations,
      t => OptionsOf(site, site.source(t)))
  }

  /** One handler: the attenuated outcome conjoins the owner's and the claimant's, which are role lists. */
  lemma HandlerOutcomes(site: Site, roles: map<string, Role<Scope>>, user: User, h: Handler)
    requires user.attenuate.Some? && PlainRegistry(roles)
    ensures var own, cred := Served(site, roles, Owner(user), h), Served(site, roles, Claimant(roles, user), h);
      && own.Returned? && cred.Returned?
      && Served(site, roles, user, h) == AttenuatedGrant(own, cred, OptionsOf(site, h.source))
      && (own.value.Some? ==> Plain(own.value.value) && own.value.value != [])
      && (cred.value.Some? ==> Plain(cred.value.value) && cred.value.value != [])
  {
    AttenuationIntersects(roles, h.resource, h.action, user, EMPTY_SCOPE);
    ServedPlain(roles, h.resource, h.action, Owner(user), OptionsOf(site, h.source));
    ServedPlain(roles, h.resource, h.action, Claimant(roles, user), OptionsOf(site, h.source));
  }

  /** Every table of the attenuated world conjoins, handler by handler, what owner and claimant are served. */
  lemma AttenuatedWorldOf(site: Site, roles: map<string, Role<Scope>>, user: User)
    requires user.attenuate.Some? && PlainRegistry(roles) && LooksUpDownward(site)
    ensures AttenuatedWorld(WorldOf(site, roles, user), WorldOf(site, roles, Owner(user)),
                            WorldOf(site, roles, Claimant(roles, user)), t => HandlerOptions(site, site.handlers(t)))
  {
    var both, own := WorldOf(site, roles, user), WorldOf(site, roles, Owner(user));
    var cred := WorldOf(site, roles, Claimant(roles, user));
    forall t ensures AttenuatedTable(both, own, cred, HandlerOptions(site, site.handlers(t)), t) {
      TableOutcomes(site, roles, user, t);
    }
  }

  lemma TableOutcomes(site: Site, roles: map<string, Role<Scope>>, user: User, t: string)
    requires user.attenuate.Some? && PlainRegistry(roles) && LooksUpDownward(site)
    ensures AttenuatedTable(WorldOf(site, roles, user), WorldOf(site, roles, Owner(user)),
                            WorldOf(site, roles, Claimant(roles, user)), HandlerOptions(site, site.handlers(t)), t)
    ensures RoleLists(Lists(WorldOf(site, roles, Owner(user)), t))
    ensures RoleLists(Lists(WorldOf(site, roles, Claimant(roles, user)), t))
  {
    var hs := site.handlers(t);
    forall i | 0 <= i < |hs|
      ensures var own := Served(site, roles, Owner(user), hs[i]);
        var cred := Served(site, roles, Claimant(roles, user), hs[i]);
        && own.Returned? && cred.Returned?
        && Served(site, roles, user, hs[i]) == AttenuatedGrant(own, cred, OptionsOf(site, hs[i].source))
        && (own.value.Some? ==> Plain(own.value.value) && own.value.value != [])
        && (cred.value.Some? ==> Plain(cred.value.value) && cred.value.value != []) {
      HandlerOutcomes(site, roles, user, hs[i]);
    }
  }

  // ── The whole guarantee ────────────

  /** No table's handlers can be widened, for the owner. */
  ghost predicate OwnerStays(e: Extent, site: Site, roles: map<string, Role<Scope>>, user: User) {
    OwnerUnwidenable(e, WorldOf(site, roles, Owner(user)))
  }

  /** Nor for the claimant, whose values are kept where they are compared. */
  ghost predicate ClaimantStays(e: Extent, db: Db, site: Site, roles: map<string, Role<Scope>>, user: User)
    requires user.attenuate.Some?
  {
    ClaimantUnwidenable(e, db, WorldOf(site, roles, Owner(user)), WorldOf(site, roles, Claimant(roles, user)),
                        t => HandlerOptions(site, site.handlers(t)))
  }

  /** Where every table has at most one handler, both hold for every registry, user and claim. */
  lemma OneHandlerStays(e: Extent, db: Db, site: Site, roles: map<string, Role<Scope>>, user: User)
    requires user.attenuate.Some? && PlainRegistry(roles) && LooksUpDownward(site)
    requires forall t :: |site.handlers(t)| <= 1
    ensures OwnerStays(e, site, roles, user) && ClaimantStays(e, db, site, roles, user)
  {
    var own, cred := WorldOf(site, roles, Owner(user)), WorldOf(site, roles, Claimant(roles, user));
    forall t
      ensures Evaluates(own, t) && Unwidenable(e, Lists(own, t)) && Evaluates(cred, t) && Unwidenable(e, Lists(cred, t))
      ensures ClaimantKeeps(db, own, cred, HandlerOptions(site, site.handlers(t)), t) {
      TableOutcomes(site, roles, user, t);
      AtMostOneIsAlone(e, db, Lists(own, t), Lists(cred, t), HandlerOptions(site, site.handlers(t)));
    }
  }

  lemma AtMostOneIsAlone(e: Extent, db: Db, user: seq<Grant>, cred: seq<Grant>, opts: seq<ConjoinOptions>)
    requires |user| == |cred| == |opts| <= 1 && RoleLists(user) && RoleLists(cred)
    ensures Unwidenable(e, user) && Unwidenable(e, cred) && ClaimantKept(db, user, cred, opts)
  {
    assert Alone(user) && Alone(cred);
  }

  /**
   The whole guarantee: for every role registry, user and claim, whatever an
   attenuated request reaches through any chain of relations, the owner reaches
   with no fewer rows, checks, controls or writes, as does the claimant, where
   no table's handlers can be widened in these; each is shown no fewer values
   where theirs cannot be widened either. The reference checks of the request's
   own table are all of either side's if and only if their names resolve back,
   those of its declared relations always.
   */
  lemma RequestNeverWidens(e: Extent, db: Db, site: Site, roles: map<string, Role<Scope>>, user: User, h: Handler,
                           table: string, rels: seq<string>)
    requires user.attenuate.Some? && PlainRegistry(roles) && LooksUpDownward(site) && Descending(h.source.schema)
    requires Served(site, roles, user, h).Returned? && Served(site, roles, user, h).value.Some?
    requires var served := Served(site, roles, user, h).value.value;
             var reached := ResolvePath(WorldOf(site, roles, user), served, Some(table), rels);
             reached.Returned? && reached.value.Some?
    ensures var owner, claimant := Served(site, roles, Owner(user), h), Served(site, roles, Claimant(roles, user), h);
            var served := Served(site, roles, user, h).value.value;
            var reached := ResolvePath(WorldOf(site, roles, user), served, Some(table), rels).value.value;
            && owner.Returned? && owner.value.Some? && claimant.Returned? && claimant.value.Some?
            && (OwnerStays(e, site, roles, user) ==>
                  ReachesAtLeast(e, db, WorldOf(site, roles, Owner(user)), owner.value.value, Some(table), rels,
                                 reached))
            && (ClaimantStays(e, db, site, roles, user) ==>
                  ReachesAtLeast(e, db, WorldOf(site, roles, Claimant(roles, user)), claimant.value.value, Some(table),
                                 rels, reached))
            && KeepsChecksIffResolvable(h.source.refTable, served, owner.value.value, claimant.value.value)
            && KeepsRefsBelow(served, owner.value.value) && KeepsRefsBelow(served, claimant.value.value)
  {
    var opts := OptionsOf(site, h.source);
    CredentialNeverWidens(db, roles, h.resource, h.action, user, opts);
    HandlerOutcomes(site, roles, user, h);
    AttenuatedWorldOf(site, roles, user);
    var owner := Served(site, roles, Owner(user), h).value.value;
    var claimant := Served(site, roles, Claimant(roles, user), h).value.value;
    CompositeKeepsChecks(h.source.refTable, owner, claimant, opts);
    CompositeKeepsRefs(owner, claimant, opts);
    RelationsNeverWiden(e, db, WorldOf(site, roles, user), WorldOf(site, roles, Owner(user)),
      WorldOf(site, roles, Claimant(roles, user)),
      t => HandlerOptions(site, site.handlers(t)), owner, claimant, opts, Some(table), rels);
  }

  /** The served list checks every reference either side checks, exactly when their names resolve back. */
  ghost predicate KeepsChecksIffResolvable(t: Option<RefTable>, served: seq<Scope>, a: seq<Scope>, b: seq<Scope>) {
    && Checked(t, a).Returned? && Checked(t, b).Returned? && Checked(t, served).Returned?
    && var either := Checked(t, a).value + Checked(t, b).value;
       (either <= Checked(t, served).value <==>
          t.None? || (either <= AllKeys(t.value) && NamesResolveBack(t.value, either)))
  }

  lemma CompositeKeepsChecks(t: Option<RefTable>, a: seq<Scope>, b: seq<Scope>, opts: ConjoinOptions)
    requires opts.refs == RefRule(t) && ConjoinScopes(a, b, opts).Returned?
    ensures KeepsChecksIffResolvable(t, [ConjoinScopes(a, b, opts).value], a, b)
  {
    CompositeChecksIff(t, a, b, opts);
  }
}
