/**
 The widening from the registry up: a claim of one unscoped role, over a table
 with several handlers, is served on one handler alone, and reaches more than
 its owner wherever the owner's list there does not fit.
 */
module Registries {
  import opened Options
  import opened Projections
  import opened Filters
  import opened Scopes
  import opened RestrictOnly
  import opened JoinedLists
  import opened Handlers
  import opened Lending
  import opened Relations
  import opened Widenings
  import opened Globs
  import opened Engine
  import opened Attenuation

  /** A pattern that matches only itself. */
  predicate Literal(pattern: string) {
    '*' !in pattern && PLACEHOLDER !in pattern
  }

  /** The role allows one literal action on one literal resource. */
  ghost predicate AllowsOnly(role: Role<Scope>, resource: string, action: string, scope: Option<ScopeOf<Scope>>) {
    role.rules == [AllowRule(resource, action, scope)] && Literal(resource) && Literal(action)
  }

  /** The scopes such a role contributes. */
  function Contributed(role: Role<Scope>, resource: string, action: string, attrs: Attrs, id: string): seq<Scope> {
    RuleScopes(RoleMatch(role, resource, action).allow, attrs, id, EMPTY_SCOPE)
  }

  lemma ContributedOf(role: Role<Scope>, r: string, a: string, scope: Option<ScopeOf<Scope>>, resource: string,
                      action: string, attrs: Attrs, id: string)
    requires AllowsOnly(role, r, a, scope)
    ensures !RoleMatch(role, resource, action).deny
    ensures Contributed(role, resource, action, attrs, id) ==
      if resource != r || action != a then []
      else if scope.None? then [EMPTY_SCOPE]
      else if scope.value(attrs, id).None? then [] else [scope.value(attrs, id).value]
  {
    OneRuleCompiled(role.rules, r, a, scope, resource);
    if resource == r {
      OneRuleMatched(CompiledRule(a, ArbacPatternToRegex(a), scope), a, action);
      OneRuleScopes(CompiledRule(a, ArbacPatternToRegex(a), scope), attrs, id);
    }
  }

  lemma OneRuleCompiled(rules: seq<Rule<Scope>>, r: string, a: string, scope: Option<ScopeOf<Scope>>, resource: string)
    requires |rules| == 1 && rules[0] == AllowRule(r, a, scope) && Literal(r)
    ensures Compiled(rules, resource, true) == []
    ensures Compiled(rules, resource, false) ==
      if resource == r then [CompiledRule(a, ArbacPatternToRegex(a), scope)] else []
  {
    StarFreeMatchesItself(r, resource);
    assert rules[..0] == [];
    var rule := CompiledRule(a, ArbacPatternToRegex(a), scope);
    assert [] + [rule] == [rule];
  }

  lemma OneRuleMatched(rule: CompiledRule<Scope>, a: string, action: string)
    requires rule.actionRegex == ArbacPatternToRegex(a) && Literal(a)
    ensures Engine.Matching([rule], action) == if action == a then [rule] else []
  {
    StarFreeMatchesItself(a, action);
    assert [rule][..0] == [];
  }

  lemma OneRuleScopes(rule: CompiledRule<Scope>, attrs: Attrs, id: string)
    ensures RuleScopes([rule], attrs, id, EMPTY_SCOPE) ==
      if rule.scope.None? then [EMPTY_SCOPE]
      else if rule.scope.value(attrs, id).None? then [] else [rule.scope.value(attrs, id).value]
  {
    assert [rule][..0] == [];
  }

  lemma OneMoreRole(roles: map<string, Role<Scope>>, ids: seq<string>, k: string, resource: string, action: string)
    requires k in roles
    ensures RoleMatches(roles, resource, action, ids + [k])
      == RoleMatches(roles, resource, action, ids) + [RoleMatch(roles[k], resource, action)]
  {
    assert (ids + [k])[..|ids|] == ids;
  }

  lemma OneMoreMatch(ms: seq<ActionMatch<Scope>>, m: ActionMatch<Scope>, attrs: Attrs, id: string)
    ensures MatchScopes(ms + [m], attrs, id, EMPTY_SCOPE)
      == MatchScopes(ms, attrs, id, EMPTY_SCOPE) + RuleScopes(m.allow, attrs, id, EMPTY_SCOPE)
  {
    assert (ms + [m])[..|ms|] == ms;
  }

  /** One registered role. */
  lemma OneRolePass(roles: map<string, Role<Scope>>, k: string, resource: string, action: string, attrs: Attrs,
                    id: string)
    requires k in roles && !RoleMatch(roles[k], resource, action).deny
    ensures var scopes := Contributed(roles[k], resource, action, attrs, id);
      Pass(roles, resource, action, [k], attrs, id, EMPTY_SCOPE) == if scopes == [] then Denied else Allowed(scopes)
  {
    var m := RoleMatch(roles[k], resource, action);
    OneMoreRole(roles, [], k, resource, action);
    OneMoreMatch([], m, attrs, id);
    assert [] + [k] == [k] && [] + [m] == [m];
    var scopes := Contributed(roles[k], resource, action, attrs, id);
    assert [] + scopes == scopes;
    assert RoleMatches(roles, resource, action, [k]) == [m];
    assert MatchScopes([m], attrs, id, EMPTY_SCOPE) == scopes;
  }

  /** The claim of one role, held or not. */
  function ClaimOf(k: string): Claim {
    Claim(Some([k]), None, true)
  }

  lemma ClaimsOne(roles: map<string, Role<Scope>>, held: seq<string>, k: string)
    requires k in roles
    ensures CredRoles(roles, held, ClaimOf(k)) == [k]
  {
    var ids := [k];
    assert ids[..0] == [] && [] + [k] == ids;
    assert Engine.Distinct(ids) == ids;
    assert Keep(ids, roles.Keys) == ids;
  }

  /** The handlers of a table have different ids. */
  predicate Apart(hs: seq<Handler>, i: nat)
    requires i < |hs|
  {
    forall j :: 0 <= j < |hs| && j != i ==> hs[j].resource != hs[i].resource || hs[j].action != hs[i].action
  }

  /** The claimant is served on that handler alone, without restriction. */
  lemma ClaimantOnOne(site: Site, roles: map<string, Role<Scope>>, user: User, k: string, t: string, i: nat)
    requires user.attenuate == Some(ClaimOf(k)) && k in roles && i < |site.handlers(t)| && Apart(site.handlers(t), i)
    requires AllowsOnly(roles[k], site.handlers(t)[i].resource, site.handlers(t)[i].action, None)
    requires PlainRegistry(roles) && LooksUpDownward(site)
    ensures Evaluates(WorldOf(site, roles, Claimant(roles, user)), t)
    ensures Lists(WorldOf(site, roles, Claimant(roles, user)), t) == OnlyHandler(|site.handlers(t)|, i)
  {
    var hs, c := site.handlers(t), Claimant(roles, user);
    forall j | 0 <= j < |hs|
      ensures Served(site, roles, c, hs[j]) == Returned(if j == i then Some([EMPTY_SCOPE]) else None) {
      ClaimantOn(site, roles, user, k, hs[i], hs[j]);
    }
  }

  lemma ClaimantOn(site: Site, roles: map<string, Role<Scope>>, user: User, k: string, h: Handler, other: Handler)
    requires user.attenuate == Some(ClaimOf(k)) && k in roles && AllowsOnly(roles[k], h.resource, h.action, None)
    ensures var same := other.resource == h.resource && other.action == h.action;
      Served(site, roles, Claimant(roles, user), other) == Returned(if same then Some([EMPTY_SCOPE]) else None)
  {
    var c := Claimant(roles, user);
    ClaimsOne(roles, user.roles, k);
    ContributedOf(roles[k], h.resource, h.action, None, other.resource, other.action, c.attrs, c.id);
    OneRolePass(roles, k, other.resource, other.action, c.attrs, c.id);
  }

  /** So the attenuated caller's outcomes are the owner's there, and denied elsewhere. */
  lemma OneClaimReaches(site: Site, roles: map<string, Role<Scope>>, user: User, k: string, t: string, i: nat)
    requires PlainRegistry(roles) && LooksUpDownward(site)
    requires user.attenuate == Some(ClaimOf(k)) && k in roles && i < |site.handlers(t)| && Apart(site.handlers(t), i)
    requires AllowsOnly(roles[k], site.handlers(t)[i].resource, site.handlers(t)[i].action, None)
    ensures var own := WorldOf(site, roles, Owner(user));
      && Evaluates(own, t) && |Lists(own, t)| == |site.handlers(t)| && RoleLists(Lists(own, t))
      && ReachesHandlers(WorldOf(site, roles, user), own, Lists(own, t), HandlerOptions(site, site.handlers(t)), i, t)
  {
    TableOutcomes(site, roles, user, t);
    ClaimantOnOne(site, roles, user, k, t, i);
  }

  /**
   For every registry: where the owner's list of a handler does not fit, the
   claim of a role that allows this handler alone reaches more than the owner
   through every undeclared relation to the table.
   */
  lemma ClaimWidens(e: Extent, db: Db, site: Site, roles: map<string, Role<Scope>>, user: User, k: string, t: string,
                    i: nat, n: seq<Scope>, x: seq<Scope>, table: Option<string>, rel: string)
    requires PlainRegistry(roles) && LooksUpDownward(site)
    requires user.attenuate == Some(ClaimOf(k)) && k in roles && i < |site.handlers(t)| && Apart(site.handlers(t), i)
    requires AllowsOnly(roles[k], site.handlers(t)[i].resource, site.handlers(t)[i].action, None)
    requires Undeclared(WorldOf(site, roles, user), WorldOf(site, roles, Owner(user)), n, x, table, rel, t)
    requires var own := WorldOf(site, roles, Owner(user));
      && Evaluates(own, t) && Lists(own, t)[i].Some?
      && ConjoinScopes(Lists(own, t)[i].value, [EMPTY_SCOPE], OptionsOf(site, site.handlers(t)[i].source)).Returned?
      && Joined(Lists(own, t)).Some? && !Fitting.Fits(e, Lists(own, t)[i].value, Joined(Lists(own, t)).value)
    ensures var reached := ResolveRelation(WorldOf(site, roles, user), n, table, rel);
            var owned := ResolveRelation(WorldOf(site, roles, Owner(user)), x, table, rel);
      && reached.Returned? && reached.value.Some? && owned.Returned? && owned.value.Some?
      && !Bounded(e, db, reached.value.value, owned.value.value)
  {
    var both, own := WorldOf(site, roles, user), WorldOf(site, roles, Owner(user));
    OneClaimReaches(site, roles, user, k, t, i);
    MisfitWidensRelation(e, db, both, own, Lists(own, t), HandlerOptions(site, site.handlers(t)), i, n, x, table, rel,
      t);
  }

  // ── A registry in which it happens ────────────

  /** A role that shows these fields of one resource. */
  function ShowingRole(id: string, resource: string, action: string, p: Projection): Role<Scope> {
    Role(id, [AllowRule(resource, action, Some((_, _) => Some(Showing(p))))])
  }

  /** The owner's two roles, each for one handler, and the one a credential may claim. */
  function TwoHandlerRegistry(r: string, s: string, action: string, p: Projection,
                              q: Projection): map<string, Role<Scope>> {
    map["rows" := ShowingRole("rows", r, action, p), "help" := ShowingRole("help", s, action, q),
        "key" := Role("key", [AllowRule(r, action, None)])]
  }

  lemma RegistryIsPlain(r: string, s: string, action: string, p: Projection, q: Projection)
    ensures PlainRegistry(TwoHandlerRegistry(r, s, action, p, q))
  {
  }

  /** Two registered roles. */
  lemma TwoRolesPass(roles: map<string, Role<Scope>>, k: string, l: string, resource: string, action: string,
                     attrs: Attrs, id: string)
    requires k in roles && !RoleMatch(roles[k], resource, action).deny
    requires l in roles && !RoleMatch(roles[l], resource, action).deny
    ensures var scopes := Contributed(roles[k], resource, action, attrs, id)
                          + Contributed(roles[l], resource, action, attrs, id);
      Pass(roles, resource, action, [k, l], attrs, id, EMPTY_SCOPE) == if scopes == [] then Denied else Allowed(scopes)
  {
    var m, o := RoleMatch(roles[k], resource, action), RoleMatch(roles[l], resource, action);
    OneMoreRole(roles, [], k, resource, action);
    OneMoreRole(roles, [k], l, resource, action);
    OneMoreMatch([], m, attrs, id);
    OneMoreMatch([m], o, attrs, id);
    var first := Contributed(roles[k], resource, action, attrs, id);
    assert [] + [k] == [k] && [k] + [l] == [k, l] && [] + [m] == [m] && [] + first == first;
    TwoMatchesPass(roles, [k, l], m, o, resource, action, attrs, id);
  }

  lemma TwoMatchesPass(roles: map<string, Role<Scope>>, ids: seq<string>, m: ActionMatch<Scope>, o: ActionMatch<Scope>,
                       resource: string, action: string, attrs: Attrs, id: string)
    requires RoleMatches(roles, resource, action, ids) == [m] + [o] && !m.deny && !o.deny
    ensures var scopes := MatchScopes([m] + [o], attrs, id, EMPTY_SCOPE);
      Pass(roles, resource, action, ids, attrs, id, EMPTY_SCOPE) == if scopes == [] then Denied else Allowed(scopes)
  {
    assert forall j :: 0 <= j < |[m] + [o]| ==> !([m] + [o])[j].deny;
  }

  /** An owner of two roles, each for one literal resource, on the handler of the first or the second. */
  lemma OwnerOnBoth(roles: map<string, Role<Scope>>, k: string, l: string, r: string, s: string, action: string,
                    a: ScopeOf<Scope>, b: ScopeOf<Scope>, resource: string, attrs: Attrs, id: string)
    requires r != s && a(attrs, id).Some? && b(attrs, id).Some?
    requires k in roles && AllowsOnly(roles[k], r, action, Some(a))
    requires l in roles && AllowsOnly(roles[l], s, action, Some(b))
    ensures resource == r ==>
      Pass(roles, resource, action, [k, l], attrs, id, EMPTY_SCOPE) == Allowed([a(attrs, id).value])
    ensures resource == s ==>
      Pass(roles, resource, action, [k, l], attrs, id, EMPTY_SCOPE) == Allowed([b(attrs, id).value])
  {
    ContributedOf(roles[k], r, action, Some(a), resource, action, attrs, id);
    ContributedOf(roles[l], s, action, Some(b), resource, action, attrs, id);
    TwoRolesPass(roles, k, l, resource, action, attrs, id);
  }

  lemma OwnerLists(site: Site, roles: map<string, Role<Scope>>, owner: User, t: string, k: string, l: string, r: string,
                   s: string, action: string, a: ScopeOf<Scope>, b: ScopeOf<Scope>)
    requires owner.roles == [k, l] && owner.attenuate.None? && r != s
    requires a(owner.attrs, owner.id).Some? && b(owner.attrs, owner.id).Some?
    requires k in roles && AllowsOnly(roles[k], r, action, Some(a))
    requires l in roles && AllowsOnly(roles[l], s, action, Some(b))
    requires var hs := site.handlers(t);
      |hs| == 2 && hs[0].resource == r && hs[1].resource == s && hs[0].action == hs[1].action == action
    ensures var own := WorldOf(site, roles, owner);
      Evaluates(own, t) &&
      Lists(own, t) == [Some([a(owner.attrs, owner.id).value]), Some([b(owner.attrs, owner.id).value])]
  {
    var hs := site.handlers(t);
    OwnerOnBoth(roles, k, l, r, s, action, a, b, r, owner.attrs, owner.id);
    OwnerOnBoth(roles, k, l, r, s, action, a, b, s, owner.attrs, owner.id);
    assert Served(site, roles, owner, hs[0]) == Returned(Some([a(owner.attrs, owner.id).value]));
    assert Served(site, roles, owner, hs[1]) == Returned(Some([b(owner.attrs, owner.id).value]));
  }

  /**
   A request under this registry: the owner's roles together hide `x.b`, the
   claim of the third role, unheld, is shown it through a relation.
   */
  lemma RegistryShowsHiddenPath(db: Db, site: Site, r: string, s: string, action: string, p: Projection, q: Projection,
                                user: User, t: string, n: seq<Scope>, x: seq<Scope>, table: Option<string>, rel: string,
                                row: Value)
    requires p == map["x.b" := Include] && q == map["x" := Exclude]
    requires Literal(r) && Literal(s) && Literal(action) && r != s
    requires user.roles == ["rows", "help"] && user.attenuate == Some(ClaimOf("key"))
    requires var hs := site.handlers(t);
      |hs| == 2 && hs[0].resource == r && hs[1].resource == s && hs[0].action == hs[1].action == action
      && hs[0].source.refTable.None?
    requires LooksUpDownward(site)
    requires var roles := TwoHandlerRegistry(r, s, action, p, q);
      Undeclared(WorldOf(site, roles, user), WorldOf(site, roles, Owner(user)), n, x, table, rel, t)
    ensures var roles := TwoHandlerRegistry(r, s, action, p, q);
            var reached := ResolveRelation(WorldOf(site, roles, user), n, table, rel);
            var owned := ResolveRelation(WorldOf(site, roles, Owner(user)), x, table, rel);
      && reached.Returned? && reached.value.Some? && Exposes(db, reached.value.value, row, "x.b")
      && owned.Returned? && owned.value.Some? && !Exposes(db, owned.value.value, row, "x.b")
  {
    var roles, hs := TwoHandlerRegistry(r, s, action, p, q), site.handlers(t);
    RegistryIsPlain(r, s, action, p, q);
    var a, b := roles["rows"].rules[0].scope.value, roles["help"].rules[0].scope.value;
    OwnerLists(site, roles, Owner(user), t, "rows", "help", r, s, action, a, b);
    OneClaimReaches(site, roles, user, "key", t, 0);
    HiddenPathReappears(db, WorldOf(site, roles, user), WorldOf(site, roles, Owner(user)), p, q,
      HandlerOptions(site, hs), n, x, table, rel, t, row);
  }
}
