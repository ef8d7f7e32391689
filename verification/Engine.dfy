/**
 The role-based policy engine: registration compiles each role against each
 resource, evaluation matches actions through a bounded memo, and a credential
 claim runs the policy a second time. Every outcome is a function of the role
 map alone.
 */
module Engine {
  import opened Options
  import opened Filters
  import opened Globs

  type Attrs = map<string, Value>

  /** A rule's scope predicate; `None` is a nullish scope, which grants nothing. */
  type ScopeOf<!S> = (Attrs, string) -> Option<S>

  datatype Rule<!S> =
    | AllowRule(resource: string, action: string, scope: Option<ScopeOf<S>>)
    | DenyRule(resource: string, action: string)

  datatype Role<!S> = Role(id: string, rules: seq<Rule<S>>)

  /** A rule compiled for one resource: its action expression and scope. */
  datatype CompiledRule<!S> = CompiledRule(action: string, actionRegex: string, scope: Option<ScopeOf<S>>)

  /** The compiled rules of one role on one resource; an object, so a memo can key on its identity. */
  class CompiledRole<S> {
    const id: string
    const allow: seq<CompiledRule<S>>
    const deny: seq<CompiledRule<S>>

    constructor (id: string, allow: seq<CompiledRule<S>>, deny: seq<CompiledRule<S>>)
      ensures this.id == id && this.allow == allow && this.deny == deny
    {
      this.id := id;
      this.allow := allow;
      this.deny := deny;
    }
  }

  /** The rules of a compiled role matching one action. */
  datatype ActionMatch<!S> = ActionMatch(deny: bool, allow: seq<CompiledRule<S>>)

  datatype Outcome<S> = Denied | Allowed(scopes: seq<S>) | Attenuated(scopes: seq<S>, credScopes: seq<S>)

  /** A credential's claim: assumed roles and attribute overrides. */
  datatype Claim = Claim(roles: Option<seq<string>>, attrs: Option<Attrs>, allowUnheldRoles: bool)

  datatype User = User(id: string, roles: seq<string>, attrs: Attrs, attenuate: Option<Claim>)

  /** Most memoized action matches per compiled role. */
  const MAX_MEMOIZED_ACTIONS := 512

  // ── The pure specification ────────────

  predicate PatternMatches(pattern: string, text: string) {
    Test(ArbacPatternToRegex(pattern), text)
  }

  function Compiled<S>(rules: seq<Rule<S>>, resource: string, denying: bool): seq<CompiledRule<S>> {
    if rules == [] then []
    else
      var rule := rules[|rules| - 1];
      var rest := Compiled(rules[..|rules| - 1], resource, denying);
      if rule.DenyRule? == denying && PatternMatches(rule.resource, resource)
      then
        var scope := if rule.AllowRule? then rule.scope else None;
        rest + [CompiledRule(rule.action, ArbacPatternToRegex(rule.action), scope)]
      else rest
  }

  predicate AnyMatching<S>(rules: seq<CompiledRule<S>>, action: string) {
    exists i :: 0 <= i < |rules| && Test(rules[i].actionRegex, action)
  }

  function Matching<S>(rules: seq<CompiledRule<S>>, action: string): seq<CompiledRule<S>> {
    if rules == [] then []
    else
      var rule := rules[|rules| - 1];
      Matching(rules[..|rules| - 1], action) + if Test(rule.actionRegex, action) then [rule] else []
  }

  function FreshMatch<S>(allow: seq<CompiledRule<S>>, deny: seq<CompiledRule<S>>, action: string): ActionMatch<S> {
    ActionMatch(AnyMatching(deny, action), Matching(allow, action))
  }

  function RoleMatch<S>(role: Role<S>, resource: string, action: string): ActionMatch<S> {
    FreshMatch(Compiled(role.rules, resource, false), Compiled(role.rules, resource, true), action)
  }

  /** The scopes the matching allow rules contribute, in declaration order. */
  function RuleScopes<S>(rules: seq<CompiledRule<S>>, attrs: Attrs, id: string, universe: S): seq<S> {
    if rules == [] then []
    else
      var rule := rules[|rules| - 1];
      var rest := RuleScopes(rules[..|rules| - 1], attrs, id, universe);
      if rule.scope.None? then rest + [universe]
      else
        var scope := rule.scope.value(attrs, id);
        if scope.None? then rest else rest + [scope.value]
  }

  function MatchScopes<S>(matches: seq<ActionMatch<S>>, attrs: Attrs, id: string, universe: S): seq<S> {
    if matches == [] then []
    else
      MatchScopes(matches[..|matches| - 1], attrs, id, universe) +
      RuleScopes(matches[|matches| - 1].allow, attrs, id, universe)
  }

  /** The matches of the registered roles among `roleIds`, in that order. */
  function RoleMatches<S>(roles: map<string, Role<S>>, resource: string, action: string,
                          roleIds: seq<string>): seq<ActionMatch<S>> {
    if roleIds == [] then []
    else
      var last := roleIds[|roleIds| - 1];
      RoleMatches(roles, resource, action, roleIds[..|roleIds| - 1]) +
      if last in roles then [RoleMatch(roles[last], resource, action)] else []
  }

  predicate AnyDeny<S>(matches: seq<ActionMatch<S>>) {
    exists i :: 0 <= i < |matches| && matches[i].deny
  }

  /** One evaluation pass: deny wins, scopes accumulate, no scope left denies. */
  function Pass<S>(roles: map<string, Role<S>>, resource: string, action: string,
                   roleIds: seq<string>, attrs: Attrs, id: string, universe: S): Outcome<S>
  {
    var matches := RoleMatches(roles, resource, action, roleIds);
    var scopes := MatchScopes(matches, attrs, id, universe);
    if AnyDeny(matches) || scopes == [] then Denied else Allowed(scopes)
  }

  function Keep(ids: seq<string>, kept: set<string>): seq<string> {
    if ids == [] then []
    else Keep(ids[..|ids| - 1], kept) + if ids[|ids| - 1] in kept then [ids[|ids| - 1]] else []
  }

  /** First occurrences only, as a `Set` spreads. */
  function Distinct(ids: seq<string>): seq<string> {
    if ids == [] then []
    else
      var rest := Distinct(ids[..|ids| - 1]);
      if ids[|ids| - 1] in rest then rest else rest + [ids[|ids| - 1]]
  }

  /** The roles of the narrowed pass. */
  function CredRoles<S>(roles: map<string, Role<S>>, held: seq<string>, claim: Claim): seq<string> {
    if claim.roles.None? then held
    else if claim.allowUnheldRoles then Keep(Distinct(claim.roles.value), roles.Keys)
    else Keep(held, set r | r in claim.roles.value)
  }

  lemma {:induction false} KeepMembers(ids: seq<string>, kept: set<string>, r: string)
    ensures r in Keep(ids, kept) <==> r in ids && r in kept
  {
    if ids != [] {
      KeepMembers(ids[..|ids| - 1], kept, r);
      assert ids == ids[..|ids| - 1] + [ids[|ids| - 1]];
    }
  }

  lemma {:induction false} DistinctMembers(ids: seq<string>, r: string)
    ensures r in Distinct(ids) <==> r in ids
  {
    if ids != [] {
      DistinctMembers(ids[..|ids| - 1], r);
      assert ids == ids[..|ids| - 1] + [ids[|ids| - 1]];
    }
  }

  /** The narrowed pass runs under held and claimed roles; an unheld one only when allowed, and only if registered. */
  lemma NarrowedRoles<S>(roles: map<string, Role<S>>, held: seq<string>, claim: Claim, r: string)
    ensures r in CredRoles(roles, held, claim) <==>
      if claim.roles.None? then r in held
      else r in claim.roles.value && if claim.allowUnheldRoles then r in roles else r in held
  {
    if claim.roles.Some? {
      DistinctMembers(claim.roles.value, r);
      KeepMembers(Distinct(claim.roles.value), roles.Keys, r);
      KeepMembers(held, (set x | x in claim.roles.value), r);
    }
  }

  function CredAttrs(attrs: Attrs, claim: Claim): Attrs {
    if claim.attrs.None? then attrs else attrs + claim.attrs.value
  }

  function Evaluated<S>(roles: map<string, Role<S>>, resource: string, action: string, user: User,
                        universe: S): Outcome<S> {
    var ceiling := Pass(roles, resource, action, user.roles, user.attrs, user.id, universe);
    if user.attenuate.None? then ceiling
    else
      var claim := user.attenuate.value;
      var narrowed := Pass(roles, resource, action, CredRoles(roles, user.roles, claim), CredAttrs(user.attrs, claim),
        user.id, universe);
      if ceiling.Denied? || narrowed.Denied? then Denied else Attenuated(ceiling.scopes, narrowed.scopes)
  }

  // ── The engine ────────────

  class Arbac<S(!new)> {
    var roles: map<string, Role<S>>
    var resources: map<string, map<string, CompiledRole<S>>>
    var actionMatches: map<CompiledRole<S>, map<string, ActionMatch<S>>>
    const universe: S

    constructor (universe: S)
      ensures Valid() && roles == map[] && resources == map[]
      ensures this.universe == universe
    {
      roles := map[];
      resources := map[];
      actionMatches := map[];
      this.universe := universe;
    }

    /** A compiled entry equals a fresh compilation of its role. */
    static ghost predicate Faithful(c: CompiledRole<S>, role: Role<S>, resource: string) {
      c.allow == Compiled(role.rules, resource, false) && c.deny == Compiled(role.rules, resource, true)
    }

    ghost predicate MemoFaithful()
      reads this`actionMatches
    {
      && (forall c :: c in actionMatches ==> |actionMatches[c]| <= MAX_MEMOIZED_ACTIONS)
      && (forall c, a :: c in actionMatches && a in actionMatches[c] ==>
           actionMatches[c][a] == FreshMatch(c.allow, c.deny, a))
    }

    /** The compiled entries of one resource: one per registered role, each faithful. */
    static ghost predicate CompiledFor(per: map<string, CompiledRole<S>>, roles: map<string, Role<S>>,
                                       resource: string) {
      per.Keys == roles.Keys && forall id :: id in roles ==> Faithful(per[id], roles[id], resource)
    }

    /** Compiling one role anew keeps the resource faithful under the updated role map. */
    static lemma RecompiledFor(before: map<string, CompiledRole<S>>, after: map<string, CompiledRole<S>>,
                               roles: map<string, Role<S>>, role: Role<S>, resource: string)
      requires CompiledFor(before, roles, resource)
      requires after.Keys == before.Keys + {role.id}
      requires forall id :: id in before && id != role.id ==> after[id] == before[id]
      requires Faithful(after[role.id], role, resource)
      ensures CompiledFor(after, roles[role.id := role], resource)
    {
    }

    ghost predicate Valid()
      reads this
    {
      && (forall id :: id in roles ==> roles[id].id == id)
      && (forall resource :: resource in resources ==> CompiledFor(resources[resource], roles, resource))
      && MemoFaithful()
    }

    method EvalRoleForResource(roleId: string, resourceId: string)
      requires resourceId in resources && roleId in roles
      modifies this`resources
      ensures resources.Keys == old(resources.Keys)
      ensures forall r :: r in resources && r != resourceId ==> resources[r] == old(resources[r])
      ensures resources[resourceId].Keys == old(resources[resourceId].Keys) + {roleId}
      ensures forall id :: id in old(resources[resourceId]) && id != roleId ==>
        resources[resourceId][id] == old(resources[resourceId][id])
      ensures Faithful(resources[resourceId][roleId], roles[roleId], resourceId)
    {
      var allow, deny := CompileRules(roles[roleId].rules, resourceId);
      var compiled := new CompiledRole(roleId, allow, deny);
      resources := resources[resourceId := resources[resourceId][roleId := compiled]];
    }

    /** One pass over the role's rules, kept in declaration order. */
    static method CompileRules(rules: seq<Rule<S>>, resourceId: string)
      returns (allow: seq<CompiledRule<S>>, deny: seq<CompiledRule<S>>)
      ensures allow == Compiled(rules, resourceId, false) && deny == Compiled(rules, resourceId, true)
    {
      allow, deny := [], [];
      for i := 0 to |rules|
        invariant allow == Compiled(rules[..i], resourceId, false)
        invariant deny == Compiled(rules[..i], resourceId, true)
      {
        var rule := rules[i];
        assert rules[..i + 1][..i] == rules[..i];
        if PatternMatches(rule.resource, resourceId) {
          var regex := ArbacPatternToRegex(rule.action);
          match rule {
            case AllowRule(_, action, scope) => allow := allow + [CompiledRule(action, regex, scope)];
            case DenyRule(_, action) => deny := deny + [CompiledRule(action, regex, None)];
          }
        }
      }
      assert rules[..|rules|] == rules;
    }

    method RegisterRole(role: Role<S>)
      requires Valid()
      modifies this`roles, this`resources
      ensures Valid()
      ensures roles == old(roles)[role.id := role] && resources.Keys == old(resources.Keys)
    {
      ghost var before, oldRoles := resources, roles;
      roles := roles[role.id := role];
      var todo := resources.Keys;
      while todo != {}
        invariant todo <= resources.Keys == before.Keys && roles == oldRoles[role.id := role]
        invariant forall r :: r in todo ==> resources[r] == before[r]
        invariant forall r :: r in resources && r !in todo ==> CompiledFor(resources[r], roles, r)
        decreases todo
      {
        var key :| key in todo;
        EvalRoleForResource(role.id, key);
        RecompiledFor(before[key], resources[key], oldRoles, role, key);
        todo := todo - {key};
      }
    }

    method RegisterResource(resource: string)
      requires Valid()
      modifies this`resources
      ensures Valid() && resources.Keys == old(resources.Keys) + {resource}
    {
      if resource !in resources {
        CompileAll(resource);
      }
    }

    method CompileAll(resource: string)
      requires resource !in resources
      modifies this`resources
      ensures resources.Keys == old(resources.Keys) + {resource} && CompiledFor(resources[resource], roles, resource)
      ensures forall r :: r in old(resources) ==> resources[r] == old(resources[r])
    {
      ghost var before := resources;
      resources := resources[resource := map[]];
      var todo := roles.Keys;
      while todo != {}
        invariant todo <= roles.Keys && resources.Keys == before.Keys + {resource}
        invariant forall r :: r in before ==> resources[r] == before[r]
        invariant CompiledBut(resources[resource], roles, todo, resource)
        decreases todo
      {
        var key :| key in todo;
        ghost var per := resources[resource];
        EvalRoleForResource(key, resource);
        CompiledOneMore(per, resources[resource], roles, todo, key, resource);
        todo := todo - {key};
      }
    }

    static lemma CompiledOneMore(before: map<string, CompiledRole<S>>, after: map<string, CompiledRole<S>>,
                                 roles: map<string, Role<S>>, todo: set<string>, key: string, resource: string)
      requires CompiledBut(before, roles, todo, resource) && key in todo && todo <= roles.Keys
      requires after.Keys == before.Keys + {key} && forall id :: id in before && id != key ==> after[id] == before[id]
      requires Faithful(after[key], roles[key], resource)
      ensures CompiledBut(after, roles, todo - {key}, resource)
    {
    }

    /** One resource while it is being registered: every role outside `todo` is compiled. */
    static ghost predicate CompiledBut(per: map<string, CompiledRole<S>>, roles: map<string, Role<S>>,
                                       todo: set<string>, resource: string) {
      per.Keys == roles.Keys - todo && forall id :: id in per ==> Faithful(per[id], roles[id], resource)
    }

    /** The memoized match of one compiled role: always equal to a fresh one. */
    method MatchAction(role: CompiledRole<S>, action: string) returns (m: ActionMatch<S>)
      requires MemoFaithful()
      modifies this`actionMatches
      ensures MemoFaithful()
      ensures m == FreshMatch(role.allow, role.deny, action)
    {
      var perAction := if role in actionMatches then actionMatches[role] else map[];
      if role !in actionMatches {
        actionMatches := actionMatches[role := perAction];
      }
      if action in perAction {
        return perAction[action];
      }
      m := FreshMatch(role.allow, role.deny, action);
      if |perAction| < MAX_MEMOIZED_ACTIONS {
        actionMatches := actionMatches[role := perAction[action := m]];
      }
    }

    method EvaluateForRoles(resource: string, action: string, roleIds: seq<string>, attrs: Attrs, id: string)
      returns (outcome: Outcome<S>)
      requires Valid() && resource in resources
      modifies this`actionMatches
      ensures Valid()
      ensures outcome == Pass(roles, resource, action, roleIds, attrs, id, universe)
    {
      var held := HeldRoles(resources[resource], resource, action, roleIds);
      if |held| == 0 {
        return Denied;
      }
      var matches := MatchAll(held, action);
      for i := 0 to |matches|
        invariant forall j :: 0 <= j < i ==> !matches[j].deny
      {
        if matches[i].deny {
          return Denied;
        }
      }
      var scopes := CollectScopes(matches, attrs, id);
      return if scopes != [] then Allowed(scopes) else Denied;
    }

    /** The compiled entries of the registered roles among `roleIds`. */
    method HeldRoles(per: map<string, CompiledRole<S>>, resource: string, action: string, roleIds: seq<string>)
      returns (held: seq<CompiledRole<S>>)
      requires CompiledFor(per, roles, resource)
      ensures Fresh(held, action) == RoleMatches(roles, resource, action, roleIds)
    {
      held := [];
      for i := 0 to |roleIds|
        invariant Fresh(held, action) == RoleMatches(roles, resource, action, roleIds[..i])
      {
        RoleMatchesStep(roles, resource, action, roleIds, i);
        if roleIds[i] in per {
          FreshAppend(held, per[roleIds[i]], roles[roleIds[i]], resource, action);
          held := held + [per[roleIds[i]]];
        }
      }
      assert roleIds[..|roleIds|] == roleIds;
    }

    static lemma RoleMatchesStep(roles: map<string, Role<S>>, resource: string, action: string, roleIds: seq<string>,
                                 i: nat)
      requires i < |roleIds|
      ensures RoleMatches(roles, resource, action, roleIds[..i + 1]) ==
        RoleMatches(roles, resource, action, roleIds[..i]) +
        if roleIds[i] in roles then [RoleMatch(roles[roleIds[i]], resource, action)] else []
    {
      assert roleIds[..i + 1][..i] == roleIds[..i];
    }

    static lemma FreshAppend(held: seq<CompiledRole<S>>, c: CompiledRole<S>, role: Role<S>, resource: string,
                             action: string)
      requires Faithful(c, role, resource)
      ensures Fresh(held + [c], action) == Fresh(held, action) + [RoleMatch(role, resource, action)]
    {
      assert (held + [c])[..|held|] == held;
    }

    method MatchAll(held: seq<CompiledRole<S>>, action: string) returns (matches: seq<ActionMatch<S>>)
      requires MemoFaithful()
      modifies this`actionMatches
      ensures MemoFaithful()
      ensures matches == Fresh(held, action)
    {
      matches := [];
      for i := 0 to |held|
        invariant MemoFaithful()
        invariant matches == Fresh(held[..i], action)
      {
        var m := MatchAction(held[i], action);
        assert held[..i + 1][..i] == held[..i];
        matches := matches + [m];
      }
      assert held[..|held|] == held;
    }

    method CollectScopes(matches: seq<ActionMatch<S>>, attrs: Attrs, id: string) returns (scopes: seq<S>)
      ensures scopes == MatchScopes(matches, attrs, id, universe)
    {
      scopes := [];
      for i := 0 to |matches|
        invariant scopes == MatchScopes(matches[..i], attrs, id, universe)
      {
        assert matches[..i + 1][..i] == matches[..i];
        var rules := matches[i].allow;
        ghost var before := scopes;
        for j := 0 to |rules|
          invariant scopes == before + RuleScopes(rules[..j], attrs, id, universe)
        {
          assert rules[..j + 1][..j] == rules[..j];
          if rules[j].scope.Some? {
            var scope := rules[j].scope.value(attrs, id);
            if scope.Some? {
              scopes := scopes + [scope.value];
            }
          } else {
            scopes := scopes + [universe];
          }
        }
        assert rules[..|rules|] == rules;
      }
      assert matches[..|matches|] == matches;
    }

    static ghost function Fresh(held: seq<CompiledRole<S>>, action: string): seq<ActionMatch<S>> {
      if held == [] then []
      else Fresh(held[..|held| - 1], action) + [FreshMatch(held[|held| - 1].allow, held[|held| - 1].deny, action)]
    }

    method Evaluate(resource: string, action: string, user: User) returns (outcome: Outcome<S>)
      requires Valid()
      modifies this`resources, this`actionMatches
      ensures Valid() && resources.Keys == old(resources.Keys) + {resource}
      ensures outcome == Evaluated(roles, resource, action, user, universe)
    {
      RegisterResource(resource);
      var userEval := EvaluateForRoles(resource, action, user.roles, user.attrs, user.id);
      if user.attenuate.None? {
        return userEval;
      }
      var claim := user.attenuate.value;
      var credRoles := CredRoles(roles, user.roles, claim);
      var credEval := EvaluateForRoles(resource, action, credRoles, CredAttrs(user.attrs, claim), user.id);
      if userEval.Denied? || credEval.Denied? {
        return Denied;
      }
      return Attenuated(userEval.scopes, credEval.scopes);
    }
  }

  // ── Whole runs ────────────

  /** One call on the engine. */
  datatype Call<!S> =
    | RegisterRole(role: Role<S>)
    | RegisterResource(resource: string)
    | Evaluate(target: string, action: string, user: User)

  /** The role map a run leaves: the last registration of each id. */
  function RolesAfter<S>(calls: seq<Call<S>>): map<string, Role<S>> {
    if calls == [] then map[]
    else
      var before := RolesAfter(calls[..|calls| - 1]);
      match calls[|calls| - 1]
      case RegisterRole(role) => before[role.id := role]
      case _ => before
  }

  /** The outcomes a run must produce: each from the roles registered before it, whatever was cached. */
  function Outcomes<S>(calls: seq<Call<S>>, universe: S): seq<Outcome<S>> {
    if calls == [] then []
    else
      var init := calls[..|calls| - 1];
      match calls[|calls| - 1]
      case Evaluate(target, action, user) =>
        Outcomes(init, universe) + [Evaluated(RolesAfter(init), target, action, user, universe)]
      case _ => Outcomes(init, universe)
  }

  /** Any run of the engine produces the outcomes of the pure specification, in order. */
  method Run<S(!new)>(calls: seq<Call<S>>, universe: S) returns (outcomes: seq<Outcome<S>>)
    ensures outcomes == Outcomes(calls, universe)
  {
    var engine := new Arbac(universe);
    outcomes := [];
    for i := 0 to |calls|
      invariant fresh(engine) && engine.Valid() && engine.universe == universe
      invariant engine.roles == RolesAfter(calls[..i])
      invariant outcomes == Outcomes(calls[..i], universe)
    {
      assert calls[..i + 1][..i] == calls[..i];
      match calls[i] {
        case RegisterRole(role) => engine.RegisterRole(role);
        case RegisterResource(resource) => engine.RegisterResource(resource);
        case Evaluate(target, action, user) =>
          var outcome := engine.Evaluate(target, action, user);
          outcomes := outcomes + [outcome];
      }
    }
    assert calls[..|calls|] == calls;
  }

  // ── What the specification guarantees ────────────

  /** An attenuated allow is an allow of the full-authority pass, with the same scopes, and of the narrowed one. */
  lemma AttenuationIntersects<S>(roles: map<string, Role<S>>, resource: string, action: string, user: User, universe: S)
    requires user.attenuate.Some?
    ensures var o := Evaluated(roles, resource, action, user, universe);
            var plain := Evaluated(roles, resource, action, user.(attenuate := None), universe);
            && (o.Denied? || o.Attenuated?)
            && (o.Attenuated? ==> plain == Allowed(o.scopes) && o.scopes != [] && o.credScopes != [])
            && (plain.Denied? ==> o.Denied?)
  {
  }
}
