/**
 The engine's decisions read off the rules as declared: which rule names the
 resource and the action, which rule forbids, and which grants what, in order.
 */
module DeclaredRules {
  import opened Options
  import opened Globs
  import opened Engine

  /** What one pass is asked: the action on a resource, for these attributes. */
  datatype Query = Query(resource: string, action: string, attrs: Attrs, id: string)

  /** Both patterns of the rule match, as languages. */
  predicate Applies<S>(rule: Rule<S>, q: Query) {
    Matches(CompiledTokens(rule.resource), q.resource) && Matches(CompiledTokens(rule.action), q.action)
  }

  /** An allow rule whose scope, where it has one, returns. */
  predicate Grants<S>(rule: Rule<S>, q: Query) {
    && rule.AllowRule? && Applies(rule, q)
    && (rule.scope.Some? ==> rule.scope.value(q.attrs, q.id).Some?)
  }

  function GrantOf<S>(rule: Rule<S>, q: Query, universe: S): S
    requires rule.AllowRule? && (rule.scope.Some? ==> rule.scope.value(q.attrs, q.id).Some?)
  {
    if rule.scope.None? then universe else rule.scope.value(q.attrs, q.id).value
  }

  // ── One role ────────────

  /** What the rules at these places grant, in declaration order: every granting rule, and no other. */
  ghost predicate RulesGrant<S>(rules: seq<Rule<S>>, q: Query,
                                universe: S, scopes: seq<S>, at: seq<nat>) {
    && |at| == |scopes|
    && (forall j: nat :: j in at <==> j < |rules| && Grants(rules[j], q))
    && (forall m, n :: 0 <= m < n < |at| ==> at[m] < at[n])
    && (forall m :: 0 <= m < |at| ==>
         at[m] < |rules| && Grants(rules[at[m]], q)
         && scopes[m] == GrantOf(rules[at[m]], q, universe))
  }

  lemma PatternLanguage(pattern: string, text: string)
    ensures PatternMatches(pattern, text) <==> Matches(CompiledTokens(pattern), text)
  {
    assert ArbacPatternToRegex(pattern)[1..] == Body(pattern) + "$";
    BodyParses(pattern);
  }

  /** How a rule is compiled for the resources it names. */
  function CompiledFrom<S>(rule: Rule<S>): CompiledRule<S> {
    CompiledRule(rule.action, ArbacPatternToRegex(rule.action), if rule.AllowRule? then rule.scope else None)
  }

  lemma OneMoreCompiled<S>(rules: seq<Rule<S>>, rule: Rule<S>, resource: string, denying: bool)
    ensures Compiled(rules + [rule], resource, denying) == Compiled(rules, resource, denying) +
      if rule.DenyRule? == denying && Matches(CompiledTokens(rule.resource), resource) then [CompiledFrom(rule)] else []
  {
    PatternLanguage(rule.resource, resource);
    assert (rules + [rule])[..|rules|] == rules;
  }

  lemma OneMoreMatched<S>(rules: seq<CompiledRule<S>>, rule: Rule<S>, action: string)
    ensures Matching(rules + [CompiledFrom(rule)], action) == Matching(rules, action) +
      if Matches(CompiledTokens(rule.action), action) then [CompiledFrom(rule)] else []
    ensures AnyMatching(rules + [CompiledFrom(rule)], action)
      <==> AnyMatching(rules, action) || Matches(CompiledTokens(rule.action), action)
  {
    PatternLanguage(rule.action, action);
    var all := rules + [CompiledFrom(rule)];
    assert all[..|rules|] == rules && all[|rules|] == CompiledFrom(rule);
    assert forall i :: 0 <= i < |rules| ==> all[i] == rules[i];
  }

  lemma OneMoreScope<S>(rules: seq<CompiledRule<S>>, rule: CompiledRule<S>, attrs: Attrs, id: string, universe: S)
    ensures RuleScopes(rules + [rule], attrs, id, universe) == RuleScopes(rules, attrs, id, universe) +
      if rule.scope.None? then [universe]
      else if rule.scope.value(attrs, id).None? then [] else [rule.scope.value(attrs, id).value]
  {
    assert (rules + [rule])[..|rules|] == rules;
  }

  function RoleScopes<S>(rules: seq<Rule<S>>, q: Query,
                         universe: S): seq<S> {
    RuleScopes(Matching(Compiled(rules, q.resource, false), q.action), q.attrs, q.id, universe)
  }

  /** One more rule adds its scope exactly when it grants. */
  lemma OneMoreRule<S>(rules: seq<Rule<S>>, rule: Rule<S>, q: Query,
                       universe: S)
    ensures RoleScopes(rules + [rule], q, universe)
      == RoleScopes(rules, q, universe)
         + if Grants(rule, q) then [GrantOf(rule, q, universe)] else []
  {
    var compiled := Compiled(rules, q.resource, false);
    OneMoreCompiled(rules, rule, q.resource, false);
    if rule.AllowRule? && Matches(CompiledTokens(rule.resource), q.resource) {
      OneMoreMatched(compiled, rule, q.action);
      if Matches(CompiledTokens(rule.action), q.action) {
        OneMoreAllowed(Matching(compiled, q.action), rule, q, universe);
      } else {
        assert Matching(compiled + [CompiledFrom(rule)], q.action) == Matching(compiled, q.action);
      }
    } else {
      assert Compiled(rules + [rule], q.resource, false) == compiled;
    }
  }

  lemma OneMoreAllowed<S>(matched: seq<CompiledRule<S>>, rule: Rule<S>, q: Query, universe: S)
    requires rule.AllowRule? && Applies(rule, q)
    ensures RuleScopes(matched + [CompiledFrom(rule)], q.attrs, q.id, universe)
      == RuleScopes(matched, q.attrs, q.id, universe)
         + if Grants(rule, q) then [GrantOf(rule, q, universe)] else []
  {
    OneMoreScope(matched, CompiledFrom(rule), q.attrs, q.id, universe);
  }

  lemma {:induction false} RoleFromRules<S>(rules: seq<Rule<S>>, q: Query, universe: S)
    returns (at: seq<nat>)
    ensures RulesGrant(rules, q, universe,
                       RoleScopes(rules, q, universe), at)
  {
    at := [];
    if rules != [] {
      var n := |rules| - 1;
      var init, last := rules[..n], rules[n];
      at := RoleFromRules(init, q, universe);
      OneMoreRule(init, last, q, universe);
      assert rules == init + [last];
      RulesGrantOneMore(init, last, q, universe,
        RoleScopes(init, q, universe), at);
      if Grants(last, q) {
        at := at + [n];
      }
    }
  }

  lemma RulesGrantOneMore<S>(rules: seq<Rule<S>>, rule: Rule<S>, q: Query, universe: S, scopes: seq<S>, at: seq<nat>)
    requires RulesGrant(rules, q, universe, scopes, at)
    ensures if Grants(rule, q)
      then RulesGrant(rules + [rule], q, universe,
                      scopes + [GrantOf(rule, q, universe)], at + [|rules|])
      else RulesGrant(rules + [rule], q, universe, scopes, at)
  {
    var all := rules + [rule];
    forall m | 0 <= m < |at| ensures at[m] < |rules| {
      assert at[m] in at;
    }
    if Grants(rule, q) {
      var more := at + [|rules|];
      forall j: nat ensures j in more <==> j < |all| && Grants(all[j], q) {
        assert j in more <==> j in at || j == |rules|;
      }
    }
  }

  /** A deny rule of the role applies. */
  ghost predicate RulesForbid<S>(rules: seq<Rule<S>>, q: Query) {
    exists rule :: rule in rules && rule.DenyRule? && Applies(rule, q)
  }

  lemma {:induction false} DenyFromRules<S>(rules: seq<Rule<S>>, q: Query)
    ensures AnyMatching(Compiled(rules, q.resource, true), q.action) <==> RulesForbid(rules, q)
  {
    if rules != [] {
      var init, last := rules[..|rules| - 1], rules[|rules| - 1];
      assert rules == init + [last];
      DenyFromRules(init, q);
      OneMoreCompiled(init, last, q.resource, true);
      OneMoreMatched(Compiled(init, q.resource, true), last, q.action);
      assert forall r :: r in rules <==> r in init || r == last;
    }
  }

  // ── One pass ────────────

  /** The rule of the given role, by its places in the lists of roles and of its rules. */
  type Place = (nat, nat)

  predicate Before(a: Place, b: Place) {
    a.0 < b.0 || (a.0 == b.0 && a.1 < b.1)
  }

  ghost predicate InOrder(a: seq<Place>) {
    forall m, n :: 0 <= m < n < |a| ==> Before(a[m], a[n])
  }

  /** A registered role at the first place has a granting rule at the second. */
  predicate GrantsAt<S>(roles: map<string, Role<S>>, ids: seq<string>, q: Query, p: Place) {
    p.0 < |ids| && ids[p.0] in roles && p.1 < |roles[ids[p.0]].rules| && Grants(roles[ids[p.0]].rules[p.1], q)
  }

  /** What the roles grant, in the order of the roles and of their rules: every granting rule, and no other. */
  ghost predicate RolesGrant<S>(roles: map<string, Role<S>>, ids: seq<string>, q: Query, universe: S, scopes: seq<S>,
                                at: seq<Place>) {
    && |at| == |scopes|
    && InOrder(at)
    && (forall p :: p in at <==> GrantsAt(roles, ids, q, p))
    && (forall m :: 0 <= m < |at| ==>
         GrantsAt(roles, ids, q, at[m]) && scopes[m] == GrantOf(roles[ids[at[m].0]].rules[at[m].1], q, universe))
  }

  /** A deny rule of a registered role applies. */
  ghost predicate RolesForbid<S>(roles: map<string, Role<S>>, ids: seq<string>, q: Query) {
    exists r :: r in ids && r in roles && RulesForbid(roles[r].rules, q)
  }

  /** One pass decides by the declared rules: a deny rule denies; otherwise the grants allow, and none denies. */
  ghost predicate Decides<S(!new)>(roles: map<string, Role<S>>, ids: seq<string>, q: Query, universe: S,
                                   o: Outcome<S>) {
    if RolesForbid(roles, ids, q) then o == Denied
    else exists scopes, at ::
      RolesGrant(roles, ids, q, universe, scopes, at) && o == if scopes == [] then Denied else Allowed(scopes)
  }

  function PassScopes<S>(roles: map<string, Role<S>>, ids: seq<string>, q: Query, universe: S): seq<S> {
    MatchScopes(RoleMatches(roles, q.resource, q.action, ids), q.attrs, q.id, universe)
  }

  lemma OneMoreRole<S>(roles: map<string, Role<S>>, ids: seq<string>, r: string, q: Query, universe: S)
    ensures PassScopes(roles, ids + [r], q, universe)
      == PassScopes(roles, ids, q, universe) + if r in roles then RoleScopes(roles[r].rules, q, universe) else []
    ensures AnyDeny(RoleMatches(roles, q.resource, q.action, ids + [r]))
      <==> AnyDeny(RoleMatches(roles, q.resource, q.action, ids)) || (r in roles && RulesForbid(roles[r].rules, q))
  {
    assert (ids + [r])[..|ids|] == ids;
    var ms := RoleMatches(roles, q.resource, q.action, ids);
    if r in roles {
      var m := RoleMatch(roles[r], q.resource, q.action);
      DenyFromRules(roles[r].rules, q);
      OneMoreMatch(ms, m, q, universe);
    } else {
      assert RoleMatches(roles, q.resource, q.action, ids + [r]) == ms;
    }
  }

  lemma OneMoreMatch<S>(ms: seq<ActionMatch<S>>, m: ActionMatch<S>, q: Query, universe: S)
    ensures MatchScopes(ms + [m], q.attrs, q.id, universe)
      == MatchScopes(ms, q.attrs, q.id, universe) + RuleScopes(m.allow, q.attrs, q.id, universe)
    ensures AnyDeny(ms + [m]) <==> AnyDeny(ms) || m.deny
  {
    var all := ms + [m];
    assert all[..|ms|] == ms && all[|ms|] == m;
    assert forall i :: 0 <= i < |ms| ==> all[i] == ms[i];
  }

  lemma {:induction false} ForbidFromRules<S>(roles: map<string, Role<S>>, ids: seq<string>, q: Query, universe: S)
    ensures AnyDeny(RoleMatches(roles, q.resource, q.action, ids)) <==> RolesForbid(roles, ids, q)
  {
    if ids != [] {
      var init, last := ids[..|ids| - 1], ids[|ids| - 1];
      assert ids == init + [last];
      ForbidFromRules(roles, init, q, universe);
      OneMoreRole(roles, init, last, q, universe);
      assert forall r :: r in ids <==> r in init || r == last;
    }
  }

  lemma {:induction false} RolesFromRules<S>(roles: map<string, Role<S>>, ids: seq<string>, q: Query, universe: S)
    returns (at: seq<Place>)
    ensures RolesGrant(roles, ids, q, universe, PassScopes(roles, ids, q, universe), at)
  {
    at := [];
    if ids != [] {
      var n := |ids| - 1;
      var init, last := ids[..n], ids[n];
      assert ids == init + [last];
      at := RolesFromRules(roles, init, q, universe);
      OneMoreRole(roles, init, last, q, universe);
      var scopes := PassScopes(roles, init, q, universe);
      if last in roles {
        var js := RoleFromRules(roles[last].rules, q, universe);
        RolesGrantOneMore(roles, init, last, q, universe, scopes, at, RoleScopes(roles[last].rules, q, universe), js);
        at := at + PlacesIn(n, js);
      } else {
        RolesGrantUnknown(roles, init, last, q, universe, scopes, at);
      }
    }
  }

  function PlacesIn(k: nat, js: seq<nat>): (at: seq<Place>)
    ensures |at| == |js| && forall m :: 0 <= m < |js| ==> at[m] == (k, js[m])
  {
    seq(|js|, m requires 0 <= m < |js| => (k, js[m]))
  }

  lemma RolesGrantUnknown<S>(roles: map<string, Role<S>>, ids: seq<string>, r: string, q: Query, universe: S,
                             scopes: seq<S>, at: seq<Place>)
    requires RolesGrant(roles, ids, q, universe, scopes, at) && r !in roles
    ensures RolesGrant(roles, ids + [r], q, universe, scopes, at)
  {
    forall p ensures GrantsAt(roles, ids + [r], q, p) <==> GrantsAt(roles, ids, q, p) {
    }
  }

  lemma RolesGrantOneMore<S>(roles: map<string, Role<S>>, ids: seq<string>, r: string, q: Query, universe: S,
                             scopes: seq<S>, at: seq<Place>, more: seq<S>, js: seq<nat>)
    requires RolesGrant(roles, ids, q, universe, scopes, at) && r in roles
    requires RulesGrant(roles[r].rules, q, universe, more, js)
    ensures RolesGrant(roles, ids + [r], q, universe, scopes + more, at + PlacesIn(|ids|, js))
  {
    var all, places := ids + [r], at + PlacesIn(|ids|, js);
    forall p ensures p in places <==> GrantsAt(roles, all, q, p) {
      if p.0 == |ids| {
        PlacesInMembers(|ids|, js, p);
      } else {
        assert GrantsAt(roles, all, q, p) <==> GrantsAt(roles, ids, q, p);
        PlacesInMembers(|ids|, js, p);
      }
    }
    forall m, n | 0 <= m < n < |places| ensures Before(places[m], places[n]) {
      if m < |at| {
        assert at[m] in at;
      }
    }
    forall m | 0 <= m < |places|
      ensures GrantsAt(roles, all, q, places[m])
      ensures (scopes + more)[m] == GrantOf(roles[all[places[m].0]].rules[places[m].1], q, universe) {
      assert places[m] in places;
    }
  }

  lemma PlacesInMembers(k: nat, js: seq<nat>, p: Place)
    ensures p in PlacesIn(k, js) <==> p.0 == k && p.1 in js
  {
    var at := PlacesIn(k, js);
    if p.0 == k && p.1 in js {
      var m :| 0 <= m < |js| && js[m] == p.1;
      assert at[m] == p;
    }
  }

  lemma AllButLast(a: seq<Place>)
    requires InOrder(a) && a != []
    ensures InOrder(a[..|a| - 1])
    ensures forall p :: p in a[..|a| - 1] <==> p in a && p != a[|a| - 1]
  {
    var init, x := a[..|a| - 1], a[|a| - 1];
    assert a == init + [x];
    assert forall m :: 0 <= m < |init| ==> init[m] == a[m] && Before(a[m], x);
  }

  lemma LastIsGreatest(a: seq<Place>, p: Place)
    requires InOrder(a) && p in a
    ensures p == a[|a| - 1] || Before(p, a[|a| - 1])
  {
    var m :| 0 <= m < |a| && a[m] == p;
  }

  /** Places in order are determined by which they are. */
  lemma {:induction false} OrderedOnce(a: seq<Place>, b: seq<Place>)
    requires InOrder(a) && InOrder(b) && forall p :: p in a <==> p in b
    ensures a == b
    decreases |a|
  {
    assert (a != [] ==> a[0] in b) && (b != [] ==> b[0] in b);
    if a != [] {
      assert a[|a| - 1] in a && b[|b| - 1] in b;
      LastIsGreatest(a, b[|b| - 1]);
      LastIsGreatest(b, a[|a| - 1]);
      AllButLast(a);
      AllButLast(b);
      var c, d := a[..|a| - 1], b[..|b| - 1];
      forall p ensures p in c <==> p in d {
        assert p in a <==> p in b;
      }
      OrderedOnce(c, d);
      assert a == c + [a[|a| - 1]] && b == d + [b[|b| - 1]];
    }
  }

  lemma GrantsOnce<S>(roles: map<string, Role<S>>, ids: seq<string>, q: Query, universe: S, scopes: seq<S>,
                      at: seq<Place>, scopes': seq<S>, at': seq<Place>)
    requires RolesGrant(roles, ids, q, universe, scopes, at) && RolesGrant(roles, ids, q, universe, scopes', at')
    ensures scopes == scopes'
  {
    OrderedOnce(at, at');
  }

  /** A pass decides as the declared rules of the registered roles say, and they leave it no other outcome. */
  lemma PassFromRules<S(!new)>(roles: map<string, Role<S>>, ids: seq<string>, q: Query, universe: S)
    ensures forall o ::
      Decides(roles, ids, q, universe, o) <==> o == Pass(roles, q.resource, q.action, ids, q.attrs, q.id, universe)
  {
    ForbidFromRules(roles, ids, q, universe);
    var at := RolesFromRules(roles, ids, q, universe);
    forall o | Decides(roles, ids, q, universe, o)
      ensures o == Pass(roles, q.resource, q.action, ids, q.attrs, q.id, universe) {
      if !RolesForbid(roles, ids, q) {
        var scopes, at' :| RolesGrant(roles, ids, q, universe, scopes, at')
          && o == if scopes == [] then Denied else Allowed(scopes);
        GrantsOnce(roles, ids, q, universe, scopes, at', PassScopes(roles, ids, q, universe), at);
      }
    }
  }

  // ── Under a claim ────────────

  /** The list's elements at the chosen places, in order. */
  ghost predicate Selected(from: seq<string>, chosen: set<nat>, ids: seq<string>, at: seq<nat>) {
    && |at| == |ids|
    && (forall j: nat :: j in at <==> j in chosen)
    && (forall m, n :: 0 <= m < n < |at| ==> at[m] < at[n])
    && (forall m :: 0 <= m < |at| ==> at[m] < |from| && ids[m] == from[at[m]])
  }

  function PlacesOf(from: seq<string>, kept: set<string>): set<nat> {
    set j: nat | j < |from| && from[j] in kept
  }

  /** Where each kept element is mentioned first. */
  function FirstPlacesOf(from: seq<string>, kept: set<string>): set<nat> {
    set j: nat | j < |from| && from[j] in kept && from[j] !in from[..j]
  }

  /**
   The roles of the narrowed pass: the held ones that are claimed, in the order
   held; unheld roles allowed, the registered ones claimed, in the order first
   claimed, each once.
   */
  ghost predicate Narrowed<S>(roles: map<string, Role<S>>, held: seq<string>, claim: Claim, ids: seq<string>) {
    if claim.roles.None? then ids == held
    else
      var claimed, names := claim.roles.value, set r | r in claim.roles.value;
      if claim.allowUnheldRoles then exists at :: Selected(claimed, FirstPlacesOf(claimed, roles.Keys), ids, at)
      else exists at :: Selected(held, PlacesOf(held, names), ids, at)
  }

  /** A claimed attribute overrides the owner's, the others stay. */
  ghost predicate Overridden(attrs: Attrs, claim: Claim, narrowed: Attrs) {
    var claimed := if claim.attrs.Some? then claim.attrs.value else map[];
    forall key ::
      && (key in narrowed <==> key in attrs || key in claimed)
      && (key in narrowed ==> narrowed[key] == if key in claimed then claimed[key] else attrs[key])
  }

  lemma OneMoreSelected(from: seq<string>, r: string, chosen: set<nat>, ids: seq<string>, at: seq<nat>)
    requires Selected(from, chosen, ids, at)
    ensures Selected(from + [r], chosen, ids, at)
    ensures Selected(from + [r], chosen + {|from|}, ids + [r], at + [|from|])
  {
    forall j: nat ensures j in at + [|from|] <==> j in chosen + {|from|} {
      assert j in at + [|from|] <==> j in at || j == |from|;
    }
  }

  lemma {:induction false} KeepSelects(from: seq<string>, kept: set<string>) returns (at: seq<nat>)
    ensures Selected(from, PlacesOf(from, kept), Keep(from, kept), at)
  {
    at := [];
    if from != [] {
      var n := |from| - 1;
      var init, last := from[..n], from[n];
      assert from == init + [last];
      at := KeepSelects(init, kept);
      OneMoreSelected(init, last, PlacesOf(init, kept), Keep(init, kept), at);
      if last in kept {
        at := at + [n];
        assert PlacesOf(from, kept) == PlacesOf(init, kept) + {n};
      } else {
        assert PlacesOf(from, kept) == PlacesOf(init, kept);
        assert Keep(from, kept) == Keep(init, kept);
      }
    }
  }

  lemma DistinctOneMore(ids: seq<string>, r: string, kept: set<string>)
    ensures Keep(Distinct(ids + [r]), kept)
      == if r in kept && r !in ids then Keep(Distinct(ids), kept) + [r] else Keep(Distinct(ids), kept)
  {
    var rest := Distinct(ids);
    assert (ids + [r])[..|ids|] == ids && (rest + [r])[..|rest|] == rest;
    DistinctMembers(ids, r);
  }

  lemma FirstPlacesOneMore(from: seq<string>, r: string, kept: set<string>)
    ensures FirstPlacesOf(from + [r], kept)
      == FirstPlacesOf(from, kept) + if r in kept && r !in from then {|from|} else {}
  {
    var all := from + [r];
    assert forall j: nat :: j <= |from| ==> all[..j] == from[..j];
    assert all[..|from|] == from;
    assert forall j: nat :: j < |from| ==> all[j] == from[j];
  }

  lemma {:induction false} DistinctSelects(from: seq<string>, kept: set<string>) returns (at: seq<nat>)
    ensures Selected(from, FirstPlacesOf(from, kept), Keep(Distinct(from), kept), at)
  {
    at := [];
    if from != [] {
      var n := |from| - 1;
      var init, last := from[..n], from[n];
      assert from == init + [last];
      at := DistinctSelects(init, kept);
      DistinctOneMore(init, last, kept);
      FirstPlacesOneMore(init, last, kept);
      OneMoreSelected(init, last, FirstPlacesOf(init, kept), Keep(Distinct(init), kept), at);
      if last in kept && last !in init {
        at := at + [n];
      } else {
        assert FirstPlacesOf(from, kept) == FirstPlacesOf(init, kept);
      }
    }
  }

  lemma NarrowedAsClaimed<S>(roles: map<string, Role<S>>, held: seq<string>, claim: Claim)
    ensures Narrowed(roles, held, claim, CredRoles(roles, held, claim))
  {
    if claim.roles.Some? {
      if claim.allowUnheldRoles {
        var at := DistinctSelects(claim.roles.value, roles.Keys);
      } else {
        var at := KeepSelects(held, set r | r in claim.roles.value);
      }
    }
  }

  lemma OverriddenByClaim(attrs: Attrs, claim: Claim)
    ensures Overridden(attrs, claim, CredAttrs(attrs, claim))
  {
  }

  /** The user's decision: one pass at full authority and, under a claim, a narrowed one that it needs as well. */
  ghost predicate DecidesFor<S(!new)>(roles: map<string, Role<S>>, resource: string, action: string, user: User,
                                      universe: S, o: Outcome<S>) {
    exists ceiling ::
      && Decides(roles, user.roles, Query(resource, action, user.attrs, user.id), universe, ceiling)
      && if user.attenuate.None? then o == ceiling
         else exists ids, attrs, narrowed ::
           && Narrowed(roles, user.roles, user.attenuate.value, ids)
           && Overridden(user.attrs, user.attenuate.value, attrs)
           && Decides(roles, ids, Query(resource, action, attrs, user.id), universe, narrowed)
           && o == if ceiling.Denied? || narrowed.Denied? then Denied else Attenuated(ceiling.scopes, narrowed.scopes)
  }

  /** Every evaluation decides as the declared rules say, claim or not. */
  lemma EvaluationFromRules<S(!new)>(roles: map<string, Role<S>>, resource: string, action: string, user: User,
                                     universe: S)
    ensures DecidesFor(roles, resource, action, user, universe, Evaluated(roles, resource, action, user, universe))
  {
    var q := Query(resource, action, user.attrs, user.id);
    PassFromRules(roles, user.roles, q, universe);
    if user.attenuate.Some? {
      var claim := user.attenuate.value;
      var ids, attrs := CredRoles(roles, user.roles, claim), CredAttrs(user.attrs, claim);
      NarrowedAsClaimed(roles, user.roles, claim);
      OverriddenByClaim(user.attrs, claim);
      PassFromRules(roles, ids, q.(attrs := attrs), universe);
      assert Decides(roles, ids, Query(resource, action, attrs, user.id), universe,
                     Pass(roles, resource, action, ids, attrs, user.id, universe));
    }
  }

  /** A deny rule of a held role denies whenever both its patterns match, whatever claim the credential makes. */
  lemma DenyAlwaysWins<S(!new)>(roles: map<string, Role<S>>, resource: string, action: string, user: User, universe: S,
                                r: string, rule: Rule<S>)
    requires r in user.roles && r in roles && rule in roles[r].rules && rule.DenyRule?
    requires Applies(rule, Query(resource, action, user.attrs, user.id))
    ensures Evaluated(roles, resource, action, user, universe) == Denied
  {
    var q := Query(resource, action, user.attrs, user.id);
    PassFromRules(roles, user.roles, q, universe);
    assert RulesForbid(roles[r].rules, q);
    assert Decides(roles, user.roles, q, universe, Denied);
  }

  // ── Whole runs ────────────

  /** How many of the calls are evaluations. */
  function Evaluations<S>(calls: seq<Call<S>>): nat {
    if calls == [] then 0 else Evaluations(calls[..|calls| - 1]) + if calls[|calls| - 1].Evaluate? then 1 else 0
  }

  /** The role map holds each registered id with the role registered last under it. */
  ghost predicate LastRegistered<S>(calls: seq<Call<S>>, roles: map<string, Role<S>>) {
    && (forall id :: id in roles ==> exists i :: RegisteredLast(calls, i, id) && calls[i].role == roles[id])
    && (forall i :: 0 <= i < |calls| && calls[i].RegisterRole? ==> calls[i].role.id in roles)
  }

  predicate RegisteredLast<S>(calls: seq<Call<S>>, i: int, id: string) {
    && 0 <= i < |calls| && calls[i].RegisterRole? && calls[i].role.id == id
    && forall j :: i < j < |calls| && calls[j].RegisterRole? ==> calls[j].role.id != id
  }

  lemma {:induction false} RolesAreLastRegistered<S(!new)>(calls: seq<Call<S>>)
    ensures LastRegistered(calls, RolesAfter(calls))
  {
    if calls != [] {
      var n := |calls| - 1;
      var init, roles := calls[..n], RolesAfter(calls);
      RolesAreLastRegistered(init);
      forall id | id in roles ensures exists i :: RegisteredLast(calls, i, id) && calls[i].role == roles[id] {
        if calls[n].RegisterRole? && calls[n].role.id == id {
          assert RegisteredLast(calls, n, id);
        } else {
          var i :| RegisteredLast(init, i, id) && init[i].role == RolesAfter(init)[id];
          assert RegisteredLast(calls, i, id);
        }
      }
      forall i | 0 <= i < |calls| && calls[i].RegisterRole? ensures calls[i].role.id in roles {
        assert i < n ==> init[i] == calls[i];
      }
    }
  }

  /** One outcome per evaluation, and each decides by the rules of the roles registered last before it. */
  lemma {:induction false} RunFromRules<S(!new)>(calls: seq<Call<S>>, universe: S, i: nat)
    requires i < |calls| && calls[i].Evaluate?
    ensures |Outcomes(calls, universe)| == Evaluations(calls) && Evaluations(calls[..i]) < Evaluations(calls)
    ensures LastRegistered(calls[..i], RolesAfter(calls[..i]))
    ensures DecidesFor(RolesAfter(calls[..i]), calls[i].target, calls[i].action, calls[i].user, universe,
                       Outcomes(calls, universe)[Evaluations(calls[..i])])
    decreases |calls|
  {
    var n := |calls| - 1;
    OneOutcomeEach(calls, universe);
    OneOutcomeEach(calls[..n], universe);
    if i == n {
      RolesAreLastRegistered(calls[..n]);
      EvaluationFromRules(RolesAfter(calls[..n]), calls[n].target, calls[n].action, calls[n].user, universe);
    } else {
      RunFromRules(calls[..n], universe, i);
      assert calls[..n][..i] == calls[..i];
    }
  }

  lemma {:induction false} OneOutcomeEach<S>(calls: seq<Call<S>>, universe: S)
    ensures |Outcomes(calls, universe)| == Evaluations(calls)
  {
    if calls != [] {
      OneOutcomeEach(calls[..|calls| - 1], universe);
    }
  }
}
