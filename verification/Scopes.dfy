/**
 DB scopes, their per-facet union over a list (one scope per allowing rule),
 and the conjunction of two lists into one composite scope.
 */
module Scopes {
  import opened Options
  import opened DottedPaths
  import opened Projections
  import opened SchemaWalk
  import opened Intersections
  import opened Filters
  import opened Controls
  import opened Enforcement

  /** A scope; an absent facet is `None`, an empty map or an empty set. */
  datatype Scope = Scope(
    filter: Option<Filter>,
    check: Option<Filter>,
    projection: Projection,
    controls: Option<Policy>,
    allowedFields: Option<set<string>>,
    forced: map<string, Value>,
    nestedWrites: set<string>,
    checkRefs: Enabled<string>,
    withs: map<string, Scope>,
    // marked INHERITED_CONJUNCTION: declared by one side of a conjunction only
    inherited: bool,
    // custom (declaration-merged) fields holding a value
    custom: map<string, Value>)

  /** The universe sentinel `{}`: what an unscoped rule grants. */
  const EMPTY_SCOPE := Scope(None, None, map[], None, None, map[], {}, These({}), map[], false, map[])

  // ── The union of a scope list, facet by facet ────────────

  function FilterList(ss: seq<Scope>): seq<Filter> {
    seq(|ss|, i requires 0 <= i < |ss| => ss[i].filter.Or(UNRESTRICTED))
  }

  function CheckList(ss: seq<Scope>): seq<Filter> {
    seq(|ss|, i requires 0 <= i < |ss| =>
      if ss[i].check.Some? then ss[i].check.value else ss[i].filter.Or(UNRESTRICTED))
  }

  function UnionFilter(ss: seq<Scope>): Option<Filter> {
    MergeScopeFilters(FilterList(ss))
  }

  predicate HasExplicitCheck(ss: seq<Scope>) {
    exists i :: 0 <= i < |ss| && ss[i].check.Some?
  }

  function UnionCheck(ss: seq<Scope>): Option<Filter> {
    if HasExplicitCheck(ss) then MergeScopeFilters(CheckList(ss)) else UnionFilter(ss)
  }

  function UnionProjection(ss: seq<Scope>): Attempt<Projection> {
    UnionProjections(seq(|ss|, i requires 0 <= i < |ss| => ss[i].projection))
  }

  function UnionControls(ss: seq<Scope>): Attempt<Policy> {
    UnionControlsPolicy(seq(|ss|, i requires 0 <= i < |ss| => ss[i].controls))
  }

  /** The union of the whitelists; `None` when no scope carries one. */
  function UnionAllowedFields(ss: seq<Scope>): Option<set<string>> {
    if forall i :: 0 <= i < |ss| ==> ss[i].allowedFields.None? then None
    else Some(set i, f | 0 <= i < |ss| && ss[i].allowedFields.Some? && f in ss[i].allowedFields.value :: f)
  }

  /** The forced values, later scopes winning. */
  function UnionForced(ss: seq<Scope>): map<string, Value> {
    if ss == [] then map[] else UnionForced(ss[..|ss| - 1]) + ss[|ss| - 1].forced
  }

  /** The last scope that forces a key decides its value. */
  lemma {:induction false} LastForcedWins(ss: seq<Scope>, i: nat, k: string)
    requires i < |ss| && k in ss[i].forced && forall j :: i < j < |ss| ==> k !in ss[j].forced
    ensures k in UnionForced(ss) && UnionForced(ss)[k] == ss[i].forced[k]
    decreases |ss|
  {
    if i < |ss| - 1 {
      LastForcedWins(ss[..|ss| - 1], i, k);
    }
  }

  function UnionNestedWrites(ss: seq<Scope>): set<string> {
    set i, rel | 0 <= i < |ss| && rel in ss[i].nestedWrites :: rel
  }

  function UnionRefs(ss: seq<Scope>): Enabled<string> {
    EnabledByAll(seq(|ss|, i requires 0 <= i < |ss| => ss[i].checkRefs))
  }

  function WithNames(ss: seq<Scope>): set<string> {
    set i, rel | 0 <= i < |ss| && rel in ss[i].withs :: rel
  }

  /** The declared `with.<name>` sub-scopes, in scope order. */
  function WithScopes(ss: seq<Scope>, name: string): seq<Scope> {
    if ss == [] then []
    else
      var last := ss[|ss| - 1];
      WithScopes(ss[..|ss| - 1], name) + if name in last.withs then [last.withs[name]] else []
  }

  predicate Inherits(ss: seq<Scope>) {
    exists i :: 0 <= i < |ss| && ss[i].inherited
  }

  // ── Several lists served as one ────────────

  /** The lists of the allowing evaluations, one after the other; `None` when none allows. */
  function Joined(lists: seq<Option<seq<Scope>>>): Option<seq<Scope>> {
    if lists == [] then None
    else
      var before, last := Joined(lists[..|lists| - 1]), lists[|lists| - 1];
      if last.None? then before else Some(before.Or([]) + last.value)
  }

  lemma {:induction false} JoinedMembers(lists: seq<Option<seq<Scope>>>, s: Scope)
    ensures Joined(lists).Some? <==> exists i :: 0 <= i < |lists| && lists[i].Some?
    ensures s in Joined(lists).Or([]) <==> exists i :: 0 <= i < |lists| && lists[i].Some? && s in lists[i].value
  {
    if lists != [] {
      var n := |lists| - 1;
      JoinedMembers(lists[..n], s);
      assert forall i :: 0 <= i < n ==> lists[..n][i] == lists[i];
    }
  }

  // ── What a list permits ────────────

  predicate RowVisible(db: Db, ss: seq<Scope>, row: Value) {
    Admits(db, UnionFilter(ss), row)
  }

  predicate CheckPasses(db: Db, ss: seq<Scope>, row: Value) {
    Admits(db, UnionCheck(ss), row)
  }

  predicate PathGranted(ss: seq<Scope>, f: string) {
    UnionProjection(ss).Returned? && Grants(UnionProjection(ss).value, f)
  }

  /** The value of `row` at path `f` can be read under the list. */
  predicate Exposes(db: Db, ss: seq<Scope>, row: Value, f: string) {
    RowVisible(db, ss, row) && PathGranted(ss, f)
  }

  predicate ControlPermitted(ss: seq<Scope>, key: string, used: set<string>) {
    UnionControls(ss).Returned? && Permits(GateOf(UnionControls(ss).value, key), used)
  }

  predicate Writable(ss: seq<Scope>, path: string) {
    UnionAllowedFields(ss).Some? ==> CoveredBy(UnionAllowedFields(ss).value, path)
  }

  // ── Nesting depth of `with` ────────────

  ghost function ScopeDepth(s: Scope): nat
    decreases s, |s.withs.Keys| + 1
  {
    1 + DepthOver(s, s.withs.Keys)
  }

  ghost function DepthOver(s: Scope, names: set<string>): nat
    requires names <= s.withs.Keys
    decreases s, |names|
  {
    if names == {} then 0
    else
      var n :| n in names;
      var d, rest := ScopeDepth(s.withs[n]), DepthOver(s, names - {n});
      if d > rest then d else rest
  }

  ghost function Depth(ss: seq<Scope>): nat {
    if ss == [] then 0
    else
      var d, rest := ScopeDepth(ss[|ss| - 1]), Depth(ss[..|ss| - 1]);
      if d > rest then d else rest
  }

  lemma {:induction false} SubDepth(s: Scope, names: set<string>, rel: string)
    requires names <= s.withs.Keys && rel in names
    ensures ScopeDepth(s.withs[rel]) <= DepthOver(s, names)
    decreases |names|
  {
    var n :| n in names && DepthOver(s, names) ==
      (var d, rest := ScopeDepth(s.withs[n]), DepthOver(s, names - {n}); if d > rest then d else rest);
    if n != rel {
      SubDepth(s, names - {n}, rel);
    }
  }

  /** The declared sub-scopes of a relation nest less deeply. */
  lemma {:induction false} WithScopesShallower(ss: seq<Scope>, rel: string)
    ensures Depth(WithScopes(ss, rel)) <= Depth(ss)
    ensures WithScopes(ss, rel) != [] ==> Depth(WithScopes(ss, rel)) < Depth(ss)
    ensures WithScopes(ss, rel) != [] <==> rel in WithNames(ss)
  {
    if ss != [] {
      var init, last := ss[..|ss| - 1], ss[|ss| - 1];
      WithScopesShallower(init, rel);
      WithNamesStep(init, last);
      assert ss == init + [last];
      if rel in last.withs {
        SubDepth(last, last.withs.Keys, rel);
        DepthStep(WithScopes(init, rel), last.withs[rel]);
      } else {
        assert WithScopes(ss, rel) == WithScopes(init, rel);
      }
    }
  }

  lemma WithNamesStep(init: seq<Scope>, last: Scope)
    ensures WithNames(init + [last]) == WithNames(init) + last.withs.Keys
  {
    assert (init + [last])[|init|] == last && forall i :: 0 <= i < |init| ==> (init + [last])[i] == init[i];
  }

  lemma DepthStep(init: seq<Scope>, last: Scope)
    ensures Depth(init + [last]) == if ScopeDepth(last) > Depth(init) then ScopeDepth(last) else Depth(init)
  {
    assert (init + [last])[..|init|] == init;
  }

  // ── Scopes without the one-sided mark ────────────

  /** A role's scopes never carry the one-sided mark: only conjunctions make it. */
  ghost predicate PlainScope(s: Scope) {
    forall rel :: rel in s.withs ==> !s.withs[rel].inherited && PlainScope(s.withs[rel])
  }

  ghost predicate Plain(ss: seq<Scope>) {
    forall s :: s in ss ==> PlainScope(s)
  }

  lemma {:induction false} PlainSubScopes(ss: seq<Scope>, rel: string)
    requires Plain(ss)
    ensures Plain(WithScopes(ss, rel)) && !Inherits(WithScopes(ss, rel))
  {
    if ss != [] {
      PlainSubScopes(ss[..|ss| - 1], rel);
      assert ss[|ss| - 1] in ss;
    }
  }

  // ── Conjunction ────────────

  type FieldRules = map<string, (seq<Scope>, seq<Scope>) -> Option<Value>>

  /** Schema lookup, schema-aware `checkRefs` conjunction and custom-field rules. */
  datatype ConjoinOptions = ConjoinOptions(
    schema: Schema,
    refs: Option<(seq<Scope>, seq<Scope>) -> Attempt<Enabled<string>>>,
    fields: FieldRules)

  function CustomFields(ss: seq<Scope>): set<string> {
    set i, k | 0 <= i < |ss| && k in ss[i].custom :: k
  }

  function IntersectAllowedFields(a: Option<set<string>>, b: Option<set<string>>): Option<set<string>> {
    if a.None? then b else if b.None? then a else Some(a.value * b.value)
  }

  /** What either side enforces. */
  function UnionRefNames(a: seq<Scope>, b: seq<Scope>): Enabled<string> {
    var ra, rb := UnionRefs(a), UnionRefs(b);
    if ra.All? || rb.All? then All else These(ra.entries + rb.entries)
  }

  function DenyUnless(kept: bool, f: Option<Filter>): Option<Filter> {
    if kept then f else ConjoinScopeFilters(f, Some(DENY_FILTER))
  }

  function ExplicitCheck(ss: seq<Scope>): Option<Filter> {
    if HasExplicitCheck(ss) then Some(UnionCheck(ss).Or(UNRESTRICTED)) else None
  }

  /** Row policies of the two sides; with no common field the second side denies every row. */
  function ConjoinRows(a: seq<Scope>, b: seq<Scope>, kept: bool): RowPolicy {
    ConjoinRowPolicies(
      RowPolicy(UnionFilter(a), ExplicitCheck(a)),
      RowPolicy(
        DenyUnless(kept, UnionFilter(b)),
        if HasExplicitCheck(b) then Some(DenyUnless(kept, UnionCheck(b)).Or(UNRESTRICTED)) else None))
  }

  /** Every facet of the two lists can be unioned, and every custom field has a rule. */
  predicate Combinable(a: seq<Scope>, b: seq<Scope>, fields: FieldRules) {
    && CustomFields(a) + CustomFields(b) <= fields.Keys
    && UnionProjection(a).Returned? && UnionProjection(b).Returned?
    && UnionControls(a).Returned? && UnionControls(b).Returned?
  }

  /** The fields both sides leave; `None` when no path survives. */
  function CommonFields(a: seq<Scope>, b: seq<Scope>, schema: Schema): Option<Projection>
    requires UnionProjection(a).Returned? && UnionProjection(b).Returned?
  {
    Intersection(UnionProjection(a).value, UnionProjection(b).value, schema)
  }

  function ConjoinControls(a: seq<Scope>, b: seq<Scope>): Option<Policy>
    requires UnionControls(a).Returned? && UnionControls(b).Returned?
  {
    var controls := IntersectControlsPolicy(UnionControls(a).value, UnionControls(b).value);
    if controls == map[] then None else Some(controls)
  }

  /** The reference checks of the composite: by the table's schema where there is one. */
  function ConjoinRefs(a: seq<Scope>, b: seq<Scope>, opts: ConjoinOptions): Attempt<Enabled<string>> {
    if opts.refs.Some? then opts.refs.value(a, b) else Returned(UnionRefNames(a, b))
  }

  /** The composite scope around its reference checks and its conjoined relations. */
  function Composite(a: seq<Scope>, b: seq<Scope>, opts: ConjoinOptions, refs: Enabled<string>,
                     withs: map<string, Scope>): Scope
    requires Combinable(a, b, opts.fields)
  {
    var common := CommonFields(a, b, opts.schema);
    var rows := ConjoinRows(a, b, common.Some?);
    Scope(
      rows.filter,
      rows.check,
      common.Or(UnionProjection(a).value),
      ConjoinControls(a, b),
      IntersectAllowedFields(UnionAllowedFields(a), UnionAllowedFields(b)),
      UnionForced(b) + UnionForced(a),
      UnionNestedWrites(a) * UnionNestedWrites(b),
      refs,
      withs,
      false,
      map k | k in CustomFields(a) + CustomFields(b) && opts.fields[k](a, b).Some? :: opts.fields[k](a, b).value)
  }

  /**
   The two lists as ONE composite scope; throws on an invalid facet, an unknown
   reference name or a custom field without a rule.
   */
  function ConjoinScopes(a: seq<Scope>, b: seq<Scope>, opts: ConjoinOptions): Attempt<Scope>
    decreases Depth(a) + Depth(b), 1
  {
    if !Combinable(a, b, opts.fields) then Threw
    else
      var refs :- ConjoinRefs(a, b, opts);
      var withs :- ConjoinWith(a, b, opts.fields);
      Returned(Composite(a, b, opts, refs, withs))
  }

  /** Declared by one side only, or already inheriting on either. */
  predicate OwesInherited(a: seq<Scope>, b: seq<Scope>) {
    a == [] || b == [] || Inherits(a) || Inherits(b)
  }

  /** The conjunction of one relation's sub-scopes, without a schema. */
  function ConjoinRelation(a: seq<Scope>, b: seq<Scope>, rel: string, fields: FieldRules): Attempt<Scope>
    requires rel in WithNames(a) + WithNames(b)
    decreases Depth(a) + Depth(b), 0, 0
  {
    WithScopesShallower(a, rel);
    WithScopesShallower(b, rel);
    var sa, sb := WithScopes(a, rel), WithScopes(b, rel);
    var sub :- ConjoinScopes(sa, sb, ConjoinOptions(NoSchema, None, fields));
    Returned(sub.(inherited := OwesInherited(sa, sb)))
  }

  function ConjoinWith(a: seq<Scope>, b: seq<Scope>, fields: FieldRules): Attempt<map<string, Scope>>
    decreases Depth(a) + Depth(b), 0, 1
  {
    var names := WithNames(a) + WithNames(b);
    if exists rel :: rel in names && ConjoinRelation(a, b, rel, fields).Threw? then Threw
    else Returned(map rel | rel in names :: ConjoinRelation(a, b, rel, fields).value)
  }

  // ── A composite passes every union site unchanged ────────────

  lemma UnionOfOneFilter(db: Db, f: Option<Filter>, row: Value)
    ensures Admits(db, MergeScopeFilters([f.Or(UNRESTRICTED)]), row) <==> Admits(db, f, row)
  {
    assert Sat(db, UNRESTRICTED, row);
  }

  lemma OneScopeRows(db: Db, c: Scope, row: Value)
    ensures RowVisible(db, [c], row) <==> Admits(db, c.filter, row)
    ensures CheckPasses(db, [c], row) <==> Admits(db, EffectiveCheck(RowPolicy(c.filter, c.check)), row)
  {
    assert FilterList([c]) == [c.filter.Or(UNRESTRICTED)];
    UnionOfOneFilter(db, c.filter, row);
    if c.check.Some? {
      assert [c][0].check.Some? && HasExplicitCheck([c]);
      assert CheckList([c]) == [c.check.Or(UNRESTRICTED)];
      UnionOfOneFilter(db, c.check, row);
    }
  }

  lemma OneScopeProjection(c: Scope)
    requires !Mixed(c.projection)
    ensures UnionProjection([c]) == Returned(c.projection)
  {
    UnionOfOne(c.projection);
    assert seq(1, i requires 0 <= i < 1 => [c][i].projection) == [c.projection];
  }

  lemma OneScopeControls(c: Scope, key: string)
    requires c.controls.Some? ==> forall k :: k in c.controls.value && c.controls.value[k].Only? ==>
      k in WHITELISTABLE_CONTROLS
    ensures UnionControls([c]).Returned?
    ensures GateOf(UnionControls([c]).value, key) == GateOf(c.controls.Or(map[]), key)
  {
    assert seq(1, i requires 0 <= i < 1 => [c][i].controls) == [c.controls];
    if c.controls.Some? {
      UnionOfOnePolicy(c.controls.value, key);
    } else {
      assert None in [c.controls];
    }
  }

  lemma OneScopeForced(c: Scope)
    ensures UnionForced([c]) == c.forced
  {
    assert [c][..0] == [];
    assert map[] + c.forced == c.forced;
  }

  lemma OneScopeWrites(c: Scope)
    ensures UnionAllowedFields([c]) == c.allowedFields
    ensures UnionNestedWrites([c]) == c.nestedWrites
    ensures UnionForced([c]) == c.forced
    ensures UnionRefs([c]) == c.checkRefs
  {
    assert [c][0] == c;
    if c.allowedFields.Some? {
      assert UnionAllowedFields([c]).value == c.allowedFields.value;
    }
    var inputs := [c.checkRefs];
    assert seq(1, i requires 0 <= i < 1 => [c][i].checkRefs) == inputs;
    assert inputs[0] == c.checkRefs;
    forall k ensures Enables(EnabledByAll(inputs), k) <==> Enables(c.checkRefs, k) {
      EnablesExactly(inputs, k);
    }
    if c.checkRefs.These? {
      assert EnabledByAll(inputs).These?;
      assert forall k :: k in EnabledByAll(inputs).entries <==> Enables(c.checkRefs, k);
    }
    assert UnionForced([c][..0]) == map[];
  }

  lemma OneScopeWith(c: Scope, rel: string)
    ensures WithScopes([c], rel) == if rel in c.withs then [c.withs[rel]] else []
  {
    assert [c][..0] == [];
  }
}
