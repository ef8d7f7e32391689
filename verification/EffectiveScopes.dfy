/**
 The lazily computed facets of one scope list, the loop that conjoins
 relations, and the folding of custom row rules into filters.
 */
module EffectiveScopes {
  import opened Options
  import opened Projections
  import opened Filters
  import opened Controls
  import opened SchemaWalk
  import opened Scopes

  /** A facet not asked for yet is `None`; one that throws is never remembered. */
  class EffectiveDbScope {
    const scopes: seq<Scope>
    var filterMemo: Option<Option<Filter>>
    var checkMemo: Option<Option<Filter>>
    var projectionMemo: Option<Projection>
    var controlsMemo: Option<Policy>
    var allowedFieldsMemo: Option<Option<set<string>>>
    var forcedMemo: Option<map<string, Value>>
    var withNamesMemo: Option<set<string>>
    var withMemo: map<string, seq<Scope>>

    constructor (scopes: seq<Scope>)
      ensures Valid() && this.scopes == scopes
    {
      this.scopes := scopes;
      filterMemo, checkMemo := None, None;
      projectionMemo, controlsMemo := None, None;
      allowedFieldsMemo, forcedMemo, withNamesMemo := None, None, None;
      withMemo := map[];
    }

    /** Every remembered facet is the union of the list. */
    ghost predicate Valid()
      reads this
    {
      && (filterMemo.Some? ==> filterMemo.value == UnionFilter(scopes))
      && (checkMemo.Some? ==> checkMemo.value == UnionCheck(scopes))
      && (projectionMemo.Some? ==> UnionProjection(scopes) == Returned(projectionMemo.value))
      && (controlsMemo.Some? ==> UnionControls(scopes) == Returned(controlsMemo.value))
      && (allowedFieldsMemo.Some? ==> allowedFieldsMemo.value == UnionAllowedFields(scopes))
      && (forcedMemo.Some? ==> forcedMemo.value == UnionForced(scopes))
      && (withNamesMemo.Some? ==> withNamesMemo.value == WithNames(scopes))
      && SubscopesHold()
    }

    ghost predicate SubscopesHold()
      reads this
    {
      forall name {:trigger withMemo[name]} :: name in withMemo ==> withMemo[name] == WithScopes(scopes, name)
    }

    method Filter() returns (r: Option<Filter>)
      requires Valid()
      modifies this
      ensures Valid() && r == UnionFilter(scopes)
    {
      if filterMemo.None? {
        filterMemo := Some(MergeScopeFilters(FilterList(scopes)));
      }
      return filterMemo.value;
    }

    /** Without an explicit check on any scope, the row filter. */
    method Check() returns (r: Option<Filter>)
      requires Valid()
      modifies this
      ensures Valid() && r == UnionCheck(scopes)
    {
      if checkMemo.None? {
        var check;
        if HasExplicitCheck(scopes) {
          check := MergeScopeFilters(CheckList(scopes));
        } else {
          check := Filter();
        }
        checkMemo := Some(check);
      }
      return checkMemo.value;
    }

    method Projection() returns (r: Attempt<Projection>)
      requires Valid()
      modifies this
      ensures Valid() && r == UnionProjection(scopes)
    {
      if projectionMemo.None? {
        var projection :- MergeProjections(seq(|scopes|, i requires 0 <= i < |scopes| => scopes[i].projection));
        projectionMemo := Some(projection);
      }
      return Returned(projectionMemo.value);
    }

    method Controls() returns (r: Attempt<Policy>)
      requires Valid()
      modifies this
      ensures Valid() && r == UnionControls(scopes)
    {
      if controlsMemo.None? {
        var controls :- MergeControls(seq(|scopes|, i requires 0 <= i < |scopes| => scopes[i].controls));
        controlsMemo := Some(controls);
      }
      return Returned(controlsMemo.value);
    }

    method AllowedFields() returns (r: Option<set<string>>)
      requires Valid()
      modifies this
      ensures Valid() && r == UnionAllowedFields(scopes)
    {
      if allowedFieldsMemo.None? {
        var out: Option<set<string>> := None;
        for i := 0 to |scopes|
          invariant Valid() && allowedFieldsMemo.None?
          invariant out == UnionAllowedFields(scopes[..i])
        {
          assert scopes[..i + 1] == scopes[..i] + [scopes[i]];
          AllowedFieldsStep(scopes[..i], scopes[i]);
          if scopes[i].allowedFields.Some? {
            out := Some(out.Or({}) + scopes[i].allowedFields.value);
          }
        }
        assert scopes[..|scopes|] == scopes;
        allowedFieldsMemo := Some(out);
      }
      return allowedFieldsMemo.value;
    }

    method Forced() returns (r: map<string, Value>)
      requires Valid()
      modifies this
      ensures Valid() && r == UnionForced(scopes)
    {
      if forcedMemo.None? {
        var out: map<string, Value> := map[];
        for i := 0 to |scopes|
          invariant Valid() && forcedMemo.None?
          invariant out == UnionForced(scopes[..i])
        {
          assert scopes[..i + 1][..i] == scopes[..i];
          out := out + scopes[i].forced;
        }
        assert scopes[..|scopes|] == scopes;
        forcedMemo := Some(out);
      }
      return forcedMemo.value;
    }

    method Names() returns (r: set<string>)
      requires Valid()
      modifies this
      ensures Valid() && r == WithNames(scopes)
    {
      if withNamesMemo.None? {
        var out: set<string> := {};
        for i := 0 to |scopes|
          invariant Valid() && withNamesMemo.None?
          invariant out == WithNames(scopes[..i])
        {
          assert scopes[..i + 1] == scopes[..i] + [scopes[i]];
          out := out + scopes[i].withs.Keys;
        }
        assert scopes[..|scopes|] == scopes;
        withNamesMemo := Some(out);
      }
      return withNamesMemo.value;
    }

    method Subscopes(name: string) returns (r: seq<Scope>)
      requires Valid()
      modifies this
      ensures Valid() && r == WithScopes(scopes, name)
    {
      if name !in withMemo {
        var list: seq<Scope> := [];
        for i := 0 to |scopes|
          invariant Valid() && name !in withMemo
          invariant list == WithScopes(scopes[..i], name)
        {
          assert scopes[..i + 1][..i] == scopes[..i];
          if name in scopes[i].withs {
            list := list + [scopes[i].withs[name]];
          }
        }
        assert scopes[..|scopes|] == scopes;
        withMemo := withMemo[name := list];
      }
      return withMemo[name];
    }
  }

  lemma AllowedFieldsStep(ss: seq<Scope>, s: Scope)
    ensures UnionAllowedFields(ss + [s]) ==
      if s.allowedFields.None? then UnionAllowedFields(ss)
      else Some(UnionAllowedFields(ss).Or({}) + s.allowedFields.value)
  {
    var all := ss + [s];
    assert all[|ss|] == s && forall i :: 0 <= i < |ss| ==> all[i] == ss[i];
    if s.allowedFields.Some? {
      forall f
        ensures f in UnionAllowedFields(all).value <==> f in UnionAllowedFields(ss).Or({}) + s.allowedFields.value {
        if f in UnionAllowedFields(ss).Or({}) {
          var i :| 0 <= i < |ss| && ss[i].allowedFields.Some? && f in ss[i].allowedFields.value;
          assert all[i].allowedFields.Some? && f in all[i].allowedFields.value;
        }
        if f in s.allowedFields.value {
          assert all[|ss|].allowedFields.Some? && f in all[|ss|].allowedFields.value;
        }
        if f in UnionAllowedFields(all).value {
          var i :| 0 <= i < |all| && all[i].allowedFields.Some? && f in all[i].allowedFields.value;
          assert i < |ss| ==> ss[i].allowedFields.Some? && f in ss[i].allowedFields.value;
        }
      }
      assert UnionAllowedFields(all).value == UnionAllowedFields(ss).Or({}) + s.allowedFields.value;
    } else if UnionAllowedFields(ss).Some? {
      var i :| 0 <= i < |ss| && ss[i].allowedFields.Some?;
      assert all[i].allowedFields.Some?;
      forall f ensures f in UnionAllowedFields(all).value <==> f in UnionAllowedFields(ss).value {
        if f in UnionAllowedFields(ss).value {
          var j :| 0 <= j < |ss| && ss[j].allowedFields.Some? && f in ss[j].allowedFields.value;
          assert all[j].allowedFields.Some?;
        }
      }
      assert UnionAllowedFields(all).value == UnionAllowedFields(ss).value;
    }
  }

  /** One relation: a sub-scope missing on either side marks the result as owing the inherited grant. */
  method ConjoinOne(a: EffectiveDbScope, b: EffectiveDbScope, rel: string,
                    fields: FieldRules) returns (r: Attempt<Scope>)
    requires a.Valid() && b.Valid() && rel in WithNames(a.scopes) + WithNames(b.scopes)
    modifies a, b
    ensures a.Valid() && b.Valid()
    ensures r == ConjoinRelation(a.scopes, b.scopes, rel, fields)
  {
    var sa := a.Subscopes(rel);
    var sb := b.Subscopes(rel);
    var sub := ConjoinScopes(sa, sb, ConjoinOptions(NoSchema, None, fields));
    return if sub.Threw? then Threw else Returned(sub.value.(inherited := OwesInherited(sa, sb)));
  }

  /** `r` holds every relation's conjunction, or says that one throws. */
  ghost predicate ConjoinsEach(a: seq<Scope>, b: seq<Scope>, names: set<string>, fields: FieldRules,
                               r: Attempt<map<string, Scope>>)
    requires names <= WithNames(a) + WithNames(b)
  {
    if r.Threw? then exists rel :: rel in names && ConjoinRelation(a, b, rel, fields).Threw?
    else r.value.Keys == names && forall rel :: rel in names ==>
      ConjoinRelation(a, b, rel, fields) == Returned(r.value[rel])
  }

  lemma ConjoinsAll(a: seq<Scope>, b: seq<Scope>, fields: FieldRules, r: Attempt<map<string, Scope>>)
    requires ConjoinsEach(a, b, WithNames(a) + WithNames(b), fields, r)
    ensures r == ConjoinWith(a, b, fields)
  {
    var names, w := WithNames(a) + WithNames(b), ConjoinWith(a, b, fields);
    if r.Returned? {
      assert w.Returned?;
      forall rel | rel in names ensures w.value[rel] == r.value[rel] {
        assert w.value[rel] == ConjoinRelation(a, b, rel, fields).value;
      }
      assert w.value == r.value;
    }
  }

  /** One relation after the other. */
  method ConjoinEach(a: EffectiveDbScope, b: EffectiveDbScope, names: set<string>, fields: FieldRules)
    returns (r: Attempt<map<string, Scope>>)
    requires a.Valid() && b.Valid() && names <= WithNames(a.scopes) + WithNames(b.scopes)
    modifies a, b
    ensures a.Valid() && b.Valid()
    ensures ConjoinsEach(a.scopes, b.scopes, names, fields, r)
  {
    var out: map<string, Scope> := map[];
    var todo := names;
    while todo != {}
      invariant a.Valid() && b.Valid() && todo <= names
      invariant out.Keys == names - todo
      invariant forall rel :: rel in out ==> ConjoinRelation(a.scopes, b.scopes, rel, fields) == Returned(out[rel])
      decreases todo
    {
      var rel :| rel in todo;
      var sub := ConjoinOne(a, b, rel, fields);
      if sub.Threw? {
        return Threw;
      }
      out := out[rel := sub.value];
      todo := todo - {rel};
    }
    return Returned(out);
  }

  /** The relations either side declares, conjoined over the memoized facets. */
  method ConjoinRelations(a: EffectiveDbScope, b: EffectiveDbScope,
                          fields: FieldRules) returns (r: Attempt<map<string, Scope>>)
    requires a.Valid() && b.Valid()
    modifies a, b
    ensures a.Valid() && b.Valid()
    ensures r == ConjoinWith(a.scopes, b.scopes, fields)
  {
    var ofA := a.Names();
    var ofB := b.Names();
    r := ConjoinEach(a, b, ofA + ofB, fields);
    ConjoinsAll(a.scopes, b.scopes, fields, r);
  }

  // ── Outcomes served as one surface ────────────

  /** An evaluation outcome; a scope predicate may have returned nothing. */
  datatype Outcome = Outcome(allowed: bool, scopes: Option<seq<Option<Scope>>>)

  function Present(ss: seq<Option<Scope>>): seq<Scope> {
    if ss == [] then []
    else Present(ss[..|ss| - 1]) + if ss[|ss| - 1].Some? then [ss[|ss| - 1].value] else []
  }

  /** The scopes of an outcome; `None` denies. */
  function NormalizeScopes(o: Outcome): Option<seq<Scope>> {
    if !o.allowed then None
    else if o.scopes.None? then Some([EMPTY_SCOPE])
    else if Present(o.scopes.value) == [] then None
    else Some(Present(o.scopes.value))
  }

  lemma {:induction false} PresentMembers(ss: seq<Option<Scope>>, s: Scope)
    ensures s in Present(ss) <==> Some(s) in ss
  {
    if ss != [] {
      PresentMembers(ss[..|ss| - 1], s);
      assert ss == ss[..|ss| - 1] + [ss[|ss| - 1]];
    }
  }

  /** An allowed outcome is denied only when every scope it lists is missing; else the present ones remain. */
  lemma NormalizedExactly(o: Outcome)
    ensures NormalizeScopes(o).None? <==> !o.allowed || (o.scopes.Some? && forall x :: x in o.scopes.value ==> x.None?)
    ensures NormalizeScopes(o).Some? && o.scopes.Some? ==>
      forall s :: s in NormalizeScopes(o).value <==> Some(s) in o.scopes.value
  {
    if o.scopes.Some? {
      var listed := o.scopes.value;
      forall s ensures s in Present(listed) <==> Some(s) in listed {
        PresentMembers(listed, s);
      }
      if Present(listed) != [] {
        assert Present(listed)[0] in Present(listed);
      }
      forall x | x in listed && x.Some? ensures Present(listed) != [] {
        assert x.value in Present(listed);
      }
    }
  }

  function NormalizedEach(outcomes: seq<Outcome>): seq<Option<seq<Scope>>> {
    seq(|outcomes|, i requires 0 <= i < |outcomes| => NormalizeScopes(outcomes[i]))
  }

  /** Several evaluations as one: the scopes of the allowing ones, one after the other. */
  method UnionOutcomes(outcomes: seq<Outcome>) returns (r: Option<seq<Scope>>)
    ensures r == Joined(NormalizedEach(outcomes))
    ensures r.Some? ==> r.value != []
  {
    r := None;
    for i := 0 to |outcomes|
      invariant r == Joined(NormalizedEach(outcomes[..i]))
      invariant r.Some? ==> r.value != []
    {
      var scopes := NormalizeScopes(outcomes[i]);
      assert NormalizedEach(outcomes[..i + 1])[..i] == NormalizedEach(outcomes[..i]);
      if scopes.Some? {
        r := Some(r.Or([]) + scopes.value);
      }
    }
    assert outcomes[..|outcomes|] == outcomes;
  }

  // ── Custom row rules ────────────

  /** What a custom field's value restricts rows to. */
  type RowRules = seq<(string, (Value, Scope) -> Option<Filter>)>

  predicate RulesAdmit(db: Db, rules: RowRules, s: Scope, row: Value) {
    forall i :: 0 <= i < |rules| && rules[i].0 in s.custom ==> Admits(db, rules[i].1(s.custom[rules[i].0], s), row)
  }

  function FoldFilter(rules: RowRules, s: Scope): Option<Filter> {
    if rules == [] then s.filter
    else
      var (key, rowFilter) := rules[|rules| - 1];
      var before := FoldFilter(rules[..|rules| - 1], s);
      if key in s.custom then ConjoinScopeFilters(before, rowFilter(s.custom[key], s)) else before
  }

  /** Fold every rule into the filter, at every nesting level. */
  function FoldScope(rules: RowRules, s: Scope): Scope {
    s.(filter := FoldFilter(rules, s), withs := map rel | rel in s.withs :: FoldScope(rules, s.withs[rel]))
  }

  function FoldAll(rules: RowRules, ss: seq<Scope>): seq<Scope> {
    seq(|ss|, i requires 0 <= i < |ss| => FoldScope(rules, ss[i]))
  }

  /** The folded filter admits exactly the rows the filter and every rule admit. */
  lemma {:induction false} FoldFilterExact(db: Db, rules: RowRules, s: Scope, row: Value)
    ensures Admits(db, FoldFilter(rules, s), row) <==> Admits(db, s.filter, row) && RulesAdmit(db, rules, s, row)
  {
    if rules != [] {
      var n := |rules| - 1;
      FoldFilterExact(db, rules[..n], s, row);
      var (key, rowFilter) := rules[n];
      if key in s.custom {
        ConjunctionExact(db, FoldFilter(rules[..n], s), rowFilter(s.custom[key], s), row);
      }
      assert RulesAdmit(db, rules, s, row) <==>
        RulesAdmit(db, rules[..n], s, row) && (key in s.custom ==> Admits(db, rowFilter(s.custom[key], s), row)) by {
        assert forall i :: 0 <= i < n ==> rules[..n][i] == rules[i];
      }
    }
  }

  /** The sub-scope a chain of relations leads to. */
  function SubscopeAt(s: Scope, rels: seq<string>): Option<Scope> {
    if rels == [] then Some(s)
    else if rels[0] in s.withs then SubscopeAt(s.withs[rels[0]], rels[1..])
    else None
  }

  /** Folding reaches every nesting level and changes nothing but filters. */
  lemma {:induction false} FoldReachesEveryLevel(db: Db, rules: RowRules, s: Scope, rels: seq<string>, row: Value)
    ensures SubscopeAt(FoldScope(rules, s), rels).Some? <==> SubscopeAt(s, rels).Some?
    ensures SubscopeAt(s, rels).Some? ==>
      var sub, folded := SubscopeAt(s, rels).value, SubscopeAt(FoldScope(rules, s), rels).value;
      && (Admits(db, folded.filter, row) <==> Admits(db, sub.filter, row) && RulesAdmit(db, rules, sub, row))
      && folded.(filter := sub.filter, withs := sub.withs) == sub && folded.withs.Keys == sub.withs.Keys
    decreases |rels|
  {
    if rels == [] {
      FoldFilterExact(db, rules, s, row);
    } else if rels[0] in s.withs {
      FoldReachesEveryLevel(db, rules, s.withs[rels[0]], rels[1..], row);
    }
  }

  /** A row of the folded list is granted by one of its scopes, rules included. */
  lemma FoldedListGrants(db: Db, rules: RowRules, ss: seq<Scope>, row: Value)
    requires ss != [] && RowVisible(db, FoldAll(rules, ss), row)
    ensures exists i :: 0 <= i < |ss| && Admits(db, ss[i].filter, row) && RulesAdmit(db, rules, ss[i], row)
  {
    var fs := FilterList(FoldAll(rules, ss));
    MergeNeverWidens(db, fs, row);
    var f :| f in fs && Sat(db, f, row);
    var i :| 0 <= i < |fs| && fs[i] == f;
    FoldFilterExact(db, rules, ss[i], row);
    assert Admits(db, FoldFilter(rules, ss[i]), row);
  }
}
