/**
 The restrict-only guarantee of a conjunction: the composite scope permits no
 more than either side, facet by facet and through relations at every `with` depth.
 */
module RestrictOnly {
  import opened Options
  import opened DottedPaths
  import opened Projections
  import opened SchemaWalk
  import opened Intersections
  import opened Filters
  import opened Controls
  import opened Enforcement
  import opened Scopes

  // ── One level ────────────

  lemma DenyUnlessExact(db: Db, kept: bool, f: Option<Filter>, row: Value)
    ensures Admits(db, DenyUnless(kept, f), row) <==> kept && Admits(db, f, row)
  {
    ConjunctionExact(db, f, Some(DENY_FILTER), row);
    DenyAdmitsNothing(db, row);
  }

  lemma OrUnrestricted(db: Db, f: Option<Filter>, row: Value)
    ensures Sat(db, f.Or(UNRESTRICTED), row) <==> Admits(db, f, row)
  {
    assert Sat(db, UNRESTRICTED, row);
  }

  lemma ConjoinedRows(db: Db, a: seq<Scope>, b: seq<Scope>, kept: bool, row: Value)
    ensures Admits(db, ConjoinRows(a, b, kept).filter, row)
            <==> kept && RowVisible(db, a, row) && RowVisible(db, b, row)
    ensures Admits(db, EffectiveCheck(ConjoinRows(a, b, kept)), row)
            <==> kept && CheckPasses(db, a, row) && CheckPasses(db, b, row)
  {
    var pa := RowPolicy(UnionFilter(a), ExplicitCheck(a));
    var pb := RowPolicy(
      DenyUnless(kept, UnionFilter(b)),
      if HasExplicitCheck(b) then Some(DenyUnless(kept, UnionCheck(b)).Or(UNRESTRICTED)) else None);
    RowPolicyConjunctionExact(db, pa, pb, row);
    DenyUnlessExact(db, kept, UnionFilter(b), row);
    DenyUnlessExact(db, kept, UnionCheck(b), row);
    OrUnrestricted(db, UnionCheck(a), row);
    OrUnrestricted(db, DenyUnless(kept, UnionCheck(b)), row);
  }

  /**
   Rows and checks of the composite: exactly the rows both sides admit, and
   none at all when no field survives.
   */
  lemma CompositeRowsExact(db: Db, a: seq<Scope>, b: seq<Scope>, opts: ConjoinOptions, row: Value)
    requires ConjoinScopes(a, b, opts).Returned?
    ensures var c, kept := ConjoinScopes(a, b, opts).value, CommonFields(a, b, opts.schema).Some?;
            && (RowVisible(db, [c], row) <==> kept && RowVisible(db, a, row) && RowVisible(db, b, row))
            && (CheckPasses(db, [c], row) <==> kept && CheckPasses(db, a, row) && CheckPasses(db, b, row))
  {
    var c := ConjoinScopes(a, b, opts).value;
    var kept := CommonFields(a, b, opts.schema).Some?;
    OneScopeRows(db, c, row);
    ConjoinedRows(db, a, b, kept, row);
    assert RowPolicy(c.filter, c.check) == ConjoinRows(a, b, kept);
  }

  lemma UnionIsValid(ss: seq<Scope>)
    requires UnionProjection(ss).Returned?
    ensures !Mixed(UnionProjection(ss).value)
  {
  }

  /** No value is exposed that either side hides. */
  lemma CompositeExposesBoth(db: Db, a: seq<Scope>, b: seq<Scope>, opts: ConjoinOptions, row: Value, f: string)
    requires ConjoinScopes(a, b, opts).Returned? && Descending(opts.schema)
    requires Exposes(db, [ConjoinScopes(a, b, opts).value], row, f)
    ensures Exposes(db, a, row, f) && Exposes(db, b, row, f)
  {
    var c := ConjoinScopes(a, b, opts).value;
    CompositeRowsExact(db, a, b, opts, row);
    UnionIsValid(a);
    UnionIsValid(b);
    var pa, pb := UnionProjection(a).value, UnionProjection(b).value;
    OnlyUniversesGiveUniverse(pa, pb, opts.schema);
    OneScopeProjection(c);
    IntersectionGrantsBoth(pa, pb, opts.schema, f);
  }

  /** Where the projection intersection is exact: no exclusion meets an inclusion, or a leaf of a known schema. */
  ghost predicate MeetsExactly(pa: Projection, pb: Projection, schema: Schema, fields: set<string>, f: string) {
    || !Opposed(pa, pb)
    || (&& TreeOver(schema, fields) && Leaf(fields, f) && Dots(f) <= MAX_SCHEMA_DEPTH
        && (ModeOf(pa) == Exclusion ==> pa.Keys <= fields) && (ModeOf(pb) == Exclusion ==> pb.Keys <= fields))
  }

  /** There the composite exposes every value both sides expose, and no other. */
  lemma CompositeExposesExactly(db: Db, a: seq<Scope>, b: seq<Scope>, opts: ConjoinOptions, fields: set<string>,
                                row: Value, f: string)
    requires ConjoinScopes(a, b, opts).Returned?
    requires MeetsExactly(UnionProjection(a).value, UnionProjection(b).value, opts.schema, fields, f)
    ensures Exposes(db, [ConjoinScopes(a, b, opts).value], row, f) <==> Exposes(db, a, row, f) && Exposes(db, b, row, f)
  {
    var c := ConjoinScopes(a, b, opts).value;
    CompositeRowsExact(db, a, b, opts, row);
    UnionIsValid(a);
    UnionIsValid(b);
    var pa, pb := UnionProjection(a).value, UnionProjection(b).value;
    if Opposed(pa, pb) {
      IntersectionExactOnLeaves(pa, pb, opts.schema, fields, f);
    } else {
      IntersectionExact(pa, pb, opts.schema, f);
    }
    if CommonFields(a, b, opts.schema).Some? {
      OnlyUniversesGiveUniverse(pa, pb, opts.schema);
      OneScopeProjection(c);
    }
  }

  lemma SideWhitelistsSupported(ss: seq<Scope>, key: string)
    requires UnionControls(ss).Returned? && GateOf(UnionControls(ss).value, key).Only?
    ensures key in WHITELISTABLE_CONTROLS
  {
    UnionWhitelistsSupported(seq(|ss|, i requires 0 <= i < |ss| => ss[i].controls), key);
  }

  /** Controls: exactly what both sides permit, per set of used values. */
  lemma CompositeControlsExact(a: seq<Scope>, b: seq<Scope>, opts: ConjoinOptions, key: string, used: set<string>)
    requires ConjoinScopes(a, b, opts).Returned?
    ensures UnionControls([ConjoinScopes(a, b, opts).value]).Returned?
    ensures ControlPermitted([ConjoinScopes(a, b, opts).value], key, used)
            <==> ControlPermitted(a, key, used) && ControlPermitted(b, key, used)
  {
    var c := ConjoinScopes(a, b, opts).value;
    var ca, cb := UnionControls(a).value, UnionControls(b).value;
    var p := IntersectControlsPolicy(ca, cb);
    forall k | k in p && p[k].Only? ensures k in WHITELISTABLE_CONTROLS {
      IntersectionWhitelistsSupported(ca, cb, k);
      if GateOf(ca, k).Only? {
        SideWhitelistsSupported(a, k);
      } else {
        SideWhitelistsSupported(b, k);
      }
    }
    OneScopeControls(c, key);
    IntersectionPermitsExactly(ca, cb, key, used);
  }

  /** Writes: a common whitelist entry must cover the path; both sides must opt the relation in. */
  lemma CompositeWrites(a: seq<Scope>, b: seq<Scope>, opts: ConjoinOptions, path: string)
    requires ConjoinScopes(a, b, opts).Returned?
    ensures var c := ConjoinScopes(a, b, opts).value;
            && (Writable([c], path) ==> Writable(a, path) && Writable(b, path))
            && (UnionAllowedFields(a).None? || UnionAllowedFields(b).None? ==>
                  (Writable([c], path) <==> Writable(a, path) && Writable(b, path)))
            && UnionNestedWrites([c]) == UnionNestedWrites(a) * UnionNestedWrites(b)
  {
    var c := ConjoinScopes(a, b, opts).value;
    OneScopeWrites(c);
    var fa, fb := UnionAllowedFields(a), UnionAllowedFields(b);
    if fa.Some? && fb.Some? && CoveredBy(fa.value * fb.value, path) {
      var k :| k in fa.value * fb.value && Covers(k, path);
      assert k in fa.value && k in fb.value;
    }
  }

  /**
   The whitelist intersection is by exact entry, so it may be narrower than
   both sides: it keeps a path exactly when one entry common to both covers it.
   */
  lemma CompositeWhitelistExactly(a: seq<Scope>, b: seq<Scope>, opts: ConjoinOptions, path: string)
    requires ConjoinScopes(a, b, opts).Returned?
    requires UnionAllowedFields(a).Some? && UnionAllowedFields(b).Some?
    ensures Writable([ConjoinScopes(a, b, opts).value], path)
            <==> exists k :: k in UnionAllowedFields(a).value && k in UnionAllowedFields(b).value && Covers(k, path)
  {
    OneScopeWrites(ConjoinScopes(a, b, opts).value);
    var fa, fb := UnionAllowedFields(a).value, UnionAllowedFields(b).value;
    assert forall k :: k in fa * fb <==> k in fa && k in fb;
  }

  /** Without a schema, a name either side enforces stays enforced, and no other. */
  lemma CompositeRefsExact(a: seq<Scope>, b: seq<Scope>, opts: ConjoinOptions, name: string)
    requires ConjoinScopes(a, b, opts).Returned? && opts.refs.None?
    ensures Enables(UnionRefs([ConjoinScopes(a, b, opts).value]), name)
            <==> Enables(UnionRefs(a), name) || Enables(UnionRefs(b), name)
  {
    OneScopeWrites(ConjoinScopes(a, b, opts).value);
  }

  /** A custom field of either list carries what its rule makes of the two lists; no other field is carried. */
  lemma CompositeCustom(a: seq<Scope>, b: seq<Scope>, opts: ConjoinOptions, k: string)
    requires ConjoinScopes(a, b, opts).Returned?
    ensures var custom := ConjoinScopes(a, b, opts).value.custom;
            var used := exists s :: s in a + b && k in s.custom;
      if used && k in opts.fields && opts.fields[k](a, b).Some?
      then k in custom && custom[k] == opts.fields[k](a, b).value
      else k !in custom
    ensures (exists s :: s in a + b && k in s.custom) ==> k in opts.fields
  {
    CustomFieldOf(a, k);
    CustomFieldOf(b, k);
    assert forall s :: s in a + b <==> s in a || s in b;
  }

  lemma CustomFieldOf(ss: seq<Scope>, k: string)
    ensures k in CustomFields(ss) <==> exists s :: s in ss && k in s.custom
  {
    if exists s :: s in ss && k in s.custom {
      var s :| s in ss && k in s.custom;
      var i :| 0 <= i < |ss| && ss[i] == s;
      assert k in ss[i].custom;
    }
  }

  /** Either side's forced values stay forced; on a conflict the user's value wins. */
  lemma CompositeForced(a: seq<Scope>, b: seq<Scope>, opts: ConjoinOptions, k: string)
    requires ConjoinScopes(a, b, opts).Returned?
    ensures var forced := UnionForced([ConjoinScopes(a, b, opts).value]);
      && (k in forced <==> k in UnionForced(a) || k in UnionForced(b))
      && (k in UnionForced(a) ==> forced[k] == UnionForced(a)[k])
      && (k in UnionForced(b) && k !in UnionForced(a) ==> forced[k] == UnionForced(b)[k])
  {
    OneScopeForced(ConjoinScopes(a, b, opts).value);
  }

  // ── Every `with` depth ────────────

  /** What is compared: rows, write checks, controls and writes, or besides them the values shown. */
  datatype Extent = Reach | Values

  /** `n` permits no more than `x` at this level. */
  ghost predicate Narrower(e: Extent, db: Db, n: seq<Scope>, x: seq<Scope>) {
    && (forall row :: RowVisible(db, n, row) ==> RowVisible(db, x, row))
    && (forall row :: CheckPasses(db, n, row) ==> CheckPasses(db, x, row))
    && (e.Values? ==> forall row, f :: Exposes(db, n, row, f) ==> Exposes(db, x, row, f))
    && (forall key, used :: ControlPermitted(n, key, used) ==> ControlPermitted(x, key, used))
    && (forall path :: Writable(n, path) ==> Writable(x, path))
    && UnionNestedWrites(n) <= UnionNestedWrites(x)
  }

  /**
   `n` permits no more than `x`, here and through every declared relation. A
   relation `n` declares alone (or inherits) stays owed to the silent side's
   own grant; one `n` governs without inheriting is governed by `x` as well.
   */
  ghost predicate Attenuates(e: Extent, db: Db, n: seq<Scope>, x: seq<Scope>)
    decreases Depth(x)
  {
    Narrower(e, db, n, x) && forall rel :: RelationAttenuates(e, db, n, x, rel)
  }

  ghost predicate RelationAttenuates(e: Extent, db: Db, n: seq<Scope>, x: seq<Scope>, rel: string)
    decreases Depth(x), 0
  {
    WithScopesShallower(x, rel);
    var dn, dx := WithScopes(n, rel), WithScopes(x, rel);
    && (dn == [] ==> dx == [])
    && (dn != [] && !Inherits(dn) ==> dx != [] && !Inherits(dx))
    && (dx != [] ==> Attenuates(e, db, dn, dx))
  }

  lemma NarrowerTransitive(e: Extent, db: Db, n: seq<Scope>, m: seq<Scope>, x: seq<Scope>)
    requires Narrower(e, db, n, m) && Narrower(e, db, m, x)
    ensures Narrower(e, db, n, x)
  {
  }

  lemma {:induction false} AttenuatesTransitive(e: Extent, db: Db, n: seq<Scope>, m: seq<Scope>, x: seq<Scope>)
    requires Attenuates(e, db, n, m) && Attenuates(e, db, m, x)
    ensures Attenuates(e, db, n, x)
    decreases Depth(x)
  {
    NarrowerTransitive(e, db, n, m, x);
    forall rel ensures RelationAttenuates(e, db, n, x, rel) {
      assert RelationAttenuates(e, db, n, m, rel) && RelationAttenuates(e, db, m, x, rel);
      WithScopesShallower(x, rel);
      if WithScopes(x, rel) != [] {
        AttenuatesTransitive(e, db, WithScopes(n, rel), WithScopes(m, rel), WithScopes(x, rel));
      }
    }
  }

  /** The inheritance mark matters to the relation's parent only. */
  lemma MarkIrrelevant(e: Extent, db: Db, c: Scope, mark: bool, x: seq<Scope>)
    requires Attenuates(e, db, [c], x)
    ensures Attenuates(e, db, [c.(inherited := mark)], x)
  {
    var d := c.(inherited := mark);
    assert FilterList([d]) == FilterList([c]) && CheckList([d]) == CheckList([c]);
    assert HasExplicitCheck([d]) == HasExplicitCheck([c]) by {
      assert [c][0].check == [d][0].check;
    }
    assert seq(1, i requires 0 <= i < 1 => [d][i].projection) == seq(1, i requires 0 <= i < 1 => [c][i].projection);
    assert seq(1, i requires 0 <= i < 1 => [d][i].controls) == seq(1, i requires 0 <= i < 1 => [c][i].controls);
    OneScopeWrites(c);
    OneScopeWrites(d);
    assert Narrower(e, db, [d], x);
    forall rel ensures RelationAttenuates(e, db, [d], x, rel) {
      OneScopeWith(c, rel);
      OneScopeWith(d, rel);
      assert RelationAttenuates(e, db, [c], x, rel);
    }
  }

  lemma CompositeNarrower(e: Extent, db: Db, a: seq<Scope>, b: seq<Scope>, opts: ConjoinOptions)
    requires ConjoinScopes(a, b, opts).Returned? && Descending(opts.schema)
    ensures Narrower(e, db, [ConjoinScopes(a, b, opts).value], a)
    ensures Narrower(e, db, [ConjoinScopes(a, b, opts).value], b)
  {
    var c := ConjoinScopes(a, b, opts).value;
    forall row ensures RowVisible(db, [c], row) ==> RowVisible(db, a, row) && RowVisible(db, b, row) {
      CompositeRowsExact(db, a, b, opts, row);
    }
    forall row ensures CheckPasses(db, [c], row) ==> CheckPasses(db, a, row) && CheckPasses(db, b, row) {
      CompositeRowsExact(db, a, b, opts, row);
    }
    forall row, f | Exposes(db, [c], row, f) ensures Exposes(db, a, row, f) && Exposes(db, b, row, f) {
      CompositeExposesBoth(db, a, b, opts, row, f);
    }
    forall key, used | ControlPermitted([c], key, used)
      ensures ControlPermitted(a, key, used) && ControlPermitted(b, key, used) {
      CompositeControlsExact(a, b, opts, key, used);
    }
    forall path | Writable([c], path) ensures Writable(a, path) && Writable(b, path) {
      CompositeWrites(a, b, opts, path);
    }
    CompositeWrites(a, b, opts, "");
  }

  /** The composite attenuates each side that has scopes, at every `with` depth. */
  lemma {:induction false} CompositeAttenuates(e: Extent, db: Db, a: seq<Scope>, b: seq<Scope>, opts: ConjoinOptions)
    requires ConjoinScopes(a, b, opts).Returned? && Descending(opts.schema)
    ensures Attenuates(e, db, [ConjoinScopes(a, b, opts).value], a)
    ensures Attenuates(e, db, [ConjoinScopes(a, b, opts).value], b)
    decreases Depth(a) + Depth(b)
  {
    var c := ConjoinScopes(a, b, opts).value;
    CompositeNarrower(e, db, a, b, opts);
    forall rel ensures RelationAttenuates(e, db, [c], a, rel) && RelationAttenuates(e, db, [c], b, rel) {
      CompositeRelation(e, db, a, b, opts, rel);
    }
  }

  lemma {:induction false} CompositeRelation(e: Extent, db: Db, a: seq<Scope>, b: seq<Scope>, opts: ConjoinOptions,
                                             rel: string)
    requires ConjoinScopes(a, b, opts).Returned?
    ensures RelationAttenuates(e, db, [ConjoinScopes(a, b, opts).value], a, rel)
    ensures RelationAttenuates(e, db, [ConjoinScopes(a, b, opts).value], b, rel)
    decreases Depth(a) + Depth(b), 0
  {
    var c := ConjoinScopes(a, b, opts).value;
    OneScopeWith(c, rel);
    WithScopesShallower(a, rel);
    WithScopesShallower(b, rel);
    var sa, sb := WithScopes(a, rel), WithScopes(b, rel);
    if rel in WithNames(a) + WithNames(b) {
      var subOpts := ConjoinOptions(NoSchema, None, opts.fields);
      assert ConjoinRelation(a, b, rel, opts.fields).Returned?;
      var sub := ConjoinScopes(sa, sb, subOpts).value;
      assert WithScopes([c], rel) == [sub.(inherited := OwesInherited(sa, sb))];
      CompositeAttenuates(e, db, sa, sb, subOpts);
      MarkIrrelevant(e, db, sub, OwesInherited(sa, sb), sa);
      MarkIrrelevant(e, db, sub, OwesInherited(sa, sb), sb);
      assert WithScopes([c], rel)[0].inherited == OwesInherited(sa, sb);
    }
  }

  /** Visible fields, parents of granted ones included, stay within a wider list's. */
  lemma NarrowerFieldVisible(db: Db, n: seq<Scope>, x: seq<Scope>, row: Value, f: string)
    requires Narrower(Values, db, n, x) && RowVisible(db, n, row)
    requires UnionProjection(n).Returned? && IsFieldAllowed(f, UnionProjection(n).value)
    ensures UnionProjection(x).Returned? && IsFieldAllowed(f, UnionProjection(x).value)
  {
    AllowedIffSomeGranted(f, UnionProjection(n).value);
    var g :| Covers(f, g) && Grants(UnionProjection(n).value, g);
    assert Exposes(db, n, row, g);
    assert Exposes(db, x, row, g);
    AllowedIffSomeGranted(f, UnionProjection(x).value);
  }
}
