/**
 When joining a list with others permits everything the list permits by itself:
 the exact condition, read off the lists.
 */
module Fitting {
  import opened Options
  import opened DottedPaths
  import opened Projections
  import opened Filters
  import opened Controls
  import opened Scopes
  import opened RestrictOnly
  import opened JoinedLists

  /** No key that `a` includes falls below a key the joint union still denies, unless it did in `a` alone. */
  ghost predicate KeepsIncluded(a: seq<Scope>, x: seq<Scope>) {
    UnionProjection(a).Returned? && UnionProjection(x).Returned? &&
    forall k :: k in KeysFlagged(ProjectionList(a), Include) && HasAncestorDenied(UnionProjection(x).value, k) ==>
      HasAncestorDenied(UnionProjection(a).value, k)
  }

  /**
   `a` fits into `x`: both are valid, the joint filter rewrite drops none of its
   rows, no key it includes is denied anew (where values are compared), a joint
   whitelist is also its own, and it declares every relation `x` declares,
   fitting there too.
   */
  ghost predicate Fits(e: Extent, a: seq<Scope>, x: seq<Scope>)
    decreases Depth(x)
  {
    && !(SoleNull(FilterList(a)) && DropsMissing(FilterList(x)))
    && !(SoleNull(CheckList(a)) && DropsMissing(CheckList(x)))
    && (e.Values? ==> KeepsIncluded(a, x))
    && UnionControls(a).Returned? && UnionControls(x).Returned?
    && (UnionAllowedFields(x).Some? ==> UnionAllowedFields(a).Some?)
    && forall rel :: FitsAt(e, a, x, rel)
  }

  ghost predicate FitsAt(e: Extent, a: seq<Scope>, x: seq<Scope>, rel: string)
    decreases Depth(x), 0
  {
    WithScopesShallower(x, rel);
    WithScopes(x, rel) != [] ==> WithScopes(a, rel) != [] && Fits(e, WithScopes(a, rel), WithScopes(x, rel))
  }

  // ── Facet by facet ────────────

  lemma RowsFitIff(db: Db, a: seq<Scope>, x: seq<Scope>)
    requires a != [] && Within(a, x)
    ensures (forall row :: RowVisible(db, a, row) ==> RowVisible(db, x, row))
            <==> !(SoleNull(FilterList(a)) && DropsMissing(FilterList(x)))
    ensures (forall row :: CheckPasses(db, a, row) ==> CheckPasses(db, x, row))
            <==> !(SoleNull(CheckList(a)) && DropsMissing(CheckList(x)))
  {
    FacetMembers(a, x);
    JoinKeepsRowsIff(db, FilterList(a), FilterList(x));
    JoinKeepsRowsIff(db, CheckList(a), CheckList(x));
    CheckIsMerged(a);
    CheckIsMerged(x);
    assert forall row :: RowVisible(db, a, row) <==> Admits(db, MergeScopeFilters(FilterList(a)), row);
    assert forall row :: RowVisible(db, x, row) <==> Admits(db, MergeScopeFilters(FilterList(x)), row);
    assert forall row :: CheckPasses(db, a, row) <==> Admits(db, MergeScopeFilters(CheckList(a)), row);
    assert forall row :: CheckPasses(db, x, row) <==> Admits(db, MergeScopeFilters(CheckList(x)), row);
  }

  lemma PathsFitIff(a: seq<Scope>, x: seq<Scope>)
    requires a != [] && Within(a, x) && UnionProjection(a).Returned? && UnionProjection(x).Returned?
    ensures (forall f :: PathGranted(a, f) ==> PathGranted(x, f)) <==> KeepsIncluded(a, x)
  {
    var pa, px := ProjectionList(a), ProjectionList(x);
    FacetMembers(a, x);
    assert a[0] in x;
    assert UnionProjection(a) == UnionProjections(pa) && UnionProjection(x) == UnionProjections(px);
    if KeepsIncluded(a, x) {
      forall f | PathGranted(a, f) ensures PathGranted(x, f) {
        PathFits(pa, px, f);
      }
    } else {
      var k :| k in KeysFlagged(pa, Include) && HasAncestorDenied(UnionOf(px), k) && !HasAncestorDenied(UnionOf(pa), k);
      UnionGrantsExactly(pa, k);
      assert Covers(k, k);
      assert PathGranted(a, k);
      DeniedBelow(UnionOf(px), k);
      assert !PathGranted(x, k);
    }
  }

  lemma PathFits(pa: seq<Projection>, px: seq<Projection>, f: string)
    requires pa != [] && px != [] && UnionProjections(pa).Returned? && UnionProjections(px).Returned?
    requires forall p :: p in pa ==> p in px
    requires forall k :: k in KeysFlagged(pa, Include) && HasAncestorDenied(UnionOf(px), k) ==>
      HasAncestorDenied(UnionOf(pa), k)
    requires Grants(UnionOf(pa), f)
    ensures Grants(UnionOf(px), f)
  {
    UnionGrantsExactly(pa, f);
    UnionGrantsExactly(px, f);
    if exists p :: p in pa && ModeOf(p) != Inclusion && Grants(p, f) {
      var p :| p in pa && ModeOf(p) != Inclusion && Grants(p, f);
      assert p in px;
    } else {
      var i :| i in KeysFlagged(pa, Include) && Covers(i, f) && !HasAncestorDenied(UnionOf(pa), i);
      assert i in KeysFlagged(px, Include);
    }
  }

  lemma DeniedBelow(u: Projection, k: string)
    requires !Mixed(u) && HasAncestorDenied(u, k)
    ensures !Grants(u, k)
  {
    ModeFlags(u);
    var d :| d in u && u[d] == Exclude && Below(k, d);
    assert Covers(d, k) && d in u.Keys;
  }

  lemma WritesFitIff(a: seq<Scope>, x: seq<Scope>)
    requires Within(a, x)
    ensures (forall path :: Writable(a, path) ==> Writable(x, path))
            <==> (UnionAllowedFields(x).Some? ==> UnionAllowedFields(a).Some?)
  {
    if UnionAllowedFields(x).Some? && UnionAllowedFields(a).None? {
      var path := UncoveredPath(UnionAllowedFields(x).value);
      assert Writable(a, path) && !Writable(x, path);
    } else if UnionAllowedFields(x).Some? {
      forall path | Writable(a, path) ensures Writable(x, path) {
        var k :| k in UnionAllowedFields(a).value && Covers(k, path);
        var i :| 0 <= i < |a| && a[i].allowedFields.Some? && k in a[i].allowedFields.value;
        assert a[i] in x;
        var j :| 0 <= j < |x| && x[j] == a[i];
        assert k in UnionAllowedFields(x).value;
      }
    }
  }

  /** Controls and nested writes always fit: silence and more values only add. */
  lemma ControlsFit(a: seq<Scope>, x: seq<Scope>, key: string, used: set<string>)
    requires a != [] && Within(a, x) && UnionControls(x).Returned? && ControlPermitted(a, key, used)
    ensures ControlPermitted(x, key, used)
  {
    FacetMembers(a, x);
    var pa, px := PolicyList(a), PolicyList(x);
    assert UnionControls(a) == UnionControlsPolicy(pa) && UnionControls(x) == UnionControlsPolicy(px);
    forall v | v in used ensures Permits(GateOf(UnionControlsPolicy(px).value, key), {v}) {
      UnionPermitsExactly(pa, key, v);
      UnionPermitsExactly(px, key, v);
      var p :| p in pa && ScopePermits(p, key, v);
    }
    if used == {} {
      NotAllDenied(pa, key);
      var p :| p in pa && (p.None? || !GateOf(p.value, key).Deny?);
      UsedByOne(px, p, key);
    } else {
      var v :| v in used;
    }
  }

  lemma UsedByOne(ps: seq<Option<Policy>>, p: Option<Policy>, key: string)
    requires p in ps && UnionControlsPolicy(ps).Returned? && (p.None? || !GateOf(p.value, key).Deny?)
    ensures Permits(GateOf(UnionControlsPolicy(ps).value, key), {})
  {
  }

  lemma NestedWritesFit(a: seq<Scope>, x: seq<Scope>)
    requires Within(a, x)
    ensures UnionNestedWrites(a) <= UnionNestedWrites(x)
  {
    forall rel | rel in UnionNestedWrites(a) ensures rel in UnionNestedWrites(x) {
      var i :| 0 <= i < |a| && rel in a[i].nestedWrites;
      assert a[i] in x;
    }
  }

  /**
   A valid bound: some path and some control are always permitted, so a valid list cannot stay
   within an invalid one.
   */
  lemma BoundIsValid(e: Extent, db: Db, a: seq<Scope>, x: seq<Scope>)
    requires a != [] && Bounded(e, db, a, x)
    ensures UnionControls(x).Returned? && (e.Values? ==> UnionProjection(x).Returned?)
  {
    if e.Values? {
      var f := GrantedPath(UnionProjection(a).value);
      assert PathGranted(a, f) ==> PathGranted(x, f);
    }
    var policy := UnionControls(a).value;
    var key := UncoveredPath(policy.Keys);
    assert key !in policy.Keys by {
      assert Covers(key, key);
    }
    assert ControlPermitted(a, key, {});
  }

  /** Every valid projection grants some path. */
  lemma GrantedPath(u: Projection) returns (f: string)
    requires !Mixed(u)
    ensures Grants(u, f)
  {
    if ModeOf(u) == Inclusion {
      f :| f in u.Keys;
      assert Covers(f, f);
    } else {
      f := UncoveredPath(u.Keys);
    }
  }

  // ── Every depth ────────────

  /** A part permits no more than the joint list, each facet at every depth, if and only if it fits. */
  lemma {:induction false} BoundedIffFits(e: Extent, db: Db, a: seq<Scope>, x: seq<Scope>)
    requires a != [] && Within(a, x) && Plain(x)
    ensures Bounded(e, db, a, x) <==> Fits(e, a, x)
    decreases Depth(x)
  {
    RowsFitIff(db, a, x);
    WritesFitIff(a, x);
    forall rel ensures RelationAttenuates(e, db, a, x, rel) && FacetsWithinAt(e, a, x, rel) <==> FitsAt(e, a, x, rel) {
      RelationFitsIff(e, db, a, x, rel);
    }
    if Bounded(e, db, a, x) {
      BoundIsValid(e, db, a, x);
      if e.Values? {
        PathsFitIff(a, x);
      }
      forall rel ensures FitsAt(e, a, x, rel) {
        assert RelationAttenuates(e, db, a, x, rel) && FacetsWithinAt(e, a, x, rel);
      }
    }
    if Fits(e, a, x) {
      if e.Values? {
        PathsFitIff(a, x);
      }
      FacetsFit(e, db, a, x);
      forall rel ensures RelationAttenuates(e, db, a, x, rel) && FacetsWithinAt(e, a, x, rel) {
        assert FitsAt(e, a, x, rel);
      }
      assert Attenuates(e, db, a, x);
      assert FacetsWithin(e, a, x);
    }
  }

  lemma FacetsFit(e: Extent, db: Db, a: seq<Scope>, x: seq<Scope>)
    requires a != [] && Within(a, x) && UnionControls(x).Returned?
    requires forall row :: RowVisible(db, a, row) ==> RowVisible(db, x, row)
    requires forall row :: CheckPasses(db, a, row) ==> CheckPasses(db, x, row)
    requires e.Values? ==> forall f :: PathGranted(a, f) ==> PathGranted(x, f)
    requires forall path :: Writable(a, path) ==> Writable(x, path)
    ensures Narrower(e, db, a, x)
  {
    forall key, used | ControlPermitted(a, key, used) ensures ControlPermitted(x, key, used) {
      ControlsFit(a, x, key, used);
    }
    NestedWritesFit(a, x);
  }

  lemma {:induction false} RelationFitsIff(e: Extent, db: Db, a: seq<Scope>, x: seq<Scope>, rel: string)
    requires a != [] && Within(a, x) && Plain(x)
    ensures RelationAttenuates(e, db, a, x, rel) && FacetsWithinAt(e, a, x, rel) <==> FitsAt(e, a, x, rel)
    decreases Depth(x), 0
  {
    WithScopesShallower(x, rel);
    WithWithin(a, x, rel);
    PlainSubScopes(x, rel);
    var da, dx := WithScopes(a, rel), WithScopes(x, rel);
    if da != [] {
      assert da[0] in da;
      BoundedIffFits(e, db, da, dx);
    }
  }
}
