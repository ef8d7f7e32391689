/**
 Lists of scopes served as one: what a joined list permits against what each
 part permits by itself. A joint union is a least upper bound of its scopes, but
 it may permit less than one part alone; `Fits` says exactly when it does not.
 */
module JoinedLists {
  import opened Options
  import opened DottedPaths
  import opened Projections
  import opened Filters
  import opened Controls
  import opened Scopes
  import opened RestrictOnly

  // ── One list against a bound, facet by facet ────────────

  /**
   Facets that hold whatever the rows, here and through every relation `x`
   declares: `n` has valid controls and, where values are compared, grants no
   path that `x` does not grant.
   */
  ghost predicate FacetsWithin(e: Extent, n: seq<Scope>, x: seq<Scope>)
    decreases Depth(x)
  {
    && UnionControls(n).Returned?
    && (e.Values? ==> UnionProjection(n).Returned? && forall f :: PathGranted(n, f) ==> PathGranted(x, f))
    && forall rel :: FacetsWithinAt(e, n, x, rel)
  }

  ghost predicate FacetsWithinAt(e: Extent, n: seq<Scope>, x: seq<Scope>, rel: string)
    decreases Depth(x), 0
  {
    WithScopesShallower(x, rel);
    WithScopes(x, rel) != [] ==> FacetsWithin(e, WithScopes(n, rel), WithScopes(x, rel))
  }

  /** `n` permits no more than `x`, each facet by itself. */
  ghost predicate Bounded(e: Extent, db: Db, n: seq<Scope>, x: seq<Scope>) {
    Attenuates(e, db, n, x) && FacetsWithin(e, n, x)
  }

  lemma {:induction false} FacetsWithinTransitive(e: Extent, db: Db, n: seq<Scope>, m: seq<Scope>, x: seq<Scope>)
    requires FacetsWithin(e, n, m) && Bounded(e, db, m, x)
    ensures FacetsWithin(e, n, x)
    decreases Depth(x)
  {
    forall rel ensures FacetsWithinAt(e, n, x, rel) {
      assert FacetsWithinAt(e, n, m, rel) && FacetsWithinAt(e, m, x, rel) && RelationAttenuates(e, db, m, x, rel);
      WithScopesShallower(x, rel);
      if WithScopes(x, rel) != [] {
        FacetsWithinTransitive(e, db, WithScopes(n, rel), WithScopes(m, rel), WithScopes(x, rel));
      }
    }
  }

  lemma BoundedTransitive(e: Extent, db: Db, n: seq<Scope>, m: seq<Scope>, x: seq<Scope>)
    requires Bounded(e, db, n, m) && Bounded(e, db, m, x)
    ensures Bounded(e, db, n, x)
  {
    AttenuatesTransitive(e, db, n, m, x);
    FacetsWithinTransitive(e, db, n, m, x);
  }

  // ── The members of the union facets ────────────

  function ProjectionList(ss: seq<Scope>): seq<Projection> {
    seq(|ss|, i requires 0 <= i < |ss| => ss[i].projection)
  }

  function PolicyList(ss: seq<Scope>): seq<Option<Policy>> {
    seq(|ss|, i requires 0 <= i < |ss| => ss[i].controls)
  }

  /** `a` lists only scopes of `x`. */
  predicate Within(a: seq<Scope>, x: seq<Scope>) {
    forall s :: s in a ==> s in x
  }

  lemma FacetMembers(a: seq<Scope>, x: seq<Scope>)
    requires Within(a, x)
    ensures forall f :: f in FilterList(a) ==> f in FilterList(x)
    ensures forall f :: f in CheckList(a) ==> f in CheckList(x)
    ensures forall p :: p in ProjectionList(a) ==> p in ProjectionList(x)
    ensures forall p :: p in PolicyList(a) ==> p in PolicyList(x)
  {
    forall i | 0 <= i < |a|
      ensures FilterList(a)[i] in FilterList(x) && CheckList(a)[i] in CheckList(x)
      ensures ProjectionList(a)[i] in ProjectionList(x) && PolicyList(a)[i] in PolicyList(x) {
      assert a[i] in x;
      var j :| 0 <= j < |x| && x[j] == a[i];
      assert FilterList(x)[j] == FilterList(a)[i] && CheckList(x)[j] == CheckList(a)[i];
      assert ProjectionList(x)[j] == ProjectionList(a)[i] && PolicyList(x)[j] == PolicyList(a)[i];
    }
  }

  lemma {:induction false} WithMembers(ss: seq<Scope>, rel: string, d: Scope)
    ensures d in WithScopes(ss, rel) <==> exists s :: s in ss && rel in s.withs && s.withs[rel] == d
  {
    if ss != [] {
      var init, last := ss[..|ss| - 1], ss[|ss| - 1];
      WithMembers(init, rel, d);
      assert ss == init + [last];
    }
  }

  lemma WithWithin(a: seq<Scope>, x: seq<Scope>, rel: string)
    requires Within(a, x)
    ensures Within(WithScopes(a, rel), WithScopes(x, rel))
  {
    forall d | d in WithScopes(a, rel) ensures d in WithScopes(x, rel) {
      WithMembers(a, rel, d);
      WithMembers(x, rel, d);
    }
  }

  /** The check union is the union of the effective checks, explicit or not. */
  lemma CheckIsMerged(ss: seq<Scope>)
    ensures UnionCheck(ss) == MergeScopeFilters(CheckList(ss))
  {
    if !HasExplicitCheck(ss) {
      assert CheckList(ss) == FilterList(ss);
    }
  }

  // ── A list of scopes that each stay within a bound ────────────

  lemma SomeScopeShows(db: Db, ss: seq<Scope>, row: Value) returns (s: Scope)
    requires ss != [] && RowVisible(db, ss, row)
    ensures s in ss && RowVisible(db, [s], row)
  {
    MergeNeverWidens(db, FilterList(ss), row);
    var f :| f in FilterList(ss) && Sat(db, f, row);
    var i :| 0 <= i < |ss| && FilterList(ss)[i] == f;
    s := ss[i];
    assert FilterList([s]) == [f];
    OneFilterAdmits(db, f, row);
  }

  lemma SomeScopeChecks(db: Db, ss: seq<Scope>, row: Value) returns (s: Scope)
    requires ss != [] && CheckPasses(db, ss, row)
    ensures s in ss && CheckPasses(db, [s], row)
  {
    CheckIsMerged(ss);
    MergeNeverWidens(db, CheckList(ss), row);
    var f :| f in CheckList(ss) && Sat(db, f, row);
    var i :| 0 <= i < |ss| && CheckList(ss)[i] == f;
    s := ss[i];
    CheckIsMerged([s]);
    assert CheckList([s]) == [f];
    OneFilterAdmits(db, f, row);
  }

  lemma OneFilterAdmits(db: Db, f: Filter, row: Value)
    requires Sat(db, f, row)
    ensures Admits(db, MergeScopeFilters([f]), row)
  {
  }

  lemma SomeScopeGrants(ss: seq<Scope>, f: string) returns (s: Scope)
    requires ss != [] && PathGranted(ss, f)
    ensures s in ss && PathGranted([s], f)
  {
    var ps := ProjectionList(ss);
    UnionNeverWidens(ps, f);
    var p :| p in ps && Grants(p, f);
    var i :| 0 <= i < |ss| && ps[i] == p;
    s := ss[i];
    assert !Mixed(s.projection);
    OneScopeProjection(s);
  }

  lemma SomeScopePermits(ss: seq<Scope>, key: string, v: string) returns (s: Scope)
    requires ss != [] && (forall t :: t in ss ==> UnionControls([t]).Returned?)
    requires ControlPermitted(ss, key, {v})
    ensures s in ss && ControlPermitted([s], key, {v})
  {
    UnionPermitsExactly(PolicyList(ss), key, v);
    var p :| p in PolicyList(ss) && ScopePermits(p, key, v);
    var i :| 0 <= i < |ss| && PolicyList(ss)[i] == p;
    s := ss[i];
    assert PolicyList([s]) == [p];
    UnionPermitsExactly([p], key, v);
  }

  /** Valid one by one, valid together. */
  lemma ProjectionsReturn(ss: seq<Scope>)
    requires forall s :: s in ss ==> UnionProjection([s]).Returned?
    ensures UnionProjection(ss).Returned?
  {
    forall p | p in ProjectionList(ss) ensures !Mixed(p) {
      var i :| 0 <= i < |ss| && ProjectionList(ss)[i] == p;
      assert ss[i] in ss;
      assert ProjectionList([ss[i]])[0] == p;
      assert p in ProjectionList([ss[i]]);
    }
    assert UnionProjection(ss) == UnionProjections(ProjectionList(ss));
  }

  lemma ControlsReturn(ss: seq<Scope>)
    requires forall s :: s in ss ==> UnionControls([s]).Returned?
    ensures UnionControls(ss).Returned?
  {
    var ps := PolicyList(ss);
    if ps != [] && None !in ps {
      forall k | k in MentionedKeys(ps) ensures !BadWhitelist(ps, k) {
        forall i | 0 <= i < |ps| && IsWhitelist(ps[i], k) ensures k in WHITELISTABLE_CONTROLS {
          OneWhitelistSupported(ss[i], k);
        }
      }
    }
  }

  lemma OneWhitelistSupported(s: Scope, k: string)
    requires UnionControls([s]).Returned? && IsWhitelist(s.controls, k)
    ensures k in WHITELISTABLE_CONTROLS
  {
    var ps := PolicyList([s]);
    assert ps == [s.controls] && ps[0] in ps;
    assert k !in WHITELISTABLE_CONTROLS ==> BadWhitelist(ps, k);
  }

  /** A path that no finite whitelist covers. */
  lemma {:induction false} UncoveredPath(fields: set<string>) returns (p: string)
    ensures !CoveredBy(fields, p) && '.' !in p
    ensures forall k :: k in fields ==> |k| < |p|
    decreases |fields|
  {
    if fields == {} {
      p := "a";
    } else {
      var k :| k in fields;
      var q := UncoveredPath(fields - {k});
      p := Filler(if |q| > |k| then |q| else |k| + 1);
    }
    forall k | k in fields ensures !Covers(k, p) {
      BelowIsDotPrefix(p, k);
    }
  }

  function Filler(n: nat): (s: string)
    ensures |s| == n && '.' !in s
  {
    if n == 0 then "" else "a" + Filler(n - 1)
  }

  lemma WritesStay(ss: seq<Scope>, x: seq<Scope>, path: string)
    requires ss != [] && forall s, p :: s in ss && Writable([s], p) ==> Writable(x, p)
    requires Writable(ss, path)
    ensures Writable(x, path)
  {
    if UnionAllowedFields(x).Some? {
      var fresh' := UncoveredPath(UnionAllowedFields(x).value);
      forall s | s in ss ensures s.allowedFields.Some? {
        OneScopeWrites(s);
        assert Writable([s], fresh') ==> Writable(x, fresh');
      }
      assert ss[0] in ss;
      var k :| k in UnionAllowedFields(ss).value && Covers(k, path);
      var i :| 0 <= i < |ss| && k in ss[i].allowedFields.value;
      OneScopeWrites(ss[i]);
      assert ss[i] in ss && Writable([ss[i]], path);
    }
  }

  lemma ControlsStay(ss: seq<Scope>, x: seq<Scope>, key: string, used: set<string>)
    requires ss != [] && forall s :: s in ss ==> UnionControls([s]).Returned?
    requires forall s, u :: s in ss && ControlPermitted([s], key, u) ==> ControlPermitted(x, key, u)
    requires ControlPermitted(ss, key, used)
    ensures ControlPermitted(x, key, used)
  {
    if used == {} {
      var s := SomeScopeUses(ss, key);
      assert ControlPermitted([s], key, {});
    } else {
      forall v | v in used ensures ControlPermitted(x, key, {v}) {
        var s := SomeScopePermits(ss, key, v);
      }
      var v :| v in used;
      assert ControlPermitted(x, key, {v});
    }
  }

  /** A control permitted at all is permitted by some scope. */
  lemma SomeScopeUses(ss: seq<Scope>, key: string) returns (s: Scope)
    requires ss != [] && (forall t :: t in ss ==> UnionControls([t]).Returned?)
    requires ControlPermitted(ss, key, {})
    ensures s in ss && ControlPermitted([s], key, {})
  {
    var ps := PolicyList(ss);
    NotAllDenied(ps, key);
    var p :| p in ps && (p.None? || !GateOf(p.value, key).Deny?);
    var i :| 0 <= i < |ss| && ps[i] == p;
    s := ss[i];
    assert PolicyList([s]) == [s.controls];
    OneGate(s.controls, key);
  }

  lemma NotAllDenied(ps: seq<Option<Policy>>, key: string)
    requires ps != [] && UnionControlsPolicy(ps).Returned?
    requires Permits(GateOf(UnionControlsPolicy(ps).value, key), {})
    ensures exists p :: p in ps && (p.None? || !GateOf(p.value, key).Deny?)
  {
    if None !in ps && key !in MentionedKeys(ps) {
      assert ps[0] in ps;
      assert key !in ps[0].value;
    }
  }

  lemma OneGate(p: Option<Policy>, key: string)
    requires UnionControlsPolicy([p]).Returned? && (p.None? || !GateOf(p.value, key).Deny?)
    ensures Permits(GateOf(UnionControlsPolicy([p]).value, key), {})
  {
    assert forall q :: q in [p] ==> q == p;
    assert p in [p];
  }

  /** One level: if every scope of the list stays within the bound, so does the list. */
  lemma ListNarrower(e: Extent, db: Db, ss: seq<Scope>, x: seq<Scope>)
    requires ss != [] && forall s :: s in ss ==> Bounded(e, db, [s], x)
    ensures Narrower(e, db, ss, x)
    ensures e.Values? ==> forall f :: PathGranted(ss, f) ==> PathGranted(x, f)
  {
    forall s | s in ss ensures Narrower(e, db, [s], x) && UnionControls([s]).Returned? {
      assert Bounded(e, db, [s], x);
    }
    forall row | RowVisible(db, ss, row) ensures RowVisible(db, x, row) {
      var s := SomeScopeShows(db, ss, row);
    }
    forall row | CheckPasses(db, ss, row) ensures CheckPasses(db, x, row) {
      var s := SomeScopeChecks(db, ss, row);
    }
    forall f | e.Values? && PathGranted(ss, f) ensures PathGranted(x, f) {
      var s := SomeScopeGrants(ss, f);
      assert Bounded(e, db, [s], x);
    }
    forall key, used | ControlPermitted(ss, key, used) ensures ControlPermitted(x, key, used) {
      ControlsStay(ss, x, key, used);
    }
    forall path | Writable(ss, path) ensures Writable(x, path) {
      WritesStay(ss, x, path);
    }
    forall rel | rel in UnionNestedWrites(ss) ensures rel in UnionNestedWrites(x) {
      var i :| 0 <= i < |ss| && rel in ss[i].nestedWrites;
      OneScopeWrites(ss[i]);
      assert Narrower(e, db, [ss[i]], x);
    }
  }

  /** A list whose scopes each stay within a bound stays within it, at every depth. */
  lemma {:induction false} ListBounded(e: Extent, db: Db, ss: seq<Scope>, x: seq<Scope>)
    requires ss != [] && forall s :: s in ss ==> Bounded(e, db, [s], x)
    ensures Bounded(e, db, ss, x)
    decreases Depth(x)
  {
    ListNarrower(e, db, ss, x);
    forall s | s in ss
      ensures (e.Values? ==> UnionProjection([s]).Returned?) && UnionControls([s]).Returned? {
      assert Bounded(e, db, [s], x);
    }
    ControlsReturn(ss);
    if e.Values? {
      ProjectionsReturn(ss);
    }
    forall rel ensures RelationAttenuates(e, db, ss, x, rel) && FacetsWithinAt(e, ss, x, rel) {
      RelationBounded(e, db, ss, x, rel);
    }
  }

  lemma {:induction false} RelationBounded(e: Extent, db: Db, ss: seq<Scope>, x: seq<Scope>, rel: string)
    requires ss != [] && forall s :: s in ss ==> Bounded(e, db, [s], x)
    ensures RelationAttenuates(e, db, ss, x, rel) && FacetsWithinAt(e, ss, x, rel)
    decreases Depth(x), 0
  {
    WithScopesShallower(x, rel);
    var ds, dx := WithScopes(ss, rel), WithScopes(x, rel);
    if dx != [] {
      forall d | d in ds ensures Bounded(e, db, [d], dx) {
        WithMembers(ss, rel, d);
        var s :| s in ss && rel in s.withs && s.withs[rel] == d;
        OneRelationBounded(e, db, s, x, rel);
      }
      assert ss[0] in ss;
      OneRelationBounded(e, db, ss[0], x, rel);
      WithMembers(ss, rel, ss[0].withs[rel]);
      ListBounded(e, db, ds, dx);
    }
    if ds != [] && !Inherits(ds) {
      assert ds[0] in ds;
      WithMembers(ss, rel, ds[0]);
      var s :| s in ss && rel in s.withs && s.withs[rel] == ds[0];
      OneRelationBounded(e, db, s, x, rel);
    }
  }

  lemma OneRelationBounded(e: Extent, db: Db, s: Scope, x: seq<Scope>, rel: string)
    requires Bounded(e, db, [s], x)
    ensures WithScopes(x, rel) != [] ==> rel in s.withs && Bounded(e, db, [s.withs[rel]], WithScopes(x, rel))
    ensures rel in s.withs && !s.withs[rel].inherited ==> WithScopes(x, rel) != [] && !Inherits(WithScopes(x, rel))
  {
    assert RelationAttenuates(e, db, [s], x, rel) && FacetsWithinAt(e, [s], x, rel);
    OneScopeWith(s, rel);
  }
}
