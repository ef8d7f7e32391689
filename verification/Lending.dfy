/**
 An owner that lends a field: where the claimant's lists do not keep their values,
 two scopes that only project, one on each of two handlers, show through their
 composites a path the claimant's joint list hides.
 */
module Lending {
  import opened Options
  import opened DottedPaths
  import opened Projections
  import opened SchemaWalk
  import opened Intersections
  import opened Filters
  import opened Scopes
  import opened RestrictOnly
  import opened JoinedLists
  import opened Fitting
  import opened Handlers
  import opened KeptValues

  // ── Needed: an owner that lends a field ────────────

  function Showing(p: Projection): Scope {
    EMPTY_SCOPE.(projection := p)
  }

  lemma ShowingUnfiltered(p: Projection)
    requires !Mixed(p)
    ensures UnionFilter([Showing(p)]) == None && UnionProjection([Showing(p)]) == Returned(p)
  {
    assert FilterList([Showing(p)]) == [UNRESTRICTED];
    assert UNRESTRICTED in [UNRESTRICTED];
    OneScopeProjection(Showing(p));
  }

  /** An owner scope that only projects, in its relations too. */
  ghost predicate ProjectsOnly(o: Scope)
    decreases o
  {
    && !Mixed(o.projection) && o == EMPTY_SCOPE.(projection := o.projection, withs := o.withs)
    && forall rel :: rel in o.withs ==> ProjectsOnly(o.withs[rel])
  }

  /** The list can be conjoined with every such owner's. */
  ghost predicate Projectable(b: seq<Scope>, opts: ConjoinOptions) {
    forall o :: ProjectsOnly(o) ==> ConjoinScopes([o], b, opts).Returned?
  }

  /** Every key of the list's projections. */
  function ProjectionKeys(ss: seq<Scope>): set<string> {
    KeysFlagged(ProjectionList(ss), Include) + KeysFlagged(ProjectionList(ss), Exclude)
  }

  lemma UnionKeys(ss: seq<Scope>)
    requires UnionProjection(ss).Returned?
    ensures UnionProjection(ss).value.Keys <= ProjectionKeys(ss)
  {
    assert UnionProjection(ss) == UnionProjections(ProjectionList(ss));
  }

  /** A path the joint list hides, longer than every key. */
  lemma HiddenPath(x: seq<Scope>) returns (f: string)
    requires UnionProjection(x).Returned? && UnionProjection(x).value != map[]
    ensures !PathGranted(x, f) && forall k :: k in ProjectionKeys(x) ==> |k| < |f|
  {
    var u := UnionProjection(x).value;
    UnionKeys(x);
    var q := UncoveredPath(ProjectionKeys(x));
    if ModeOf(u) == Inclusion {
      f := q;
    } else {
      var d :| d in u.Keys;
      f := d + "." + q;
      assert d + "." <= f;
      assert Covers(d, f);
    }
  }

  /** Such a path meets nothing of a part of the joint list. */
  lemma HiddenMeetsNothing(b: Projection, f: string, schema: Schema)
    requires !Mixed(b) && !Grants(b, f) && forall k :: k in b.Keys ==> |k| < |f|
    ensures Intersection(map[f := Include], b, schema) == None
  {
    var a := map[f := Include];
    SingleKey(a, f, f);
    if ModeOf(b) == Inclusion {
      assert CommonIncluded({f}, b.Keys) == {};
    } else {
      assert Walked(schema, SubtractExcluded(b.Keys), f, 0) == {};
      assert WalkedFrom(schema, SubtractExcluded(b.Keys), {f}) == {};
    }
    assert a.Keys == {f} && AllOf({}, Include) == map[];
  }

  /** Some path meets every valid projection in an inclusion. */
  lemma MeetingPath(b: Projection, schema: Schema) returns (g: string)
    requires !Mixed(b)
    ensures var i := Intersection(map[g := Include], b, schema);
            i.Some? && !Mixed(i.value) && ModeOf(i.value) == Inclusion
  {
    if ModeOf(b) == Inclusion {
      g :| g in b.Keys;
      assert Covers(g, g);
      assert g in CommonIncluded({g}, b.Keys);
    } else {
      g := UncoveredPath(b.Keys);
      assert !HasDescendant(b.Keys, g);
      assert g in Walked(schema, SubtractExcluded(b.Keys), g, 0);
      assert g in WalkedFrom(schema, SubtractExcluded(b.Keys), {g});
    }
    SingleKey(map[g := Include], g, g);
    assert map[g := Include].Keys == {g};
  }

  predicate Twins(s: Scope, t: Scope) {
    s == t.(inherited := s.inherited)
  }

  /** The two scopes in some order, up to the mark. */
  predicate Pair(n: seq<Scope>, c: Scope, d: Scope) {
    |n| == 2 && ((Twins(n[0], c) && Twins(n[1], d)) || (Twins(n[0], d) && Twins(n[1], c)))
  }

  /** A composite that hides: the owner's field alone, and no row. */
  lemma HidingComposite(b: seq<Scope>, f: string, opts: ConjoinOptions) returns (c: Scope)
    requires ConjoinScopes([Showing(map[f := Include])], b, opts).Returned?
    requires Intersection(map[f := Include], UnionProjection(b).value, opts.schema) == None
    ensures ConjoinScopes([Showing(map[f := Include])], b, opts) == Returned(c)
    ensures c.projection == map[f := Include]
    ensures c.filter.Some? && |c.filter.value.entries| == 1 && !c.filter.value.entries[0].FieldIs?
  {
    SingleKey(map[f := Include], f, f);
    ShowingUnfiltered(map[f := Include]);
    c := ConjoinScopes([Showing(map[f := Include])], b, opts).value;
  }

  /** One that shows: an inclusion, on every row of the claimant's list. */
  lemma ShowingComposite(db: Db, b: seq<Scope>, g: string, opts: ConjoinOptions, row: Value) returns (c: Scope)
    requires ConjoinScopes([Showing(map[g := Include])], b, opts).Returned? && RowVisible(db, b, row)
    requires Intersection(map[g := Include], UnionProjection(b).value, opts.schema).Some?
    ensures ConjoinScopes([Showing(map[g := Include])], b, opts) == Returned(c)
    ensures Some(c.projection) == Intersection(map[g := Include], UnionProjection(b).value, opts.schema)
    ensures RowVisible(db, [c], row)
  {
    SingleKey(map[g := Include], g, g);
    ShowingUnfiltered(map[g := Include]);
    c := ConjoinScopes([Showing(map[g := Include])], b, opts).value;
    CompositeRowsExact(db, [Showing(map[g := Include])], b, opts, row);
  }

  /** Served together they show the hidden field on those rows. */
  lemma PairExposes(db: Db, n: seq<Scope>, c: Scope, d: Scope, f: string, row: Value)
    requires Pair(n, c, d) && c.projection == map[f := Include]
    requires c.filter.Some? && |c.filter.value.entries| == 1 && !c.filter.value.entries[0].FieldIs?
    requires !Mixed(d.projection) && ModeOf(d.projection) == Inclusion && RowVisible(db, [d], row)
    ensures Exposes(db, n, row, f)
  {
    PairShowsRow(db, n, c, d, row);
    PairGrants(n, c, d, f);
  }

  lemma PairShowsRow(db: Db, n: seq<Scope>, c: Scope, d: Scope, row: Value)
    requires Pair(n, c, d) && RowVisible(db, [d], row)
    requires c.filter.Some? && |c.filter.value.entries| == 1 && !c.filter.value.entries[0].FieldIs?
    ensures RowVisible(db, n, row)
  {
    var fs, one := FilterList(n), FilterList([d]);
    PairFilters(n, c, d);
    assert one == [d.filter.Or(UNRESTRICTED)];
    MergeMonotone(db, one, fs, row);
  }

  lemma PairFilters(n: seq<Scope>, c: Scope, d: Scope)
    requires Pair(n, c, d)
    ensures c.filter.Or(UNRESTRICTED) in FilterList(n) && d.filter.Or(UNRESTRICTED) in FilterList(n)
  {
    var fs := FilterList(n);
    assert fs[0] == n[0].filter.Or(UNRESTRICTED) && fs[1] == n[1].filter.Or(UNRESTRICTED);
  }

  lemma PairGrants(n: seq<Scope>, c: Scope, d: Scope, f: string)
    requires Pair(n, c, d) && c.projection == map[f := Include]
    requires !Mixed(d.projection) && ModeOf(d.projection) == Inclusion
    ensures PathGranted(n, f)
  {
    var ps := ProjectionList(n);
    assert UnionProjection(n) == UnionProjections(ps);
    assert ps[0] == n[0].projection && ps[1] == n[1].projection;
    InclusionsGrant(ps, c.projection, d.projection, f);
  }

  lemma InclusionsGrant(ps: seq<Projection>, p: Projection, q: Projection, f: string)
    requires p == map[f := Include] && !Mixed(q) && ModeOf(q) == Inclusion
    requires |ps| == 2 && ((ps[0] == p && ps[1] == q) || (ps[0] == q && ps[1] == p))
    ensures UnionProjections(ps).Returned? && Grants(UnionOf(ps), f)
  {
    SingleKey(p, f, f);
    assert forall r :: r in ps ==> r == p || r == q;
    assert p in ps && map[] !in ps;
    assert f in KeysFlagged(ps, Include) && Covers(f, f);
  }

  /** A handler's list as part of the joint one, open to every owner that only projects. */
  ghost predicate PartOf(b: seq<Scope>, opts: ConjoinOptions, x: seq<Scope>) {
    b != [] && Within(b, x) && Fits(Values, b, x) && Projectable(b, opts) && Descending(opts.schema)
  }

  ghost predicate AreParts(lists: seq<Grant>, opts: seq<ConjoinOptions>, x: seq<Scope>) {
    && |lists| == |opts|
    && forall k :: 0 <= k < |lists| && lists[k].Some? ==> PartOf(lists[k].value, opts[k], x)
  }

  /** The composites of two handlers for these owners, served together, show more than the joint list. */
  ghost predicate Lent(db: Db, x: seq<Scope>, a: Scope, b: seq<Scope>, aOpts: ConjoinOptions, c: Scope, d: seq<Scope>,
                       cOpts: ConjoinOptions) {
    && ConjoinScopes([a], b, aOpts).Returned? && ConjoinScopes([c], d, cOpts).Returned?
    && forall n :: Pair(n, ConjoinScopes([a], b, aOpts).value, ConjoinScopes([c], d, cOpts).value)
         ==> !Attenuates(Values, db, n, x)
  }

  /** The level itself: one handler hides a field the joint list denies, the other admits a row. */
  lemma LendsHere(db: Db, x: seq<Scope>, b: seq<Scope>, bOpts: ConjoinOptions, d: seq<Scope>, dOpts: ConjoinOptions,
                  row: Value)
    returns (oi: Scope, oj: Scope)
    requires PartOf(b, bOpts, x) && PartOf(d, dOpts, x) && RowVisible(db, d, row)
    requires UnionProjection(x).Returned? && UnionProjection(x).value != map[]
    ensures ProjectsOnly(oi) && ProjectsOnly(oj) && Lent(db, x, oi, b, bOpts, oj, d, dOpts)
  {
    var f := HiddenPath(x);
    var g := MeetingPath(UnionProjection(d).value, dOpts.schema);
    PartHides(b, x, f);
    HiddenMeetsNothing(UnionProjection(b).value, f, bOpts.schema);
    oi, oj := Showing(map[f := Include]), Showing(map[g := Include]);
    SingleKey(oi.projection, f, f);
    SingleKey(oj.projection, g, g);
    assert ProjectsOnly(oi) && ProjectsOnly(oj);
    var c := HidingComposite(b, f, bOpts);
    var e := ShowingComposite(db, d, g, dOpts, row);
    forall n | Pair(n, c, e) ensures !Attenuates(Values, db, n, x) {
      PairExposes(db, n, c, e, f, row);
      assert !Exposes(db, x, row, f);
    }
  }

  lemma PartHides(b: seq<Scope>, x: seq<Scope>, f: string)
    requires b != [] && Within(b, x) && Fits(Values, b, x) && !PathGranted(x, f)
    requires forall k :: k in ProjectionKeys(x) ==> |k| < |f|
    ensures UnionProjection(b).Returned? && !Grants(UnionProjection(b).value, f)
    ensures forall k :: k in UnionProjection(b).value.Keys ==> |k| < |f|
  {
    PathsFitIff(b, x);
    assert !PathGranted(b, f);
    UnionKeys(b);
    FacetMembers(b, x);
    assert ProjectionKeys(b) <= ProjectionKeys(x);
  }

  function Wrapped(rel: string, o: Scope): Scope {
    EMPTY_SCOPE.(withs := map[rel := o])
  }

  lemma WrappedProjects(rel: string, o: Scope)
    requires ProjectsOnly(o)
    ensures ProjectsOnly(Wrapped(rel, o)) && WithScopes([Wrapped(rel, o)], rel) == [o]
  {
    OneScopeWith(Wrapped(rel, o), rel);
  }

  lemma PartsBelow(lists: seq<Grant>, opts: seq<ConjoinOptions>, x: seq<Scope>, rel: string)
    requires AreParts(lists, opts, x) && WithScopes(x, rel) != []
    ensures AreParts(SubLists(lists, rel), SubOptions(opts), WithScopes(x, rel))
  {
    forall k | 0 <= k < |lists| && lists[k].Some?
      ensures PartOf(WithScopes(lists[k].value, rel), SubOptions(opts)[k], WithScopes(x, rel)) {
      PartBelow(lists[k].value, opts[k], x, rel);
    }
  }

  lemma PartBelow(b: seq<Scope>, opts: ConjoinOptions, x: seq<Scope>, rel: string)
    requires PartOf(b, opts, x) && WithScopes(x, rel) != []
    ensures PartOf(WithScopes(b, rel), ConjoinOptions(NoSchema, None, opts.fields), WithScopes(x, rel))
  {
    assert FitsAt(Values, b, x, rel);
    WithWithin(b, x, rel);
    forall o | ProjectsOnly(o)
      ensures ConjoinScopes([o], WithScopes(b, rel), ConjoinOptions(NoSchema, None, opts.fields)).Returned? {
      WrappedProjects(rel, o);
      CompositeSub([Wrapped(rel, o)], b, opts, rel);
    }
  }

  /** What is lent below a relation is lent by owners that declare it. */
  lemma LentAbove(db: Db, x: seq<Scope>, a: Scope, b: seq<Scope>, aOpts: ConjoinOptions, c: Scope, d: seq<Scope>,
                  cOpts: ConjoinOptions, rel: string)
    requires PartOf(b, aOpts, x) && PartOf(d, cOpts, x) && ProjectsOnly(a) && ProjectsOnly(c)
    requires WithScopes(x, rel) != []
    requires Lent(db, WithScopes(x, rel), a, WithScopes(b, rel), ConjoinOptions(NoSchema, None, aOpts.fields),
                  c, WithScopes(d, rel), ConjoinOptions(NoSchema, None, cOpts.fields))
    ensures Lent(db, x, Wrapped(rel, a), b, aOpts, Wrapped(rel, c), d, cOpts)
  {
    WrappedProjects(rel, a);
    WrappedProjects(rel, c);
    CompositeSub([Wrapped(rel, a)], b, aOpts, rel);
    CompositeSub([Wrapped(rel, c)], d, cOpts, rel);
    var p, q := ConjoinScopes([Wrapped(rel, a)], b, aOpts).value, ConjoinScopes([Wrapped(rel, c)], d, cOpts).value;
    var sp := ConjoinScopes([a], WithScopes(b, rel), ConjoinOptions(NoSchema, None, aOpts.fields)).value;
    var sq := ConjoinScopes([c], WithScopes(d, rel), ConjoinOptions(NoSchema, None, cOpts.fields)).value;
    forall n | Pair(n, p, q) ensures !Attenuates(Values, db, n, x) {
      PairBelow(n, p, q, sp, sq, rel);
      assert RelationAttenuates(Values, db, n, x, rel) ==>
        Attenuates(Values, db, WithScopes(n, rel), WithScopes(x, rel));
    }
  }

  lemma PairBelow(n: seq<Scope>, p: Scope, q: Scope, sp: Scope, sq: Scope, rel: string)
    requires Pair(n, p, q)
    requires |WithScopes([p], rel)| == 1 && Twins(WithScopes([p], rel)[0], sp)
    requires |WithScopes([q], rel)| == 1 && Twins(WithScopes([q], rel)[0], sq)
    ensures Pair(WithScopes(n, rel), sp, sq)
  {
    assert n == [n[0]] + [n[1]];
    WithScopesAppend([n[0]], [n[1]], rel);
    if Twins(n[0], p) && Twins(n[1], q) {
      TwinBelow(n[0], p, sp, rel);
      TwinBelow(n[1], q, sq, rel);
    } else {
      TwinBelow(n[0], q, sq, rel);
      TwinBelow(n[1], p, sp, rel);
    }
  }

  lemma TwinBelow(s: Scope, t: Scope, sub: Scope, rel: string)
    requires Twins(s, t) && |WithScopes([t], rel)| == 1 && Twins(WithScopes([t], rel)[0], sub)
    ensures |WithScopes([s], rel)| == 1 && Twins(WithScopes([s], rel)[0], sub)
  {
    OneScopeWith(s, rel);
    OneScopeWith(t, rel);
  }

  /** Where the condition fails, two handlers lend: for these owners more is shown than the joint list shows. */
  lemma {:induction false} Lends(db: Db, lists: seq<Grant>, opts: seq<ConjoinOptions>, x: seq<Scope>)
    returns (i: nat, j: nat, oi: Scope, oj: Scope)
    requires AreParts(lists, opts, x) && !ValuesKept(db, lists, x)
    ensures i < |lists| && j < |lists| && i != j && lists[i].Some? && lists[j].Some?
    ensures ProjectsOnly(oi) && ProjectsOnly(oj)
    ensures Lent(db, x, oi, lists[i].value, opts[i], oj, lists[j].value, opts[j])
    decreases Depth(x)
  {
    if LevelKept(db, lists, x) {
      var rel :| !ValuesKeptAt(db, lists, x, rel);
      WithScopesShallower(x, rel);
      PartsBelow(lists, opts, x, rel);
      i, j, oi, oj := Lends(db, SubLists(lists, rel), SubOptions(opts), WithScopes(x, rel));
      LentAbove(db, x, oi, lists[i].value, opts[i], oj, lists[j].value, opts[j], rel);
      WrappedProjects(rel, oi);
      WrappedProjects(rel, oj);
      oi, oj := Wrapped(rel, oi), Wrapped(rel, oj);
    } else {
      j :| 0 <= j < |lists| && lists[j].Some? && !AdmitsNone(db, lists[j].value);
      var row :| RowVisible(db, lists[j].value, row);
      i := AnotherHandler(lists, j);
      assert PartOf(lists[i].value, opts[i], x) && PartOf(lists[j].value, opts[j], x);
      oi, oj := LendsHere(db, x, lists[i].value, opts[i], lists[j].value, opts[j], row);
    }
  }

  lemma AnotherHandler(lists: seq<Grant>, j: nat) returns (i: nat)
    requires !Alone(lists) && j < |lists|
    ensures i < |lists| && i != j && lists[i].Some?
  {
    var k, l :| 0 <= k < |lists| && 0 <= l < |lists| && lists[k].Some? && lists[l].Some? && k != l;
    i := if k == j then l else k;
  }
}
