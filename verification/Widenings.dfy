/**
 How a table with several handlers can show an attenuated caller more than its
 owner: the credential is denied the handler whose presence restricts the joint
 grant. And how a handler whose conjunction leaves no field leaks the owner's.
 */
module Widenings {
  import opened Options
  import opened DottedPaths
  import opened Projections
  import opened SchemaWalk
  import opened Intersections
  import opened Filters
  import opened Controls
  import opened Scopes
  import opened JoinedLists
  import opened RestrictOnly
  import opened Fitting
  import opened Handlers
  import opened Lending
  import opened Relations

  // ── A relation of a table with several handlers ────────────

  /**
   An undeclared relation to a table on which the owner has these lists, for the
   owner and for a credential that may use handler `i` alone.
   */
  ghost predicate ReachesHandlers(both: World, own: World, user: seq<Grant>, opts: seq<ConjoinOptions>, i: nat,
                                  t: string)
    requires |user| == |opts| && i < |user|
  {
    && both.outcomes(t) == AttenuatedEach(user, OnlyHandler(|user|, i), opts)
    && own.outcomes(t) == seq(|user|, j requires 0 <= j < |user| => Returned(user[j]))
  }

  ghost predicate Undeclared(both: World, own: World, n: seq<Scope>, x: seq<Scope>, table: Option<string>, rel: string,
                             t: string) {
    && WithScopes(n, rel) == [] && WithScopes(x, rel) == []
    && Target(both, table, rel) == Some(t) && Target(own, table, rel) == Some(t)
  }

  lemma ResolvedHandlers(both: World, own: World, user: seq<Grant>, opts: seq<ConjoinOptions>, i: nat,
                         n: seq<Scope>, x: seq<Scope>, table: Option<string>, rel: string, t: string)
    requires |user| == |opts| && i < |user| && user[i].Some?
    requires ReachesHandlers(both, own, user, opts, i, t) && Undeclared(both, own, n, x, table, rel, t)
    requires ConjoinScopes(user[i].value, [EMPTY_SCOPE], opts[i]).Returned?
    ensures ResolveRelation(both, n, table, rel)
            == Returned(Some([ConjoinScopes(user[i].value, [EMPTY_SCOPE], opts[i]).value]))
    ensures ResolveRelation(own, x, table, rel) == Returned(Joined(user))
  {
    OnlyHandlerServes(user, opts, i);
    assert seq(|user|, j requires 0 <= j < |user| => own.outcomes(t)[j].value) == user;
  }

  /** Every handler that does not fit widens some relation: the credential for it alone reaches more than its owner. */
  lemma MisfitWidensRelation(e: Extent, db: Db, both: World, own: World, user: seq<Grant>, opts: seq<ConjoinOptions>,
                             i: nat, n: seq<Scope>, x: seq<Scope>, table: Option<string>, rel: string, t: string)
    requires |user| == |opts| && i < |user| && user[i].Some? && RoleLists(user)
    requires ReachesHandlers(both, own, user, opts, i, t) && Undeclared(both, own, n, x, table, rel, t)
    requires ConjoinScopes(user[i].value, [EMPTY_SCOPE], opts[i]).Returned?
    requires Joined(user).Some? && !Fits(e, user[i].value, Joined(user).value)
    ensures var reached, owned := ResolveRelation(both, n, table, rel), ResolveRelation(own, x, table, rel);
      && reached.Returned? && reached.value.Some? && owned.Returned? && owned.value.Some?
      && !Bounded(e, db, reached.value.value, owned.value.value)
  {
    ResolvedHandlers(both, own, user, opts, i, n, x, table, rel, t);
    OnlyHandlerServes(user, opts, i);
    MisfitWidens(e, db, user, opts, i);
  }

  // ── Three restrictions a joint grant loses with one handler ────────────

  function Matching(f: Filter): Scope {
    EMPTY_SCOPE.(filter := Some(f))
  }

  function Writing(fields: set<string>): Scope {
    EMPTY_SCOPE.(allowedFields := Some(fields))
  }

  predicate Simple(s: Scope) {
    !Mixed(s.projection) && s.controls == None && s.withs == map[] && s.custom == map[]
  }

  /** Simple scopes can be conjoined. */
  lemma SimpleConjoins(s: Scope, t: Scope, opts: ConjoinOptions)
    requires Simple(s) && Simple(t) && opts.refs == None
    ensures ConjoinScopes([s], [t], opts).Returned?
  {
    SimpleUnions(s);
    SimpleUnions(t);
    assert Combinable([s], [t], opts.fields);
  }

  lemma SimpleUnions(s: Scope)
    requires Simple(s)
    ensures UnionProjection([s]) == Returned(s.projection) && UnionControls([s]) == Returned(map[])
    ensures CustomFields([s]) == {} && WithNames([s]) == {}
  {
    OneScopeProjection(s);
    assert PolicyList([s]) == [None];
    SilentPolicy();
  }

  lemma SilentPolicy()
    ensures UnionControlsPolicy([None]) == Returned(map[])
  {
    var ps: seq<Option<Policy>> := [None];
    assert ps[0] == None;
  }

  lemma JoinedTwo(a: seq<Scope>, b: seq<Scope>)
    ensures Joined([Some(a), Some(b)]) == Some(a + b)
  {
    var one: seq<Grant> := [Some(a)];
    var two: seq<Grant> := [Some(a), Some(b)];
    assert one[..0] == [] && two[..1] == one;
    assert [] + a == a;
    assert Joined(one) == Some(a);
  }

  lemma InclusionMeetsItself(p: Projection, schema: Schema)
    requires ModeOf(p) == Inclusion && !Mixed(p)
    ensures Intersection(p, p, schema) == Some(p)
  {
    ModeFlags(p);
    assert forall k :: k in p ==> Covers(k, k);
    assert CommonIncluded(p.Keys, p.Keys) == p.Keys;
    SameFlags(p, Include);
  }

  lemma IncludedPair(p: Projection, q: Projection, k: string)
    requires !Mixed(p) && !Mixed(q) && ModeOf(p) == Inclusion && ModeOf(q) == Inclusion && k in p
    ensures Grants(UnionOf([p, q]), k)
  {
    var ps := [p, q];
    ModeFlags(p);
    assert p in ps;
    assert k in KeysFlagged(ps, Include) && Covers(k, k);
    assert forall r :: r in ps ==> r == p || r == q;
  }

  /**
   A hidden path reappears: `{"x.b":1}` and `{x:0}` together hide `x.b`, the
   credential without the second handler is shown it.
   */
  lemma HiddenPathReappears(db: Db, both: World, own: World, p: Projection, q: Projection, opts: seq<ConjoinOptions>,
                            n: seq<Scope>, x: seq<Scope>, table: Option<string>, rel: string, t: string, row: Value)
    requires p == map["x.b" := Include] && q == map["x" := Exclude] && |opts| == 2 && opts[0].refs == None
    requires ReachesHandlers(both, own, [Some([Showing(p)]), Some([Showing(q)])], opts, 0, t)
    requires Undeclared(both, own, n, x, table, rel, t)
    ensures var reached, owned := ResolveRelation(both, n, table, rel), ResolveRelation(own, x, table, rel);
      && reached.Returned? && reached.value.Some? && Exposes(db, reached.value.value, row, "x.b")
      && owned.Returned? && owned.value.Some? && !Exposes(db, owned.value.value, row, "x.b")
  {
    SingleKey(p, "x.b", "x");
    SingleKey(q, "x", "x.b");
    PairHides(p, q);
    assert Grants(p, "x.b");
    ShownAlone(db, p, opts[0], row, "x.b");
    HiddenTogether(db, p, q, row, "x.b");
    ResolvedHandlers(both, own, [Some([Showing(p)]), Some([Showing(q)])], opts, 0, n, x, table, rel, t);
  }

  lemma ShownAlone(db: Db, p: Projection, opts: ConjoinOptions, row: Value, f: string)
    requires !Mixed(p) && Grants(p, f) && opts.refs == None
    ensures ConjoinScopes([Showing(p)], [EMPTY_SCOPE], opts).Returned?
    ensures Exposes(db, [ConjoinScopes([Showing(p)], [EMPTY_SCOPE], opts).value], row, f)
  {
    SimpleConjoins(Showing(p), EMPTY_SCOPE, opts);
    SilentLists();
    SilentKeepsFacets(db, [Showing(p)], [EMPTY_SCOPE], opts);
    OneScopeProjection(Showing(p));
    OneScopeRows(db, Showing(p), row);
  }

  lemma HiddenTogether(db: Db, p: Projection, q: Projection, row: Value, f: string)
    requires !Grants(UnionOf([p, q]), f)
    ensures Joined([Some([Showing(p)]), Some([Showing(q)])]).Some?
    ensures !Exposes(db, Joined([Some([Showing(p)]), Some([Showing(q)])]).value, row, f)
  {
    JoinedTwo([Showing(p)], [Showing(q)]);
    assert ProjectionList([Showing(p)] + [Showing(q)]) == [p, q];
    assert UnionProjection([Showing(p)] + [Showing(q)]) == UnionProjections([p, q]);
  }

  lemma PairHides(p: Projection, q: Projection)
    requires p == map["x.b" := Include] && q == map["x" := Exclude]
    ensures !Grants(UnionOf([p, q]), "x.b")
  {
    SingleKey(p, "x.b", "x");
    SingleKey(q, "x", "x.b");
    DeniedPair(p, q, "x");
    assert q in [p, q] && IsExclusion(UnionOf([p, q]));
    CoveredByInherited(UnionOf([p, q]).Keys, "x", "x.b");
  }

  /** A dropped row reappears: `{f: null}` and `{f: 1}` together drop the rows without `f`. */
  lemma DroppedRowReappears(db: Db, both: World, own: World, f: string, opts: seq<ConjoinOptions>,
                            n: seq<Scope>, x: seq<Scope>, table: Option<string>, rel: string, t: string)
    requires |opts| == 2 && opts[0].refs == None
    requires ReachesHandlers(both, own,
                             [Some([Matching(Filter([FieldIs(f, Null)]))]),
                              Some([Matching(Filter([FieldIs(f, Num(1))]))])],
                             opts, 0, t)
    requires Undeclared(both, own, n, x, table, rel, t)
    ensures var reached, owned := ResolveRelation(both, n, table, rel), ResolveRelation(own, x, table, rel);
      && reached.Returned? && reached.value.Some? && RowVisible(db, reached.value.value, Doc(map[]))
      && owned.Returned? && owned.value.Some? && !RowVisible(db, owned.value.value, Doc(map[]))
  {
    var absent, one := Filter([FieldIs(f, Null)]), Filter([FieldIs(f, Num(1))]);
    var user: seq<Grant> := [Some([Matching(absent)]), Some([Matching(one)])];
    MatchedAlone(db, f, opts[0]);
    DroppedTogether(db, f);
    ResolvedHandlers(both, own, user, opts, 0, n, x, table, rel, t);
  }

  lemma MatchedAlone(db: Db, f: string, opts: ConjoinOptions)
    requires opts.refs == None
    ensures var a := [Matching(Filter([FieldIs(f, Null)]))];
      && ConjoinScopes(a, [EMPTY_SCOPE], opts).Returned?
      && RowVisible(db, [ConjoinScopes(a, [EMPTY_SCOPE], opts).value], Doc(map[]))
  {
    var absent := Filter([FieldIs(f, Null)]);
    SimpleConjoins(Matching(absent), EMPTY_SCOPE, opts);
    SilentLists();
    SilentKeepsFacets(db, [Matching(absent)], [EMPTY_SCOPE], opts);
    OneScopeRows(db, Matching(absent), Doc(map[]));
    NullAdmitsMissing(db, f);
  }

  lemma NullAdmitsMissing(db: Db, f: string)
    ensures Sat(db, Filter([FieldIs(f, Null)]), Doc(map[]))
  {
    assert Read(Doc(map[]), f).Undef?;
  }

  lemma DroppedTogether(db: Db, f: string)
    ensures var lists := [Some([Matching(Filter([FieldIs(f, Null)]))]), Some([Matching(Filter([FieldIs(f, Num(1))]))])];
      Joined(lists).Some? && !RowVisible(db, Joined(lists).value, Doc(map[]))
  {
    var absent, one := Filter([FieldIs(f, Null)]), Filter([FieldIs(f, Num(1))]);
    JoinedTwo([Matching(absent)], [Matching(one)]);
    var fs := [absent, one];
    assert FilterList([Matching(absent)] + [Matching(one)]) == fs;
    assert fs[0] in fs;
    MissingIsDropped(db, fs, absent);
  }

  /** A write whitelist disappears: only the second handler's scopes carry one. */
  lemma WhitelistDisappears(db: Db, both: World, own: World, fields: set<string>, opts: seq<ConjoinOptions>,
                            n: seq<Scope>, x: seq<Scope>, table: Option<string>, rel: string, t: string)
    returns (path: string)
    requires |opts| == 2 && opts[0].refs == None
    requires ReachesHandlers(both, own, [Some([EMPTY_SCOPE]), Some([Writing(fields)])], opts, 0, t)
    requires Undeclared(both, own, n, x, table, rel, t)
    ensures var reached, owned := ResolveRelation(both, n, table, rel), ResolveRelation(own, x, table, rel);
      && reached.Returned? && reached.value.Some? && Writable(reached.value.value, path)
      && owned.Returned? && owned.value.Some? && !Writable(owned.value.value, path)
  {
    var user: seq<Grant> := [Some([EMPTY_SCOPE]), Some([Writing(fields)])];
    SimpleConjoins(EMPTY_SCOPE, EMPTY_SCOPE, opts[0]);
    ResolvedHandlers(both, own, user, opts, 0, n, x, table, rel, t);
    SilentLists();
    SilentKeepsFacets(db, [EMPTY_SCOPE], [EMPTY_SCOPE], opts[0]);
    OneScopeWrites(EMPTY_SCOPE);
    path := UncoveredPath(fields);
    JoinedTwo([EMPTY_SCOPE], [Writing(fields)]);
    var owned := [EMPTY_SCOPE] + [Writing(fields)];
    assert owned[1] == Writing(fields) && owned[0].allowedFields.None?;
    assert UnionAllowedFields(owned).value == fields;
  }

  // ── A handler that leaves no field ────────────

  /**
   The claimant's side: on a handler where owner and claimant share no field the
   composite keeps the owner's fields and no row, but served together with
   another handler its fields are shown on that one's rows.
   */
  lemma FieldlessHandlerLeaks(db: Db, px: Projection, py: Projection, opts: seq<ConjoinOptions>, row: Value)
    requires px == map["x" := Include] && py == map["y" := Include]
    requires |opts| == 2 && opts[0].refs == None && opts[1].refs == None
    ensures var user, cred := [Some([Showing(px)]), Some([Showing(py)])], [Some([Showing(py)]), Some([Showing(py)])];
            var served := ServedTogether(AttenuatedEach(user, cred, opts));
      && served.Returned? && served.value.Some? && Exposes(db, served.value.value, row, "x")
      && Joined(cred).Some? && !Exposes(db, Joined(cred).value, row, "x")
  {
    SingleKey(px, "x", "y");
    SingleKey(py, "y", "x");
    InclusionMeetsItself(py, opts[1].schema);
    ApartInclusions(px, py, opts[0].schema);
    IncludedPair(px, py, "x");
    DeniedPair(py, py, "x");
    HiddenTogether(db, py, py, row, "x");
    FieldLeaks(db, px, py, opts, row, "x");
  }

  lemma FieldLeaks(db: Db, px: Projection, py: Projection, opts: seq<ConjoinOptions>, row: Value, f: string)
    requires !Mixed(px) && !Mixed(py) && |opts| == 2 && opts[0].refs == None && opts[1].refs == None
    requires Intersection(px, py, opts[0].schema) == None && Intersection(py, py, opts[1].schema) == Some(py)
    requires Grants(UnionOf([px, py]), f)
    ensures var served := ServedTogether(AttenuatedEach([Some([Showing(px)]), Some([Showing(py)])],
                                                        [Some([Showing(py)]), Some([Showing(py)])], opts));
      served.Returned? && served.value.Some? && Exposes(db, served.value.value, row, f)
  {
    var c0 := ShowingConjoined(px, py, opts[0]);
    var c1 := ShowingConjoined(py, py, opts[1]);
    EachOfTwo([Showing(px)], [Showing(py)], [Showing(py)], [Showing(py)], opts, c0, c1);
    TwoExpose(db, c0, c1, row, f);
  }

  lemma EachOfTwo(a0: seq<Scope>, a1: seq<Scope>, b0: seq<Scope>, b1: seq<Scope>, opts: seq<ConjoinOptions>, c0: Scope,
                  c1: Scope)
    requires |opts| == 2 && ConjoinScopes(a0, b0, opts[0]) == Returned(c0)
    requires ConjoinScopes(a1, b1, opts[1]) == Returned(c1)
    ensures ServedTogether(AttenuatedEach([Some(a0), Some(a1)], [Some(b0), Some(b1)], opts))
      == Returned(Some([c0] + [c1]))
  {
    var user: seq<Grant> := [Some(a0), Some(a1)];
    var cred: seq<Grant> := [Some(b0), Some(b1)];
    EachServes(user, cred, opts, 0, c0);
    EachServes(user, cred, opts, 1, c1);
    TogetherTwo(AttenuatedEach(user, cred, opts), [c0], [c1]);
  }

  lemma EachServes(user: seq<Grant>, cred: seq<Grant>, opts: seq<ConjoinOptions>, i: nat, c: Scope)
    requires |user| == |cred| == |opts| && i < |user| && user[i].Some? && cred[i].Some?
    requires ConjoinScopes(user[i].value, cred[i].value, opts[i]) == Returned(c)
    ensures |AttenuatedEach(user, cred, opts)| == |user| && AttenuatedEach(user, cred, opts)[i] == Returned(Some([c]))
  {
  }

  /** A path one scope's fields show, on every row the other's filter admits. */
  lemma TwoExpose(db: Db, c0: Scope, c1: Scope, row: Value, f: string)
    requires !Mixed(c0.projection) && !Mixed(c1.projection) && Grants(UnionOf([c0.projection, c1.projection]), f)
    requires c1.filter == None
    ensures Exposes(db, [c0] + [c1], row, f)
  {
    var served := [c0] + [c1];
    assert ProjectionList(served) == [c0.projection, c1.projection];
    assert UnionProjection(served) == UnionProjections([c0.projection, c1.projection]);
    assert FilterList(served)[1] == UNRESTRICTED;
    assert UNRESTRICTED in FilterList(served);
  }

  lemma TogetherTwo(each: seq<Attempt<Grant>>, a: seq<Scope>, b: seq<Scope>)
    requires |each| == 2 && each[0] == Returned(Some(a)) && each[1] == Returned(Some(b))
    ensures ServedTogether(each) == Returned(Some(a + b))
  {
    assert seq(|each|, i requires 0 <= i < |each| => each[i].value) == [Some(a), Some(b)];
    JoinedTwo(a, b);
  }

  lemma ShowingConjoined(p: Projection, q: Projection, opts: ConjoinOptions) returns (c: Scope)
    requires !Mixed(p) && !Mixed(q) && opts.refs == None
    ensures ConjoinScopes([Showing(p)], [Showing(q)], opts) == Returned(c)
    ensures c.projection == Intersection(p, q, opts.schema).Or(p)
    ensures Intersection(p, q, opts.schema).Some? ==> c.filter == None
  {
    SimpleConjoins(Showing(p), Showing(q), opts);
    ShowingUnfiltered(p);
    ShowingUnfiltered(q);
    c := ConjoinScopes([Showing(p)], [Showing(q)], opts).value;
    var common := CommonFields([Showing(p)], [Showing(q)], opts.schema);
    assert c.projection == common.Or(p);
    if common.Some? {
      UnfilteredRows([Showing(p)], [Showing(q)]);
    }
  }

  lemma UnfilteredRows(a: seq<Scope>, b: seq<Scope>)
    requires UnionFilter(a) == None && UnionFilter(b) == None
    ensures ConjoinRows(a, b, true).filter == None
  {
  }

  lemma ApartInclusions(p: Projection, q: Projection, schema: Schema)
    requires p == map["x" := Include] && q == map["y" := Include]
    ensures Intersection(p, q, schema) == None
  {
    SingleKey(p, "x", "y");
    SingleKey(q, "y", "x");
    assert CommonIncluded(p.Keys, q.Keys) == {};
    assert AllOf({}, Include) == map[];
  }
}
