/**
 The path-wise intersection of two projections (the conjunction of two
 ceilings), and the enforced `$select` built on it: restriction of a requested
 projection to a ceiling, then naming an exclusion by its schema leaves.
 */
module Intersections {
  import opened Options
  import opened DottedPaths
  import opened Projections
  import opened SchemaWalk

  /** Keys of `a` the other side covers, or the other side's keys below them. */
  function CommonIncluded(a: set<string>, b: set<string>): set<string> {
    (set k | k in a && CoveredBy(b, k)) +
    (set d | d in b && exists k :: k in a && !CoveredBy(b, k) && Below(d, k))
  }

  function IncludeMinusExclude(inc: Projection, exc: Projection, schema: Schema): Projection {
    AllOf(WalkedFrom(schema, SubtractExcluded(exc.Keys), inc.Keys), Include)
  }

  function IntersectionOf(a: Projection, b: Projection, schema: Schema): Projection {
    match (ModeOf(a), ModeOf(b))
    case (Inclusion, Inclusion) => AllOf(CommonIncluded(a.Keys, b.Keys), Include)
    case (Exclusion, Exclusion) => AllOf(a.Keys + b.Keys, Exclude)
    case (Inclusion, Exclusion) => IncludeMinusExclude(a, b, schema)
    case (Exclusion, Inclusion) => IncludeMinusExclude(b, a, schema)
    case (Empty, _) => b
    case (_, Empty) => a
  }

  /** The intersection of two valid projections; `None` when no field survives. */
  function Intersection(a: Projection, b: Projection, schema: Schema): Option<Projection> {
    var out := IntersectionOf(a, b, schema);
    if out == map[] && (a != map[] || b != map[]) then None else Some(out)
  }

  /** The loops of the intersection, proved against `Intersection`. */
  method IntersectProjections(a: Projection, b: Projection, schema: Schema) returns (r: Attempt<Option<Projection>>)
    ensures r == if Mixed(a) || Mixed(b) then Threw else Returned(Intersection(a, b, schema))
  {
    var aMode := GetProjectionMode(a);
    var bMode := GetProjectionMode(b);
    if aMode.Threw? || bMode.Threw? {
      return Threw;
    }
    if aMode.value == Empty {
      return Returned(Some(b));
    }
    if bMode.value == Empty {
      return Returned(Some(a));
    }
    var out: set<string> := {};
    var flag := Include;
    if aMode.value == Inclusion && bMode.value == Inclusion {
      var todo := a.Keys;
      while todo != {}
        invariant todo <= a.Keys
        invariant out == CommonIncluded(a.Keys - todo, b.Keys)
        decreases todo
      {
        var key :| key in todo;
        ghost var seen := a.Keys - todo;
        if CoveredBy(b.Keys, key) {
          out := out + {key};
        } else {
          out := out + set d | d in b.Keys && Below(d, key);
        }
        todo := todo - {key};
        assert a.Keys - todo == seen + {key};
      }
      assert a.Keys - {} == a.Keys;
    } else if aMode.value == Exclusion && bMode.value == Exclusion {
      flag := Exclude;
      out := a.Keys + b.Keys;
    } else {
      var inc, exc := a, b;
      if aMode.value != Inclusion {
        inc, exc := b, a;
      }
      out := WalkKeys(schema, SubtractExcluded(exc.Keys), inc.Keys);
    }
    if out == {} {
      return Returned(None);
    }
    return Returned(Some(AllOf(out, flag)));
  }

  /** Walk every root, accumulating the emitted paths. */
  method WalkKeys(schema: Schema, v: Visitor, roots: set<string>) returns (out: set<string>)
    ensures out == WalkedFrom(schema, v, roots)
  {
    out := {};
    var todo := roots;
    while todo != {}
      invariant todo <= roots
      invariant out == WalkedFrom(schema, v, roots - todo)
      decreases todo
    {
      var key :| key in todo;
      ghost var seen := roots - todo;
      out := Walk(schema, v, key, 0, out);
      todo := todo - {key};
      assert roots - todo == seen + {key};
    }
    assert roots - {} == roots;
  }

  /** One side includes, the other excludes. */
  predicate Opposed(a: Projection, b: Projection) {
    || (ModeOf(a) == Inclusion && ModeOf(b) == Exclusion)
    || (ModeOf(a) == Exclusion && ModeOf(b) == Inclusion)
  }

  // ── What an intersection grants ────────────

  /** A field is visible exactly when some path at or below it is granted. */
  lemma AllowedIffSomeGranted(f: string, p: Projection)
    ensures IsFieldAllowed(f, p) <==> exists g :: Covers(f, g) && Grants(p, g)
  {
    assert Covers(f, f);
    if exists g :: Covers(f, g) && Grants(p, g) {
      var g :| Covers(f, g) && Grants(p, g);
      if ModeOf(p) == Inclusion {
        var k :| k in p.Keys && Covers(k, g);
        AncestorsComparable(f, k, g);
      } else if CoveredBy(p.Keys, f) {
        CoveredByInherited(p.Keys, f, g);
      }
    }
    if ModeOf(p) == Inclusion && HasDescendant(p.Keys, f) {
      var k :| k in p.Keys && Below(k, f);
      assert Covers(k, k) && Grants(p, k);
    }
  }

  lemma SubtractionGrantsBoth(inc: Projection, exc: Projection, schema: Schema, f: string)
    requires ModeOf(inc) == Inclusion && ModeOf(exc) == Exclusion && Descending(schema)
    requires CoveredBy(IncludeMinusExclude(inc, exc, schema).Keys, f)
    ensures Grants(inc, f) && Grants(exc, f)
  {
    var q :| q in IncludeMinusExclude(inc, exc, schema).Keys && Covers(q, f);
    var r :| r in inc.Keys && q in Walked(schema, SubtractExcluded(exc.Keys), r, 0);
    WalkedBelow(schema, SubtractExcluded(exc.Keys), r, 0, q);
    WalkedEmits(schema, exc.Keys, r, 0, q);
    CoversTransitive(r, q, f);
    if CoveredBy(exc.Keys, f) {
      var e :| e in exc.Keys && Covers(e, f);
      AncestorsComparable(e, q, f);
      assert false;
    }
  }

  lemma CommonIncludedExact(a: set<string>, b: set<string>, f: string)
    ensures CoveredBy(CommonIncluded(a, b), f) <==> CoveredBy(a, f) && CoveredBy(b, f)
  {
    var common := CommonIncluded(a, b);
    if CoveredBy(common, f) {
      var k :| k in common && Covers(k, f);
      if k in a && CoveredBy(b, k) {
        CoveredByInherited(b, k, f);
      } else {
        var j :| j in a && Below(k, j);
        CoversTransitive(j, k, f);
      }
    }
    if CoveredBy(a, f) && CoveredBy(b, f) {
      var i :| i in a && Covers(i, f);
      if CoveredBy(b, i) {
        assert i in common;
      } else {
        var j :| j in b && Covers(j, f);
        AncestorsComparable(i, j, f);
        assert j in common;
      }
    }
  }

  /** Never wider than either side, whatever descending schema is given. */
  lemma IntersectionGrantsBoth(a: Projection, b: Projection, schema: Schema, f: string)
    requires !Mixed(a) && !Mixed(b) && Descending(schema)
    requires Intersection(a, b, schema).Some? && Grants(Intersection(a, b, schema).value, f)
    ensures Grants(a, f) && Grants(b, f)
  {
    match (ModeOf(a), ModeOf(b))
    case (Inclusion, Inclusion) => CommonIncludedExact(a.Keys, b.Keys, f);
    case (Exclusion, Exclusion) =>
    case (Inclusion, Exclusion) => SubtractionGrantsBoth(a, b, schema, f);
    case (Exclusion, Inclusion) => SubtractionGrantsBoth(b, a, schema, f);
    case (Empty, _) =>
    case (_, Empty) =>
  }

  /** Exact on every path, except when one side includes and the other excludes. */
  lemma IntersectionExact(a: Projection, b: Projection, schema: Schema, f: string)
    requires !Mixed(a) && !Mixed(b)
    requires !Opposed(a, b)
    ensures Grants(a, f) && Grants(b, f) <==>
            Intersection(a, b, schema).Some? && Grants(Intersection(a, b, schema).value, f)
  {
    match (ModeOf(a), ModeOf(b))
    case (Inclusion, Inclusion) =>
      CommonIncludedExact(a.Keys, b.Keys, f);
    case (Exclusion, Exclusion) =>
      if CoveredBy(a.Keys + b.Keys, f) {
        var k :| k in a.Keys + b.Keys && Covers(k, f);
        assert k in a.Keys || k in b.Keys;
      }
    case _ =>
  }

  lemma SubtractionKeepsLeaf(inc: Projection, exc: Projection, schema: Schema, fields: set<string>, f: string)
    requires ModeOf(inc) == Inclusion && ModeOf(exc) == Exclusion
    requires TreeOver(schema, fields) && Leaf(fields, f) && exc.Keys <= fields
    requires Dots(f) <= MAX_SCHEMA_DEPTH
    requires Grants(inc, f) && Grants(exc, f)
    ensures CoveredBy(IncludeMinusExclude(inc, exc, schema).Keys, f)
  {
    var i :| i in inc.Keys && Covers(i, f);
    SubtractionReaches(schema, fields, exc.Keys, i, 0, f);
    var q :| q in Walked(schema, SubtractExcluded(exc.Keys), i, 0) && Covers(q, f);
    assert q in IncludeMinusExclude(inc, exc, schema).Keys;
  }

  /**
   Exact on the leaves of a schema tree, in every mode: no leaf both sides
   grant is lost when the schema is within the depth bound and names the
   excluded keys.
   */
  lemma IntersectionExactOnLeaves(a: Projection, b: Projection, schema: Schema, fields: set<string>, f: string)
    requires !Mixed(a) && !Mixed(b)
    requires TreeOver(schema, fields) && Leaf(fields, f) && Dots(f) <= MAX_SCHEMA_DEPTH
    requires ModeOf(a) == Exclusion ==> a.Keys <= fields
    requires ModeOf(b) == Exclusion ==> b.Keys <= fields
    ensures Grants(a, f) && Grants(b, f) <==>
            Intersection(a, b, schema).Some? && Grants(Intersection(a, b, schema).value, f)
  {
    if !Opposed(a, b) {
      IntersectionExact(a, b, schema, f);
    } else {
      if Grants(a, f) && Grants(b, f) {
        if ModeOf(a) == Inclusion {
          SubtractionKeepsLeaf(a, b, schema, fields, f);
        } else {
          SubtractionKeepsLeaf(b, a, schema, fields, f);
        }
      }
      if Intersection(a, b, schema).Some? && Grants(Intersection(a, b, schema).value, f) {
        IntersectionGrantsBoth(a, b, schema, f);
      }
    }
  }

  /** Field visibility is never wider than either side. */
  lemma IntersectionAllowedByBoth(a: Projection, b: Projection, schema: Schema, f: string)
    requires !Mixed(a) && !Mixed(b) && Descending(schema)
    requires Intersection(a, b, schema).Some? && IsFieldAllowed(f, Intersection(a, b, schema).value)
    ensures IsFieldAllowed(f, a) && IsFieldAllowed(f, b)
  {
    AllowedIffSomeGranted(f, Intersection(a, b, schema).value);
    var g :| Covers(f, g) && Grants(Intersection(a, b, schema).value, g);
    IntersectionGrantsBoth(a, b, schema, g);
    AllowedIffSomeGranted(f, a);
    AllowedIffSomeGranted(f, b);
  }

  /**
   The converse fails on parents (`{"a.b":1}` and `{"a.c":1}` both show `a`):
   where the intersection is exact, a field stays visible exactly when both
   sides grant one common path at or below it.
   */
  lemma IntersectionAllowedExactly(a: Projection, b: Projection, schema: Schema, f: string)
    requires !Mixed(a) && !Mixed(b)
    requires !Opposed(a, b)
    ensures (Intersection(a, b, schema).Some? && IsFieldAllowed(f, Intersection(a, b, schema).value))
            <==> exists g :: Covers(f, g) && Grants(a, g) && Grants(b, g)
  {
    var r := Intersection(a, b, schema);
    forall g ensures Grants(a, g) && Grants(b, g) <==> r.Some? && Grants(r.value, g) {
      IntersectionExact(a, b, schema, g);
    }
    if r.Some? {
      AllowedIffSomeGranted(f, r.value);
    }
  }

  /**
   Where an inclusion meets an exclusion: over a schema tree within the depth
   bound that names both sides' keys, a field stays visible exactly when both
   sides grant one common leaf at or below it.
   */
  lemma OpposedAllowedExactly(a: Projection, b: Projection, schema: Schema, fields: set<string>, f: string)
    requires !Mixed(a) && !Mixed(b) && Opposed(a, b) && TreeOver(schema, fields) && f in fields
    requires a.Keys <= fields && b.Keys <= fields && forall q :: q in fields ==> Dots(q) <= MAX_SCHEMA_DEPTH
    ensures (Intersection(a, b, schema).Some? && IsFieldAllowed(f, Intersection(a, b, schema).value))
            <==> exists g :: Leaf(fields, g) && Covers(f, g) && Grants(a, g) && Grants(b, g)
  {
    var r := Intersection(a, b, schema);
    if r.Some? && IsFieldAllowed(f, r.value) {
      var g := CommonLeaf(a, b, schema, fields, f);
      IntersectionExactOnLeaves(a, b, schema, fields, g);
    }
    if exists g :: Leaf(fields, g) && Covers(f, g) && Grants(a, g) && Grants(b, g) {
      var g :| Leaf(fields, g) && Covers(f, g) && Grants(a, g) && Grants(b, g);
      IntersectionExactOnLeaves(a, b, schema, fields, g);
      AllowedIffSomeGranted(f, r.value);
    }
  }

  /** A visible field has a granted leaf. */
  lemma CommonLeaf(a: Projection, b: Projection, schema: Schema, fields: set<string>, f: string) returns (g: string)
    requires !Mixed(a) && !Mixed(b) && Opposed(a, b) && TreeOver(schema, fields) && f in fields
    requires a.Keys <= fields && b.Keys <= fields
    requires Intersection(a, b, schema).Some? && IsFieldAllowed(f, Intersection(a, b, schema).value)
    ensures Leaf(fields, g) && Covers(f, g) && Grants(Intersection(a, b, schema).value, g)
  {
    var r := Intersection(a, b, schema).value;
    var inc, exc := if ModeOf(a) == Inclusion then a else b, if ModeOf(a) == Inclusion then b else a;
    assert r == IncludeMinusExclude(inc, exc, schema);
    AllowedIffSomeGranted(f, r);
    var h :| Covers(f, h) && Grants(r, h);
    var k :| k in r.Keys && Covers(k, h);
    var root :| root in inc.Keys && k in Walked(schema, SubtractExcluded(exc.Keys), root, 0);
    WalkedInFields(schema, fields, SubtractExcluded(exc.Keys), root, 0, k);
    AncestorsComparable(k, f, h);
    if Covers(k, f) {
      g := LeafBelow(fields, f);
      CoversTransitive(k, f, g);
    } else {
      g := LeafBelow(fields, k);
      CoversTransitive(f, k, g);
    }
  }

  lemma ParentShownByBothOnly(a: Projection, b: Projection, schema: Schema)
    requires a == map["a.b" := Include] && b == map["a.c" := Include]
    ensures IsFieldAllowed("a", a) && IsFieldAllowed("a", b) && Intersection(a, b, schema) == None
  {
    assert a["a.b"] in a.Values && b["a.c"] in b.Values;
    assert Below("a.b", "a") && Below("a.c", "a");
    assert "a.b"[2] != "a.c"[2];
    assert !Covers("a.b", "a.c") && !Covers("a.c", "a.b");
    assert CommonIncluded(a.Keys, b.Keys) == {};
  }

  /** Only two unrestricted sides intersect to the unrestricted projection. */
  lemma OnlyUniversesGiveUniverse(a: Projection, b: Projection, schema: Schema)
    requires Intersection(a, b, schema).Some?
    ensures Intersection(a, b, schema).value == map[] <==> a == map[] && b == map[]
    ensures !Mixed(a) && !Mixed(b) ==> !Mixed(Intersection(a, b, schema).value)
  {
  }

  // ── The enforced $select ────────────

  /** The requested projection clipped to the ceiling; the ceiling itself when nothing survives. */
  function RestrictProjection(desired: Projection, ceiling: Projection, schema: Schema): Projection {
    Intersection(desired, ceiling, schema).Or(ceiling)
  }

  function ExpandedToLeaves(p: Projection, schema: Schema): Projection {
    if schema.NoSchema? || ModeOf(p) != Exclusion then p
    else AllOf(WalkedFrom(schema, NameLeaves, p.Keys), Exclude)
  }

  method ExpandExcludeToLeaves(p: Projection, schema: Schema) returns (r: Attempt<Projection>)
    ensures r == if schema.Schema? && Mixed(p) then Threw else Returned(ExpandedToLeaves(p, schema))
  {
    if schema.NoSchema? {
      return Returned(p);
    }
    var mode := GetProjectionMode(p);
    if mode.Threw? {
      return Threw;
    }
    if mode.value != Exclusion {
      return Returned(p);
    }
    var out := WalkKeys(schema, NameLeaves, p.Keys);
    return Returned(AllOf(out, Exclude));
  }

  /** A `$select` as parsed: absent, a list of names, or an object. */
  datatype Select = NoSelect | Names(names: seq<string>) | Object(projection: Projection)

  function NormalizeSelect(s: Select): Projection {
    match s
    case NoSelect => map[]
    case Names(names) => AllOf((set n | n in names), Include)
    case Object(p) => p
  }

  /** The projection a read executes under a scope's ceiling; `None` leaves the request's own `$select`. */
  function RestrictSelect(s: Select, ceiling: Projection, schema: Schema): Option<Projection> {
    if ceiling == map[] then None
    else Some(ExpandedToLeaves(RestrictProjection(NormalizeSelect(s), ceiling, schema), schema))
  }

  /** Restriction never grants a path the ceiling hides and never becomes unrestricted. */
  lemma RestrictWithinCeiling(desired: Projection, ceiling: Projection, schema: Schema, f: string)
    requires !Mixed(desired) && !Mixed(ceiling) && ceiling != map[] && Descending(schema)
    ensures RestrictProjection(desired, ceiling, schema) != map[]
    ensures !Mixed(RestrictProjection(desired, ceiling, schema))
    ensures Grants(RestrictProjection(desired, ceiling, schema), f) ==> Grants(ceiling, f)
  {
    var r := Intersection(desired, ceiling, schema);
    if r.Some? {
      OnlyUniversesGiveUniverse(desired, ceiling, schema);
      if Grants(r.value, f) {
        IntersectionGrantsBoth(desired, ceiling, schema, f);
      }
    }
  }

  /** Where the modes do not oppose, exactly what is asked for and allowed; the ceiling where that is nothing. */
  lemma RestrictExactly(desired: Projection, ceiling: Projection, schema: Schema)
    requires !Mixed(desired) && !Mixed(ceiling) && !Opposed(desired, ceiling)
    ensures var r := RestrictProjection(desired, ceiling, schema);
      || (forall f :: Grants(r, f) <==> Grants(desired, f) && Grants(ceiling, f))
      || (r == ceiling && forall f :: !(Grants(desired, f) && Grants(ceiling, f)))
  {
    forall f ensures Grants(desired, f) && Grants(ceiling, f) <==>
      Intersection(desired, ceiling, schema).Some? && Grants(Intersection(desired, ceiling, schema).value, f) {
      IntersectionExact(desired, ceiling, schema, f);
    }
  }

  /** Naming an exclusion by its leaves hides exactly the same schema leaves and is never empty. */
  lemma ExpansionHidesSameLeaves(p: Projection, schema: Schema, fields: set<string>, f: string)
    requires !Mixed(p) && p != map[] && TreeOver(schema, fields) && Leaf(fields, f)
    ensures ExpandedToLeaves(p, schema) != map[]
    ensures Grants(ExpandedToLeaves(p, schema), f) <==> Grants(p, f)
  {
    if ModeOf(p) == Exclusion {
      ExpansionNonEmpty(p, schema);
      if CoveredBy(p.Keys, f) {
        HiddenLeafStaysHidden(p.Keys, schema, fields, f);
      }
      ExpansionHidesNoMore(p.Keys, schema, f);
    }
  }

  lemma HiddenLeafStaysHidden(keys: set<string>, schema: Schema, fields: set<string>, f: string)
    requires TreeOver(schema, fields) && Leaf(fields, f) && CoveredBy(keys, f)
    ensures CoveredBy(WalkedFrom(schema, NameLeaves, keys), f)
  {
    var k :| k in keys && Covers(k, f);
    LeavesReach(schema, fields, k, 0, f);
    var q :| q in Walked(schema, NameLeaves, k, 0) && Covers(q, f);
    assert q in WalkedFrom(schema, NameLeaves, keys);
  }

  lemma ExpansionHidesNoMore(keys: set<string>, schema: Schema, f: string)
    requires Descending(schema)
    ensures CoveredBy(WalkedFrom(schema, NameLeaves, keys), f) ==> CoveredBy(keys, f)
  {
    if CoveredBy(WalkedFrom(schema, NameLeaves, keys), f) {
      var q :| q in WalkedFrom(schema, NameLeaves, keys) && Covers(q, f);
      var k :| k in keys && q in Walked(schema, NameLeaves, k, 0);
      WalkedBelow(schema, NameLeaves, k, 0, q);
      CoversTransitive(k, q, f);
    }
  }

  /** A non-empty exclusion is never rewritten to the unrestricted projection, for any lookup. */
  lemma ExpansionNonEmpty(p: Projection, schema: Schema)
    requires p != map[]
    ensures ExpandedToLeaves(p, schema) != map[]
  {
    if schema.Schema? && ModeOf(p) == Exclusion {
      var k :| k in p.Keys;
      LeavesNonEmpty(schema, k, 0);
      var q :| q in Walked(schema, NameLeaves, k, 0);
      assert q in ExpandedToLeaves(p, schema).Keys;
    }
  }

  /** The enforced `$select` hides every schema leaf the scope hides, whatever the client asks for. */
  lemma EnforcedSelectHidesHidden(s: Select, ceiling: Projection, schema: Schema, fields: set<string>, f: string)
    requires !Mixed(ceiling) && ceiling != map[] && !Mixed(NormalizeSelect(s))
    requires TreeOver(schema, fields) && Leaf(fields, f)
    ensures RestrictSelect(s, ceiling, schema).Some?
    ensures Grants(RestrictSelect(s, ceiling, schema).value, f) ==> Grants(ceiling, f)
  {
    RestrictWithinCeiling(NormalizeSelect(s), ceiling, schema, f);
    ExpansionHidesSameLeaves(RestrictProjection(NormalizeSelect(s), ceiling, schema), schema, fields, f);
  }

  /** The request's own `$select` is left alone exactly under an unrestricted scope. */
  lemma SelectLeftAlone(s: Select, ceiling: Projection, schema: Schema)
    ensures RestrictSelect(s, ceiling, schema).None? <==> ceiling == map[]
  {
  }

  /** On the leaves of the schema, what both projections grant. */
  ghost predicate LeavesOf(r: Projection, desired: Projection, ceiling: Projection, fields: set<string>) {
    forall f :: Leaf(fields, f) ==> (Grants(r, f) <==> Grants(desired, f) && Grants(ceiling, f))
  }

  /**
   The enforced `$select` over a schema tree, whatever the modes: exactly the
   leaves the client asks for and the scope allows; where these have none in
   common, exactly those the scope allows.
   */
  lemma EnforcedSelectExactly(s: Select, ceiling: Projection, schema: Schema, fields: set<string>)
    requires var desired := NormalizeSelect(s);
      && !Mixed(desired) && (ModeOf(desired) == Exclusion ==> desired.Keys <= fields)
      && !Mixed(ceiling) && (ModeOf(ceiling) == Exclusion ==> ceiling.Keys <= fields)
    requires ceiling != map[] && TreeOver(schema, fields) && forall q :: q in fields ==> Dots(q) <= MAX_SCHEMA_DEPTH
    ensures var desired := NormalizeSelect(s);
      && RestrictSelect(s, ceiling, schema).Some?
      && (|| LeavesOf(RestrictSelect(s, ceiling, schema).value, desired, ceiling, fields)
          || (&& LeavesOf(RestrictSelect(s, ceiling, schema).value, map[], ceiling, fields)
              && forall f :: Leaf(fields, f) ==> !(Grants(desired, f) && Grants(ceiling, f))))
  {
    var desired := NormalizeSelect(s);
    var common, r := Intersection(desired, ceiling, schema), RestrictProjection(desired, ceiling, schema);
    RestrictWithinCeiling(desired, ceiling, schema, "");
    forall f | Leaf(fields, f)
      ensures Grants(RestrictSelect(s, ceiling, schema).value, f) <==> Grants(r, f)
      ensures Grants(desired, f) && Grants(ceiling, f) <==> common.Some? && Grants(common.value, f) {
      IntersectionExactOnLeaves(desired, ceiling, schema, fields, f);
      ExpansionHidesSameLeaves(r, schema, fields, f);
    }
  }
}
