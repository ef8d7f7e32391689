/**
 Unions of unions: joining some grants first and the rest later never grants
 more than joining all at once, and grants as much exactly when no included key
 meets a key the second union denies.
 */
module Groupings {
  import opened Options
  import opened DottedPaths
  import opened Projections

  // ── Grouping never widens ────────────

  /** What every grant denies, the union denies. */
  lemma DeniedByAll(ps: seq<Projection>, f: string)
    requires ps != [] && UnionProjections(ps).Returned? && forall p :: p in ps ==> !Grants(p, f)
    ensures !Grants(UnionOf(ps), f)
  {
    if Grants(UnionOf(ps), f) {
      UnionNeverWidens(ps, f);
    }
  }

  /** A union with an exclusion among its grants excludes, or grants everything. */
  lemma UnionMode(ps: seq<Projection>)
    requires ps != [] && UnionProjections(ps).Returned? && exists p :: p in ps && IsExclusion(p)
    ensures ModeOf(UnionOf(ps)) != Inclusion
  {
    ModeFlags(UnionOf(ps));
  }

  lemma DeniedBelow(u: Projection, d: string, f: string)
    requires !Mixed(u) && ModeOf(u) != Inclusion && !Grants(u, d) && Covers(d, f)
    ensures !Grants(u, f)
  {
    CoveredByInherited(u.Keys, d, f);
  }

  lemma Parts(ps: seq<Projection>, rs: seq<Projection>)
    requires ps != [] && UnionProjections(ps + rs).Returned?
    ensures UnionProjections(ps).Returned? && UnionProjections([UnionOf(ps)] + rs).Returned?
  {
    assert forall p :: p in ps + rs <==> p in ps || p in rs;
    assert forall p :: p in [UnionOf(ps)] + rs <==> p == UnionOf(ps) || p in rs;
  }

  /** Joining a union with more grants never grants what joining them all at once does not. */
  lemma GroupingNeverWidens(ps: seq<Projection>, rs: seq<Projection>, f: string)
    requires ps != [] && UnionProjections(ps + rs).Returned?
    requires Grants(UnionOf([UnionOf(ps)] + rs), f)
    ensures Grants(UnionOf(ps + rs), f)
  {
    Parts(ps, rs);
    var all, u := ps + rs, UnionOf(ps);
    var grouped := [u] + rs;
    assert forall p :: p in all <==> p in ps || p in rs;
    assert forall p :: p in grouped <==> p == u || p in rs;
    if !Grants(UnionOf(all), f) {
      var d := DeniedAt(all, f);
      DeniedInGroup(ps, rs, d);
      if forall p :: p in all ==> !Grants(p, f) {
        DeniedByAll(ps, f);
        DeniedByAll(grouped, f);
      } else {
        DeniedExcludes(all, f);
        GroupExcludes(ps, rs, d);
        DeniedBelow(UnionOf(grouped), d, f);
      }
    }
  }

  /** Why the union denies a path: a path at or above it is denied by every grant. */
  lemma DeniedAt(ps: seq<Projection>, f: string) returns (d: string)
    requires ps != [] && UnionProjections(ps).Returned? && !Grants(UnionOf(ps), f)
    ensures Covers(d, f) && forall p :: p in ps ==> !Grants(p, d)
  {
    var u := UnionOf(ps);
    ModeFlags(u);
    if ModeOf(u) == Inclusion {
      d := f;
      assert Covers(f, f);
      forall p | p in ps ensures !Grants(p, f) {
        ModeFlags(p);
        assert ModeOf(p) == Inclusion ==> forall k :: k in p ==> k in KeysFlagged(ps, Include);
      }
    } else {
      d :| d in u.Keys && Covers(d, f);
      assert d in StillDenied(ps);
      forall p | p in ps ensures !Grants(p, d) {
        ModeFlags(p);
        assert ModeOf(p) == Inclusion ==> forall k :: k in p ==> k in KeysFlagged(ps, Include);
      }
    }
  }

  lemma DeniedExcludes(ps: seq<Projection>, f: string)
    requires ps != [] && UnionProjections(ps).Returned? && !Grants(UnionOf(ps), f)
    requires exists p :: p in ps && Grants(p, f)
    ensures exists p :: p in ps && IsExclusion(p)
  {
    if forall p :: p in ps ==> !IsExclusion(p) {
      var p :| p in ps && Grants(p, f);
      ModeFlags(p);
      if ModeOf(p) == Inclusion {
        var i :| i in p.Keys && Covers(i, f);
        assert i in KeysFlagged(ps, Include);
      }
    }
  }

  lemma DeniedInGroup(ps: seq<Projection>, rs: seq<Projection>, d: string)
    requires ps != [] && UnionProjections(ps + rs).Returned? && forall p :: p in ps + rs ==> !Grants(p, d)
    ensures !Grants(UnionOf(ps), d) && !Grants(UnionOf([UnionOf(ps)] + rs), d)
  {
    Parts(ps, rs);
    assert forall p :: p in ps ==> p in ps + rs;
    DeniedByAll(ps, d);
    assert forall p :: p in [UnionOf(ps)] + rs ==> p == UnionOf(ps) || p in ps + rs;
    DeniedByAll([UnionOf(ps)] + rs, d);
  }

  lemma GroupExcludes(ps: seq<Projection>, rs: seq<Projection>, d: string)
    requires ps != [] && UnionProjections(ps + rs).Returned? && exists p :: p in ps + rs && IsExclusion(p)
    requires !Grants(UnionOf(ps), d)
    ensures ModeOf(UnionOf([UnionOf(ps)] + rs)) != Inclusion
  {
    Parts(ps, rs);
    var u := UnionOf(ps);
    var p :| p in ps + rs && IsExclusion(p);
    assert u in [u] + rs;
    if p in rs {
      assert p in [u] + rs;
    } else {
      assert p in ps;
      UnionMode(ps);
    }
    UnionMode([u] + rs);
  }

  // ── When it grants as much: exactly ────────────

  /** What all grants joined at once deny, from their keys. */
  function WholeDenied(ps: seq<Projection>): set<string> {
    if map[] in ps then {} else StillDenied(ps)
  }

  /** What the grouped union denies, from the keys of the grants. */
  function GroupDenied(ps: seq<Projection>, rs: seq<Projection>): set<string> {
    if map[] in ps || map[] in rs then {}
    else if exists p :: p in ps && IsExclusion(p) then
      set d | d in StillDenied(ps) + KeysFlagged(rs, Exclude) && CoveredBy(StillDenied(ps), d)
              && DeniedByEveryExclusion(rs, d) && !CoveredBy(KeysFlagged(rs, Include), d)
    else
      set d | d in KeysFlagged(rs, Exclude) && DeniedByEveryExclusion(rs, d)
              && !CoveredBy(KeysFlagged(ps, Include) + KeysFlagged(rs, Include), d)
  }

  /** Every included key not below what the whole union denies is clear of what the grouped union denies. */
  predicate KeysClear(ps: seq<Projection>, rs: seq<Projection>) {
    forall i | i in KeysFlagged(ps + rs, Include) && !(exists w :: w in WholeDenied(ps + rs) && Below(i, w)) ::
      forall d | d in GroupDenied(ps, rs) :: !Comparable(d, i)
  }

  lemma WholeDeniedExactly(ps: seq<Projection>)
    requires ps != [] && UnionProjections(ps).Returned?
    ensures forall d :: d in WholeDenied(ps) <==> d in UnionOf(ps) && UnionOf(ps)[d] == Exclude
  {
    if forall p :: p in ps ==> !IsExclusion(p) {
      forall p | p in ps ensures forall k :: k in p ==> p[k] == Include {
        ModeFlags(p);
      }
      assert KeysFlagged(ps, Exclude) == {};
    }
  }

  lemma GroupDeniedExactly(ps: seq<Projection>, rs: seq<Projection>)
    requires ps != [] && UnionProjections(ps + rs).Returned?
    ensures var u := UnionOf([UnionOf(ps)] + rs);
      forall d :: d in GroupDenied(ps, rs) <==> d in u && u[d] == Exclude
  {
    Parts(ps, rs);
    var u := UnionOf(ps);
    var grouped := [u] + rs;
    assert forall p :: p in grouped <==> p == u || p in rs;
    WholeDeniedExactly(grouped);
    if map[] !in ps && map[] !in rs {
      if exists p :: p in ps && IsExclusion(p) {
        ExclusionGroup(ps, rs, u, grouped);
      } else {
        InclusionGroup(ps, rs, u, grouped);
      }
    } else {
      assert map[] in grouped;
    }
  }

  /** The keys of grants one of which is the projection `u` of one flag. */
  lemma GroupKeys(u: Projection, keys: set<string>, flag: Flag, rs: seq<Projection>, grouped: seq<Projection>)
    requires u == AllOf(keys, flag) && forall p :: p in grouped <==> p == u || p in rs
    ensures KeysFlagged(grouped, flag) == keys + KeysFlagged(rs, flag)
    ensures forall other :: other != flag ==> KeysFlagged(grouped, other) == KeysFlagged(rs, other)
  {
    assert u in grouped;
    assert forall k :: k in u <==> k in keys;
  }

  lemma ExclusionGroup(ps: seq<Projection>, rs: seq<Projection>, u: Projection, grouped: seq<Projection>)
    requires map[] !in ps && map[] !in rs && ps != [] && UnionProjections(ps).Returned? && u == UnionOf(ps)
    requires exists p :: p in ps && IsExclusion(p)
    requires forall p :: p in grouped <==> p == u || p in rs
    ensures WholeDenied(grouped) == GroupDenied(ps, rs)
  {
    var keys := StillDenied(ps);
    assert u == AllOf(keys, Exclude) && u in grouped;
    if keys == {} {
      assert u == map[];
    } else {
      assert u != map[] && IsExclusion(u) && map[] !in grouped;
      GroupKeys(u, keys, Exclude, rs, grouped);
      GroupDenials(u, keys, rs, grouped);
    }
  }

  lemma GroupDenials(u: Projection, keys: set<string>, rs: seq<Projection>, grouped: seq<Projection>)
    requires IsExclusion(u) && u.Keys == keys && forall p :: p in grouped <==> p == u || p in rs
    ensures forall d :: DeniedByEveryExclusion(grouped, d) <==> CoveredBy(keys, d) && DeniedByEveryExclusion(rs, d)
  {
    assert u in grouped;
  }

  lemma InclusionGroup(ps: seq<Projection>, rs: seq<Projection>, u: Projection, grouped: seq<Projection>)
    requires map[] !in ps && map[] !in rs && ps != [] && UnionProjections(ps).Returned? && u == UnionOf(ps)
    requires forall p :: p in ps ==> !IsExclusion(p)
    requires forall p :: p in grouped <==> p == u || p in rs
    ensures WholeDenied(grouped) == GroupDenied(ps, rs)
  {
    var keys := KeysFlagged(ps, Include);
    assert ps[0] in ps;
    ModeFlags(ps[0]);
    var k :| k in ps[0];
    assert k in keys;
    assert u == AllOf(keys, Include) && u != map[] && map[] !in grouped && u in grouped;
    GroupKeys(u, keys, Include, rs, grouped);
    assert forall d :: DeniedByEveryExclusion(grouped, d) <==> DeniedByEveryExclusion(rs, d);
  }

  /** Grouping some grants first changes nothing if and only if the included keys are clear of what it denies. */
  lemma GroupingExactIff(ps: seq<Projection>, rs: seq<Projection>)
    requires ps != [] && UnionProjections(ps + rs).Returned?
    ensures (forall f :: Grants(UnionOf([UnionOf(ps)] + rs), f) <==> Grants(UnionOf(ps + rs), f)) <==> KeysClear(ps, rs)
  {
    Parts(ps, rs);
    WholeDeniedExactly(ps + rs);
    GroupDeniedExactly(ps, rs);
    var all, grouped := ps + rs, [UnionOf(ps)] + rs;
    if KeysClear(ps, rs) {
      forall f ensures Grants(UnionOf(grouped), f) <==> Grants(UnionOf(all), f) {
        if Grants(UnionOf(grouped), f) {
          GroupingNeverWidens(ps, rs, f);
        } else if Grants(UnionOf(all), f) {
          ClearKeyGranted(ps, rs, f);
        }
      }
    } else {
      var f := UnclearKeyLost(ps, rs);
    }
  }

  /** A key that is not clear: the whole union grants a path the grouped one denies. */
  lemma UnclearKeyLost(ps: seq<Projection>, rs: seq<Projection>) returns (f: string)
    requires ps != [] && UnionProjections(ps + rs).Returned? && !KeysClear(ps, rs)
    ensures Grants(UnionOf(ps + rs), f) && !Grants(UnionOf([UnionOf(ps)] + rs), f)
  {
    Parts(ps, rs);
    WholeDeniedExactly(ps + rs);
    GroupDeniedExactly(ps, rs);
    var all, u := ps + rs, UnionOf([UnionOf(ps)] + rs);
    var i, d :| i in KeysFlagged(all, Include) && !(exists w :: w in WholeDenied(all) && Below(i, w))
      && d in GroupDenied(ps, rs) && Comparable(d, i);
    f := if Covers(d, i) then i else d;
    assert Covers(i, i) && Covers(d, d);
    IncludedKeyKept(all, i, f);
    ModeFlags(u);
    assert u[d] in u.Values;
    assert d in u.Keys && Covers(d, f);
  }

  lemma OpenKeptInGroup(ps: seq<Projection>, rs: seq<Projection>, p: Projection, f: string)
    requires ps != [] && UnionProjections(ps + rs).Returned?
    requires p in ps + rs && ModeOf(p) != Inclusion && Grants(p, f)
    ensures Grants(UnionOf([UnionOf(ps)] + rs), f)
  {
    Parts(ps, rs);
    var u := UnionOf(ps);
    assert u in [u] + rs;
    if p in rs {
      assert p in [u] + rs;
      OpenGrantKept([u] + rs, p, f);
    } else {
      OpenGrantKept(ps, p, f);
      if IsExclusion(p) {
        UnionMode(ps);
      }
      OpenGrantKept([u] + rs, u, f);
    }
  }

  /** A path the grouped union denies below an honoured key meets a key it excludes. */
  lemma DeniedKey(ps: seq<Projection>, rs: seq<Projection>, i: string, f: string) returns (d: string)
    requires ps != [] && UnionProjections(ps + rs).Returned? && i in KeysFlagged(ps + rs, Include) && Covers(i, f)
    requires !Grants(UnionOf([UnionOf(ps)] + rs), f)
    ensures d in UnionOf([UnionOf(ps)] + rs) && UnionOf([UnionOf(ps)] + rs)[d] == Exclude && Comparable(d, i)
  {
    Parts(ps, rs);
    var grouped := [UnionOf(ps)] + rs;
    ModeFlags(UnionOf(grouped));
    if ModeOf(UnionOf(grouped)) == Inclusion {
      IncludedInGroup(ps, rs, i);
    }
    d :| d in UnionOf(grouped).Keys && Covers(d, f);
    AncestorsComparable(d, i, f);
  }

  lemma IncludedInGroup(ps: seq<Projection>, rs: seq<Projection>, i: string)
    requires ps != [] && UnionProjections(ps + rs).Returned? && i in KeysFlagged(ps + rs, Include)
    requires ModeOf(UnionOf([UnionOf(ps)] + rs)) == Inclusion
    ensures i in UnionOf([UnionOf(ps)] + rs)
  {
    Parts(ps, rs);
    var u := UnionOf(ps);
    var grouped := [u] + rs;
    assert u in grouped;
    ModeFlags(UnionOf(grouped));
    var p :| p in ps + rs && i in p && p[i] == Include;
    if p in rs {
      assert p in grouped;
    } else {
      assert p in ps && i in KeysFlagged(ps, Include);
      if exists q :: q in ps && IsExclusion(q) {
        UnionMode(ps);
      }
      assert u != map[] && !IsExclusion(u) by {
        assert IsExclusion(u) ==> UnionOf(grouped) == AllOf(StillDenied(grouped), Exclude);
      }
      assert i in u && u[i] == Include;
    }
    assert i in KeysFlagged(grouped, Include);
  }

  lemma ClearKeyGranted(ps: seq<Projection>, rs: seq<Projection>, f: string)
    requires ps != [] && UnionProjections(ps + rs).Returned? && KeysClear(ps, rs) && Grants(UnionOf(ps + rs), f)
    ensures Grants(UnionOf([UnionOf(ps)] + rs), f)
  {
    Parts(ps, rs);
    WholeDeniedExactly(ps + rs);
    GroupDeniedExactly(ps, rs);
    var all, u := ps + rs, UnionOf(ps);
    var grouped := [u] + rs;
    UnionGrantsExactly(all, f);
    if exists p :: p in all && ModeOf(p) != Inclusion && Grants(p, f) {
      var p :| p in all && ModeOf(p) != Inclusion && Grants(p, f);
      OpenKeptInGroup(ps, rs, p, f);
    } else {
      var i :| i in KeysFlagged(all, Include) && Covers(i, f) && !HasAncestorDenied(UnionOf(all), i);
      if !Grants(UnionOf(grouped), f) {
        var d := DeniedKey(ps, rs, i, f);
      }
    }
  }

  // ── So the union is not associative ────────────

  /** Three grants whose two groupings grant different paths. */
  lemma UnionNotAssociative(p: Projection, q: Projection, r: Projection)
    requires p == map["x.b" := Include] && q == map["x" := Exclude] && r == map["x.b" := Exclude]
    ensures Grants(UnionOf([p, UnionOf([q, r])]), "x.b")
    ensures !Grants(UnionOf([UnionOf([p, q]), r]), "x.b")
  {
    SingleKey(p, "x.b", "x");
    SingleKey(q, "x", "x.b");
    SingleKey(r, "x.b", "x");
    // {x:0} ∪ {"x.b":0} does not deny "x", so the include lifts what it denies.
    OpenGrantKept([q, r], r, "x");
    IncludeLifts(p, UnionOf([q, r]));
    // {"x.b":1} ∪ {x:0} denies "x", so both sides of the last union deny "x.b".
    DeniedPair(p, q, "x");
    assert q in [p, q];
    assert IsExclusion(UnionOf([p, q]));
    CoveredByInherited(UnionOf([p, q]).Keys, "x", "x.b");
    DeniedPair(UnionOf([p, q]), r, "x.b");
  }

  lemma IncludeLifts(p: Projection, e: Projection)
    requires p == map["x.b" := Include] && !Mixed(e) && Grants(e, "x")
    ensures Grants(UnionOf([p, e]), "x.b")
  {
    var ps := [p, e];
    var u := UnionOf(ps);
    assert p in ps && e in ps && forall g :: g in ps ==> g == p || g == e;
    SingleKey(p, "x.b", "x");
    ModeFlags(u);
    assert "x.b" in KeysFlagged(ps, Include);
    assert ModeOf(u) == Exclusion ==> "x" !in u;
    forall d | Below("x.b", d) ensures d == "x" {
      BelowIsDotPrefix("x.b", d);
      assert |d| == 1;
    }
    IncludedKeyKept(ps, "x.b", "x.b");
  }
}
