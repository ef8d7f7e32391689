/**
 Field projections (`{ field: 0 | 1 }`) and the additive union of several grants.
 A projection denotes the set of paths it grants.
 */
module Projections {
  import opened Options
  import opened DottedPaths

  /** The value of a projection key: `1` or `0`. */
  datatype Flag = Include | Exclude

  type Projection = map<string, Flag>

  datatype Mode = Inclusion | Exclusion | Empty

  /** Both 0 and 1 occur: an invalid projection. */
  predicate Mixed(p: Projection) {
    Include in p.Values && Exclude in p.Values
  }

  function ModeOf(p: Projection): Mode {
    if p == map[] then Empty else if Include in p.Values then Inclusion else Exclusion
  }

  function GetProjectionMode(p: Projection): Attempt<Mode> {
    if Mixed(p) then Threw else Returned(ModeOf(p))
  }

  /** The paths a projection grants: self-or-ancestor listed, not listed, or everything. */
  predicate Grants(p: Projection, f: string) {
    match ModeOf(p)
    case Empty => true
    case Inclusion => CoveredBy(p.Keys, f)
    case Exclusion => !CoveredBy(p.Keys, f)
  }

  /** The field test: `Grants`, plus the parents of included keys. */
  predicate IsFieldAllowed(f: string, p: Projection) {
    match ModeOf(p)
    case Empty => true
    case Inclusion => CoveredBy(p.Keys, f) || HasDescendant(p.Keys, f)
    case Exclusion => !CoveredBy(p.Keys, f)
  }

  function AllOf(keys: set<string>, flag: Flag): (p: Projection)
    ensures p.Keys == keys && !Mixed(p)
    ensures keys != {} ==> ModeOf(p) == if flag.Include? then Inclusion else Exclusion
  {
    var p := map k | k in keys :: flag;
    if keys == {} then p
    else
      var k: string :| k in keys;
      assert p[k] in p.Values;
      p
  }

  // ── Union: additive grants ────────────

  predicate IsExclusion(p: Projection) {
    ModeOf(p) == Exclusion
  }

  function KeysFlagged(ps: seq<Projection>, flag: Flag): set<string> {
    set p, k | p in ps && k in p && p[k] == flag :: k
  }

  predicate DeniedByEveryExclusion(ps: seq<Projection>, f: string) {
    forall p :: p in ps && IsExclusion(p) ==> CoveredBy(p.Keys, f)
  }

  /** The excluded keys every exclusion denies by path and no included key grants. */
  function StillDenied(ps: seq<Projection>): set<string> {
    set k | k in KeysFlagged(ps, Exclude) && DeniedByEveryExclusion(ps, k) && !CoveredBy(KeysFlagged(ps, Include), k)
  }

  function UnionOf(ps: seq<Projection>): (u: Projection)
    ensures !Mixed(u)
  {
    if map[] in ps || ps == [] then map[]
    else if forall p :: p in ps ==> !IsExclusion(p) then AllOf(KeysFlagged(ps, Include), Include)
    else AllOf(StillDenied(ps), Exclude)
  }

  function UnionProjections(ps: seq<Projection>): Attempt<Projection> {
    if exists p :: p in ps && Mixed(p) then Threw else Returned(UnionOf(ps))
  }

  lemma ModeFlags(p: Projection)
    requires !Mixed(p)
    ensures ModeOf(p) == Inclusion ==> forall k :: k in p ==> p[k] == Include
    ensures ModeOf(p) == Exclusion ==> forall k :: k in p ==> p[k] == Exclude
  {
    forall k | k in p ensures p[k] in p.Values {}
  }

  /** The inner loop over one projection's keys: their common flag, or none when they mix. */
  method ReadFlag(p: Projection) returns (mode: Option<Flag>)
    requires p != map[]
    ensures mode.None? <==> Mixed(p)
    ensures mode.Some? ==> forall k :: k in p ==> p[k] == mode.value
  {
    mode := None;
    var todo := p.Keys;
    while todo != {}
      invariant todo <= p.Keys
      invariant mode == None ==> todo == p.Keys
      invariant mode.Some? ==> exists j :: j in p && j !in todo
      invariant mode.Some? ==> forall k :: k in p.Keys - todo ==> p[k] == mode.value
      decreases todo
    {
      var k :| k in todo;
      if mode.Some? && mode.value != p[k] {
        var j :| j in p && j !in todo;
        assert p[j] in p.Values && p[k] in p.Values;
        return None;
      }
      mode := Some(p[k]);
      todo := todo - {k};
    }
    FlagsGiveMode(p, mode.value);
  }

  lemma FlagsGiveMode(p: Projection, flag: Flag)
    requires p != map[] && forall k :: k in p ==> p[k] == flag
    ensures p.Values == {flag} && !Mixed(p)
    ensures ModeOf(p) == if flag.Include? then Inclusion else Exclusion
  {
    var k :| k in p;
    assert p[k] in p.Values;
  }

  /** The accumulating loops of the union, proved against `UnionProjections`. */
  method MergeProjections(ps: seq<Projection>) returns (r: Attempt<Projection>)
    ensures r == UnionProjections(ps)
  {
    if |ps| == 0 {
      return Returned(map[]);
    }
    var includeKeys: set<string> := {};
    var excludeKeys: seq<set<string>> := [];
    var hasUniverseGrant := false;
    for i := 0 to |ps|
      invariant forall p :: p in ps[..i] ==> !Mixed(p)
      invariant hasUniverseGrant <==> map[] in ps[..i]
      invariant includeKeys == KeysFlagged(ps[..i], Include)
      invariant forall s :: s in excludeKeys <==> exists p :: p in ps[..i] && IsExclusion(p) && p.Keys == s
    {
      var p := ps[i];
      assert ps[..i + 1] == ps[..i] + [p];
      if p == map[] {
        hasUniverseGrant := true;
        assert !Mixed(p);
      } else {
        var flag := ReadFlag(p);
        if flag.None? {
          assert p in ps;
          return Threw;
        }
        FlagsGiveMode(p, flag.value);
        if flag.value == Include {
          includeKeys := includeKeys + p.Keys;
        } else {
          excludeKeys := excludeKeys + [p.Keys];
        }
      }
    }
    assert ps[..|ps|] == ps;
    if hasUniverseGrant {
      return Returned(map[]);
    }
    if |excludeKeys| == 0 {
      forall p | p in ps ensures !IsExclusion(p) {
        assert p.Keys !in excludeKeys;
      }
      return Returned(AllOf(includeKeys, Include));
    }
    assert excludeKeys[0] in excludeKeys;
    ExclusionUnion(ps);
    var candidates := Candidates(excludeKeys);
    var denyAcc := set k | k in candidates && forall s :: s in excludeKeys ==> CoveredBy(s, k);
    var effectivelyExcluded := set k | k in denyAcc && !CoveredBy(includeKeys, k);
    ExcludedAreStillDenied(ps, excludeKeys, candidates, effectivelyExcluded);
    return Returned(AllOf(effectivelyExcluded, Exclude));
  }

  /** Every excluded key, from the exclusions' key sets. */
  method Candidates(excludeKeys: seq<set<string>>) returns (candidates: set<string>)
    ensures candidates == set j, k | 0 <= j < |excludeKeys| && k in excludeKeys[j] :: k
  {
    candidates := {};
    for i := 0 to |excludeKeys|
      invariant candidates == set j, k | 0 <= j < i && k in excludeKeys[j] :: k
    {
      candidates := candidates + excludeKeys[i];
    }
  }

  lemma ExclusionUnion(ps: seq<Projection>)
    requires map[] !in ps && (forall p :: p in ps ==> !Mixed(p)) && exists p :: p in ps && IsExclusion(p)
    ensures UnionProjections(ps) == Returned(AllOf(StillDenied(ps), Exclude))
  {
  }

  lemma ExcludedAreStillDenied(ps: seq<Projection>, excludeKeys: seq<set<string>>, candidates: set<string>,
                               excluded: set<string>)
    requires forall p :: p in ps ==> !Mixed(p)
    requires forall s :: s in excludeKeys <==> exists p :: p in ps && IsExclusion(p) && p.Keys == s
    requires candidates == set j, k | 0 <= j < |excludeKeys| && k in excludeKeys[j] :: k
    requires excluded == set k | k in candidates && (forall s :: s in excludeKeys ==> CoveredBy(s, k))
                                 && !CoveredBy(KeysFlagged(ps, Include), k)
    ensures excluded == StillDenied(ps)
  {
    CandidatesAreExcludedKeys(ps, excludeKeys, candidates);
    forall k | k in candidates
      ensures (forall s :: s in excludeKeys ==> CoveredBy(s, k)) <==> DeniedByEveryExclusion(ps, k) {
      assert forall p :: p in ps && IsExclusion(p) ==> p.Keys in excludeKeys;
    }
  }

  lemma CandidatesAreExcludedKeys(ps: seq<Projection>, excludeKeys: seq<set<string>>, candidates: set<string>)
    requires forall p :: p in ps ==> !Mixed(p)
    requires forall s :: s in excludeKeys <==> exists p :: p in ps && IsExclusion(p) && p.Keys == s
    requires candidates == set j, k | 0 <= j < |excludeKeys| && k in excludeKeys[j] :: k
    ensures candidates == KeysFlagged(ps, Exclude)
  {
    forall k ensures k in candidates <==> k in KeysFlagged(ps, Exclude) {
      if k in candidates {
        var j :| 0 <= j < |excludeKeys| && k in excludeKeys[j];
        assert excludeKeys[j] in excludeKeys;
        var p :| p in ps && IsExclusion(p) && p.Keys == excludeKeys[j];
        ModeFlags(p);
      }
      if k in KeysFlagged(ps, Exclude) {
        var p :| p in ps && k in p && p[k] == Exclude;
        assert p[k] in p.Values;
        assert p.Keys in excludeKeys;
        var j :| 0 <= j < |excludeKeys| && excludeKeys[j] == p.Keys;
      }
    }
  }

  /** A path every exclusion denies and no inclusion grants is denied by the union. */
  lemma DeniedEverywhere(ps: seq<Projection>, f: string)
    requires ps != [] && map[] !in ps
    requires forall p :: p in ps ==> !Mixed(p)
    requires forall p :: p in ps ==> !Grants(p, f)
    ensures !Grants(UnionOf(ps), f)
  {
    NotIncluded(ps, f);
    if forall p :: p in ps ==> !IsExclusion(p) {
      var k0 :| k0 in ps[0];
      assert ps[0] in ps;
      ModeFlags(ps[0]);
      assert k0 in KeysFlagged(ps, Include);
    } else {
      var d := StillDeniedAbove(ps, f);
      assert d in StillDenied(ps);
    }
  }

  /** The deepest excluded key above a path every exclusion denies and no include grants is still denied. */
  lemma StillDeniedAbove(ps: seq<Projection>, f: string) returns (d: string)
    requires forall p :: p in ps ==> !Mixed(p) && !Grants(p, f)
    requires !CoveredBy(KeysFlagged(ps, Include), f) && exists p :: p in ps && IsExclusion(p)
    ensures d in StillDenied(ps) && Covers(d, f)
  {
    var covers := set k | k in KeysFlagged(ps, Exclude) && Covers(k, f);
    var p :| p in ps && IsExclusion(p);
    assert !Grants(p, f);
    var k :| k in p.Keys && Covers(k, f);
    ModeFlags(p);
    assert k in covers;
    d := DeepestCover(covers, f);
    forall q | q in ps && IsExclusion(q) ensures CoveredBy(q.Keys, d) {
      CoverAbove(ps, q, f, covers, d);
    }
    if CoveredBy(KeysFlagged(ps, Include), d) {
      CoveredByInherited(KeysFlagged(ps, Include), d, f);
    }
  }

  lemma CoverAbove(ps: seq<Projection>, q: Projection, f: string, covers: set<string>, d: string)
    requires q in ps && IsExclusion(q) && !Mixed(q) && !Grants(q, f)
    requires forall k :: k in KeysFlagged(ps, Exclude) && Covers(k, f) ==> k in covers
    requires forall k :: k in covers ==> Covers(k, d)
    ensures CoveredBy(q.Keys, d)
  {
    var j :| j in q.Keys && Covers(j, f);
    ModeFlags(q);
    assert j in covers;
  }

  /** An included key above a path grants it. */
  lemma NotIncluded(ps: seq<Projection>, f: string)
    requires forall p :: p in ps ==> !Mixed(p) && !Grants(p, f)
    ensures !CoveredBy(KeysFlagged(ps, Include), f)
  {
    if CoveredBy(KeysFlagged(ps, Include), f) {
      var k :| k in KeysFlagged(ps, Include) && Covers(k, f);
      var p :| p in ps && k in p && p[k] == Include;
      ModeFlags(p);
      assert Grants(p, f);
    }
  }

  /** More roles never grant a path no role grants. */
  lemma UnionNeverWidens(ps: seq<Projection>, f: string)
    requires ps != [] && UnionProjections(ps).Returned?
    requires Grants(UnionProjections(ps).value, f)
    ensures exists p :: p in ps && Grants(p, f)
  {
    if map[] in ps {
      assert Grants(map[], f);
    } else if forall p :: p in ps ==> !Grants(p, f) {
      DeniedEverywhere(ps, f);
    }
  }

  /** `i` lies strictly below a key the exclusion `u` denies. */
  predicate HasAncestorDenied(u: Projection, i: string) {
    exists d :: d in u && u[d] == Exclude && Below(i, d)
  }

  /**
   Exactly what the union grants: what an empty or exclusion projection grants,
   and what lies under an included key not itself below a key the result
   still denies (such a key cannot be carved out without a schema).
   */
  lemma UnionGrantsExactly(ps: seq<Projection>, f: string)
    requires ps != [] && UnionProjections(ps).Returned?
    ensures var u := UnionProjections(ps).value;
            Grants(u, f) <==>
            || (exists p :: p in ps && ModeOf(p) != Inclusion && Grants(p, f))
            || (exists i :: i in KeysFlagged(ps, Include) && Covers(i, f) && !HasAncestorDenied(u, i))
  {
    var u := UnionOf(ps);
    ModeFlags(u);
    if Grants(u, f) {
      UnionNeverWidens(ps, f);
      var p :| p in ps && Grants(p, f);
      if ModeOf(p) == Inclusion {
        ModeFlags(p);
        var i :| i in p.Keys && Covers(i, f);
        assert i in KeysFlagged(ps, Include);
        if HasAncestorDenied(u, i) {
          var d :| d in u && u[d] == Exclude && Below(i, d);
          CoversTransitive(d, i, f);
        }
      }
    }
    if exists p :: p in ps && ModeOf(p) != Inclusion && Grants(p, f) {
      var p :| p in ps && ModeOf(p) != Inclusion && Grants(p, f);
      OpenGrantKept(ps, p, f);
    } else if exists i :: i in KeysFlagged(ps, Include) && Covers(i, f) && !HasAncestorDenied(u, i) {
      var i :| i in KeysFlagged(ps, Include) && Covers(i, f) && !HasAncestorDenied(u, i);
      IncludedKeyKept(ps, i, f);
    }
  }

  lemma OpenGrantKept(ps: seq<Projection>, p: Projection, f: string)
    requires p in ps && ModeOf(p) != Inclusion && Grants(p, f)
    requires UnionProjections(ps).Returned?
    ensures Grants(UnionOf(ps), f)
  {
    var u := UnionOf(ps);
    if map[] !in ps && CoveredBy(u.Keys, f) {
      assert IsExclusion(p);
      var d :| d in u.Keys && Covers(d, f);
      assert d in StillDenied(ps);
      CoveredByInherited(p.Keys, d, f);
      assert false;
    }
  }

  lemma IncludedKeyKept(ps: seq<Projection>, i: string, f: string)
    requires i in KeysFlagged(ps, Include) && Covers(i, f)
    requires UnionProjections(ps).Returned?
    requires !HasAncestorDenied(UnionOf(ps), i)
    ensures Grants(UnionOf(ps), f)
  {
    var u := UnionOf(ps);
    ModeFlags(u);
    if ModeOf(u) == Exclusion && CoveredBy(u.Keys, f) {
      var d :| d in u.Keys && Covers(d, f);
      assert d in StillDenied(ps);
      AncestorsComparable(i, d, f);
      assert false;
    }
  }

  /** The union depends on which projections occur, not on their order or repetition. */
  lemma UnionIgnoresOrder(ps: seq<Projection>, qs: seq<Projection>)
    requires forall p :: p in ps <==> p in qs
    ensures UnionProjections(ps) == UnionProjections(qs)
  {
    assert KeysFlagged(ps, Include) == KeysFlagged(qs, Include);
    assert KeysFlagged(ps, Exclude) == KeysFlagged(qs, Exclude);
    assert StillDenied(ps) == StillDenied(qs);
    assert |ps| > 0 ==> ps[0] in qs;
    assert |qs| > 0 ==> qs[0] in ps;
  }

  /** A one-element union is the identity: a composite scope passes every union site unchanged. */
  lemma UnionOfOne(p: Projection)
    requires !Mixed(p)
    ensures UnionProjections([p]) == Returned(p)
  {
    ModeFlags(p);
    var ps := [p];
    assert p in ps && forall q :: q in ps ==> q == p;
    if p == map[] {
    } else if IsExclusion(p) {
      assert KeysFlagged(ps, Include) == {};
      forall k | k in p.Keys ensures k in StillDenied(ps) {
        assert Covers(k, k);
      }
      assert StillDenied(ps) == p.Keys;
      SameFlags(p, Exclude);
    } else {
      assert KeysFlagged(ps, Include) == p.Keys;
      SameFlags(p, Include);
    }
  }

  lemma SameFlags(p: Projection, flag: Flag)
    requires forall k :: k in p ==> p[k] == flag
    ensures AllOf(p.Keys, flag) == p
  {
  }

  // ── Small unions ────────────

  lemma SingleKey(p: Projection, k: string, f: string)
    requires p.Keys == {k}
    ensures !Mixed(p) && ModeOf(p) == if p[k] == Include then Inclusion else Exclusion
    ensures CoveredBy(p.Keys, f) <==> Covers(k, f)
    ensures CoveredBy(p.Keys, k)
  {
    assert p[k] in p.Values;
    assert Covers(k, k);
  }

  lemma DeniedPair(p: Projection, q: Projection, f: string)
    requires !Mixed(p) && !Mixed(q) && !Grants(p, f) && !Grants(q, f)
    ensures !Grants(UnionOf([p, q]), f)
  {
    if Grants(UnionOf([p, q]), f) {
      UnionNeverWidens([p, q], f);
    }
  }
}
