/**
 Field visibility made executable for a table: the projection test compiled to
 set lookups, and the projection normalized for JSON columns and derived ones.
 */
module Visibility {
  import opened Options
  import opened DottedPaths
  import opened Projections

  // ── The compiled field test ────────────

  /** No dot at index 0, where the prefix walk would not move on. */
  predicate PlainName(k: string) {
    k != "" ==> k[0] != '.'
  }

  /** Every proper dotted prefix of the key, one dot at a time from its end. */
  method ProperParents(key: string) returns (parents: set<string>)
    requires PlainName(key)
    ensures forall f :: f in parents <==> Below(key, f)
  {
    parents := {};
    var pos := LastDot(key, |key| - 1);
    forall f ensures !(Below(key, f) && |f| > pos) {
      BelowIsDotPrefix(key, f);
    }
    while pos != -1
      invariant -1 <= pos < |key|
      invariant pos >= 0 ==> key[pos] == '.'
      invariant forall f :: f in parents <==> Below(key, f) && |f| > pos
      decreases pos
    {
      var next := LastDot(key, pos - 1);
      forall f ensures f in parents || f == key[..pos] <==> Below(key, f) && |f| > next {
        BelowIsDotPrefix(key, f);
      }
      parents := parents + {key[..pos]};
      pos := next;
    }
    forall f | Below(key, f) ensures |f| > -1 {}
  }

  /** The mode and the key sets are computed once; the result is asked for every path. */
  method CompileProjection(projection: Projection) returns (r: Attempt<string -> bool>)
    requires forall k :: k in projection ==> PlainName(k)
    ensures r.Threw? <==> Mixed(projection)
    ensures r.Returned? ==> forall f :: r.value(f) <==> IsFieldAllowed(f, projection)
  {
    if projection == map[] {
      assert !Mixed(projection);
      return Returned(path => true);
    }
    var mode :- GetProjectionMode(projection);
    var listed := projection.Keys;
    if mode == Exclusion {
      return Returned(path => !CoveredBy(listed, path));
    }
    var parents: set<string> := {};
    var todo := listed;
    while todo != {}
      invariant todo <= listed
      invariant forall f :: f in parents <==> HasDescendant(listed - todo, f)
      decreases todo
    {
      var key :| key in todo;
      var more := ProperParents(key);
      forall f ensures f in parents + more <==> HasDescendant(listed - (todo - {key}), f) {
        if f in more {
          assert key in listed - (todo - {key}) && Below(key, f);
        }
        if HasDescendant(listed - todo, f) {
          var k :| k in listed - todo && Below(k, f);
          assert k in listed - (todo - {key});
        }
      }
      parents := parents + more;
      todo := todo - {key};
    }
    assert listed - {} == listed;
    return Returned(path => path in parents || CoveredBy(listed, path));
  }

  // ── JSON columns and derived columns ────────────

  /** What the rules read from a table: its atomic JSON columns, and each derived column's source. */
  datatype TablePolicy = TablePolicy(json: set<string>, derived: map<string, string>)

  /** The nearest-column lookup: a JSON column strictly above the key, when there is one. */
  ghost predicate FindsColumn(find: string -> Option<string>, json: set<string>) {
    && (forall k :: find(k).Some? ==> find(k).value in json && Below(k, find(k).value))
    && (forall k, c :: find(k).None? && c in json ==> !Below(k, c))
  }

  ghost predicate NearIdentifier(identifiers: set<string>, f: string) {
    exists id :: id in identifiers && Comparable(id, f)
  }

  /** Nothing hidden becomes visible, identifiers aside. */
  ghost predicate NeverReveals(out: Projection, allowed: Projection, identifiers: set<string>) {
    forall f :: IsFieldAllowed(f, out) ==> IsFieldAllowed(f, allowed) || NearIdentifier(identifiers, f)
  }

  /** The keys of an exclusion are still covered, or those of a whitelist are no more. */
  ghost predicate Tightened(out: Projection, allowed: Projection, flag: Flag) {
    && (forall k :: k in out ==> out[k] == flag)
    && (if flag == Exclude then forall k :: k in allowed ==> CoveredBy(out.Keys, k) else out.Keys <= allowed.Keys)
  }

  lemma TightenedNeverReveals(out: Projection, allowed: Projection, flag: Flag, identifiers: set<string>)
    requires allowed != map[] && out != map[] && Tightened(out, allowed, flag)
    requires forall k :: k in allowed ==> allowed[k] == flag
    ensures NeverReveals(out, allowed, identifiers)
  {
    FlagsGiveMode(out, flag);
    FlagsGiveMode(allowed, flag);
    forall f | IsFieldAllowed(f, out) ensures IsFieldAllowed(f, allowed) {
      if flag == Exclude && CoveredBy(allowed.Keys, f) {
        var k :| k in allowed.Keys && Covers(k, f);
        CoveredByInherited(out.Keys, k, f);
      }
    }
  }

  lemma IdentifiersReveal(out: Projection, allowed: Projection, identifiers: set<string>)
    requires identifiers != {} && out == AllOf(identifiers, Include)
    ensures out != map[] && NeverReveals(out, allowed, identifiers)
  {
    FlagsGiveMode(out, Include);
    forall f | IsFieldAllowed(f, out) ensures NearIdentifier(identifiers, f) {
      var k :| k in identifiers && (Covers(k, f) || Below(k, f));
      assert Comparable(k, f);
    }
  }

  /** No key lies inside a JSON column, so each is visible whole or not at all. */
  ghost predicate KeepsColumnsWhole(p: Projection, json: set<string>) {
    forall k, c :: k in p && c in json ==> !Below(k, c)
  }

  /** JSON columns are not nested, and no derived column sits inside one. */
  ghost predicate PlainColumns(policy: TablePolicy) {
    && (forall c, d :: c in policy.json && d in policy.json ==> !Below(d, c))
    && (forall k, c :: k in policy.derived && c in policy.json ==> !Below(k, c))
  }

  lemma WholeColumns(p: Projection, json: set<string>, column: string, f: string)
    requires KeepsColumnsWhole(p, json) && column in json && Below(f, column) && !Mixed(p)
    ensures IsFieldAllowed(f, p) <==> IsFieldAllowed(column, p)
  {
    forall k | k in p.Keys ensures Covers(k, f) <==> Covers(k, column) {
      if Covers(k, f) {
        AncestorsComparable(k, column, f);
      }
      if Covers(k, column) {
        CoversTransitive(k, column, f);
      }
    }
    forall k | k in p.Keys ensures !Below(k, f) && !Below(k, column) {
      if Below(k, f) {
        BelowTransitive(column, f, k);
      }
    }
  }

  /** One folded key: gone, and its column excluded in its place. */
  function Fold(p: Projection, key: string, column: string, flag: Flag): Projection {
    if flag == Exclude then (p - {key})[column := Exclude] else p - {key}
  }

  lemma FoldStaysTight(p: Projection, allowed: Projection, flag: Flag, key: string, column: string)
    requires Tightened(p, allowed, flag) && Below(key, column)
    ensures Tightened(Fold(p, key, column, flag), allowed, flag)
  {
    var out := Fold(p, key, column, flag);
    if flag == Exclude {
      forall k | k in allowed ensures CoveredBy(out.Keys, k) {
        assert CoveredBy(p.Keys, k);
        var j :| j in p.Keys && Covers(j, k);
        if j == key {
          CoversTransitive(column, key, k);
          assert column in out.Keys;
        } else {
          assert j in out.Keys;
        }
      }
    }
  }

  /** The keys outside `todo` lie inside no JSON column. */
  ghost predicate FoldedBut(p: Projection, todo: set<string>, json: set<string>) {
    forall k, c :: k in p && k !in todo && c in json ==> !Below(k, c)
  }

  /** The loop so far: nothing revealed, and the keys outside `todo` folded. */
  ghost predicate Folding(p: Projection, allowed: Projection, flag: Flag, todo: set<string>, policy: TablePolicy) {
    && Tightened(p, allowed, flag) && p.Keys <= allowed.Keys + policy.json
    && (PlainColumns(policy) ==> FoldedBut(p, todo, policy.json))
  }

  lemma FoldStep(p: Projection, allowed: Projection, flag: Flag, todo: set<string>, policy: TablePolicy,
                 find: string -> Option<string>, key: string)
    requires key in todo && Folding(p, allowed, flag, todo, policy) && FindsColumn(find, policy.json)
    ensures var folded := if find(key).Some? then Fold(p, key, find(key).value, flag) else p;
            Folding(folded, allowed, flag, todo - {key}, policy)
  {
    if find(key).Some? {
      FoldStaysTight(p, allowed, flag, key, find(key).value);
    }
  }

  /** The key lies inside no JSON column. */
  ghost predicate Outside(key: string, json: set<string>) {
    forall c :: c in json ==> !Below(key, c)
  }

  /** An excluded key inside the column excludes the column. */
  ghost predicate FoldedOnto(allowed: Projection, flag: Flag, json: set<string>, column: string) {
    flag == Exclude && column in json && exists k :: k in allowed && Below(k, column)
  }

  /** The keys of the folded projection, whichever way the loop goes. */
  ghost predicate FoldsTo(out: Projection, allowed: Projection, flag: Flag, policy: TablePolicy) {
    && (forall k :: k in allowed && Outside(k, policy.json) ==> k in out)
    && (flag == Include || PlainColumns(policy) ==>
         forall k :: k in out <==>
           (k in allowed && Outside(k, policy.json)) || FoldedOnto(allowed, flag, policy.json, k))
  }

  /** The same with the keys of `todo` still to fold. */
  ghost predicate FoldsSoFar(p: Projection, allowed: Projection, flag: Flag, todo: set<string>, policy: TablePolicy) {
    && (forall k :: k in allowed && (k in todo || Outside(k, policy.json)) ==> k in p)
    && (flag == Include || PlainColumns(policy) ==>
         forall k :: k in p <==>
           || (k in allowed && (k in todo || Outside(k, policy.json)))
           || FoldedSoFar(allowed, flag, todo, policy.json, k))
  }

  ghost predicate FoldedSoFar(allowed: Projection, flag: Flag, todo: set<string>, json: set<string>, column: string) {
    flag == Exclude && column in json && exists k :: k in allowed && k !in todo && Below(k, column)
  }

  lemma FoldsFromStart(allowed: Projection, flag: Flag, policy: TablePolicy)
    ensures FoldsSoFar(allowed, allowed, flag, allowed.Keys, policy)
  {
  }

  lemma FoldsAtEnd(p: Projection, allowed: Projection, flag: Flag, policy: TablePolicy)
    requires FoldsSoFar(p, allowed, flag, {}, policy)
    ensures FoldsTo(p, allowed, flag, policy)
  {
    if flag == Include || PlainColumns(policy) {
      assert forall k :: FoldedSoFar(allowed, flag, {}, policy.json, k) <==> FoldedOnto(allowed, flag, policy.json, k);
    }
  }

  lemma FoldsOneMore(p: Projection, allowed: Projection, flag: Flag, todo: set<string>, policy: TablePolicy,
                     find: string -> Option<string>, key: string)
    requires key in todo && todo <= allowed.Keys && FoldsSoFar(p, allowed, flag, todo, policy)
    requires FindsColumn(find, policy.json)
    ensures var folded := if find(key).Some? then Fold(p, key, find(key).value, flag) else p;
            FoldsSoFar(folded, allowed, flag, todo - {key}, policy)
  {
    var folded := if find(key).Some? then Fold(p, key, find(key).value, flag) else p;
    if find(key).Some? {
      assert !Outside(key, policy.json);
    } else {
      assert Outside(key, policy.json);
    }
    if flag == Include || PlainColumns(policy) {
      forall k ensures k in folded <==>
        || (k in allowed && (k in todo - {key} || Outside(k, policy.json)))
        || FoldedSoFar(allowed, flag, todo - {key}, policy.json, k) {
        FoldedOneMore(allowed, flag, todo, policy, find, key, k);
      }
    }
  }

  lemma FoldedOneMore(allowed: Projection, flag: Flag, todo: set<string>, policy: TablePolicy,
                      find: string -> Option<string>, key: string, column: string)
    requires key in todo && todo <= allowed.Keys && FindsColumn(find, policy.json)
    requires flag == Include || PlainColumns(policy)
    ensures FoldedSoFar(allowed, flag, todo - {key}, policy.json, column) <==>
      FoldedSoFar(allowed, flag, todo, policy.json, column) || (flag == Exclude && find(key) == Some(column))
    ensures FoldedSoFar(allowed, flag, todo, policy.json, column) ==> Outside(column, policy.json)
  {
    if flag == Exclude && column in policy.json && Below(key, column) {
      OneColumnAbove(policy, find, key, column);
    }
  }

  /** Columns that are not nested: the one found above a key is the only one. */
  lemma OneColumnAbove(policy: TablePolicy, find: string -> Option<string>, key: string, column: string)
    requires PlainColumns(policy) && FindsColumn(find, policy.json) && column in policy.json && Below(key, column)
    ensures find(key) == Some(column)
  {
    if find(key).Some? {
      AncestorsComparable(find(key).value, column, key);
    }
  }

  /** Fold the keys inside JSON columns onto the columns. */
  method FoldJson(allowed: Projection, flag: Flag, policy: TablePolicy,
                  find: string -> Option<string>) returns (out: Projection)
    requires Tightened(allowed, allowed, flag) && FindsColumn(find, policy.json)
    ensures Tightened(out, allowed, flag) && out.Keys <= allowed.Keys + policy.json
    ensures PlainColumns(policy) ==> KeepsColumnsWhole(out, policy.json)
    ensures FoldsTo(out, allowed, flag, policy)
  {
    out := allowed;
    var todo := allowed.Keys;
    FoldsFromStart(allowed, flag, policy);
    while todo != {}
      invariant todo <= allowed.Keys && Folding(out, allowed, flag, todo, policy)
      invariant FoldsSoFar(out, allowed, flag, todo, policy)
      decreases todo
    {
      var key :| key in todo;
      FoldStep(out, allowed, flag, todo, policy, find, key);
      FoldsOneMore(out, allowed, flag, todo, policy, find, key);
      var column := find(key);
      if column.Some? {
        out := Fold(out, key, column.value, flag);
      }
      todo := todo - {key};
    }
    FoldsAtEnd(out, allowed, flag, policy);
  }

  /** An exclusion is never emptied. */
  lemma TightenedNonEmpty(p: Projection, allowed: Projection)
    requires Tightened(p, allowed, Exclude) && allowed != map[]
    ensures p != map[]
  {
    var k :| k in allowed;
    assert CoveredBy(p.Keys, k);
  }

  lemma AllCovered(p: Projection, flag: Flag)
    requires forall k :: k in p ==> p[k] == flag
    ensures Tightened(p, p, flag)
  {
  }

  /** The projection hides the source of the derived column. */
  predicate LosesSource(policy: TablePolicy, identifiers: set<string>, visible: string -> bool, path: string)
    requires path in policy.derived
  {
    policy.derived[path] !in identifiers && !visible(policy.derived[path])
  }

  /** A lost column is no longer whitelisted by name; one still visible is excluded. */
  predicate AfterLoss(start: Projection, flag: Flag, visible: string -> bool, path: string, lost: bool) {
    if flag == Include then path in start && !lost else path in start || (lost && visible(path))
  }

  /** Drop (or exclude) the derived columns whose source the projection hides, and no other. */
  method HideDerived(start: Projection, allowed: Projection, flag: Flag, policy: TablePolicy, identifiers: set<string>,
                     visible: string -> bool)
    returns (out: Projection)
    requires Tightened(start, allowed, flag)
    ensures Tightened(out, allowed, flag) && out.Keys <= start.Keys + policy.derived.Keys
    ensures PlainColumns(policy) && KeepsColumnsWhole(start, policy.json) ==> KeepsColumnsWhole(out, policy.json)
    ensures forall path :: path in out <==>
      AfterLoss(start, flag, visible, path, path in policy.derived && LosesSource(policy, identifiers, visible, path))
  {
    out := start;
    var todo := policy.derived.Keys;
    while todo != {}
      invariant todo <= policy.derived.Keys && Tightened(out, allowed, flag)
      invariant out.Keys <= start.Keys + policy.derived.Keys
      invariant PlainColumns(policy) && KeepsColumnsWhole(start, policy.json) ==> KeepsColumnsWhole(out, policy.json)
      invariant forall path :: path in out <==>
        AfterLoss(start, flag, visible, path,
                  path in policy.derived && path !in todo && LosesSource(policy, identifiers, visible, path))
      decreases todo
    {
      var path :| path in todo;
      if LosesSource(policy, identifiers, visible, path) {
        if flag == Exclude {
          if visible(path) {
            CoverGrows(out.Keys, out.Keys + {path}, allowed.Keys);
            out := out[path := Exclude];
          }
        } else if path in out {
          out := out - {path};
        }
      }
      todo := todo - {path};
    }
  }

  lemma CoverGrows(before: set<string>, out: set<string>, covered: set<string>)
    requires before <= out && forall k :: k in covered ==> CoveredBy(before, k)
    ensures forall k :: k in covered ==> CoveredBy(out, k)
  {
    forall k | k in covered ensures CoveredBy(out, k) {
      assert CoveredBy(before, k);
      var j :| j in before && Covers(j, k);
      assert j in out;
    }
  }

  ghost predicate PlainNames(allowed: Projection, policy: TablePolicy, identifiers: set<string>) {
    forall k :: k in allowed.Keys + policy.json + policy.derived.Keys + identifiers ==> PlainName(k)
  }

  /** A whitelisted key shows the field, or its parent. */
  ghost predicate ListedNear(allowed: Projection, json: set<string>, f: string) {
    exists k :: k in allowed && Outside(k, json) && (Covers(k, f) || Below(k, f))
  }

  /** A whitelisted key stays: outside the JSON columns and, for a derived column, with a source that still shows. */
  ghost predicate KeyStays(allowed: Projection, policy: TablePolicy, identifiers: set<string>, k: string) {
    && k in allowed && Outside(k, policy.json)
    && (k in policy.derived ==>
         policy.derived[k] in identifiers || ListedNear(allowed, policy.json, policy.derived[k]))
  }

  ghost predicate AnyStays(allowed: Projection, policy: TablePolicy, identifiers: set<string>) {
    exists k :: KeyStays(allowed, policy, identifiers, k)
  }

  /** An excluded key hides the field, or the JSON column around an excluded key does. */
  ghost predicate HiddenBelow(allowed: Projection, json: set<string>, f: string) {
    || (exists k :: k in allowed && Outside(k, json) && Covers(k, f))
    || (exists c :: FoldedOnto(allowed, Exclude, json, c) && Covers(c, f))
  }

  /** The keys the rewritten exclusion lists: its own, the columns it folds onto, the derived columns it deprives. */
  ghost predicate KeyExcluded(allowed: Projection, policy: TablePolicy, identifiers: set<string>, k: string) {
    || (k in allowed && Outside(k, policy.json))
    || FoldedOnto(allowed, Exclude, policy.json, k)
    || (&& k in policy.derived && policy.derived[k] !in identifiers
        && HiddenBelow(allowed, policy.json, policy.derived[k]) && !HiddenBelow(allowed, policy.json, k))
  }

  /** What the rewrite makes of the projection, key by key. */
  ghost predicate Normalized(out: Projection, allowed: Projection, policy: TablePolicy, identifiers: set<string>) {
    match ModeOf(allowed)
    case Empty => out == allowed
    case Inclusion =>
      if AnyStays(allowed, policy, identifiers)
      then ModeOf(out) == Inclusion && forall k :: k in out <==> KeyStays(allowed, policy, identifiers, k)
      else out == if identifiers == {} then allowed else AllOf(identifiers, Include)
    case Exclusion =>
      && ModeOf(out) == Exclusion && out.Keys <= allowed.Keys + policy.json + policy.derived.Keys
      && (forall k :: k in allowed && Outside(k, policy.json) ==> k in out)
      && (PlainColumns(policy) ==> forall k :: k in out <==> KeyExcluded(allowed, policy, identifiers, k))
  }

  lemma FoldedShowsListed(out: Projection, allowed: Projection, policy: TablePolicy, f: string)
    requires FoldsTo(out, allowed, Include, policy) && forall k :: k in out ==> out[k] == Include
    requires out != map[]
    ensures IsFieldAllowed(f, out) <==> ListedNear(allowed, policy.json, f)
  {
    FlagsGiveMode(out, Include);
  }

  lemma FoldedHidesBelow(out: Projection, allowed: Projection, policy: TablePolicy, f: string)
    requires FoldsTo(out, allowed, Exclude, policy) && forall k :: k in out ==> out[k] == Exclude
    requires out != map[] && PlainColumns(policy)
    ensures IsFieldAllowed(f, out) <==> !HiddenBelow(allowed, policy.json, f)
  {
    FlagsGiveMode(out, Exclude);
  }

  /** No JSON column, nothing to fold. */
  lemma NothingToFold(allowed: Projection, flag: Flag, policy: TablePolicy)
    requires policy.json == {}
    ensures FoldsTo(allowed, allowed, flag, policy)
  {
  }

  /** The two rewrites together, before a fallback. */
  lemma RewrittenKeys(folded: Projection, out: Projection, allowed: Projection, flag: Flag, policy: TablePolicy,
                      identifiers: set<string>, visible: string -> bool)
    requires allowed != map[] && FoldsTo(folded, allowed, flag, policy) && Tightened(folded, allowed, flag)
    requires forall f :: visible(f) <==> IsFieldAllowed(f, folded)
    requires forall path :: path in out <==>
      AfterLoss(folded, flag, visible, path, path in policy.derived && LosesSource(policy, identifiers, visible, path))
    ensures flag == Include ==> forall k :: k in out <==> KeyStays(allowed, policy, identifiers, k)
    ensures flag == Exclude && PlainColumns(policy) ==>
      forall k :: k in out <==> KeyExcluded(allowed, policy, identifiers, k)
    ensures flag == Exclude ==> forall k :: k in allowed && Outside(k, policy.json) ==> k in out
  {
    if flag == Include {
      forall k ensures k in out <==> KeyStays(allowed, policy, identifiers, k) {
        if k in folded && k in policy.derived {
          FoldedShowsListed(folded, allowed, policy, policy.derived[k]);
        }
      }
    } else if PlainColumns(policy) {
      TightenedNonEmpty(folded, allowed);
      forall k ensures k in out <==> KeyExcluded(allowed, policy, identifiers, k) {
        FoldedHidesBelow(folded, allowed, policy, k);
        if k in policy.derived {
          FoldedHidesBelow(folded, allowed, policy, policy.derived[k]);
        }
      }
    }
  }

  /**
   The projection made consistent for the table. A restricted one never turns
   into the universe and reveals nothing hidden but what is comparable to an
   identifier; JSON columns stay whole unless a whitelist had to fall back. A
   key outside the JSON columns stays unless it is a derived column that lost
   its source, and the identifiers replace a whitelist of which nothing stays.
   */
  method NormalizeAllowed(allowed: Projection, policy: TablePolicy, identifiers: set<string>,
                          find: string -> Option<string>)
    returns (r: Attempt<Projection>)
    requires FindsColumn(find, policy.json) && PlainNames(allowed, policy, identifiers)
    ensures r.Threw? <==> Mixed(allowed)
    ensures r.Returned? ==> (r.value == map[] <==> allowed == map[])
    ensures r.Returned? ==> !Mixed(r.value) && NeverReveals(r.value, allowed, identifiers)
    ensures r.Returned? ==> forall k :: k in r.value ==> PlainName(k)
    ensures r.Returned? && allowed != map[] && PlainColumns(policy) ==>
      || KeepsColumnsWhole(r.value, policy.json)
      || (ModeOf(allowed) == Inclusion && (r.value == allowed || r.value.Keys == identifiers))
    ensures r.Returned? ==> Normalized(r.value, allowed, policy, identifiers)
    ensures r.Returned? && policy.json == {} && policy.derived == map[] ==> r.value == allowed
  {
    if allowed == map[] {
      assert !Mixed(allowed);
      return Returned(allowed);
    }
    var mode :- GetProjectionMode(allowed);
    ModeFlags(allowed);
    var flag := if mode == Exclusion then Exclude else Include;
    AllCovered(allowed, flag);
    var out := allowed;
    if policy.json != {} {
      out := FoldJson(allowed, flag, policy, find);
    } else {
      NothingToFold(allowed, flag, policy);
    }
    ghost var folded := out;
    if policy.derived != map[] {
      UniformNotMixed(out, flag);
      var visible := CompileProjection(out);
      out := HideDerived(out, allowed, flag, policy, identifiers, visible.value);
      RewrittenKeys(folded, out, allowed, flag, policy, identifiers, visible.value);
    } else {
      RewrittenKeys(folded, out, allowed, flag, policy, identifiers, path => IsFieldAllowed(path, folded));
    }
    if flag == Exclude {
      TightenedNonEmpty(out, allowed);
    }
    if flag == Exclude || out != map[] {
      FlagsGiveMode(out, flag);
      TightenedNeverReveals(out, allowed, flag, identifiers);
      return Returned(out);
    }
    if identifiers == {} {
      return Returned(allowed);
    }
    IdentifiersReveal(AllOf(identifiers, Include), allowed, identifiers);
    return Returned(AllOf(identifiers, Include));
  }

  lemma UniformNotMixed(p: Projection, flag: Flag)
    requires forall k :: k in p ==> p[k] == flag
    ensures !Mixed(p)
  {
    if p != map[] {
      FlagsGiveMode(p, flag);
    }
  }

  /** The field has no JSON column and no derived column at, above or below it. */
  ghost predicate PlainField(policy: TablePolicy, f: string) {
    && (forall c :: c in policy.json ==> !Comparable(c, f))
    && (forall d :: d in policy.derived ==> !Comparable(d, f))
  }

  /** Nothing stayed of a whitelist, and the identifiers took its place. */
  ghost predicate FallsBack(projection: Projection, policy: TablePolicy, identifiers: set<string>) {
    ModeOf(projection) == Inclusion && identifiers != {} && !AnyStays(projection, policy, identifiers)
  }

  lemma PlainFieldStays(out: Projection, projection: Projection, policy: TablePolicy, identifiers: set<string>,
                        f: string)
    requires Normalized(out, projection, policy, identifiers) && PlainField(policy, f) && !Mixed(projection)
    requires IsFieldAllowed(f, projection) && !FallsBack(projection, policy, identifiers)
    ensures IsFieldAllowed(f, out)
  {
    if ModeOf(projection) == Inclusion && AnyStays(projection, policy, identifiers) {
      var k :| k in projection && (Covers(k, f) || Below(k, f));
      forall c | c in policy.json ensures !Below(k, c) {
        if Below(k, c) {
          if Covers(k, f) {
            CoversTransitive(c, k, f);
          } else {
            AncestorsComparable(c, f, k);
          }
        }
      }
      assert k !in policy.derived;
      assert KeyStays(projection, policy, identifiers, k);
    }
  }

  /** What the field test shows, key by key. */
  ghost predicate Shows(projection: Projection, policy: TablePolicy, identifiers: set<string>, f: string) {
    match ModeOf(projection)
    case Empty => true
    case Inclusion =>
      if AnyStays(projection, policy, identifiers)
      then exists k :: KeyStays(projection, policy, identifiers, k) && (Covers(k, f) || Below(k, f))
      else if identifiers == {} then IsFieldAllowed(f, projection)
      else NearIdentifier(identifiers, f)
    case Exclusion => forall k :: KeyExcluded(projection, policy, identifiers, k) ==> !Covers(k, f)
  }

  lemma ShowsAsNormalized(out: Projection, projection: Projection, policy: TablePolicy, identifiers: set<string>,
                          f: string)
    requires Normalized(out, projection, policy, identifiers)
    requires ModeOf(projection) == Exclusion ==> PlainColumns(policy)
    ensures IsFieldAllowed(f, out) <==> Shows(projection, policy, identifiers, f)
  {
    if ModeOf(projection) == Inclusion && !AnyStays(projection, policy, identifiers) && identifiers != {} {
      forall id | id in identifiers ensures Comparable(id, f) <==> Covers(id, f) || Below(id, f) {
      }
    }
  }

  /**
   The own-field test of a table under a projection: it shows nothing the
   projection hides but what is comparable to an identifier, and a derived
   column only while its source shows. What the projection shows away from JSON
   and derived columns stays shown, unless a whitelist fell back.
   */
  method BuildFieldTest(projection: Projection, policy: TablePolicy, identifiers: set<string>,
                        find: string -> Option<string>)
    returns (r: Attempt<string -> bool>)
    requires FindsColumn(find, policy.json) && PlainNames(projection, policy, identifiers)
    ensures r.Threw? <==> Mixed(projection)
    ensures r.Returned? ==> forall f :: r.value(f) ==> IsFieldAllowed(f, projection) || NearIdentifier(identifiers, f)
    ensures r.Returned? && projection == map[] ==> forall f :: r.value(f)
    ensures r.Returned? ==> forall f :: f in policy.derived && r.value(f) ==>
      var source := policy.derived[f];
      source in identifiers || IsFieldAllowed(source, projection) || NearIdentifier(identifiers, source)
    ensures r.Returned? && !FallsBack(projection, policy, identifiers) ==>
      forall f :: PlainField(policy, f) && IsFieldAllowed(f, projection) ==> r.value(f)
    ensures r.Returned? && (ModeOf(projection) == Exclusion ==> PlainColumns(policy)) ==> forall f :: r.value(f) <==>
      && Shows(projection, policy, identifiers, f)
      && (f in policy.derived ==>
           policy.derived[f] in identifiers || Shows(projection, policy, identifiers, policy.derived[f]))
  {
    var allowed :- NormalizeAllowed(projection, policy, identifiers, find);
    var compiled := CompileProjection(allowed);
    var base := compiled.value;
    var derived := policy.derived;
    if !FallsBack(projection, policy, identifiers) {
      forall f | PlainField(policy, f) && IsFieldAllowed(f, projection) ensures base(f) && f !in derived {
        PlainFieldStays(allowed, projection, policy, identifiers, f);
      }
    }
    if ModeOf(projection) == Exclusion ==> PlainColumns(policy) {
      forall f ensures base(f) <==> Shows(projection, policy, identifiers, f) {
        ShowsAsNormalized(allowed, projection, policy, identifiers, f);
      }
    }
    if derived == map[] {
      return Returned(base);
    }
    return Returned(path => base(path) && (path in derived ==> derived[path] in identifiers || base(derived[path])));
  }
}
