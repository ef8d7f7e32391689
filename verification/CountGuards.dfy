/**
 Guards that decide about many rows with one count: every target in scope,
 every written row inside the check, every referenced row readable.
 */
module CountGuards {
  import opened Options
  import opened Filters

  /** A table: its rows by an internal identity. */
  type Table = map<nat, Value>

  // ── Pigeonhole ────────────

  function UnionOfSets(hits: seq<set<nat>>): set<nat> {
    if hits == [] then {} else UnionOfSets(hits[..|hits| - 1]) + hits[|hits| - 1]
  }

  lemma {:induction false} InUnion(hits: seq<set<nat>>, x: nat)
    ensures x in UnionOfSets(hits) <==> exists i :: 0 <= i < |hits| && x in hits[i]
  {
    if hits != [] {
      var n := |hits| - 1;
      InUnion(hits[..n], x);
      assert forall i :: 0 <= i < n ==> hits[..n][i] == hits[i];
    }
  }

  predicate PairwiseDisjoint(hits: seq<set<nat>>) {
    forall i, j :: 0 <= i < j < |hits| ==> hits[i] !! hits[j]
  }

  predicate AllHit(hits: seq<set<nat>>) {
    forall i :: 0 <= i < |hits| ==> hits[i] != {}
  }

  lemma SizeOfUnion(a: set<nat>, b: set<nat>)
    ensures |a + b| <= |a| + |b|
    ensures |a + b| == |a| + |b| <==> a !! b
  {
    assert a + b == a + (b - a);
    assert |b - a| + |b * a| == |b| by {
      assert b == (b - a) + b * a;
    }
    if |a + b| == |a| + |b| {
      assert |b * a| == 0;
    }
  }

  lemma AtMostOneSize(s: set<nat>)
    requires forall x, y :: x in s && y in s ==> x == y
    ensures |s| <= 1 && (|s| == 1 <==> s != {})
  {
    if s != {} {
      var x :| x in s;
      assert s == {x};
    }
  }

  /** Sets of at most one row: together they hold as many rows as there are sets only if none is empty or shared. */
  lemma {:induction false} UnionCount(hits: seq<set<nat>>)
    requires forall i :: 0 <= i < |hits| ==> |hits[i]| <= 1
    ensures |UnionOfSets(hits)| <= |hits|
    ensures |UnionOfSets(hits)| == |hits| <==> AllHit(hits) && PairwiseDisjoint(hits)
    decreases |hits|
  {
    if hits != [] {
      var n := |hits| - 1;
      var front, last := hits[..n], hits[n];
      UnionCount(front);
      SizeOfUnion(UnionOfSets(front), last);
      assert UnionOfSets(front) !! last <==> forall i :: 0 <= i < n ==> front[i] !! last by {
        forall x ensures x in UnionOfSets(front) <==> exists i :: 0 <= i < n && x in front[i] {
          InUnion(front, x);
        }
      }
      assert AllHit(hits) <==> AllHit(front) && last != {};
      assert PairwiseDisjoint(hits) <==> PairwiseDisjoint(front) && forall i :: 0 <= i < n ==> front[i] !! last by {
        assert forall i :: 0 <= i < n ==> front[i] == hits[i];
      }
    }
  }

  // ── Counting rows ────────────

  /** The rows of the table that pass a filter. */
  ghost function Matching(db: Db, table: Table, f: Filter): set<nat> {
    set id | id in table && Sat(db, f, table[id])
  }

  ghost function MatchingEach(db: Db, table: Table, fs: seq<Filter>, scope: Option<Filter>): seq<set<nat>> {
    seq(|fs|, i requires 0 <= i < |fs| => Matching(db, table, Within(fs[i], scope)))
  }

  /** `filter ? { $and: [ids, filter] } : ids` */
  function Within(ids: Filter, scope: Option<Filter>): Filter {
    if scope.Some? then Filter([And([ids, scope.value])]) else ids
  }

  /** One filter as it is, several as an `$or`. */
  function AnyOf(fs: seq<Filter>): Filter
    requires fs != []
  {
    if |fs| == 1 then fs[0] else Filter([Or(fs)])
  }

  /** `table.count(...)`: the database counts the matching rows. */
  method Count(db: Db, table: Table, f: Filter) returns (n: nat)
    ensures n == |Matching(db, table, f)|
  {
    n := 0;
    var todo := table.Keys;
    ghost var done: set<nat> := {};
    while todo != {}
      invariant todo <= table.Keys && done == Matching(db, table, f) - todo && n == |done|
      decreases todo
    {
      var id :| id in todo;
      if Sat(db, f, table[id]) {
        n := n + 1;
        done := done + {id};
      }
      todo := todo - {id};
    }
    assert done == Matching(db, table, f);
  }

  lemma SatWithin(db: Db, ids: Filter, scope: Option<Filter>, row: Value)
    ensures Sat(db, Within(ids, scope), row) <==> Sat(db, ids, row) && Admits(db, scope, row)
  {
    if scope.Some? {
      var e := And([ids, scope.value]);
      assert Within(ids, scope).entries == [e];
      assert SatEntry(db, e, row) <==> Sat(db, e.all[0], row) && Sat(db, e.all[1], row);
      assert forall x :: x in [e] ==> x == e;
      assert e in [e];
    }
  }

  lemma SatOr(db: Db, fs: seq<Filter>, row: Value)
    ensures Sat(db, Filter([Or(fs)]), row) <==> exists i :: 0 <= i < |fs| && Sat(db, fs[i], row)
  {
    OrMeans(db, fs, row);
    if exists f :: f in fs && Sat(db, f, row) {
      var f :| f in fs && Sat(db, f, row);
      var i :| 0 <= i < |fs| && fs[i] == f;
    }
  }

  lemma SatAnyOf(db: Db, fs: seq<Filter>, row: Value)
    requires fs != []
    ensures Sat(db, AnyOf(fs), row) <==> exists i :: 0 <= i < |fs| && Sat(db, fs[i], row)
  {
    if |fs| > 1 {
      SatOr(db, fs, row);
    }
  }

  /** What one count over several filters counts. */
  lemma MatchingAnyOf(db: Db, table: Table, fs: seq<Filter>, scope: Option<Filter>)
    requires fs != []
    ensures Matching(db, table, Within(AnyOf(fs), scope)) == UnionOfSets(MatchingEach(db, table, fs, scope))
  {
    var each := MatchingEach(db, table, fs, scope);
    forall id ensures id in Matching(db, table, Within(AnyOf(fs), scope)) <==> id in UnionOfSets(each) {
      InUnion(each, id);
      if id in table {
        SatWithin(db, AnyOf(fs), scope, table[id]);
        SatAnyOf(db, fs, table[id]);
        forall i | 0 <= i < |fs|
          ensures id in each[i] <==> Sat(db, fs[i], table[id]) && Admits(db, scope, table[id]) {
          SatWithin(db, fs[i], scope, table[id]);
        }
      }
    }
  }

  /** An exact id filter: it matches at most one row. */
  ghost predicate Exact(db: Db, table: Table, f: Filter) {
    forall x, y :: x in Matching(db, table, f) && y in Matching(db, table, f) ==> x == y
  }

  /** The row an id filter names is there, inside the scope. */
  ghost predicate NamesInScope(db: Db, table: Table, f: Filter, scope: Option<Filter>) {
    exists id :: id in table && Sat(db, f, table[id]) && Admits(db, scope, table[id])
  }

  /** No two of the filters name the same row of the scope. */
  ghost predicate NameDifferentRows(db: Db, table: Table, fs: seq<Filter>, scope: Option<Filter>) {
    forall i, j, id :: 0 <= i < j < |fs| && id in table && Sat(db, fs[i], table[id]) && Sat(db, fs[j], table[id])
      ==> !Admits(db, scope, table[id])
  }

  lemma MatchingEachMeaning(db: Db, table: Table, fs: seq<Filter>, scope: Option<Filter>)
    requires forall i :: 0 <= i < |fs| ==> Exact(db, table, fs[i])
    ensures var each := MatchingEach(db, table, fs, scope);
      && (forall i :: 0 <= i < |fs| ==> |each[i]| <= 1 && (each[i] != {} <==> NamesInScope(db, table, fs[i], scope)))
      && (PairwiseDisjoint(each) <==> NameDifferentRows(db, table, fs, scope))
  {
    var each := MatchingEach(db, table, fs, scope);
    forall i, id | 0 <= i < |fs|
      ensures id in each[i] <==> id in table && Sat(db, fs[i], table[id]) && Admits(db, scope, table[id]) {
      if id in table {
        SatWithin(db, fs[i], scope, table[id]);
      }
    }
    forall i | 0 <= i < |fs| ensures |each[i]| <= 1 {
      assert each[i] <= Matching(db, table, fs[i]);
      AtMostOneSize(each[i]);
    }
    assert forall i, j :: 0 <= i < |fs| && 0 <= j < |fs| ==>
      (each[i] !! each[j] <==> forall id :: id in each[i] ==> id !in each[j]);
  }

  /** One count against the number of filters decides about every one of them. */
  lemma CountDecides(db: Db, table: Table, fs: seq<Filter>, scope: Option<Filter>)
    requires fs != [] && forall i :: 0 <= i < |fs| ==> Exact(db, table, fs[i])
    ensures var n := |Matching(db, table, Within(AnyOf(fs), scope))|;
      && n <= |fs|
      && (n == |fs| <==> (forall i :: 0 <= i < |fs| ==> NamesInScope(db, table, fs[i], scope))
                         && NameDifferentRows(db, table, fs, scope))
  {
    MatchingAnyOf(db, table, fs, scope);
    MatchingEachMeaning(db, table, fs, scope);
    UnionCount(MatchingEach(db, table, fs, scope));
  }

  // ── The guards ────────────

  /** Duplicates dropped, first occurrence kept. */
  method Distinct(fs: seq<Filter>) returns (ids: seq<Filter>)
    ensures forall f :: f in ids <==> f in fs
    ensures forall i, j :: 0 <= i < j < |ids| ==> ids[i] != ids[j]
  {
    ids := [];
    for i := 0 to |fs|
      invariant forall f :: f in ids <==> f in fs[..i]
      invariant forall i, j :: 0 <= i < j < |ids| ==> ids[i] != ids[j]
    {
      if fs[i] !in ids {
        ids := ids + [fs[i]];
      }
    }
    assert fs[..|fs|] == fs;
  }

  /** No row of the scope is named by two different filters. */
  ghost predicate NamedOnce(db: Db, table: Table, fs: seq<Filter>, scope: Option<Filter>) {
    forall f, g, id | f in fs && g in fs && id in table && Sat(db, f, table[id]) && Sat(db, g, table[id])
      && Admits(db, scope, table[id]) :: f == g
  }

  lemma DistinctNaming(db: Db, table: Table, fs: seq<Filter>, ids: seq<Filter>, scope: Option<Filter>)
    requires forall f :: f in ids <==> f in fs
    requires forall i, j :: 0 <= i < j < |ids| ==> ids[i] != ids[j]
    ensures NameDifferentRows(db, table, ids, scope) <==> NamedOnce(db, table, fs, scope)
    ensures (forall f :: f in fs ==> NamesInScope(db, table, f, scope))
            <==> forall i :: 0 <= i < |ids| ==> NamesInScope(db, table, ids[i], scope)
  {
    if NameDifferentRows(db, table, ids, scope) {
      forall f, g, id | f in fs && g in fs && id in table && Sat(db, f, table[id]) && Sat(db, g, table[id])
          && Admits(db, scope, table[id])
        ensures f == g
      {
        assert f in ids && g in ids;
        var i :| 0 <= i < |ids| && ids[i] == f;
        var j :| 0 <= j < |ids| && ids[j] == g;
      }
    }
    if NamedOnce(db, table, fs, scope) {
      forall i, j, id | 0 <= i < j < |ids| && id in table && Sat(db, ids[i], table[id]) && Sat(db, ids[j], table[id])
        ensures !Admits(db, scope, table[id])
      {
        assert ids[i] in fs && ids[j] in fs;
      }
    }
    assert forall i :: 0 <= i < |ids| ==> ids[i] in fs;
    assert forall f :: f in fs ==> f in ids;
  }

  /** One count accepts exactly when every target row is in scope and none is named by two different filters. */
  method AssertIdFiltersInScope(db: Db, table: Table, idFilters: seq<Filter>,
                                scope: Option<Filter>) returns (accepted: bool)
    requires forall f :: f in idFilters ==> Exact(db, table, f)
    ensures accepted <==>
      && (forall f :: f in idFilters ==> NamesInScope(db, table, f, scope))
      && NamedOnce(db, table, idFilters, scope)
  {
    var ids := Distinct(idFilters);
    DistinctNaming(db, table, idFilters, ids, scope);
    if |ids| == 0 {
      return true;
    }
    var n := Count(db, table, Within(AnyOf(ids), scope));
    CountDecides(db, table, ids, scope);
    return n >= |ids|;
  }

  /** After the write: the count over the written rows and the check. */
  method AssertWrittenRowsInCheck(db: Db, table: Table, written: seq<Filter>, check: Filter) returns (accepted: bool)
    requires forall f :: f in written ==> Exact(db, table, f)
    ensures accepted <==>
      && (forall f :: f in written ==> NamesInScope(db, table, f, Some(check)))
      && NameDifferentRows(db, table, written, Some(check))
  {
    if |written| == 0 {
      return true;
    }
    var n := Count(db, table, Within(AnyOf(written), Some(check)));
    CountDecides(db, table, written, Some(check));
    assert (forall f :: f in written ==> NamesInScope(db, table, f, Some(check)))
      <==> forall i :: 0 <= i < |written| ==> NamesInScope(db, table, written[i], Some(check));
    return n == |written|;
  }
}
