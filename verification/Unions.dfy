/**
 A scope list served as one, scope by scope: whose rows, checks, writes, forced
 values, reference checks and relations the union is.
 */
module Unions {
  import opened Options
  import opened DottedPaths
  import opened Filters
  import opened Enforcement
  import opened Scopes

  /** The filter written rows must satisfy under one scope: its check, else its filter. */
  function CheckOf(s: Scope): Option<Filter> {
    if s.check.Some? then s.check else s.filter
  }

  lemma Unrestricted(db: Db, f: Option<Filter>, row: Value)
    ensures Sat(db, f.Or(UNRESTRICTED), row) <==> Admits(db, f, row)
  {
  }

  lemma SomeFilter(db: Db, ss: seq<Scope>, row: Value)
    ensures (exists f :: f in FilterList(ss) && Sat(db, f, row)) <==> exists s :: s in ss && Admits(db, s.filter, row)
  {
    var fs := FilterList(ss);
    if exists f :: f in fs && Sat(db, f, row) {
      var f :| f in fs && Sat(db, f, row);
      var i :| 0 <= i < |fs| && fs[i] == f;
      Unrestricted(db, ss[i].filter, row);
      assert ss[i] in ss;
    }
    if exists s :: s in ss && Admits(db, s.filter, row) {
      var s :| s in ss && Admits(db, s.filter, row);
      var i :| 0 <= i < |ss| && ss[i] == s;
      Unrestricted(db, s.filter, row);
      assert fs[i] in fs;
    }
  }

  /** A union admits rows of some scope only, and all of them unless its `null` rewrite drops one. */
  lemma UnionRowsExactly(db: Db, ss: seq<Scope>, row: Value)
    requires ss != []
    ensures RowVisible(db, ss, row) ==> exists s :: s in ss && Admits(db, s.filter, row)
    ensures !DropsMissing(FilterList(ss)) ==>
      (RowVisible(db, ss, row) <==> exists s :: s in ss && Admits(db, s.filter, row))
  {
    AnyAdmits(db, FilterList(ss), row);
    SomeFilter(db, ss, row);
  }

  lemma AnyAdmits(db: Db, fs: seq<Filter>, row: Value)
    requires fs != []
    ensures Admits(db, MergeScopeFilters(fs), row) ==> exists f :: f in fs && Sat(db, f, row)
    ensures !DropsMissing(fs) ==> (Admits(db, MergeScopeFilters(fs), row) <==> exists f :: f in fs && Sat(db, f, row))
  {
    if Admits(db, MergeScopeFilters(fs), row) {
      MergeNeverWidens(db, fs, row);
    } else if exists f :: f in fs && Sat(db, f, row) {
      var f :| f in fs && Sat(db, f, row);
      LostRowIsMissing(db, fs, f, row);
    }
  }

  lemma SomeCheck(db: Db, ss: seq<Scope>, row: Value)
    ensures (exists f :: f in CheckList(ss) && Sat(db, f, row))
      <==> exists s :: s in ss && Admits(db, CheckOf(s), row)
  {
    var fs := CheckList(ss);
    if exists f :: f in fs && Sat(db, f, row) {
      var f :| f in fs && Sat(db, f, row);
      var i :| 0 <= i < |fs| && fs[i] == f;
      Unrestricted(db, CheckOf(ss[i]), row);
      assert ss[i] in ss;
    }
    if exists s :: s in ss && Admits(db, CheckOf(s), row) {
      var s :| s in ss && Admits(db, CheckOf(s), row);
      var i :| 0 <= i < |ss| && ss[i] == s;
      Unrestricted(db, CheckOf(s), row);
      assert fs[i] in fs;
    }
  }

  /** The same for written rows, each scope checking them by its check or else its filter. */
  lemma UnionChecksExactly(db: Db, ss: seq<Scope>, row: Value)
    requires ss != []
    ensures CheckPasses(db, ss, row) ==> exists s :: s in ss && Admits(db, CheckOf(s), row)
    ensures !DropsMissing(CheckList(ss)) ==>
      (CheckPasses(db, ss, row) <==> exists s :: s in ss && Admits(db, CheckOf(s), row))
  {
    var fs := CheckList(ss);
    if !HasExplicitCheck(ss) {
      assert fs == FilterList(ss);
    }
    AnyAdmits(db, fs, row);
    SomeCheck(db, ss, row);
  }

  /** A path is writable when no scope carries a whitelist, or some whitelist covers it. */
  lemma UnionWritesExactly(ss: seq<Scope>, path: string)
    ensures Writable(ss, path) <==>
      || (forall s :: s in ss ==> s.allowedFields.None?)
      || (exists s :: s in ss && s.allowedFields.Some? && CoveredBy(s.allowedFields.value, path))
  {
    if exists s :: s in ss && s.allowedFields.Some? {
      var s :| s in ss && s.allowedFields.Some?;
      var i :| 0 <= i < |ss| && ss[i] == s;
      var all := UnionAllowedFields(ss).value;
      forall f ensures f in all <==> exists s :: s in ss && s.allowedFields.Some? && f in s.allowedFields.value {
        if exists s :: s in ss && s.allowedFields.Some? && f in s.allowedFields.value {
          var s :| s in ss && s.allowedFields.Some? && f in s.allowedFields.value;
          var i :| 0 <= i < |ss| && ss[i] == s;
          assert ss[i].allowedFields.Some? && f in ss[i].allowedFields.value;
        }
      }
    }
  }

  /** Some scope opts in to a nested write, or declares a relation. */
  lemma UnionNamesExactly(ss: seq<Scope>, rel: string)
    ensures rel in UnionNestedWrites(ss) <==> exists s :: s in ss && rel in s.nestedWrites
    ensures rel in WithNames(ss) <==> exists s :: s in ss && rel in s.withs
  {
    forall s | s in ss ensures rel in s.nestedWrites ==> rel in UnionNestedWrites(ss)
      ensures rel in s.withs ==> rel in WithNames(ss) {
      var i :| 0 <= i < |ss| && ss[i] == s;
      assert rel in s.nestedWrites ==> rel in ss[i].nestedWrites;
      assert rel in s.withs ==> rel in ss[i].withs;
    }
  }

  /** A field is forced when some scope forces it, to the value of the last one. */
  lemma {:induction false} UnionForcedExactly(ss: seq<Scope>, k: string)
    ensures k in UnionForced(ss) <==> exists s :: s in ss && k in s.forced
    ensures k in UnionForced(ss) ==>
      exists i :: 0 <= i < |ss| && ForcedLast(ss, i, k) && UnionForced(ss)[k] == ss[i].forced[k]
  {
    if ss != [] {
      var init, last := ss[..|ss| - 1], ss[|ss| - 1];
      UnionForcedExactly(init, k);
      assert ss == init + [last];
      assert forall s :: s in ss <==> s in init || s == last;
      if k in last.forced {
        assert ForcedLast(ss, |init|, k);
      } else if k in UnionForced(init) {
        var i :| 0 <= i < |init| && ForcedLast(init, i, k) && UnionForced(init)[k] == init[i].forced[k];
        assert ForcedLast(ss, i, k);
      }
    }
  }

  predicate ForcedLast(ss: seq<Scope>, i: nat, k: string)
    requires i < |ss|
  {
    k in ss[i].forced && forall j :: i < j < |ss| ==> k !in ss[j].forced
  }

  /** A reference name is enforced when every scope of a non-empty list enforces it. */
  lemma UnionRefsExactly(ss: seq<Scope>, name: string)
    ensures Enables(UnionRefs(ss), name) <==>
      ss != [] && forall s :: s in ss ==> s.checkRefs.All? || name in s.checkRefs.entries
  {
    var inputs := seq(|ss|, i requires 0 <= i < |ss| => ss[i].checkRefs);
    EnablesExactly(inputs, name);
    assert EnabledInEach(inputs, name) <==> forall i :: 0 <= i < |ss| ==> Enables(ss[i].checkRefs, name) by {
      assert forall i :: 0 <= i < |ss| ==> inputs[i] == ss[i].checkRefs;
    }
  }
}
