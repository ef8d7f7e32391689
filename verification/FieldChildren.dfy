/**
 The schema lookup of a table, built from its flattened field paths: parent
 path → direct child paths, cut at navigation relations and atomic JSON columns.
 On a flattened schema that lists every parent it is a tree, so the exactness
 results on projections apply to it.
 */
module FieldChildren {
  import opened DottedPaths
  import opened SchemaWalk

  /** `path` is indexed under `p`: its last dot ends `p`, and `p` is not inside a cut path. */
  predicate IndexedUnder(path: string, p: string, cut: set<string>) {
    var dot := LastDot(path, |path| - 1);
    dot != -1 && path[..dot] == p && !CoveredBy(cut, p)
  }

  function DirectChildren(keys: seq<string>, cut: set<string>, p: string): seq<string> {
    if keys == [] then []
    else
      var last := keys[|keys| - 1];
      DirectChildren(keys[..|keys| - 1], cut, p) + if IndexedUnder(last, p, cut) then [last] else []
  }

  function Lookup(byParent: map<string, seq<string>>, p: string): seq<string> {
    if p in byParent then byParent[p] else []
  }

  /** The indexing loop: one pass over the flat paths. */
  method FieldChildrenOf(keys: seq<string>, nav: set<string>, json: set<string>)
    returns (byParent: map<string, seq<string>>)
    ensures forall p :: Lookup(byParent, p) == DirectChildren(keys, nav + json, p)
  {
    byParent := map[];
    ghost var cut := nav + json;
    for i := 0 to |keys|
      invariant forall p :: Lookup(byParent, p) == DirectChildren(keys[..i], cut, p)
    {
      var path := keys[i];
      assert keys[..i + 1][..i] == keys[..i];
      ghost var before := byParent;
      var dot := LastDot(path, |path| - 1);
      if dot != -1 {
        var parent := path[..dot];
        assert CoveredBy(cut, parent) <==> CoveredBy(nav, parent) || CoveredBy(json, parent) by {
          CoveredByEither(nav, json, parent);
        }
        if !CoveredBy(nav, parent) && !CoveredBy(json, parent) {
          byParent := byParent[parent := Lookup(byParent, parent) + [path]];
        }
      }
      forall p ensures Lookup(byParent, p) == DirectChildren(keys[..i + 1], cut, p) {
        assert Lookup(before, p) == DirectChildren(keys[..i], cut, p);
      }
    }
    assert keys[..|keys|] == keys;
  }

  lemma CoveredByEither(a: set<string>, b: set<string>, p: string)
    ensures CoveredBy(a + b, p) <==> CoveredBy(a, p) || CoveredBy(b, p)
  {
    if CoveredBy(a, p) {
      var k :| k in a && Covers(k, p);
      assert k in a + b;
    }
    if CoveredBy(b, p) {
      var k :| k in b && Covers(k, p);
      assert k in a + b;
    }
  }

  lemma {:induction false} DirectChildrenMembers(keys: seq<string>, cut: set<string>, p: string, c: string)
    ensures c in DirectChildren(keys, cut, p) <==> c in keys && IndexedUnder(c, p, cut)
  {
    if keys != [] {
      DirectChildrenMembers(keys[..|keys| - 1], cut, p, c);
      assert keys == keys[..|keys| - 1] + [keys[|keys| - 1]];
    }
  }

  /** The table's own fields: the paths not inside a navigation relation or a JSON column. */
  ghost function OwnFields(keys: seq<string>, cut: set<string>): set<string> {
    set k | k in keys && !exists n :: n in cut && Below(k, n)
  }

  ghost predicate PrefixClosed(keys: seq<string>) {
    forall q, p :: q in keys && Below(q, p) ==> p in keys
  }

  lemma ChildIsDirect(c: string, p: string, cut: set<string>)
    requires IndexedUnder(c, p, cut)
    ensures Below(c, p) && Dots(c) == Dots(p) + 1
    ensures !exists n :: n in cut && Below(c, n)
  {
    var dot := LastDot(c, |c| - 1);
    BelowIsDotPrefix(c, p);
    DotsAfterLast(c, dot);
    forall n | n in cut && Below(c, n) ensures false {
      BelowIsDotPrefix(c, n);
      assert Covers(n, c) && Covers(p, c);
      AncestorsComparable(n, p, c);
      if Below(n, p) {
        BelowIsDotPrefix(n, p);
      }
    }
  }

  lemma {:induction false} DotsAfterLast(c: string, dot: nat)
    requires dot < |c| && c[dot] == '.' && forall j :: dot < j < |c| ==> c[j] != '.'
    ensures Dots(c) == Dots(c[..dot]) + 1
    decreases |c|
  {
    if dot < |c| - 1 {
      DotsAfterLast(c[..|c| - 1], dot);
      assert c[..|c| - 1][..dot] == c[..dot];
    }
  }

  /** The end of the segment of `q` that starts at `i`. */
  function SegmentEnd(q: string, i: nat): (j: nat)
    requires i <= |q|
    ensures i <= j <= |q| && (j < |q| ==> q[j] == '.')
    ensures forall l :: i <= l < j ==> q[l] != '.'
    decreases |q| - i
  {
    if i == |q| || q[i] == '.' then i else SegmentEnd(q, i + 1)
  }

  lemma DirectChildTowards(keys: seq<string>, cut: set<string>, p: string, q: string) returns (c: string)
    requires PrefixClosed(keys) && q in OwnFields(keys, cut) && Below(q, p)
    ensures c in DirectChildren(keys, cut, p) && Covers(c, q)
  {
    BelowIsDotPrefix(q, p);
    var j := SegmentEnd(q, |p| + 1);
    c := q[..j];
    BelowIsDotPrefix(q, c);
    assert Covers(c, q);
    assert c[|p|] == '.';
    assert LastDot(c, |c| - 1) == |p|;
    assert c[..|p|] == p;
    if CoveredBy(cut, p) {
      var n :| n in cut && Covers(n, p);
      BelowTransitive(n, p, q);
      assert false;
    }
    DirectChildrenMembers(keys, cut, p, c);
  }

  /** On a flattened schema listing every parent, the lookup is the tree over the table's own fields. */
  lemma FieldChildrenFormTree(keys: seq<string>, nav: set<string>, json: set<string>)
    requires PrefixClosed(keys)
    ensures TreeOver(Schema(p => DirectChildren(keys, nav + json, p)), OwnFields(keys, nav + json))
  {
    var cut := nav + json;
    var schema := Schema(p => DirectChildren(keys, cut, p));
    var fields := OwnFields(keys, cut);
    forall p, c | c in schema.childrenOf(p) ensures c in fields && Below(c, p) && Dots(c) == Dots(p) + 1 {
      DirectChildrenMembers(keys, cut, p, c);
      ChildIsDirect(c, p, cut);
    }
    forall p, q | q in fields && Below(q, p) ensures p in fields {
      forall n | n in cut && Below(p, n) ensures false {
        BelowTransitive(n, p, q);
      }
    }
    forall p, q | q in fields && Below(q, p) ensures exists c :: c in schema.childrenOf(p) && Covers(c, q) {
      var c := DirectChildTowards(keys, cut, p, q);
      assert c in schema.childrenOf(p);
    }
  }
}
