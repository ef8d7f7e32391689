/**
 The bounded depth-first walk over a table's schema (`path` → direct child
 paths) that splits an included parent around an excluded descendant and names
 an excluded parent by its leaves, and what it reaches on a tree of paths.
 */
module SchemaWalk {
  import opened DottedPaths

  /** The optional schema lookup: direct child paths of a path, `[]` for a leaf. */
  datatype Schema = NoSchema | Schema(childrenOf: string -> seq<string>)

  /** Recursion bound, a guard against a cyclic lookup. */
  const MAX_SCHEMA_DEPTH := 32

  function ChildrenAt(schema: Schema, path: string, depth: nat): seq<string> {
    if depth < MAX_SCHEMA_DEPTH && schema.Schema? then schema.childrenOf(path) else []
  }

  /** What a walk does at a path: emit it, or descend into its children. */
  datatype Visitor = SubtractExcluded(excluded: set<string>) | NameLeaves {
    predicate Emits(path: string, children: seq<string>) {
      match this
      case SubtractExcluded(excluded) => !CoveredBy(excluded, path) && !HasDescendant(excluded, path)
      case NameLeaves => children == []
    }

    predicate Descends(path: string, children: seq<string>) {
      match this
      case SubtractExcluded(excluded) => !CoveredBy(excluded, path) && HasDescendant(excluded, path)
      case NameLeaves => children != []
    }
  }

  /** The paths a walk from `path` emits. */
  function Walked(schema: Schema, v: Visitor, path: string, depth: nat): set<string>
    requires depth <= MAX_SCHEMA_DEPTH
    decreases MAX_SCHEMA_DEPTH + 1 - depth, 0
  {
    var children := ChildrenAt(schema, path, depth);
    (if v.Emits(path, children) then {path} else {}) +
    (if v.Descends(path, children) then WalkedAll(schema, v, children, depth + 1) else {})
  }

  function WalkedAll(schema: Schema, v: Visitor, paths: seq<string>, depth: nat): set<string>
    requires paths == [] || depth <= MAX_SCHEMA_DEPTH
    requires depth <= MAX_SCHEMA_DEPTH + 1
    decreases MAX_SCHEMA_DEPTH + 1 - depth, 1 + |paths|
  {
    if paths == [] then {}
    else WalkedAll(schema, v, paths[..|paths| - 1], depth) + Walked(schema, v, paths[|paths| - 1], depth)
  }

  function WalkedFrom(schema: Schema, v: Visitor, roots: set<string>): set<string> {
    set r, p | r in roots && p in Walked(schema, v, r, 0) :: p
  }

  /** The walk itself: emitted paths accumulate in `out`. */
  method Walk(schema: Schema, v: Visitor, path: string, depth: nat, out: set<string>) returns (out': set<string>)
    requires depth <= MAX_SCHEMA_DEPTH
    ensures out' == out + Walked(schema, v, path, depth)
    decreases MAX_SCHEMA_DEPTH + 1 - depth
  {
    out' := out;
    var children := ChildrenAt(schema, path, depth);
    if v.Emits(path, children) {
      out' := out' + {path};
    }
    if v.Descends(path, children) {
      ghost var base := out';
      for i := 0 to |children|
        invariant out' == base + WalkedAll(schema, v, children[..i], depth + 1)
      {
        assert children[..i + 1][..i] == children[..i];
        out' := Walk(schema, v, children[i], depth + 1, out');
      }
      assert children[..|children|] == children;
    }
  }

  lemma {:induction false} WalkedAllMember(schema: Schema, v: Visitor, paths: seq<string>, depth: nat, i: nat)
    requires i < |paths| && depth <= MAX_SCHEMA_DEPTH
    ensures Walked(schema, v, paths[i], depth) <= WalkedAll(schema, v, paths, depth)
    decreases |paths|
  {
    if i < |paths| - 1 {
      WalkedAllMember(schema, v, paths[..|paths| - 1], depth, i);
    }
  }

  /** Children lie strictly below their parent. */
  ghost predicate Descending(schema: Schema) {
    schema.Schema? ==> forall p, c :: c in schema.childrenOf(p) ==> Below(c, p)
  }

  /** What a walk emits lies at or below its root. */
  lemma {:induction false} WalkedBelow(schema: Schema, v: Visitor, path: string, depth: nat, q: string)
    requires depth <= MAX_SCHEMA_DEPTH && Descending(schema)
    requires q in Walked(schema, v, path, depth)
    ensures Covers(path, q)
    decreases MAX_SCHEMA_DEPTH + 1 - depth, 0
  {
    var children := ChildrenAt(schema, path, depth);
    if !(v.Emits(path, children) && q == path) {
      var c := WalkedAllBelow(schema, v, children, depth + 1, q);
      CoversTransitive(path, c, q);
    }
  }

  lemma {:induction false} WalkedAllBelow(schema: Schema, v: Visitor, paths: seq<string>, depth: nat, q: string)
    returns (c: string)
    requires paths == [] || depth <= MAX_SCHEMA_DEPTH
    requires depth <= MAX_SCHEMA_DEPTH + 1 && Descending(schema)
    requires q in WalkedAll(schema, v, paths, depth)
    ensures c in paths && Covers(c, q)
    decreases MAX_SCHEMA_DEPTH + 1 - depth, 1 + |paths|
  {
    var last := |paths| - 1;
    if q in Walked(schema, v, paths[last], depth) {
      c := paths[last];
      WalkedBelow(schema, v, c, depth, q);
    } else {
      c := WalkedAllBelow(schema, v, paths[..last], depth, q);
    }
  }

  /** Every emitted path satisfies the visitor's emission test (for the subtraction, which ignores children). */
  lemma {:induction false} WalkedEmits(schema: Schema, excluded: set<string>, path: string, depth: nat, q: string)
    requires depth <= MAX_SCHEMA_DEPTH
    requires q in Walked(schema, SubtractExcluded(excluded), path, depth)
    ensures !CoveredBy(excluded, q) && !HasDescendant(excluded, q)
    decreases MAX_SCHEMA_DEPTH + 1 - depth, 0
  {
    var v, children := SubtractExcluded(excluded), ChildrenAt(schema, path, depth);
    if !(v.Emits(path, children) && q == path) {
      WalkedAllEmits(schema, excluded, children, depth + 1, q);
    }
  }

  lemma {:induction false} WalkedAllEmits(schema: Schema, excluded: set<string>, paths: seq<string>, depth: nat,
                                          q: string)
    requires paths == [] || depth <= MAX_SCHEMA_DEPTH
    requires depth <= MAX_SCHEMA_DEPTH + 1
    requires q in WalkedAll(schema, SubtractExcluded(excluded), paths, depth)
    ensures !CoveredBy(excluded, q) && !HasDescendant(excluded, q)
    decreases MAX_SCHEMA_DEPTH + 1 - depth, 1 + |paths|
  {
    var last := |paths| - 1;
    if q in Walked(schema, SubtractExcluded(excluded), paths[last], depth) {
      WalkedEmits(schema, excluded, paths[last], depth, q);
    } else {
      WalkedAllEmits(schema, excluded, paths[..last], depth, q);
    }
  }

  /** A leaf walk always names something, whatever the lookup answers. */
  lemma {:induction false} LeavesNonEmpty(schema: Schema, path: string, depth: nat)
    requires depth <= MAX_SCHEMA_DEPTH
    ensures Walked(schema, NameLeaves, path, depth) != {}
    decreases MAX_SCHEMA_DEPTH - depth
  {
    var children := ChildrenAt(schema, path, depth);
    if children == [] {
      assert path in Walked(schema, NameLeaves, path, depth);
    } else {
      LeavesNonEmpty(schema, children[0], depth + 1);
      WalkedAllMember(schema, NameLeaves, children, depth + 1, 0);
    }
  }

  // ── Schemas that are trees over a set of fields ────────────

  /** Number of dots: the nesting level of a path. */
  function Dots(s: string): nat {
    if s == "" then 0 else Dots(s[..|s| - 1]) + if s[|s| - 1] == '.' then 1 else 0
  }

  lemma {:induction false} DotsMonotone(p: string, q: string)
    requires p <= q
    ensures Dots(p) <= Dots(q)
    decreases |q|
  {
    if |p| < |q| {
      DotsMonotone(p, q[..|q| - 1]);
    } else {
      assert p == q;
    }
  }

  lemma DotsBelow(p: string, k: string)
    requires Covers(k, p)
    ensures Dots(p) >= Dots(k) + if k == p then 0 else 1
  {
    if k != p {
      assert (k + ".")[..|k + "."| - 1] == k;
      DotsMonotone(k + ".", p);
    }
  }

  /**
   The lookup is the direct-child relation of a prefix-closed set of fields.
   */
  ghost predicate TreeOver(schema: Schema, fields: set<string>) {
    && schema.Schema?
    && (forall p, c :: c in schema.childrenOf(p) ==> c in fields && Below(c, p) && Dots(c) == Dots(p) + 1)
    && (forall p, q :: q in fields && Below(q, p) ==> p in fields)
    && (forall p, q {:trigger LeadsOn(schema, p, q)} :: q in fields && Below(q, p) ==> LeadsOn(schema, p, q))
  }

  /** Some child of `p` covers `q`. */
  ghost predicate LeadsOn(schema: Schema, p: string, q: string)
    requires schema.Schema?
  {
    exists c :: c in schema.childrenOf(p) && Covers(c, q)
  }

  ghost predicate Leaf(fields: set<string>, f: string) {
    f in fields && !HasDescendant(fields, f)
  }

  /** Every field has a leaf at or below it. */
  lemma {:induction false} LeafBelow(fields: set<string>, p: string) returns (l: string)
    requires p in fields
    ensures Leaf(fields, l) && Covers(p, l)
    decreases |set q | q in fields && Below(q, p)|
  {
    if HasDescendant(fields, p) {
      var q :| q in fields && Below(q, p);
      var below, deeper := set r | r in fields && Below(r, p), set r | r in fields && Below(r, q);
      forall r | r in deeper ensures r in below {
        BelowTransitive(p, q, r);
      }
      assert q in below && q !in deeper;
      SmallerSet(deeper, below, q);
      l := LeafBelow(fields, q);
      CoversTransitive(p, q, l);
    } else {
      l := p;
    }
  }

  lemma SmallerSet(a: set<string>, b: set<string>, x: string)
    requires a <= b && x in b && x !in a
    ensures |a| < |b|
  {
    assert b == a + (b - a) && x in b - a;
  }

  /** A walk emits its root or fields of the tree. */
  lemma {:induction false} WalkedInFields(schema: Schema, fields: set<string>, v: Visitor, path: string, depth: nat,
                                          q: string)
    requires TreeOver(schema, fields) && depth <= MAX_SCHEMA_DEPTH && q in Walked(schema, v, path, depth)
    ensures q == path || q in fields
    decreases MAX_SCHEMA_DEPTH + 1 - depth, 0
  {
    var children := ChildrenAt(schema, path, depth);
    if q != path {
      WalkedAllInFields(schema, fields, v, children, depth + 1, q);
    }
  }

  lemma {:induction false} WalkedAllInFields(schema: Schema, fields: set<string>, v: Visitor, paths: seq<string>,
                                             depth: nat, q: string)
    requires TreeOver(schema, fields) && (paths == [] || depth <= MAX_SCHEMA_DEPTH) && depth <= MAX_SCHEMA_DEPTH + 1
    requires (forall c :: c in paths ==> c in fields) && q in WalkedAll(schema, v, paths, depth)
    ensures q in fields
    decreases MAX_SCHEMA_DEPTH + 1 - depth, 1 + |paths|
  {
    var last := |paths| - 1;
    if q in Walked(schema, v, paths[last], depth) {
      WalkedInFields(schema, fields, v, paths[last], depth, q);
    } else {
      WalkedAllInFields(schema, fields, v, paths[..last], depth, q);
    }
  }

  lemma ChildTowards(schema: Schema, fields: set<string>, path: string, depth: nat, f: string) returns (i: nat)
    requires TreeOver(schema, fields) && f in fields && Below(f, path) && depth < MAX_SCHEMA_DEPTH
    ensures i < |ChildrenAt(schema, path, depth)|
    ensures var c := ChildrenAt(schema, path, depth)[i]; Covers(c, f) && Dots(c) == Dots(path) + 1
  {
    var children := ChildrenAt(schema, path, depth);
    assert LeadsOn(schema, path, f);
    var c :| c in children && Covers(c, f);
    i :| 0 <= i < |children| && children[i] == c;
  }

  /** What the walk of a child covers, the walk of its parent covers. */
  lemma CoveredThroughChild(schema: Schema, v: Visitor, path: string, depth: nat, i: nat, f: string)
    requires depth < MAX_SCHEMA_DEPTH
    requires i < |ChildrenAt(schema, path, depth)| && v.Descends(path, ChildrenAt(schema, path, depth))
    requires CoveredBy(Walked(schema, v, ChildrenAt(schema, path, depth)[i], depth + 1), f)
    ensures CoveredBy(Walked(schema, v, path, depth), f)
  {
    var children := ChildrenAt(schema, path, depth);
    WalkedAllMember(schema, v, children, depth + 1, i);
    var k :| k in Walked(schema, v, children[i], depth + 1) && Covers(k, f);
    assert k in Walked(schema, v, path, depth);
  }

  /** Subtraction keeps every leaf below the root that is not excluded. */
  lemma {:induction false} SubtractionReaches(schema: Schema, fields: set<string>, excluded: set<string>,
                                              path: string, depth: nat, f: string)
    requires TreeOver(schema, fields) && excluded <= fields && Leaf(fields, f)
    requires Covers(path, f) && !CoveredBy(excluded, f)
    requires Dots(f) + depth <= Dots(path) + MAX_SCHEMA_DEPTH && depth <= MAX_SCHEMA_DEPTH
    ensures CoveredBy(Walked(schema, SubtractExcluded(excluded), path, depth), f)
    decreases MAX_SCHEMA_DEPTH - depth
  {
    NotExcludedAbove(excluded, path, f);
    if HasDescendant(excluded, path) {
      var i := LeafTowards(schema, fields, excluded, path, depth, f);
      SubtractionReaches(schema, fields, excluded, ChildrenAt(schema, path, depth)[i], depth + 1, f);
      CoveredThroughChild(schema, SubtractExcluded(excluded), path, depth, i, f);
    } else {
      WalkedRoot(schema, excluded, path, depth);
    }
  }

  lemma WalkedRoot(schema: Schema, excluded: set<string>, path: string, depth: nat)
    requires depth <= MAX_SCHEMA_DEPTH && !CoveredBy(excluded, path) && !HasDescendant(excluded, path)
    ensures path in Walked(schema, SubtractExcluded(excluded), path, depth)
  {
    assert SubtractExcluded(excluded).Emits(path, ChildrenAt(schema, path, depth));
  }

  lemma NotExcludedAbove(excluded: set<string>, path: string, f: string)
    requires Covers(path, f) && !CoveredBy(excluded, f)
    ensures !CoveredBy(excluded, path)
  {
    if CoveredBy(excluded, path) {
      CoveredByInherited(excluded, path, f);
    }
  }

  /** Where an excluded field lies below a path, a child leads on to the leaf. */
  lemma LeafTowards(schema: Schema, fields: set<string>, excluded: set<string>, path: string, depth: nat, f: string)
    returns (i: nat)
    requires TreeOver(schema, fields) && excluded <= fields && Leaf(fields, f)
    requires Covers(path, f) && HasDescendant(excluded, path)
    requires Dots(f) + depth <= Dots(path) + MAX_SCHEMA_DEPTH
    ensures depth < MAX_SCHEMA_DEPTH && i < |ChildrenAt(schema, path, depth)|
    ensures var c := ChildrenAt(schema, path, depth)[i]; Covers(c, f) && Dots(c) == Dots(path) + 1
  {
    DotsBelow(f, path);
    i := ChildTowards(schema, fields, path, depth, f);
  }

  /** Naming a path's leaves still covers every schema leaf below it. */
  lemma {:induction false} LeavesReach(schema: Schema, fields: set<string>, path: string, depth: nat, f: string)
    requires TreeOver(schema, fields) && Leaf(fields, f) && Covers(path, f)
    requires depth <= MAX_SCHEMA_DEPTH
    ensures CoveredBy(Walked(schema, NameLeaves, path, depth), f)
    decreases MAX_SCHEMA_DEPTH - depth
  {
    var children := ChildrenAt(schema, path, depth);
    if children == [] {
      assert path in Walked(schema, NameLeaves, path, depth);
    } else {
      assert children[0] in fields && Below(children[0], path);
      var i := ChildTowards(schema, fields, path, depth, f);
      LeavesReach(schema, fields, children[i], depth + 1, f);
      CoveredThroughChild(schema, NameLeaves, path, depth, i, f);
    }
  }
}
