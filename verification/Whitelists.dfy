/**
 The write whitelist: a mutable trie of field paths. Paths are segment
 sequences; a whitelist denotes the paths at or below its entries.
 */
module Whitelists {

  type Path = seq<string>

  /** Some whitelisted path is `p` or an ancestor of it. */
  ghost predicate CoversBy(paths: set<Path>, p: Path) {
    exists w :: w in paths && w <= p
  }

  /** The entries below `p`, relative to it. */
  ghost function Under(paths: set<Path>, p: Path): set<Path> {
    set w | w in paths && p <= w :: w[|p|..]
  }

  lemma UnderMember(paths: set<Path>, p: Path, w: Path)
    ensures w in Under(paths, p) <==> p + w in paths
  {
    if p + w in paths {
      assert p <= p + w && (p + w)[|p|..] == w;
    }
    if w in Under(paths, p) {
      var v :| v in paths && p <= v && w == v[|p|..];
      assert p + w == v;
    }
  }

  lemma UnderNothing(paths: set<Path>)
    ensures Under(paths, []) == paths
  {
    forall w ensures w in Under(paths, []) <==> w in paths {
      UnderMember(paths, [], w);
      assert [] + w == w;
    }
  }

  lemma UnderUnder(paths: set<Path>, p: Path, seg: string)
    ensures Under(Under(paths, p), [seg]) == Under(paths, p + [seg])
  {
    forall w ensures w in Under(Under(paths, p), [seg]) <==> w in Under(paths, p + [seg]) {
      UnderMember(Under(paths, p), [seg], w);
      UnderMember(paths, p, [seg] + w);
      UnderMember(paths, p + [seg], w);
      assert p + ([seg] + w) == p + [seg] + w;
    }
  }

  // ── The trie as a value: paths, and whole subtrees ────────────

  type Nodes = map<Path, bool>

  ghost predicate Whole(nodes: Nodes, p: Path) {
    p in nodes && nodes[p]
  }

  /** Every ancestor of a node is a node. */
  ghost predicate Closed(nodes: Nodes) {
    [] in nodes && forall p, k :: p in nodes && 0 <= k <= |p| ==> p[..k] in nodes
  }

  /** `w` or an ancestor of it is a whole subtree. */
  ghost predicate Ends(nodes: Nodes, w: Path) {
    exists k :: 0 <= k <= |w| && Whole(nodes, w[..k])
  }

  /** Some entry is at or below `p`. */
  ghost predicate Leads(paths: set<Path>, p: Path) {
    exists w :: w in paths && p <= w
  }

  /** The nodes hold `paths`; those on the way down `extra` may not lead to an entry yet. */
  ghost predicate Holding(nodes: Nodes, paths: set<Path>, extra: Path) {
    && Closed(nodes)
    && [] !in paths
    && (forall p :: Whole(nodes, p) ==> p in paths)
    && (forall w {:trigger Ends(nodes, w)} :: w in paths ==> Ends(nodes, w))
    && (forall p {:trigger Leads(paths, p)} :: p in nodes ==> p <= extra || Leads(paths, p))
  }

  ghost predicate Denotes(nodes: Nodes, paths: set<Path>) {
    Holding(nodes, paths, [])
  }

  /** No node at or above `p` is a whole subtree. */
  ghost predicate Open(nodes: Nodes, p: Path) {
    forall k :: 0 <= k <= |p| ==> !Whole(nodes, p[..k])
  }

  lemma Grow(nodes: Nodes, paths: set<Path>, path: Path, i: nat)
    requires Holding(nodes, paths, path) && i < |path| && path[..i] in nodes && path[..i + 1] !in nodes
    ensures Holding(nodes[path[..i + 1] := false], paths, path)
  {
    var grown := nodes[path[..i + 1] := false];
    forall p, k | p in grown && 0 <= k <= |p| ensures p[..k] in grown {
      if p == path[..i + 1] && k <= i {
        assert p[..k] == path[..i][..k];
      } else if p == path[..i + 1] {
        assert p[..k] == p;
      }
    }
    forall w | w in paths ensures Ends(grown, w) {
      assert Ends(nodes, w);
      var k :| 0 <= k <= |w| && Whole(nodes, w[..k]);
      assert Whole(grown, w[..k]);
    }
  }

  lemma Finish(nodes: Nodes, paths: set<Path>, path: Path)
    requires Holding(nodes, paths, path) && path != [] && path in nodes
    ensures Denotes(nodes[path := true], paths + {path})
  {
    var grown := nodes[path := true];
    forall w | w in paths + {path} ensures Ends(grown, w) {
      if w == path {
        assert w[..|w|] == path && Whole(grown, w[..|w|]);
      } else {
        assert Ends(nodes, w);
        var k :| 0 <= k <= |w| && Whole(nodes, w[..k]);
        assert Whole(grown, w[..k]);
      }
    }
    forall p | p in grown && p != [] ensures Leads(paths + {path}, p) {
      Leading(nodes, paths, path, p);
    }
  }

  lemma Leading(nodes: Nodes, paths: set<Path>, path: Path, p: Path)
    requires Holding(nodes, paths, path) && (p in nodes || p == path)
    ensures Leads(paths + {path}, p)
  {
    if !(p <= path) {
      assert Leads(paths, p);
      var w :| w in paths && p <= w;
      assert w in paths + {path};
    } else {
      assert path in paths + {path};
    }
  }

  lemma Absorb(nodes: Nodes, paths: set<Path>, path: Path, i: nat)
    requires Holding(nodes, paths, path) && i <= |path| && path != [] && Whole(nodes, path[..i])
    ensures Denotes(nodes, paths + {path})
  {
    assert Ends(nodes, path);
    forall p | p in nodes && p != [] ensures Leads(paths + {path}, p) {
      Leading(nodes, paths, path, p);
    }
  }

  lemma OpenStep(nodes: Nodes, p: Path, seg: string)
    requires Open(nodes, p) && !Whole(nodes, p + [seg])
    ensures Open(nodes, p + [seg])
  {
    forall k | 0 <= k <= |p| + 1 ensures !Whole(nodes, (p + [seg])[..k]) {
      if k <= |p| {
        assert (p + [seg])[..k] == p[..k];
      } else {
        assert (p + [seg])[..k] == p + [seg];
      }
    }
  }

  lemma SameTake(p: Path, q: Path, k: nat)
    requires (p <= q || q <= p) && k <= |p| && k <= |q|
    ensures p[..k] == q[..k]
  {
  }

  /** An entry that passes through an open node ends strictly below it, along nodes. */
  lemma EndsPastOpen(nodes: Nodes, here: Path, w: Path)
    requires Closed(nodes) && Open(nodes, here) && Ends(nodes, w) && (here <= w || w <= here)
    ensures |here| < |w| && w[..|here| + 1] in nodes
  {
    var k :| 0 <= k <= |w| && Whole(nodes, w[..k]);
    if k <= |here| {
      SameTake(w, here, k);
    }
    assert w[..k][..|here| + 1] == w[..|here| + 1];
  }

  /** A covering entry is met further down the path. */
  lemma CoverPasses(nodes: Nodes, paths: set<Path>, p: Path, path: Path, i: nat, w: Path)
    requires Denotes(nodes, paths) && i <= |path| && Open(nodes, p + path[..i])
    requires w in Under(paths, p) && w <= path
    ensures i < |path| && p + path[..i + 1] in nodes
  {
    UnderMember(paths, p, w);
    var here := p + path[..i];
    assert |w| <= i ==> p + w <= here;
    assert |w| > i ==> here <= p + w;
    assert Ends(nodes, p + w);
    EndsPastOpen(nodes, here, p + w);
    assert (p + w)[..|here| + 1] == p + path[..i + 1];
  }

  /** Where the walk stops without a whole subtree, no entry covers the path. */
  lemma NothingCovers(nodes: Nodes, paths: set<Path>, p: Path, path: Path, i: nat)
    requires Denotes(nodes, paths) && i <= |path| && Open(nodes, p + path[..i])
    requires i == |path| || p + path[..i + 1] !in nodes
    ensures !CoversBy(Under(paths, p), path)
  {
    if CoversBy(Under(paths, p), path) {
      var w :| w in Under(paths, p) && w <= path;
      CoverPasses(nodes, paths, p, path, i, w);
    }
  }

  /** A child exists exactly when some entry passes through it, and is whole exactly when one ends at it. */
  lemma ChildDenotes(nodes: Nodes, paths: set<Path>, p: Path, seg: string)
    requires Denotes(nodes, paths) && Open(nodes, p)
    ensures p + [seg] in nodes <==> Under(paths, p + [seg]) != {}
    ensures Whole(nodes, p + [seg]) <==> [] in Under(paths, p + [seg])
  {
    var c := p + [seg];
    assert c + [] == c;
    UnderMember(paths, c, []);
    if c in nodes {
      assert Leads(paths, c);
      var w :| w in paths && c <= w;
      assert c + w[|c|..] == w;
      UnderMember(paths, c, w[|c|..]);
    }
    forall w | w in Under(paths, c) ensures c in nodes && (w == [] ==> Whole(nodes, c)) {
      UnderMember(paths, c, w);
      EntryThrough(nodes, paths, p, seg, c + w);
    }
  }

  lemma EntryThrough(nodes: Nodes, paths: set<Path>, p: Path, seg: string, w: Path)
    requires Denotes(nodes, paths) && Open(nodes, p) && w in paths && p + [seg] <= w
    ensures p + [seg] in nodes
    ensures w == p + [seg] ==> Whole(nodes, w)
  {
    assert Ends(nodes, w);
    EndsPastOpen(nodes, p, w);
    assert w[..|p| + 1] == p + [seg];
    if w == p + [seg] && !Whole(nodes, w) {
      OpenStep(nodes, p, seg);
      EndsPastOpen(nodes, w, w);
    }
  }

  // ── The trie in memory ────────────

  /** `all`: the whole subtree is writable. */
  class FieldTree {
    var all: bool
    var children: map<string, FieldTree>
    // the path from the root
    ghost const path: Path

    constructor (ghost path: Path)
      ensures !all && children == map[] && this.path == path
    {
      this.path := path;
      all := false;
      children := map[];
    }
  }

  class Whitelist {
    const root: FieldTree
    // every node by its path from the root, and the paths added so far
    ghost var at: map<Path, FieldTree>
    ghost var nodes: Nodes
    ghost var repr: set<FieldTree>
    ghost var paths: set<Path>

    constructor ()
      ensures Valid() && paths == {} && fresh(repr)
    {
      var r := new FieldTree([]);
      root := r;
      at := map[[] := r];
      nodes := map[[] := false];
      repr := {r};
      paths := {};
    }

    /** The objects form a tree holding exactly `nodes`. */
    ghost predicate Tied()
      reads this, repr
    {
      && root in repr && root.path == []
      && (forall n :: n in repr ==> n.path in at && at[n.path] == n)
      && (forall n :: n in repr ==> n.path in nodes && n.all == nodes[n.path])
      && (forall n, s :: n in repr && s in n.children ==> n.children[s] in repr && n.children[s].path == n.path + [s])
      && (forall n, s :: n in repr ==> (s in n.children <==> n.path + [s] in nodes))
    }

    ghost predicate Valid()
      reads this, repr
    {
      Tied() && Denotes(nodes, paths)
    }

    /** Walk down the segments, creating missing nodes; stop where the whole subtree is already writable. */
    method AddPath(path: Path)
      requires Valid() && path != []
      modifies this, repr
      ensures Valid() && fresh(repr - old(repr))
      ensures paths == old(paths) + {path}
    {
      var node := root;
      var i := 0;
      assert path[..0] == [];
      while i < |path| && !node.all
        invariant 0 <= i <= |path|
        invariant Tied() && fresh(repr - old(repr)) && paths == old(paths)
        invariant node in repr && node.path == path[..i]
        invariant Holding(nodes, paths, path)
      {
        var seg := path[i];
        assert path[..i + 1] == path[..i] + [seg];
        if seg !in node.children {
          Grow(nodes, paths, path, i);
          var _ := NewChild(node, seg);
        }
        node := node.children[seg];
        i := i + 1;
      }
      if node.all {
        Absorb(nodes, paths, path, i);
      } else {
        assert path[..i] == path;
        Finish(nodes, paths, path);
        MakeWhole(node);
      }
      paths := paths + {path};
    }

    method MakeWhole(node: FieldTree)
      requires Tied() && node in repr
      modifies this`nodes, node`all
      ensures Tied() && nodes == old(nodes)[node.path := true]
    {
      node.all := true;
      nodes := nodes[node.path := true];
    }

    method NewChild(node: FieldTree, seg: string) returns (next: FieldTree)
      requires Tied() && Closed(nodes) && node in repr && seg !in node.children
      modifies this`at, this`nodes, this`repr, node`children
      ensures Tied() && fresh(next) && repr == old(repr) + {next} && seg in node.children
      ensures nodes == old(nodes)[node.path + [seg] := false]
    {
      next := new FieldTree(node.path + [seg]);
      forall s ensures next.path + [s] !in nodes && next.path + [s] != next.path {
        assert (next.path + [s])[..|next.path|] == next.path;
      }
      forall n, s | n in repr ensures n.path + [s] == next.path <==> n == node && s == seg {
        StepUnique(n.path, s, node.path, seg);
      }
      Attach(node, seg, next);
    }

    method Attach(node: FieldTree, seg: string, next: FieldTree)
      requires Tied() && node in repr && next !in repr
      requires next.path == node.path + [seg] && next.path !in nodes && next.children == map[] && !next.all
      requires forall s :: next.path + [s] !in nodes && next.path + [s] != next.path
      requires forall n, s :: n in repr ==> (n.path + [s] == next.path <==> n == node && s == seg)
      modifies this`at, this`nodes, this`repr, node`children
      ensures Tied() && repr == old(repr) + {next} && seg in node.children
      ensures nodes == old(nodes)[next.path := false]
    {
      node.children := node.children[seg := next];
      at := at[next.path := next];
      nodes := nodes[next.path := false];
      repr := repr + {next};
    }

    /** `true` when the path is whitelisted by itself or an ancestor. */
    method CoversPath(path: Path) returns (covered: bool)
      requires Valid()
      ensures covered <==> CoversBy(paths, path)
    {
      UnderNothing(paths);
      covered := CoversFrom(root, [], path);
    }

    /** The same walk from any open node, over the entries below it. */
    method CoversFrom(start: FieldTree, ghost p: Path, path: Path) returns (covered: bool)
      requires Valid() && start in repr && start.path == p && Open(nodes, p)
      ensures covered <==> CoversBy(Under(paths, p), path)
    {
      var node := start;
      assert p + path[..0] == p;
      for i := 0 to |path|
        invariant node in repr && node.path == p + path[..i]
        invariant Open(nodes, p + path[..i])
      {
        assert p + path[..i + 1] == (p + path[..i]) + [path[i]];
        if path[i] !in node.children {
          NothingCovers(nodes, paths, p, path, i);
          return false;
        }
        node := node.children[path[i]];
        if node.all {
          UnderMember(paths, p, path[..i + 1]);
          assert path[..i + 1] <= path;
          return true;
        }
        OpenStep(nodes, p + path[..i], path[i]);
      }
      NothingCovers(nodes, paths, p, path, |path|);
      return false;
    }
  }

  lemma StepUnique(p: Path, s: string, q: Path, t: string)
    ensures p + [s] == q + [t] <==> p == q && s == t
  {
    if p + [s] == q + [t] {
      assert (p + [s])[..|p|] == p && (q + [t])[..|q|] == q;
      assert (p + [s])[|p|] == s && (q + [t])[|q|] == t;
    }
  }
}
