/**
 Inlining a whole type: which ids repeat, which references dangle and how many
 nodes there are, exactly, over the `ref`s its `$ref` entries carry.
 */
module InlinedTypes {
  import opened Options
  import opened TypeInlining
  import opened KeptRefs
  import opened InliningSafety

  // ── A type without ids is left as it is ────────────

  lemma {:induction false} NothingToInline(node: Node, c: Ctx)
    requires Ids(node, false) == multiset{}
    ensures Inline(node, map[], map[], false, c) == (Some(node), c)
    decreases node
  {
    if node.Body? {
      assert node.id.None? && KidsIds(node.kids, false) == multiset{};
      NothingInKids(node.kids, c);
      BodyUnfolds(node, map[], map[], false, c, node.kids, c);
      if node.ref.Some? {
        NothingToInline(node.ref.value, c);
      }
    }
  }

  lemma {:induction false} NothingInKids(kids: seq<Kid>, c: Ctx)
    requires KidsIds(kids, false) == multiset{}
    ensures InlineKids(kids, map[], map[], false, c) == (kids, c)
    decreases kids
  {
    if kids != [] {
      assert KidIds(kids[0], false) == multiset{} && KidsIds(kids[1..], false) == multiset{};
      NothingInKid(kids[0], c);
      NothingInKids(kids[1..], c);
      assert KeptKid(kids[0], Some(kids[0].node)) == [kids[0]] && [kids[0]] + kids[1..] == kids;
    }
  }

  lemma {:induction false} NothingInKid(kid: Kid, c: Ctx)
    requires KidIds(kid, false) == multiset{}
    ensures Inline(kid.node, map[], map[], false, c) == (Some(kid.node), c)
    decreases kid
  {
    NothingToInline(kid.node, c);
  }

  /** The shortcut for a type without bodies answers what the walk would. */
  lemma WalkedWhole(root: Node)
    ensures Indexed(Collect(root, map[]))
    ensures Inline(root, Collect(root, map[]), map[], false, Ctx(MAX_INLINED_NODES, 0)).0 == Some(InlineTypeRefs(root))
  {
    CollectIndexed(root, map[]);
    if Collect(root, map[]) == map[] {
      CollectAdds(root, map[]);
      assert Ids(root, false) == multiset{} by {
        assert forall k :: k !in Ids(root, false);
      }
      NothingToInline(root, Ctx(MAX_INLINED_NODES, 0));
    }
  }

  // ── The three together ────────────

  /**
   For every type: the ids of the inlined type are pairwise distinct if and only
   if those inside kept `ref`s occur once, each `$ref` to a known id points at a
   proper ancestor if and only if those inside kept `ref`s do, and the nodes
   beyond the type's own and the kept `ref`s' are at most the budget.
   */
  lemma InliningExact(root: Node)
    ensures var out, kept, known := InlineTypeRefs(root), KeptOf(root), Collect(root, map[]).Keys;
            && (Unique(Ids(out, true)) <==> forall x :: x in KeptIds(kept, true) ==> Ids(out, true)[x] == 1)
            && ((forall x :: x in KeptIds(kept, true) ==> '#' !in x) ==>
                 (Unique(Ids(out, true)) <==> Unique(KeptIds(kept, true))))
            && (Anchored(out, {}, known) <==> KeptAnchored(kept, known))
            && Weight(out) <= Originals(root) + KeptWeight(kept) + MAX_INLINED_NODES
  {
    WalkedWhole(root);
    var bodies, c := Collect(root, map[]), Ctx(MAX_INLINED_NODES, 0);
    var out := InlineTypeRefs(root);
    InlineIds(root, bodies, map[], false, c, {}, true);
    UniqueIff(Own(out), Ids(out, true), KeptIds(KeptOf(root), true), c.n, Inline(root, bodies, map[], false, c).1.n);
    InlineAnchored(root, bodies, map[], false, c, {});
    InlineWeight(root, bodies, map[], false, c, {});
  }

  // ── Read off the type ────────────

  /** Every `ref` that a `$ref` entry of the node carries satisfies `p`. */
  ghost predicate Entries(node: Node, p: Node -> bool) {
    if node.Ref? then node.ref.Some? ==> p(node.ref.value)
    else EntriesOfKids(node.kids, p) && (node.ref.Some? ==> Entries(node.ref.value, p))
  }

  ghost predicate EntriesOfKids(kids: seq<Kid>, p: Node -> bool) {
    kids == [] || (EntriesOfKid(kids[0], p) && EntriesOfKids(kids[1..], p))
  }

  ghost predicate EntriesOfKid(kid: Kid, p: Node -> bool) {
    Entries(kid.node, p)
  }

  ghost predicate EntriesOfBodies(bodies: Bodies, p: Node -> bool) {
    forall k :: k in bodies ==> Entries(bodies[k], p)
  }

  ghost predicate AllKept(kept: seq<KeptRef>, p: Node -> bool) {
    forall k :: k in kept ==> p(k.ref)
  }

  lemma {:induction false} CollectEntries(node: Node, bodies: Bodies, p: Node -> bool)
    requires EntriesOfBodies(bodies, p) && Entries(node, p)
    ensures EntriesOfBodies(Collect(node, bodies), p)
    decreases node
  {
    if node.Body? {
      var self := if node.id.Some? && node.id.value !in bodies then bodies[node.id.value := node] else bodies;
      CollectKidsEntries(node.kids, self, p);
      if node.ref.Some? {
        CollectEntries(node.ref.value, CollectKids(node.kids, self), p);
      }
    }
  }

  lemma {:induction false} CollectKidsEntries(kids: seq<Kid>, bodies: Bodies, p: Node -> bool)
    requires EntriesOfBodies(bodies, p) && EntriesOfKids(kids, p)
    ensures EntriesOfBodies(CollectKids(kids, bodies), p)
    decreases kids
  {
    if kids != [] {
      CollectKidEntries(kids[0], bodies, p);
      CollectKidsEntries(kids[1..], CollectKid(kids[0], bodies), p);
    }
  }

  lemma {:induction false} CollectKidEntries(kid: Kid, bodies: Bodies, p: Node -> bool)
    requires EntriesOfBodies(bodies, p) && EntriesOfKid(kid, p)
    ensures EntriesOfBodies(CollectKid(kid, bodies), p)
    decreases kid
  {
    CollectEntries(kid.node, bodies, p);
  }

  /** A kept `ref` comes from an entry of the type. */
  lemma {:induction false} KeptFromEntries(node: Node, bodies: Bodies, stack: map<string, string>, inlining: bool,
                                           c: Ctx, ancestors: set<string>, p: Node -> bool)
    requires Indexed(bodies) && EntriesOfBodies(bodies, p) && Entries(node, p)
    ensures AllKept(Kept(node, bodies, stack, inlining, c, ancestors), p)
    decreases Unstacked(bodies, stack), Waiting(node, bodies, stack), Size(node), 2
  {
    if node.Body? {
      if !(inlining && c.budget - 1 < 0) {
        KeptInBodyFromEntries(node, bodies, stack, inlining, c, ancestors, p);
      }
    } else if node.target !in stack && node.target in bodies && c.budget - 1 >= 0 {
      KeptInBodyFromEntries(bodies[node.target], bodies, stack, true, c, ancestors, p);
    }
  }

  lemma {:induction false} KeptInBodyFromEntries(node: Node, bodies: Bodies, stack: map<string, string>, inlining: bool,
                                                 c: Ctx, ancestors: set<string>, p: Node -> bool)
    requires Indexed(bodies) && EntriesOfBodies(bodies, p) && Entries(node, p) && node.Body?
    ensures AllKept(KeptInBody(node, bodies, stack, inlining, c, ancestors), p)
    ensures AllKept(KeptInKids(node, bodies, stack, inlining, c, ancestors), p)
    decreases Unstacked(bodies, stack), Waiting(node, bodies, stack), Size(node), 1
  {
    PushShrinks(node, bodies, stack, c);
    var next, entered, inside := Stacked(node, stack, c), Entered(node, inlining, c), Inside(node, c, ancestors);
    KeptOfKidsFromEntries(node.kids, bodies, next, inlining, entered, inside, p);
    if node.ref.Some? {
      KeptFromEntries(node.ref.value, bodies, next, inlining, InlineKids(node.kids, bodies, next, inlining, entered).1,
        inside, p);
    }
  }

  lemma {:induction false} KeptOfKidsFromEntries(kids: seq<Kid>, bodies: Bodies, stack: map<string, string>,
                                                 inlining: bool, c: Ctx, ancestors: set<string>, p: Node -> bool)
    requires Indexed(bodies) && EntriesOfBodies(bodies, p) && EntriesOfKids(kids, p)
    ensures AllKept(KeptOfKids(kids, bodies, stack, inlining, c, ancestors), p)
    decreases Unstacked(bodies, stack), 1, KidsSize(kids), 0
  {
    if kids != [] {
      assert KidsSize(kids) == KidSize(kids[0]) + KidsSize(kids[1..]);
      KeptFromEntries(kids[0].node, bodies, stack, inlining, c, ancestors, p);
      KeptOfKidsFromEntries(kids[1..], bodies, stack, inlining, Inline(kids[0].node, bodies, stack, inlining, c).1,
        ancestors, p);
    }
  }

  /** A `ref` without ids whose references to known ids stay inside it: there can be none. */
  ghost predicate Inert(ref: Node, known: set<string>) {
    Ids(ref, true) == multiset{} && Anchored(ref, {}, known)
  }

  lemma {:induction false} InertKept(kept: seq<KeptRef>, known: set<string>)
    requires AllKept(kept, r => Inert(r, known))
    ensures KeptIds(kept, true) == multiset{} && KeptAnchored(kept, known)
  {
    if kept != [] {
      assert kept[0] in kept;
      InertKept(kept[1..], known);
    }
    forall k | k in kept ensures Anchored(k.ref, k.ancestors, known) {
      AnchoredBelow(k.ref, {}, k.ancestors, known);
    }
  }

  /**
   A type whose entries carry only `ref`s without ids or known references, or
   none: the ids are pairwise distinct and each recursive `$ref` points at a
   proper ancestor; where those `ref`s are no bodies, or there are none, at most
   the budget's worth of nodes is added.
   */
  lemma InliningSafe(root: Node)
    requires Entries(root, r => Inert(r, Collect(root, map[]).Keys))
    ensures var out := InlineTypeRefs(root);
            && Unique(Ids(out, true)) && Anchored(out, {}, Collect(root, map[]).Keys)
            && (Entries(root, r => Weight(r) == 0) ==> Weight(out) <= Originals(root) + MAX_INLINED_NODES)
  {
    InliningExact(root);
    CollectIndexed(root, map[]);
    var bodies, c := Collect(root, map[]), Ctx(MAX_INLINED_NODES, 0);
    var inert: Node -> bool := r => Inert(r, bodies.Keys);
    CollectEntries(root, map[], inert);
    KeptFromEntries(root, bodies, map[], false, c, {}, inert);
    InertKept(KeptOf(root), bodies.Keys);
    if Entries(root, r => Weight(r) == 0) {
      var weightless: Node -> bool := r => Weight(r) == 0;
      CollectEntries(root, map[], weightless);
      KeptFromEntries(root, bodies, map[], false, c, {}, weightless);
      WeightlessKept(KeptOf(root));
    }
  }

  lemma {:induction false} WeightlessKept(kept: seq<KeptRef>)
    requires AllKept(kept, r => Weight(r) == 0)
    ensures KeptWeight(kept) == 0
  {
    if kept != [] {
      assert kept[0] in kept;
      WeightlessKept(kept[1..]);
    }
  }

  // ── Types for which each part fails ────────────

  /** A type named `T` whose one child is an entry with a `ref` of its own. */
  function Holder(entry: Node): Node {
    Body(Some("T"), "object", [Kid(Prop("x"), entry)], 0, None)
  }

  /** That type used twice: once in full, once by reference. */
  function Twice(entry: Node): Node {
    Body(None, "object", [Kid(Prop("a"), Holder(entry)), Kid(Prop("b"), Ref("T", false, 0, None))], 0, None)
  }

  /** An entry of an unknown type that carries `ref`. */
  function Foreign(ref: Node): Node {
    Ref("ext", false, 0, Some(ref))
  }

  function HolderCopy(entry: Node, n: nat): Node {
    Body(Some(CopyId("T", n)), "object", [Kid(Prop("x"), entry)], 0, None)
  }

  lemma FirstKid(kids: seq<Kid>, bodies: Bodies, stack: map<string, string>, inlining: bool, c: Ctx, r: Node, c1: Ctx,
                 rest: seq<Kid>, c2: Ctx)
    requires Indexed(bodies) && kids != [] && Inline(kids[0].node, bodies, stack, inlining, c) == (Some(r), c1)
    requires InlineKids(kids[1..], bodies, stack, inlining, c1) == (rest, c2)
    ensures InlineKids(kids, bodies, stack, inlining, c) == ([Kid(kids[0].slot, r)] + rest, c2)
  {
    assert KeptKid(kids[0], Some(r)) == [Kid(kids[0].slot, r)];
  }

  lemma HolderInlined(ref: Node, bodies: Bodies, inlining: bool, c: Ctx)
    requires Indexed(bodies) && "ext" !in bodies && c.budget >= 1
    ensures Inline(Holder(Foreign(ref)), bodies, map[], inlining, c)
            == (Some(HolderCopy(Foreign(ref), c.n + 1)), Ctx(if inlining then c.budget - 1 else c.budget, c.n + 1))
  {
    var node, e := Holder(Foreign(ref)), Foreign(ref);
    var next, entered := Stacked(node, map[], c), Entered(node, inlining, c);
    assert "ext" !in next;
    assert Inline(e, bodies, next, inlining, entered) == (Some(e), entered);
    assert node.kids[1..] == [] && InlineKids([], bodies, next, inlining, entered) == ([], entered);
    FirstKid(node.kids, bodies, next, inlining, entered, e, entered, [], entered);
    assert [Kid(Prop("x"), e)] + [] == [Kid(Prop("x"), e)];
    BodyUnfolds(node, bodies, map[], inlining, c, [Kid(Prop("x"), e)], entered);
  }

  lemma TwiceCollects(entry: Node)
    requires entry.Ref?
    ensures Collect(Twice(entry), map[]) == map["T" := Holder(entry)]
  {
    var a, b := Kid(Prop("a"), Holder(entry)), Kid(Prop("b"), Ref("T", false, 0, None));
    var bodies := map["T" := Holder(entry)];
    var x := Kid(Prop("x"), entry);
    assert CollectKids([], bodies) == bodies && [x][1..] == [];
    assert CollectKid(x, bodies) == bodies && CollectKids([x], bodies) == CollectKids([x][1..], CollectKid(x, bodies));
    assert Collect(Holder(entry), map[]) == bodies;
    assert [a, b][1..] == [b] && [b][1..] == [];
    assert CollectKid(b, bodies) == bodies && CollectKids([b], bodies) == CollectKids([b][1..], CollectKid(b, bodies));
    assert CollectKids([a, b], map[]) == CollectKids([a, b][1..], CollectKid(a, map[]));
  }

  lemma TwiceInlined(ref: Node)
    ensures InlineTypeRefs(Twice(Foreign(ref)))
            == Body(None, "object",
                    [Kid(Prop("a"), HolderCopy(Foreign(ref), 1)), Kid(Prop("b"), HolderCopy(Foreign(ref), 2))], 0, None)
  {
    var e, root := Foreign(ref), Twice(Foreign(ref));
    TwiceCollects(e);
    var bodies, c0, c1 := map["T" := Holder(e)], Ctx(MAX_INLINED_NODES, 0), Ctx(MAX_INLINED_NODES, 1);
    HolderInlined(ref, bodies, false, c0);
    HolderInlined(ref, bodies, true, c1);
    var a, b := root.kids[0], root.kids[1];
    var ra, rb := Kid(Prop("a"), HolderCopy(e, 1)), Kid(Prop("b"), HolderCopy(e, 2));
    var c2 := Inline(b.node, bodies, map[], false, c1).1;
    assert [b][1..] == [] && InlineKids([], bodies, map[], false, c2) == ([], c2);
    FirstKid([b], bodies, map[], false, c1, HolderCopy(e, 2), c2, [], c2);
    assert [rb] + [] == [rb] && root.kids[1..] == [b] && [ra] + [rb] == [ra, rb];
    FirstKid(root.kids, bodies, map[], false, c0, HolderCopy(e, 1), c1, [rb], c2);
    BodyUnfolds(root, bodies, map[], false, c0, [ra, rb], c2);
  }

  /**
   A kept `ref` is copied with every copy of the body it hangs in: its ids then
   repeat, and its nodes are added again without being paid from the budget.
   */
  lemma KeptRefIsRepeated(ref: Node)
    ensures var root := Twice(Foreign(ref)); var out := InlineTypeRefs(root);
            && Weight(root) == 2 + Weight(ref)
            && Weight(out) == 3 + 2 * Weight(ref)
            && (forall x :: x in Ids(ref, true) ==> Ids(out, true)[x] >= 2)
  {
    TwiceInlined(ref);
    var e := Foreign(ref);
    HolderMeasured(Some("T"), e);
    HolderMeasured(Some(CopyId("T", 1)), e);
    HolderMeasured(Some(CopyId("T", 2)), e);
    PairMeasured(Holder(e), Ref("T", false, 0, None));
    PairMeasured(HolderCopy(e, 1), HolderCopy(e, 2));
  }

  lemma HolderMeasured(id: Option<string>, entry: Node)
    requires id.Some?
    ensures var h := Body(id, "object", [Kid(Prop("x"), entry)], 0, None);
            Weight(h) == 1 + Weight(entry) && Ids(h, true) == multiset{id.value} + Ids(entry, true)
  {
    var x := [Kid(Prop("x"), entry)];
    assert x[1..] == [] && KidsWeight([]) == 0 && KidsIds([], true) == multiset{};
    assert KidsWeight(x) == KidWeight(x[0]) + KidsWeight(x[1..]);
    assert KidsIds(x, true) == KidIds(x[0], true) + KidsIds(x[1..], true);
  }

  lemma PairMeasured(a: Node, b: Node)
    ensures var p := Body(None, "object", [Kid(Prop("a"), a), Kid(Prop("b"), b)], 0, None);
            Weight(p) == 1 + Weight(a) + Weight(b) && Ids(p, true) == Ids(a, true) + Ids(b, true)
  {
    var kids := [Kid(Prop("a"), a), Kid(Prop("b"), b)];
    assert kids[1..] == [Kid(Prop("b"), b)] && kids[1..][1..] == [];
    assert KidsWeight(kids[1..]) == Weight(b) && KidsIds(kids[1..], true) == Ids(b, true);
    assert KidsWeight(kids) == Weight(a) + Weight(b) && KidsIds(kids, true) == Ids(a, true) + Ids(b, true);
  }

  /** An `own` entry whose `ref` names a known type leaves a dangling reference. */
  lemma OwnEntryMayDangle(bodies: Bodies, entry: Node)
    requires Indexed(bodies) && "T" in bodies
    requires entry == Ref("T", true, 0, Some(Ref("T", false, 0, None)))
    ensures var r := Inline(entry, bodies, map[], false, Ctx(MAX_INLINED_NODES, 0)).0;
            r.Some? && !Anchored(r.value, {}, bodies.Keys)
  {
    var c := Ctx(MAX_INLINED_NODES, 0);
    var laid := KeptRef(entry.ref.value, Inside(bodies["T"], c, {}), true);
    InlineAnchored(entry, bodies, map[], false, c, {});
    assert OfEntry(entry, laid.ancestors, true) == [laid];
    assert laid in Kept(entry, bodies, map[], false, c, {});
    assert '#' in CopyId("T", 1) by {
      assert CopyId("T", 1)[1] == '#';
    }
    assert !Anchored(laid.ref, laid.ancestors, bodies.Keys);
  }
}
