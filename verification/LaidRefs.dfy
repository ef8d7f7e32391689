/**
 Types whose shape inlining changes: a `ref` laid over an inlined body brings an
 id that something else in the output refers to.
 */
module LaidRefs {
  import opened Options
  import opened TypeInlining
  import opened InlinedTypes
  import opened InliningShape

  // ── Small trees ────────────

  function Leaf(id: string, kind: string): TypeInlining.Node {
    Body(Some(id), kind, [], 0, None)
  }

  /** An entry laid over the type `T`, with a leaf as its `ref`. */
  function LaidEntry(laid: string): TypeInlining.Node {
    Ref("T", true, 0, Some(Leaf(laid, "laid")))
  }

  function Three(a: TypeInlining.Node, b: TypeInlining.Node, c: TypeInlining.Node): TypeInlining.Node {
    Body(None, "object", [Kid(Prop("a"), a), Kid(Prop("b"), b), Kid(Prop("c"), c)], 0, None)
  }

  lemma ThreeCollects(a: TypeInlining.Node, b: TypeInlining.Node, c: TypeInlining.Node)
    ensures Collect(Three(a, b, c), map[]) == Collect(c, Collect(b, Collect(a, map[])))
  {
    var ka, kb, kc := Kid(Prop("a"), a), Kid(Prop("b"), b), Kid(Prop("c"), c);
    var first, second := CollectKid(ka, map[]), CollectKid(kb, CollectKid(ka, map[]));
    assert [ka, kb, kc][1..] == [kb, kc] && [kb, kc][1..] == [kc] && [kc][1..] == [];
    assert CollectKids([kc], second) == CollectKids([], CollectKid(kc, second));
    assert CollectKids([kb, kc], first) == CollectKids([kc], second);
    assert CollectKids([ka, kb, kc], map[]) == CollectKids([kb, kc], first);
  }

  lemma ThreeInlined(a: TypeInlining.Node, b: TypeInlining.Node, c: TypeInlining.Node, bodies: Bodies, x0: Ctx,
                     ra: TypeInlining.Node, x1: Ctx, rb: TypeInlining.Node, x2: Ctx, rc: TypeInlining.Node, x3: Ctx)
    requires Indexed(bodies)
    requires Inline(a, bodies, map[], false, x0) == (Some(ra), x1)
    requires Inline(b, bodies, map[], false, x1) == (Some(rb), x2)
    requires Inline(c, bodies, map[], false, x2) == (Some(rc), x3)
    ensures Inline(Three(a, b, c), bodies, map[], false, x0) == (Some(Three(ra, rb, rc)), x3)
  {
    var ka, kb, kc := Kid(Prop("a"), a), Kid(Prop("b"), b), Kid(Prop("c"), c);
    var la, lb, lc := Kid(Prop("a"), ra), Kid(Prop("b"), rb), Kid(Prop("c"), rc);
    assert [ka, kb, kc][1..] == [kb, kc] && [kb, kc][1..] == [kc] && [kc][1..] == [];
    assert InlineKids([], bodies, map[], false, x3) == ([], x3);
    FirstKid([kc], bodies, map[], false, x2, rc, x3, [], x3);
    assert [lc] + [] == [lc];
    FirstKid([kb, kc], bodies, map[], false, x1, rb, x2, [lc], x3);
    assert [lb] + [lc] == [lb, lc];
    FirstKid([ka, kb, kc], bodies, map[], false, x0, ra, x1, [lb, lc], x3);
    assert [la] + [lb, lc] == [la, lb, lc];
    BodyUnfolds(Three(a, b, c), bodies, map[], false, x0, [la, lb, lc], x3);
  }

  /** The shape below a child. */
  lemma ThreeDiffers(a: TypeInlining.Node, b: TypeInlining.Node, c: TypeInlining.Node, ra: TypeInlining.Node,
                     rb: TypeInlining.Node, rc: TypeInlining.Node, env: Bodies, bodies: Bodies, d: nat)
    requires d > 0
    requires Unfold(rc, env, d - 1) != Unfold(c, bodies, d - 1)
    ensures Unfold(Three(ra, rb, rc), env, d) != Unfold(Three(a, b, c), bodies, d)
  {
    var out, root := UnfoldBody(Three(ra, rb, rc), env, d), UnfoldBody(Three(a, b, c), bodies, d);
    assert out.kids[2].1 == Unfold(rc, env, d - 1) && root.kids[2].1 == Unfold(c, bodies, d - 1);
  }

  // ── An id that an unresolved reference names ────────────

  lemma LeafInlined(id: string, kind: string, bodies: Bodies, inlining: bool, c: Ctx)
    requires Indexed(bodies) && c.budget >= 1
    ensures Inline(Leaf(id, kind), bodies, map[], inlining, c)
            == (Some(Leaf(CopyId(id, c.n + 1), kind)), Ctx(if inlining then c.budget - 1 else c.budget, c.n + 1))
  {
    var node := Leaf(id, kind);
    BodyUnfolds(node, bodies, map[], inlining, c, [], Entered(node, inlining, c));
  }

  /** A type that refers to an unknown type, and lays a body of that name over another. */
  function Shadowing(): TypeInlining.Node {
    Three(Leaf("T", "leaf"), LaidEntry("ext"), Ref("ext", false, 0, None))
  }

  lemma ShadowingInlined()
    ensures WithinBudget(Shadowing()) && Collect(Shadowing(), map[]) == map["T" := Leaf("T", "leaf")]
    ensures InlineTypeRefs(Shadowing())
      == Three(Leaf(CopyId("T", 1), "leaf"), Body(Some(CopyId("T", 2)), "leaf", [], 0, Some(Leaf("ext", "laid"))),
               Ref("ext", false, 0, None))
  {
    var t, bodies := Leaf("T", "leaf"), map["T" := Leaf("T", "leaf")];
    var e, b := LaidEntry("ext"), Ref("ext", false, 0, None);
    ThreeCollects(t, e, b);
    assert Collect(t, map[]) == bodies;
    var x0, x1, x2 := Ctx(MAX_INLINED_NODES, 0), Ctx(MAX_INLINED_NODES, 1), Ctx(MAX_INLINED_NODES - 1, 2);
    LeafInlined("T", "leaf", bodies, false, x0);
    LeafInlined("T", "leaf", bodies, true, x1);
    var laid := Body(Some(CopyId("T", 2)), "leaf", [], 0, Some(Leaf("ext", "laid")));
    assert Inline(e, bodies, map[], false, x1) == (Some(laid), x2);
    ThreeInlined(t, e, b, bodies, x0, Leaf(CopyId("T", 1), "leaf"), x1, laid, x2, b, x2);
  }

  /** What was unknown resolves to the laid body: the shape changes. */
  lemma LaidIdShadowsUnknown(d: nat)
    requires d > 0
    ensures var root := Shadowing(); var out := InlineTypeRefs(root);
      && WithinBudget(root) && Unfold(out, Collect(out, map[]), d) != Unfold(root, Collect(root, map[]), d)
  {
    ShadowingInlined();
    var laid := Body(Some(CopyId("T", 2)), "leaf", [], 0, Some(Leaf("ext", "laid")));
    var first, b := Leaf(CopyId("T", 1), "leaf"), Ref("ext", false, 0, None);
    ThreeCollects(first, laid, b);
    var env := Collect(InlineTypeRefs(Shadowing()), map[]);
    assert CopyId("T", 1)[1] == '#' && CopyId("T", 2)[1] == '#' && "ext"[1] == 'x';
    LaidCollected(first, laid, "ext");
    ThreeDiffers(Leaf("T", "leaf"), LaidEntry("ext"), b, first, laid, b, env, Collect(Shadowing(), map[]), d);
  }

  /** A laid leaf is collected under its id unless one came before. */
  lemma LaidCollected(first: TypeInlining.Node, over: TypeInlining.Node, id: string)
    requires over.Body? && over.kids == [] && over.ref == Some(Leaf(id, "laid")) && over.id.Some? && over.id.value != id
    requires id !in Collect(first, map[])
    ensures var env := Collect(over, Collect(first, map[])); id in env && env[id] == Leaf(id, "laid")
  {
    var acc := Collect(first, map[]);
    var self := if over.id.value !in acc then acc[over.id.value := over] else acc;
    assert CollectKids([], self) == self;
    assert Collect(over, acc) == Collect(Leaf(id, "laid"), self);
    assert CollectKids([], self[id := Leaf(id, "laid")]) == self[id := Leaf(id, "laid")];
  }

  // ── An id that a copy takes ────────────

  function Loop(id: string, target: string): TypeInlining.Node {
    Body(Some(id), "loop", [Kid(Prop("self"), Ref(target, false, 0, None))], 0, None)
  }

  /** A recursive type, used twice: the first use lays a body over it whose id is that of the second copy. */
  function Capturing(): TypeInlining.Node {
    Three(LaidEntry(CopyId("T", 2)), Ref("ext", false, 0, None), Loop("T", "T"))
  }

  lemma LoopInlined(bodies: Bodies, inlining: bool, c: Ctx)
    requires Indexed(bodies) && c.budget >= 1
    ensures var id := CopyId("T", c.n + 1);
      Inline(Loop("T", "T"), bodies, map[], inlining, c)
        == (Some(Loop(id, id)), Ctx(if inlining then c.budget - 1 else c.budget, c.n + 1))
  {
    var node, id := Loop("T", "T"), CopyId("T", c.n + 1);
    var next, entered := Stacked(node, map[], c), Entered(node, inlining, c);
    assert Inline(node.kids[0].node, bodies, next, inlining, entered) == (Some(Ref(id, false, 0, None)), entered);
    assert node.kids[1..] == [] && InlineKids([], bodies, next, inlining, entered) == ([], entered);
    FirstKid(node.kids, bodies, next, inlining, entered, Ref(id, false, 0, None), entered, [], entered);
    var kids := [Kid(Prop("self"), Ref(id, false, 0, None))];
    assert kids + [] == kids;
    BodyUnfolds(node, bodies, map[], inlining, c, kids, entered);
  }

  function LaidLoop(n: nat, laid: string): TypeInlining.Node {
    Loop(CopyId("T", n), CopyId("T", n)).(ref := Some(Leaf(laid, "laid")))
  }

  lemma CapturingInlined()
    ensures WithinBudget(Capturing()) && Collect(Capturing(), map[]) == map["T" := Loop("T", "T")]
    ensures InlineTypeRefs(Capturing())
      == Three(LaidLoop(1, CopyId("T", 2)), Ref("ext", false, 0, None), Loop(CopyId("T", 2), CopyId("T", 2)))
  {
    var t, bodies := Loop("T", "T"), map["T" := Loop("T", "T")];
    var e, b := LaidEntry(CopyId("T", 2)), Ref("ext", false, 0, None);
    ThreeCollects(e, b, t);
    LoopCollected("T", "T", map[]);
    var x0, x1, x2 := Ctx(MAX_INLINED_NODES, 0), Ctx(MAX_INLINED_NODES - 1, 1), Ctx(MAX_INLINED_NODES - 1, 2);
    LoopInlined(bodies, true, x0);
    LoopInlined(bodies, false, x1);
    assert Inline(e, bodies, map[], false, x0) == (Some(LaidLoop(1, CopyId("T", 2))), x1);
    assert Inline(b, bodies, map[], false, x1) == (Some(b), x1);
    ThreeInlined(e, b, t, bodies, x0, LaidLoop(1, CopyId("T", 2)), x1, b, x1, Loop(CopyId("T", 2), CopyId("T", 2)), x2);
  }

  lemma LoopCollected(id: string, target: string, acc: Bodies)
    ensures Collect(Loop(id, target), acc) == if id in acc then acc else acc[id := Loop(id, target)]
  {
    var kids := Loop(id, target).kids;
    var self := if id in acc then acc else acc[id := Loop(id, target)];
    assert kids[1..] == [] && CollectKid(kids[0], self) == self;
    assert CollectKids(kids, self) == CollectKids(kids[1..], CollectKid(kids[0], self));
  }

  /** The second copy's reference to itself resolves to the laid body: the shape changes. */
  lemma LaidIdCapturesCopy(d: nat)
    requires d > 2
    ensures var root := Capturing(); var out := InlineTypeRefs(root);
      && WithinBudget(root) && Unfold(out, Collect(out, map[]), d) != Unfold(root, Collect(root, map[]), d)
  {
    CapturingInlined();
    var id, b := CopyId("T", 2), Ref("ext", false, 0, None);
    var env := Collect(InlineTypeRefs(Capturing()), map[]);
    ThreeCollects(LaidLoop(1, id), b, Loop(id, id));
    LaidLoopCollected(id);
    LoopCollected(id, id, Collect(LaidLoop(1, id), map[]));
    LoopsDiffer(id, env, d - 1);
    ThreeDiffers(LaidEntry(id), b, Loop("T", "T"), LaidLoop(1, id), b, Loop(id, id), env, map["T" := Loop("T", "T")],
      d);
  }

  lemma LaidLoopCollected(id: string)
    requires id == CopyId("T", 2)
    ensures var env := Collect(LaidLoop(1, id), map[]); id in env && env[id] == Leaf(id, "laid")
  {
    if CopyId("T", 1) == CopyId("T", 2) {
      CopyIdInjective("T", 1, "T", 2);
    }
    var over, kids := LaidLoop(1, id), LaidLoop(1, id).kids;
    var self: Bodies := map[CopyId("T", 1) := over];
    assert kids[1..] == [] && CollectKid(kids[0], self) == self;
    assert CollectKids(kids, self) == CollectKids(kids[1..], CollectKid(kids[0], self));
    assert Collect(over, map[]) == Collect(Leaf(id, "laid"), self);
    assert CollectKids([], self[id := Leaf(id, "laid")]) == self[id := Leaf(id, "laid")];
  }

  lemma LoopsDiffer(id: string, env: Bodies, d: nat)
    requires d > 1 && id in env && env[id] == Leaf(id, "laid")
    ensures Unfold(Loop(id, id), env, d) != Unfold(Loop("T", "T"), map["T" := Loop("T", "T")], d)
  {
    var bodies := map["T" := Loop("T", "T")];
    var out, root := UnfoldBody(Loop(id, id), env, d), UnfoldBody(Loop("T", "T"), bodies, d);
    var mine, theirs := Ref(id, false, 0, None), Ref("T", false, 0, None);
    assert Loop(id, id).kids[0].node == mine && Loop("T", "T").kids[0].node == theirs;
    assert out.kids[0].1 == Unfold(mine, env, d - 1) == UnfoldBody(Leaf(id, "laid"), env, d - 1);
    assert root.kids[0].1 == Unfold(theirs, bodies, d - 1) == UnfoldBody(Loop("T", "T"), bodies, d - 1);
    assert UnfoldBody(Leaf(id, "laid"), env, d - 1).kind == "laid";
    assert UnfoldBody(Loop("T", "T"), bodies, d - 1).kind == "loop";
  }
}
