/**
 Inlining preserves the type: while the budget lasts, nodes sharing an id share
 a body and no `ref` laid over a body takes an id that is meant elsewhere, the
 inlined tree unfolds to the same shape as the input at every depth, each
 resolving its own `$ref`s by id. Shape is kinds, labels and children; an `own`
 entry overlays metadata and `ref`.
 */
module InliningShape {
  import opened Options
  import opened TypeInlining
  import opened KeptRefs
  import opened InliningSafety
  import opened InlinedTypes

  // ── Unfolding by id ────────────

  datatype Shape = Cut | Unknown(id: string) | Node(kind: string, kids: seq<(Label, Shape)>)

  /** The shape of a node to a depth, resolving `$ref`s through `env`. */
  function Unfold(node: TypeInlining.Node, env: Bodies, d: nat): Shape
    decreases d, 1
  {
    if node.Body? then UnfoldBody(node, env, d)
    else if node.target in env && env[node.target].Body? then UnfoldBody(env[node.target], env, d)
    else Unknown(node.target)
  }

  function UnfoldBody(node: TypeInlining.Node, env: Bodies, d: nat): Shape
    requires node.Body?
    decreases d, 0
  {
    if d == 0 then Cut
    else
      Node(node.kind, seq(|node.kids|, i requires 0 <= i < |node.kids| =>
        (node.kids[i].slot, Unfold(node.kids[i].node, env, d - 1))))
  }

  /** Same kind and children; metadata, `ref` and id may differ. */
  predicate SameBody(a: TypeInlining.Node, b: TypeInlining.Node) {
    a.Body? && b.Body? && a.kind == b.kind && a.kids == b.kids
  }

  lemma SameBodyUnfolds(a: TypeInlining.Node, b: TypeInlining.Node, env: Bodies, d: nat)
    requires SameBody(a, b)
    ensures UnfoldBody(a, env, d) == UnfoldBody(b, env, d)
  {
  }

  // ── What the input must satisfy ────────────

  /** Nodes sharing an id share a body, and an unresolved target is neither a copy id nor one from `outside`. */
  predicate Shared(node: TypeInlining.Node, bodies: Bodies, outside: set<string>) {
    if node.Ref? then node.target in bodies || ('#' !in node.target && node.target !in outside)
    else
      && (node.id.Some? ==> node.id.value in bodies && SameBody(bodies[node.id.value], node))
      && SharedKids(node.kids, bodies, outside)
      && (node.ref.Some? ==> Shared(node.ref.value, bodies, outside))
  }

  predicate SharedKids(kids: seq<Kid>, bodies: Bodies, outside: set<string>) {
    kids == [] || (SharedKid(kids[0], bodies, outside) && SharedKids(kids[1..], bodies, outside))
  }

  predicate SharedKid(kid: Kid, bodies: Bodies, outside: set<string>) {
    Shared(kid.node, bodies, outside)
  }

  ghost predicate SharedBodies(bodies: Bodies, outside: set<string>, collected: Bodies) {
    forall k :: k in collected ==> Shared(collected[k], bodies, outside)
  }

  lemma {:induction false} SharedKidAt(kids: seq<Kid>, bodies: Bodies, outside: set<string>, i: nat)
    requires SharedKids(kids, bodies, outside) && i < |kids|
    ensures Shared(kids[i].node, bodies, outside)
  {
    if i > 0 {
      SharedKidAt(kids[1..], bodies, outside, i - 1);
    }
  }

  lemma {:induction false} CollectShared(node: TypeInlining.Node, bodies: Bodies, outside: set<string>, acc: Bodies)
    requires Shared(node, bodies, outside) && SharedBodies(bodies, outside, acc)
    ensures SharedBodies(bodies, outside, Collect(node, acc))
    decreases node
  {
    if node.Body? {
      var self := if node.id.Some? && node.id.value !in acc then acc[node.id.value := node] else acc;
      CollectKidsShared(node.kids, bodies, outside, self);
      if node.ref.Some? {
        CollectShared(node.ref.value, bodies, outside, CollectKids(node.kids, self));
      }
    }
  }

  lemma {:induction false} CollectKidsShared(kids: seq<Kid>, bodies: Bodies, outside: set<string>, acc: Bodies)
    requires SharedKids(kids, bodies, outside) && SharedBodies(bodies, outside, acc)
    ensures SharedBodies(bodies, outside, CollectKids(kids, acc))
    decreases kids
  {
    if kids != [] {
      CollectKidShared(kids[0], bodies, outside, acc);
      CollectKidsShared(kids[1..], bodies, outside, CollectKid(kids[0], acc));
    }
  }

  lemma {:induction false} CollectKidShared(kid: Kid, bodies: Bodies, outside: set<string>, acc: Bodies)
    requires SharedKid(kid, bodies, outside) && SharedBodies(bodies, outside, acc)
    ensures SharedBodies(bodies, outside, CollectKid(kid, acc))
    decreases kid
  {
    CollectShared(kid.node, bodies, outside, acc);
  }

  // ── The output resolves its own ids ────────────

  /** `env` resolves every id-bearing body of `node` (through children) to itself, up to overlay. */
  ghost predicate Resolved(node: TypeInlining.Node, env: Bodies) {
    node.Body? ==>
      && (node.id.Some? ==> node.id.value in env && SameBody(env[node.id.value], node))
      && ResolvedKids(node.kids, env)
  }

  ghost predicate ResolvedKids(kids: seq<Kid>, env: Bodies) {
    kids == [] || (ResolvedKid(kids[0], env) && ResolvedKids(kids[1..], env))
  }

  ghost predicate ResolvedKid(kid: Kid, env: Bodies) {
    Resolved(kid.node, env)
  }

  lemma {:induction false} ResolvedKidAt(kids: seq<Kid>, env: Bodies, i: nat)
    requires ResolvedKids(kids, env) && i < |kids|
    ensures Resolved(kids[i].node, env)
  {
    if i > 0 {
      ResolvedKidAt(kids[1..], env, i - 1);
    }
  }

  /** The ids reached through children occur once, and are new. */
  ghost predicate Apart(own: multiset<string>, ids: multiset<string>, acc: Bodies) {
    own <= ids && forall x :: x in own ==> ids[x] == 1 && x !in acc
  }

  lemma {:induction false} OwnWithin(node: TypeInlining.Node)
    ensures Own(node) <= Ids(node, false)
    decreases node
  {
    if node.Body? {
      KidsOwnWithin(node.kids);
    }
  }

  lemma {:induction false} KidsOwnWithin(kids: seq<Kid>)
    ensures KidsOwn(kids) <= KidsIds(kids, false)
    decreases kids
  {
    if kids != [] {
      KidOwnWithin(kids[0]);
      KidsOwnWithin(kids[1..]);
    }
  }

  lemma {:induction false} KidOwnWithin(kid: Kid)
    ensures KidOwn(kid) <= KidIds(kid, false)
    decreases kid
  {
    OwnWithin(kid.node);
  }

  /** Where the ids reached through children occur once, collecting resolves each to its own body. */
  lemma {:induction false} CollectResolves(node: TypeInlining.Node, acc: Bodies, env: Bodies)
    requires Apart(Own(node), Ids(node, false), acc)
    requires forall k :: k in Collect(node, acc) ==> k in env && env[k] == Collect(node, acc)[k]
    ensures Resolved(node, env)
    decreases node
  {
    if node.Body? {
      var self := if node.id.Some? then acc[node.id.value := node] else acc;
      KidsOwnWithin(node.kids);
      KidsApart(node, acc, self);
      SelfFirst(node, acc, self);
      CollectKidsResolves(node.kids, self, env);
    }
  }

  /** A body whose id is new is collected under it, before its children. */
  lemma SelfFirst(node: TypeInlining.Node, acc: Bodies, self: Bodies)
    requires node.Body? && (node.id.Some? ==> node.id.value !in acc)
    requires self == if node.id.Some? then acc[node.id.value := node] else acc
    ensures forall k :: k in CollectKids(node.kids, self) ==>
      k in Collect(node, acc) && Collect(node, acc)[k] == CollectKids(node.kids, self)[k]
    ensures node.id.Some? ==> node.id.value in Collect(node, acc) && Collect(node, acc)[node.id.value] == node
  {
    CollectKidsAdds(node.kids, self);
    if node.ref.Some? {
      CollectAdds(node.ref.value, CollectKids(node.kids, self));
    }
  }

  lemma KidsApart(node: TypeInlining.Node, acc: Bodies, self: Bodies)
    requires node.Body? && Apart(Own(node), Ids(node, false), acc) && KidsOwn(node.kids) <= KidsIds(node.kids, false)
    requires self == if node.id.Some? then acc[node.id.value := node] else acc
    ensures node.id.Some? ==> node.id.value !in acc
    ensures Apart(KidsOwn(node.kids), KidsIds(node.kids, false), self)
  {
    if node.id.Some? {
      assert node.id.value in Own(node);
    }
    forall x | x in KidsOwn(node.kids) ensures KidsIds(node.kids, false)[x] == 1 && x !in self {
      assert x in Own(node) && x in KidsIds(node.kids, false);
      assert Ids(node, false)[x] >= KidsIds(node.kids, false)[x] + if node.id == Some(x) then 1 else 0;
    }
  }

  lemma {:induction false} CollectKidsResolves(kids: seq<Kid>, acc: Bodies, env: Bodies)
    requires Apart(KidsOwn(kids), KidsIds(kids, false), acc)
    requires forall k :: k in CollectKids(kids, acc) ==> k in env && env[k] == CollectKids(kids, acc)[k]
    ensures ResolvedKids(kids, env)
    decreases kids
  {
    if kids != [] {
      KidOwnWithin(kids[0]);
      KidsOwnWithin(kids[1..]);
      CollectKidAdds(kids[0], acc);
      var next := CollectKid(kids[0], acc);
      CollectKidsAdds(kids[1..], next);
      assert CollectKids(kids, acc) == CollectKids(kids[1..], next);
      SplitApart(KidOwn(kids[0]), KidIds(kids[0], false), KidsOwn(kids[1..]), KidsIds(kids[1..], false), acc, next);
      CollectKidResolves(kids[0], acc, env);
      CollectKidsResolves(kids[1..], next, env);
    }
  }

  lemma SplitApart(o1: multiset<string>, i1: multiset<string>, o2: multiset<string>, i2: multiset<string>, acc: Bodies,
                   next: Bodies)
    requires o1 <= i1 && o2 <= i2 && Apart(o1 + o2, i1 + i2, acc)
    requires forall k :: k in next <==> k in acc || k in i1
    ensures Apart(o1, i1, acc) && Apart(o2, i2, next)
  {
    forall x | x in o1 ensures i1[x] == 1 && x !in acc {
      assert x in o1 + o2 && x in i1;
    }
    forall x | x in o2 ensures i2[x] == 1 && x !in next {
      assert x in o1 + o2 && x in i2;
    }
  }

  lemma {:induction false} CollectKidResolves(kid: Kid, acc: Bodies, env: Bodies)
    requires Apart(KidOwn(kid), KidIds(kid, false), acc)
    requires forall k :: k in CollectKid(kid, acc) ==> k in env && env[k] == CollectKid(kid, acc)[k]
    ensures ResolvedKid(kid, env)
    decreases kid
  {
    CollectResolves(kid.node, acc, env);
  }

  // ── Nothing is dropped while the budget lasts ────────────

  lemma {:induction false} InlineKeeps(node: TypeInlining.Node, bodies: Bodies, stack: map<string, string>,
                                       inlining: bool, c: Ctx)
    requires Indexed(bodies) && Inline(node, bodies, stack, inlining, c).1.budget >= 0
    ensures Inline(node, bodies, stack, inlining, c).0.Some?
    decreases Unstacked(bodies, stack), Waiting(node, bodies, stack), Size(node), 1
  {
    if node.Ref? && node.target !in stack && node.target in bodies {
      InlineKeeps(bodies[node.target], bodies, stack, true, c);
    }
  }

  lemma {:induction false} BudgetFalls(node: TypeInlining.Node, bodies: Bodies, stack: map<string, string>,
                                       inlining: bool, c: Ctx)
    requires Indexed(bodies)
    ensures Inline(node, bodies, stack, inlining, c).1.budget <= c.budget
    decreases Unstacked(bodies, stack), Waiting(node, bodies, stack), Size(node), 1
  {
    if node.Body? {
      if !(inlining && c.budget - 1 < 0) {
        PushShrinks(node, bodies, stack, c);
        var next, entered := Stacked(node, stack, c), Entered(node, inlining, c);
        var (kids, c1) := InlineKids(node.kids, bodies, next, inlining, entered);
        KidsBudgetFalls(node.kids, bodies, next, inlining, entered);
        BodyUnfolds(node, bodies, stack, inlining, c, kids, c1);
        if node.ref.Some? {
          BudgetFalls(node.ref.value, bodies, next, inlining, c1);
        }
      }
    } else if node.target !in stack && node.target in bodies {
      BudgetFalls(bodies[node.target], bodies, stack, true, c);
    }
  }

  lemma {:induction false} KidsBudgetFalls(kids: seq<Kid>, bodies: Bodies, stack: map<string, string>, inlining: bool,
                                           c: Ctx)
    requires Indexed(bodies)
    ensures InlineKids(kids, bodies, stack, inlining, c).1.budget <= c.budget
    decreases Unstacked(bodies, stack), 1, KidsSize(kids), 0
  {
    if kids != [] {
      assert KidsSize(kids) == KidSize(kids[0]) + KidsSize(kids[1..]);
      BudgetFalls(kids[0].node, bodies, stack, inlining, c);
      KidsBudgetFalls(kids[1..], bodies, stack, inlining, Inline(kids[0].node, bodies, stack, inlining, c).1);
    }
  }

  /** The context in which child `i` is inlined. */
  ghost function ContextAt(kids: seq<Kid>, bodies: Bodies, stack: map<string, string>, inlining: bool, c: Ctx,
                           i: nat): Ctx
    requires Indexed(bodies) && i <= |kids|
    decreases i
  {
    if i == 0 then c
    else ContextAt(kids[1..], bodies, stack, inlining, Inline(kids[0].node, bodies, stack, inlining, c).1, i - 1)
  }

  /** While the budget lasts, the children correspond one to one. */
  lemma {:induction false} KidsCorrespond(kids: seq<Kid>, bodies: Bodies, stack: map<string, string>, inlining: bool,
                                          c: Ctx)
    requires Indexed(bodies) && InlineKids(kids, bodies, stack, inlining, c).1.budget >= 0
    ensures |InlineKids(kids, bodies, stack, inlining, c).0| == |kids|
    ensures forall i :: 0 <= i < |kids| ==> KidCorresponds(kids, bodies, stack, inlining, c, i)
    decreases |kids|
  {
    if kids != [] {
      var (first, c1) := Inline(kids[0].node, bodies, stack, inlining, c);
      KidsBudgetFalls(kids[1..], bodies, stack, inlining, c1);
      InlineKeeps(kids[0].node, bodies, stack, inlining, c);
      KidsCorrespond(kids[1..], bodies, stack, inlining, c1);
      var (rest, _) := InlineKids(kids[1..], bodies, stack, inlining, c1);
      forall i | 0 <= i < |kids| ensures KidCorresponds(kids, bodies, stack, inlining, c, i) {
        if i > 0 {
          assert KidCorresponds(kids[1..], bodies, stack, inlining, c1, i - 1);
        }
      }
    }
  }

  ghost predicate KidCorresponds(kids: seq<Kid>, bodies: Bodies, stack: map<string, string>, inlining: bool, c: Ctx,
                                 i: nat)
    requires Indexed(bodies) && i < |kids|
  {
    var out := InlineKids(kids, bodies, stack, inlining, c).0;
    var (r, c') := Inline(kids[i].node, bodies, stack, inlining, ContextAt(kids, bodies, stack, inlining, c, i));
    i < |out| && c'.budget >= 0 && r.Some? && out[i] == Kid(kids[i].slot, r.value)
  }

  // ── The stack, as the calls that built it ────────────

  /** One enclosing call: the body being copied, with its arguments. */
  datatype Frames =
    | Bottom
    | Frame(node: TypeInlining.Node, stack: map<string, string>, inlining: bool, c: Ctx, outer: Frames)

  /**
   The stack is what the frames pushed; each frame's call completed within the
   budget, and `env` resolves its copy.
   */
  ghost predicate Built(frames: Frames, stack: map<string, string>, bodies: Bodies, outside: set<string>, env: Bodies)
    requires Indexed(bodies)
  {
    match frames
    case Bottom => stack == map[]
    case Frame(node, below, inlining, c, outer) =>
      && node.Body? && node.id.Some? && Shared(node, bodies, outside)
      && stack == Stacked(node, below, c)
      && CompletedBody(node, bodies, below, inlining, c, env)
      && Built(outer, below, bodies, outside, env)
  }

  ghost predicate CompletedBody(node: TypeInlining.Node, bodies: Bodies, stack: map<string, string>, inlining: bool,
                                c: Ctx, env: Bodies)
    requires Indexed(bodies) && node.Body?
  {
    var (r, c') := InlineBody(node, bodies, stack, inlining, c);
    c'.budget >= 0 && r.Body? && Resolved(r, env)
  }

  /** The innermost frame that pushed `id`. */
  ghost function Pushed(frames: Frames, id: string): Frames {
    match frames
    case Bottom => Bottom
    case Frame(node, _, _, _, outer) => if node.Body? && node.id == Some(id) then frames else Pushed(outer, id)
  }

  lemma {:induction false} PushedBuilt(frames: Frames, stack: map<string, string>, bodies: Bodies, outside: set<string>,
                                       env: Bodies, id: string)
    requires Indexed(bodies) && Built(frames, stack, bodies, outside, env) && id in stack
    ensures var f := Pushed(frames, id);
            && f.Frame? && f.node.Body? && f.node.id == Some(id) && Shared(f.node, bodies, outside)
            && CompletedBody(f.node, bodies, f.stack, f.inlining, f.c, env)
            && Built(f.outer, f.stack, bodies, outside, env)
            && stack[id] == CopyId(id, f.c.n + 1)
    decreases frames
  {
    if !(frames.node.id == Some(id)) {
      PushedBuilt(frames.outer, frames.stack, bodies, outside, env, id);
    }
  }

  // ── Same shape at every depth ────────────

  /** The parts of a finished conversion `env` and `bodies` agree on. */
  ghost predicate Setting(bodies: Bodies, outside: set<string>, env: Bodies) {
    && Indexed(bodies) && SharedBodies(bodies, outside, bodies)
    && forall k :: k in env ==> '#' in k || k in outside
  }

  lemma {:induction false} SameShape(node: TypeInlining.Node, bodies: Bodies, stack: map<string, string>,
                                     frames: Frames, inlining: bool, c: Ctx, outside: set<string>, env: Bodies, d: nat)
    requires Setting(bodies, outside, env) && Built(frames, stack, bodies, outside, env)
    requires Shared(node, bodies, outside)
    requires var (r, c') := Inline(node, bodies, stack, inlining, c);
             c'.budget >= 0 && r.Some? && Resolved(r.value, env)
    ensures Unfold(Inline(node, bodies, stack, inlining, c).0.value, env, d) == Unfold(node, bodies, d)
    decreases d, 2
  {
    var (r, c') := Inline(node, bodies, stack, inlining, c);
    if node.Body? {
      SameBodyShape(node, bodies, stack, frames, inlining, c, outside, env, d);
    } else if node.target in stack {
      var f := Pushed(frames, node.target);
      PushedBuilt(frames, stack, bodies, outside, env, node.target);
      SameBodyShape(f.node, bodies, f.stack, f.outer, f.inlining, f.c, outside, env, d);
      var out := InlineBody(f.node, bodies, f.stack, f.inlining, f.c).0;
      SameBodyUnfolds(env[stack[node.target]], out, env, d);
      SameBodyUnfolds(bodies[node.target], f.node, bodies, d);
    } else if node.target in bodies {
      var body := bodies[node.target];
      RefCopiesBody(node, bodies, stack, inlining, c);
      var (out, _) := InlineBody(body, bodies, stack, true, c);
      assert Resolved(out, env);
      SameBodyShape(body, bodies, stack, frames, true, c, outside, env, d);
      SameBodyUnfolds(r.value, out, env, d);
    }
  }

  /** A resolved `$ref` yields a copy of the body, up to an `own` entry's overlay. */
  lemma RefCopiesBody(node: TypeInlining.Node, bodies: Bodies, stack: map<string, string>, inlining: bool, c: Ctx)
    requires Indexed(bodies) && node.Ref? && node.target in bodies && node.target !in stack
    requires Inline(node, bodies, stack, inlining, c).0.Some?
    ensures var r := Inline(node, bodies, stack, inlining, c);
            var (out, c') := InlineBody(bodies[node.target], bodies, stack, true, c);
            && r.1 == c' && SameBody(r.0.value, out) && r.0.value.id == out.id
  {
    var body := bodies[node.target];
    assert body.Body?;
    var (out, c') := InlineBody(body, bodies, stack, true, c);
    assert out.Body?;
    assert Inline(body, bodies, stack, true, c) == (Some(out), c');
  }

  lemma {:induction false} SameBodyShape(node: TypeInlining.Node, bodies: Bodies, stack: map<string, string>,
                                         frames: Frames,
                                         inlining: bool, c: Ctx, outside: set<string>, env: Bodies, d: nat)
    requires Setting(bodies, outside, env) && Built(frames, stack, bodies, outside, env)
    requires Shared(node, bodies, outside) && node.Body?
    requires CompletedBody(node, bodies, stack, inlining, c, env)
    ensures UnfoldBody(InlineBody(node, bodies, stack, inlining, c).0, env, d) == UnfoldBody(node, bodies, d)
    decreases d, 1
  {
    if d > 0 {
      var out := InlineBody(node, bodies, stack, inlining, c).0;
      var next, entered := Stacked(node, stack, c), Entered(node, inlining, c);
      var (kids, c1) := InlineKids(node.kids, bodies, next, inlining, entered);
      BodyUnfolds(node, bodies, stack, inlining, c, kids, c1);
      if node.ref.Some? {
        BudgetFalls(node.ref.value, bodies, next, inlining, c1);
      }
      KidsCorrespond(node.kids, bodies, next, inlining, entered);
      var inner := if node.id.Some? then Frame(node, stack, inlining, c, frames) else frames;
      forall i | 0 <= i < |node.kids|
        ensures out.kids[i].slot == node.kids[i].slot
        ensures Unfold(out.kids[i].node, env, d - 1) == Unfold(node.kids[i].node, bodies, d - 1)
      {
        assert KidCorresponds(node.kids, bodies, next, inlining, entered, i);
        SharedKidAt(node.kids, bodies, outside, i);
        ResolvedKidAt(out.kids, env, i);
        SameShape(node.kids[i].node, bodies, next, inner, inlining,
          ContextAt(node.kids, bodies, next, inlining, entered, i), outside, env, d - 1);
      }
    }
  }

  /** Inlining the type does not exhaust the budget. */
  ghost predicate WithinBudget(root: TypeInlining.Node) {
    CollectIndexed(root, map[]);
    Inline(root, Collect(root, map[]), map[], false, Ctx(MAX_INLINED_NODES, 0)).1.budget >= 0
  }

  /** The ids inside `ref`s laid over an inlined body. */
  ghost function LaidIds(root: TypeInlining.Node): set<string> {
    set x | x in KeptIds(KeptOf(root), false)
  }

  /**
   The inlined type unfolds to the same shape as the input, to any depth:
   the input resolving `$ref`s by its collected bodies, the output by its own.
   */
  lemma InliningPreservesShape(root: TypeInlining.Node, d: nat)
    requires Shared(root, Collect(root, map[]), LaidIds(root)) && WithinBudget(root)
    requires forall x :: x in LaidIds(root) ==> '#' !in x
    ensures var out := InlineTypeRefs(root);
            Unfold(out, Collect(out, map[]), d) == Unfold(root, Collect(root, map[]), d)
  {
    WalkedWhole(root);
    var bodies, c, outside := Collect(root, map[]), Ctx(MAX_INLINED_NODES, 0), LaidIds(root);
    var out := InlineTypeRefs(root);
    var env := Collect(out, map[]);
    CollectShared(root, bodies, outside, map[]);
    InlineIds(root, bodies, map[], false, c, {}, false);
    CollectAdds(out, map[]);
    CopiesApart(Own(out), Ids(out, false), KeptIds(KeptOf(root), false), 0, Inline(root, bodies, map[], false, c).1.n);
    CollectResolves(out, map[], env);
    SameShape(root, bodies, map[], Bottom, false, c, outside, env, d);
  }

  /** The copies' ids occur once, and every other id is a kept one. */
  lemma CopiesApart(own: multiset<string>, ids: multiset<string>, kept: multiset<string>, lo: nat, hi: nat)
    requires Numbered(own, ids, kept, lo, hi) && forall x :: x in kept ==> '#' !in x
    ensures Apart(own, ids, map[])
    ensures forall x :: x in ids ==> '#' in x || x in kept
  {
    forall x | x in ids && x !in kept ensures '#' in x && ids[x] == 1 {
      assert x in ids - kept && (ids - kept)[x] == ids[x];
      CopyHashed(x, lo, hi);
    }
    forall x | x in own ensures ids[x] == 1 {
      assert own <= ids - kept && x in ids - kept;
      CopyHashed(x, lo, hi);
    }
  }
}
