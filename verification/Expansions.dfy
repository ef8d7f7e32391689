/**
 What an inlined type is made of, node by node: each node copies the body it
 stands for, children in order and metadata included, or stays a `$ref`. Only
 an exhausted budget drops anything.
 */
module Expansions {
  import opened Options
  import opened TypeInlining
  import opened InlinedTypes
  import opened InliningShape

  /** The body a node stands for. */
  function BodyOf(node: TypeInlining.Node, bodies: Bodies): TypeInlining.Node {
    if node.Ref? && node.target in bodies then bodies[node.target] else node
  }

  /** An entry that keeps its own metadata and `ref`. */
  predicate IsOwn(node: TypeInlining.Node) {
    node.Ref? && node.own
  }

  /**
   `out` copies what `node` stands for; a remaining `$ref` is the input's up to
   its target. With `whole`, nothing is missing.
   */
  ghost predicate Expands(node: TypeInlining.Node, out: TypeInlining.Node, bodies: Bodies, whole: bool)
    decreases out, 0
  {
    var body := BodyOf(node, bodies);
    if out.Ref? then node.Ref? && out == node.(target := out.target)
    else
      && body.Body? && out.kind == body.kind && ExpandsKids(body.kids, out.kids, bodies, whole)
      && out.meta == (if IsOwn(node) then node.meta else body.meta)
      && if IsOwn(node) then out.ref == node.ref
         else if out.ref.None? then whole ==> body.ref.None?
         else body.ref.Some? && Expands(body.ref.value, out.ref.value, bodies, whole)
  }

  ghost predicate ExpandsKids(kids: seq<Kid>, outs: seq<Kid>, bodies: Bodies, whole: bool)
    decreases outs, |kids|
  {
    if kids == [] then outs == []
    else
      || (outs != [] && ExpandsKid(kids[0], outs[0], bodies, whole) && ExpandsKids(kids[1..], outs[1..], bodies, whole))
      || (!whole && DropsFirst(kids, outs) && ExpandsKids(kids[1..], AfterDropped(kids, outs), bodies, whole))
  }

  /** A dropped element leaves a stub in its place, a property or pattern nothing. */
  predicate DropsFirst(kids: seq<Kid>, outs: seq<Kid>)
    requires kids != []
  {
    kids[0].slot.Elem? ==> outs != [] && outs[0] == Kid(Elem, STUB)
  }

  function AfterDropped(kids: seq<Kid>, outs: seq<Kid>): (rest: seq<Kid>)
    requires kids != [] && DropsFirst(kids, outs)
    ensures |rest| <= |outs|
  {
    if kids[0].slot.Elem? then outs[1..] else outs
  }

  ghost predicate ExpandsKid(kid: Kid, out: Kid, bodies: Bodies, whole: bool)
    decreases out, 0
  {
    out.slot == kid.slot && Expands(kid.node, out.node, bodies, whole)
  }

  lemma {:induction false} InlineExpands(node: TypeInlining.Node, bodies: Bodies, stack: map<string, string>,
                                         inlining: bool, c: Ctx, whole: bool)
    requires Indexed(bodies) && Inline(node, bodies, stack, inlining, c).0.Some?
    requires whole ==> Inline(node, bodies, stack, inlining, c).1.budget >= 0
    ensures Expands(node, Inline(node, bodies, stack, inlining, c).0.value, bodies, whole)
    decreases Unstacked(bodies, stack), Waiting(node, bodies, stack), Size(node), 1
  {
    if node.Body? {
      InlineBodyExpands(node, bodies, stack, inlining, c, whole);
    } else if node.target !in stack && node.target in bodies {
      InlineExpands(bodies[node.target], bodies, stack, true, c, whole);
    }
  }

  lemma {:induction false} InlineBodyExpands(node: TypeInlining.Node, bodies: Bodies, stack: map<string, string>,
                                             inlining: bool, c: Ctx, whole: bool)
    requires Indexed(bodies) && node.Body?
    requires whole ==> InlineBody(node, bodies, stack, inlining, c).1.budget >= 0
    ensures Expands(node, InlineBody(node, bodies, stack, inlining, c).0, bodies, whole)
    decreases Unstacked(bodies, stack), Waiting(node, bodies, stack), Size(node), 0
  {
    PushShrinks(node, bodies, stack, c);
    var next, entered := Stacked(node, stack, c), Entered(node, inlining, c);
    var (kids, c1) := InlineKids(node.kids, bodies, next, inlining, entered);
    BodyUnfolds(node, bodies, stack, inlining, c, kids, c1);
    if node.ref.Some? {
      BudgetFalls(node.ref.value, bodies, next, inlining, c1);
      if whole {
        InlineKeeps(node.ref.value, bodies, next, inlining, c1);
      }
      if Inline(node.ref.value, bodies, next, inlining, c1).0.Some? {
        InlineExpands(node.ref.value, bodies, next, inlining, c1, whole);
      }
    }
    InlineKidsExpand(node.kids, bodies, next, inlining, entered, whole);
  }

  lemma {:induction false} InlineKidsExpand(kids: seq<Kid>, bodies: Bodies, stack: map<string, string>, inlining: bool,
                                            c: Ctx, whole: bool)
    requires Indexed(bodies) && (whole ==> InlineKids(kids, bodies, stack, inlining, c).1.budget >= 0)
    ensures ExpandsKids(kids, InlineKids(kids, bodies, stack, inlining, c).0, bodies, whole)
    decreases Unstacked(bodies, stack), 1, KidsSize(kids), 0
  {
    if kids != [] {
      assert KidsSize(kids) == KidSize(kids[0]) + KidsSize(kids[1..]);
      var (first, c1) := Inline(kids[0].node, bodies, stack, inlining, c);
      KidsBudgetFalls(kids[1..], bodies, stack, inlining, c1);
      if whole {
        InlineKeeps(kids[0].node, bodies, stack, inlining, c);
      }
      if first.Some? {
        InlineExpands(kids[0].node, bodies, stack, inlining, c, whole);
      }
      InlineKidsExpand(kids[1..], bodies, stack, inlining, c1, whole);
      var (rest, _) := InlineKids(kids[1..], bodies, stack, inlining, c1);
      FirstExpands(kids, KeptKid(kids[0], first), rest, first, bodies, whole);
    }
  }

  lemma FirstExpands(kids: seq<Kid>, kept: seq<Kid>, rest: seq<Kid>, first: Option<TypeInlining.Node>, bodies: Bodies,
                     whole: bool)
    requires kids != [] && kept == KeptKid(kids[0], first) && (whole ==> first.Some?)
    requires first.Some? ==> Expands(kids[0].node, first.value, bodies, whole)
    requires ExpandsKids(kids[1..], rest, bodies, whole)
    ensures ExpandsKids(kids, kept + rest, bodies, whole)
  {
    if kept != [] {
      assert (kept + rest)[1..] == rest;
    } else {
      assert kept + rest == rest;
    }
  }

  /**
   Every type, inlined, copies node by node what it stands for; within the
   budget nothing is dropped.
   */
  lemma InliningExpands(root: TypeInlining.Node)
    ensures Expands(root, InlineTypeRefs(root), Collect(root, map[]), WithinBudget(root))
  {
    WalkedWhole(root);
    InlineExpands(root, Collect(root, map[]), map[], false, Ctx(MAX_INLINED_NODES, 0), WithinBudget(root));
  }
}
