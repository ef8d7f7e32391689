/**
 Inlining the `$ref` entries of a serialized type: each use gets its own copy of
 the shared body under fresh ids, recursion stays a `$ref` to an ancestor copy,
 and a budget bounds what inlining may materialise.
 */
module TypeInlining {
  import opened Options

  /** How a child hangs off its parent: an object property or pattern, or a positional element. */
  datatype Label = Prop(name: string) | Pattern(pattern: string) | Elem

  datatype Kid = Kid(slot: Label, node: Node)

  /**
   A serialized type node: a `$ref` to a type id (`own` entries keep their own
   metadata), or a body with its children. `ref` is the annotated type a
   foreign reference carries; `meta` is the node's metadata.
   */
  datatype Node =
    | Ref(target: string, own: bool, meta: nat, ref: Option<Node>)
    | Body(id: Option<string>, kind: string, kids: seq<Kid>, meta: nat, ref: Option<Node>)

  type Bodies = map<string, Node>

  /** The mutable context of one inlining: remaining budget and last id number. */
  datatype Ctx = Ctx(budget: int, n: nat)

  const MAX_INLINED_NODES := 20_000

  /** The placeholder of a positional child the budget dropped. */
  const STUB := Body(None, "object", [], 0, None)

  // ── Collecting the bodies ────────────

  /** The first node carrying each id, in document order; nothing inside a `$ref`. */
  function Collect(node: Node, bodies: Bodies): Bodies {
    if node.Ref? then bodies
    else
      var self := if node.id.Some? && node.id.value !in bodies then bodies[node.id.value := node] else bodies;
      var kids := CollectKids(node.kids, self);
      if node.ref.Some? then Collect(node.ref.value, kids) else kids
  }

  function CollectKids(kids: seq<Kid>, bodies: Bodies): Bodies {
    if kids == [] then bodies else CollectKids(kids[1..], CollectKid(kids[0], bodies))
  }

  function CollectKid(kid: Kid, bodies: Bodies): Bodies {
    Collect(kid.node, bodies)
  }

  /** Every body is collected under its own id. */
  ghost predicate Indexed(bodies: Bodies) {
    forall k :: k in bodies ==> bodies[k].Body? && bodies[k].id == Some(k)
  }

  lemma {:induction false} CollectIndexed(node: Node, bodies: Bodies)
    requires Indexed(bodies)
    ensures Indexed(Collect(node, bodies))
    decreases node
  {
    if node.Body? {
      var self := if node.id.Some? && node.id.value !in bodies then bodies[node.id.value := node] else bodies;
      CollectKidsIndexed(node.kids, self);
      if node.ref.Some? {
        CollectIndexed(node.ref.value, CollectKids(node.kids, self));
      }
    }
  }

  lemma {:induction false} CollectKidsIndexed(kids: seq<Kid>, bodies: Bodies)
    requires Indexed(bodies)
    ensures Indexed(CollectKids(kids, bodies))
    decreases kids
  {
    if kids != [] {
      CollectKidIndexed(kids[0], bodies);
      CollectKidsIndexed(kids[1..], CollectKid(kids[0], bodies));
    }
  }

  lemma {:induction false} CollectKidIndexed(kid: Kid, bodies: Bodies)
    requires Indexed(bodies)
    ensures Indexed(CollectKid(kid, bodies))
    decreases kid
  {
    CollectIndexed(kid.node, bodies);
  }

  // ── Fresh ids ────────────

  function Digit(d: nat): char
    requires d < 10
  {
    (48 + d) as char
  }

  function Decimal(n: nat): (s: string)
    ensures s != "" && '#' !in s
  {
    (if n < 10 then "" else Decimal(n / 10)) + [Digit(n % 10)]
  }

  /** The id of the copy numbered `n`: `${id}#${n}`. */
  function CopyId(id: string, n: nat): string {
    id + "#" + Decimal(n)
  }

  lemma {:induction false} DecimalInjective(m: nat, n: nat)
    requires Decimal(m) == Decimal(n)
    ensures m == n
  {
    var s := Decimal(m);
    assert s[|s| - 1] == Digit(m % 10) == Digit(n % 10);
    var hm, hn := if m < 10 then "" else Decimal(m / 10), if n < 10 then "" else Decimal(n / 10);
    assert s[..|s| - 1] == hm && s[..|s| - 1] == hn;
    if m >= 10 && n >= 10 {
      DecimalInjective(m / 10, n / 10);
    }
  }

  lemma CopyIdInjective(a: string, m: nat, b: string, n: nat)
    requires CopyId(a, m) == CopyId(b, n)
    ensures a == b && m == n
  {
    var s, dm, dn := CopyId(a, m), Decimal(m), Decimal(n);
    assert s[|a|] == '#' && s[|b|] == '#';
    assert s[|a| + 1..] == dm && s[|b| + 1..] == dn;
    assert forall i :: |a| < i < |s| ==> s[i] in dm;
    assert forall i :: |b| < i < |s| ==> s[i] in dn;
    assert s[..|a|] == a && s[..|b|] == b;
    DecimalInjective(m, n);
  }

  // ── Inlining ────────────

  /** The ids known but not on the stack: what bounds the recursion through `$ref`s. */
  ghost function Unstacked(bodies: Bodies, stack: map<string, string>): nat {
    |bodies.Keys - stack.Keys|
  }

  /** 0 for a body about to push a known id, else 1. */
  ghost function Waiting(node: Node, bodies: Bodies, stack: map<string, string>): nat {
    if node.Body? && node.id.Some? && node.id.value in bodies && node.id.value !in stack then 0 else 1
  }

  ghost function Size(node: Node): nat {
    1 + if node.Ref? then 0 else KidsSize(node.kids) + if node.ref.Some? then Size(node.ref.value) else 0
  }

  ghost function KidsSize(kids: seq<Kid>): nat {
    if kids == [] then 0 else KidSize(kids[0]) + KidsSize(kids[1..])
  }

  ghost function KidSize(kid: Kid): nat {
    1 + Size(kid.node)
  }

  lemma PushShrinks(node: Node, bodies: Bodies, stack: map<string, string>, c: Ctx)
    requires node.Body?
    ensures Unstacked(bodies, Stacked(node, stack, c)) <= Unstacked(bodies, stack)
    ensures Waiting(node, bodies, stack) == 0 ==> Unstacked(bodies, Stacked(node, stack, c)) < Unstacked(bodies, stack)
  {
    if node.id.Some? {
      var before, after := bodies.Keys - stack.Keys, bodies.Keys - Stacked(node, stack, c).Keys;
      assert after == before - {node.id.value};
    }
  }

  /** The context after an entered body: the budget spent and the id number taken. */
  function Entered(node: Node, inlining: bool, c: Ctx): Ctx
    requires node.Body?
  {
    Ctx(if inlining then c.budget - 1 else c.budget, if node.id.Some? then c.n + 1 else c.n)
  }

  function CopiedId(node: Node, c: Ctx): Option<string>
    requires node.Body?
  {
    if node.id.Some? then Some(CopyId(node.id.value, c.n + 1)) else None
  }

  function Stacked(node: Node, stack: map<string, string>, c: Ctx): map<string, string>
    requires node.Body?
  {
    if node.id.Some? then stack[node.id.value := CopyId(node.id.value, c.n + 1)] else stack
  }

  /** The inlined node (`None`: dropped by the budget), and the context left. */
  function Inline(node: Node, bodies: Bodies, stack: map<string, string>, inlining: bool, c: Ctx): (Option<Node>, Ctx)
    requires Indexed(bodies)
    decreases Unstacked(bodies, stack), Waiting(node, bodies, stack), Size(node), 1
  {
    if node.Body? then
      if inlining && c.budget - 1 < 0 then (None, c.(budget := c.budget - 1))
      else
        var (body, c') := InlineBody(node, bodies, stack, inlining, c);
        (Some(body), c')
    else if node.target in stack then (Some(node.(target := stack[node.target])), c)
    else if node.target !in bodies then (Some(node), c)
    else
      var (inlined, c') := Inline(bodies[node.target], bodies, stack, true, c);
      if inlined.None? || !node.own then (inlined, c') else (Some(WithOwn(inlined.value, node)), c')
  }

  /** An `own` entry keeps its own metadata and `ref` over the inlined body. */
  function WithOwn(inlined: Node, entry: Node): Node {
    inlined.(meta := entry.meta, ref := entry.ref)
  }

  function InlineBody(node: Node, bodies: Bodies, stack: map<string, string>, inlining: bool, c: Ctx): (Node, Ctx)
    requires Indexed(bodies) && node.Body?
    decreases Unstacked(bodies, stack), Waiting(node, bodies, stack), Size(node), 0
  {
    PushShrinks(node, bodies, stack, c);
    var nextStack := Stacked(node, stack, c);
    var (kids, c1) := InlineKids(node.kids, bodies, nextStack, inlining, Entered(node, inlining, c));
    if node.ref.None? then (Body(CopiedId(node, c), node.kind, kids, node.meta, None), c1)
    else
      var (ref, c2) := Inline(node.ref.value, bodies, nextStack, inlining, c1);
      (Body(CopiedId(node, c), node.kind, kids, node.meta, ref), c2)
  }

  /** A dropped element keeps its position as a stub; a dropped property or pattern disappears. */
  function KeptKid(kid: Kid, r: Option<Node>): seq<Kid> {
    if r.Some? then [Kid(kid.slot, r.value)]
    else if kid.slot.Elem? then [Kid(Elem, STUB)]
    else []
  }

  function InlineKids(kids: seq<Kid>, bodies: Bodies, stack: map<string, string>, inlining: bool,
                      c: Ctx): (seq<Kid>, Ctx)
    requires Indexed(bodies)
    decreases Unstacked(bodies, stack), 1, KidsSize(kids), 0
  {
    if kids == [] then ([], c)
    else
      assert KidsSize(kids) == KidSize(kids[0]) + KidsSize(kids[1..]);
      var (first, c1) := Inline(kids[0].node, bodies, stack, inlining, c);
      var (rest, c2) := InlineKids(kids[1..], bodies, stack, inlining, c1);
      (KeptKid(kids[0], first) + rest, c2)
  }

  /** The children done so far, and the walk of the remaining ones. */
  ghost function Resumed(done: seq<Kid>, kids: seq<Kid>, bodies: Bodies, stack: map<string, string>, inlining: bool,
                         c: Ctx)
    : (seq<Kid>, Ctx)
    requires Indexed(bodies)
  {
    var (rest, c') := InlineKids(kids, bodies, stack, inlining, c);
    (done + rest, c')
  }

  lemma ResumedStep(done: seq<Kid>, next: seq<Kid>, kids: seq<Kid>, bodies: Bodies, stack: map<string, string>,
                    inlining: bool, c: Ctx)
    requires Indexed(bodies)
    ensures var (rest, c') := InlineKids(kids, bodies, stack, inlining, c);
            Resumed(done + next, kids, bodies, stack, inlining, c) == (done + (next + rest), c')
  {
    var (rest, _) := InlineKids(kids, bodies, stack, inlining, c);
    assert done + next + rest == done + (next + rest);
  }

  lemma ResumedEnds(done: seq<Kid>, kids: seq<Kid>, bodies: Bodies, stack: map<string, string>, inlining: bool, c: Ctx)
    requires Indexed(bodies)
    ensures Resumed([], kids, bodies, stack, inlining, c) == InlineKids(kids, bodies, stack, inlining, c)
    ensures Resumed(done, [], bodies, stack, inlining, c) == (done, c)
  {
    var (rest, _) := InlineKids(kids, bodies, stack, inlining, c);
    assert [] + rest == rest;
    assert done + [] == done;
  }

  lemma {:induction false} KidSmaller(kids: seq<Kid>, i: nat)
    requires i < |kids|
    ensures Size(kids[i].node) < KidsSize(kids)
  {
    if i > 0 {
      KidSmaller(kids[1..], i - 1);
    }
  }

  function InlineTypeRefs(root: Node): Node {
    CollectIndexed(root, map[]);
    var bodies := Collect(root, map[]);
    if bodies == map[] then root
    else Inline(root, bodies, map[], false, Ctx(MAX_INLINED_NODES, 0)).0.Or(root)
  }

  lemma BodyUnfolds(node: Node, bodies: Bodies, stack: map<string, string>, inlining: bool, c: Ctx, kids: seq<Kid>,
                    c1: Ctx)
    requires Indexed(bodies) && node.Body?
    requires (kids, c1) == InlineKids(node.kids, bodies, Stacked(node, stack, c), inlining, Entered(node, inlining, c))
    ensures node.ref.None? ==>
      InlineBody(node, bodies, stack, inlining, c) == (Body(CopiedId(node, c), node.kind, kids, node.meta, None), c1)
    ensures node.ref.Some? ==>
      var (ref, c2) := Inline(node.ref.value, bodies, Stacked(node, stack, c), inlining, c1);
      InlineBody(node, bodies, stack, inlining, c) == (Body(CopiedId(node, c), node.kind, kids, node.meta, ref), c2)
  {
  }

  /** The shared context object the recursion counts in. */
  class InlineCtx {
    const bodies: Bodies
    var budget: int
    var n: nat

    constructor (bodies: Bodies)
      ensures this.bodies == bodies && Snapshot() == Ctx(MAX_INLINED_NODES, 0)
    {
      this.bodies := bodies;
      budget := MAX_INLINED_NODES;
      n := 0;
    }

    ghost function Snapshot(): Ctx
      reads this
    {
      Ctx(budget, n)
    }

    /** The recursive walk, counting down the budget and numbering copies in place. */
    method InlineNode(node: Node, stack: map<string, string>, inlining: bool) returns (r: Option<Node>)
      requires Indexed(bodies)
      modifies this
      ensures (r, Snapshot()) == Inline(node, bodies, stack, inlining, old(Snapshot()))
      decreases Unstacked(bodies, stack), Waiting(node, bodies, stack), Size(node), 1
    {
      if node.Ref? {
        if node.target in stack {
          return Some(node.(target := stack[node.target]));
        }
        if node.target !in bodies {
          return Some(node);
        }
        var inlined := InlineNode(bodies[node.target], stack, true);
        if inlined.None? || !node.own {
          return inlined;
        }
        return Some(WithOwn(inlined.value, node));
      }
      if inlining && budget - 1 < 0 {
        budget := budget - 1;
        return None;
      }
      var body := CopyBody(node, stack, inlining);
      return Some(body);
    }

    /** Count a copied body, number its copy and put it on the stack. */
    method EnterBody(node: Node, stack: map<string, string>, inlining: bool)
      returns (nextStack: map<string, string>, copyId: Option<string>)
      requires node.Body?
      modifies this
      ensures Snapshot() == Entered(node, inlining, old(Snapshot()))
      ensures nextStack == Stacked(node, stack, old(Snapshot())) && copyId == CopiedId(node, old(Snapshot()))
    {
      if inlining {
        budget := budget - 1;
      }
      nextStack, copyId := stack, None;
      if node.id.Some? {
        n := n + 1;
        copyId := Some(CopyId(node.id.value, n));
        nextStack := stack[node.id.value := copyId.value];
      }
    }

    /** Copy a body under a fresh id, inlining its children and its `ref`. */
    method CopyBody(node: Node, stack: map<string, string>, inlining: bool) returns (r: Node)
      requires Indexed(bodies) && node.Body?
      modifies this
      ensures (r, Snapshot()) == InlineBody(node, bodies, stack, inlining, old(Snapshot()))
      decreases Unstacked(bodies, stack), Waiting(node, bodies, stack), Size(node), 0
    {
      ghost var c := Snapshot();
      PushShrinks(node, bodies, stack, c);
      var nextStack, copyId := EnterBody(node, stack, inlining);
      var kids := InlineChildren(node.kids, nextStack, inlining);
      BodyUnfolds(node, bodies, stack, inlining, c, kids, Snapshot());
      var ref := None;
      if node.ref.Some? {
        ref := InlineNode(node.ref.value, nextStack, inlining);
      }
      r := Body(copyId, node.kind, kids, node.meta, ref);
    }

    method InlineChildren(children: seq<Kid>, stack: map<string, string>, inlining: bool) returns (kids: seq<Kid>)
      requires Indexed(bodies)
      modifies this
      ensures (kids, Snapshot()) == InlineKids(children, bodies, stack, inlining, old(Snapshot()))
      decreases Unstacked(bodies, stack), 1, KidsSize(children), 0
    {
      kids := [];
      ghost var entered := Snapshot();
      assert children[0..] == children;
      ResumedEnds([], children, bodies, stack, inlining, entered);
      for i := 0 to |children|
        invariant InlineKids(children, bodies, stack, inlining, entered)
               == Resumed(kids, children[i..], bodies, stack, inlining, Snapshot())
      {
        assert children[i..][0] == children[i] && children[i..][1..] == children[i + 1..];
        KidSmaller(children, i);
        var kid := InlineNode(children[i].node, stack, inlining);
        ResumedStep(kids, KeptKid(children[i], kid), children[i + 1..], bodies, stack, inlining, Snapshot());
        kids := kids + KeptKid(children[i], kid);
      }
      ResumedEnds(kids, children, bodies, stack, inlining, Snapshot());
      assert children[|children|..] == [];
    }
  }
}
