/**
 What inlining leaves as it is: the `ref` a `$ref` entry carries. Copied with a
 back-reference or an unknown target, laid over the inlined body by an `own`
 entry, it is never inlined itself. Here are the ids, references and nodes of a
 tree, and the kept `ref`s a walk leaves in it.
 */
module KeptRefs {
  import opened Options
  import opened TypeInlining

  // ── The kept `ref`s of a walk ────────────

  /** A `ref` left as it is, the ids above it, and whether an `own` entry laid it over a body. */
  datatype KeptRef = KeptRef(ref: Node, ancestors: set<string>, overlaid: bool)

  /** The ancestors of what a copied body holds: the copy itself too, when it has an id. */
  function Inside(node: Node, c: Ctx, ancestors: set<string>): set<string>
    requires node.Body?
  {
    if node.id.Some? then ancestors + {CopyId(node.id.value, c.n + 1)} else ancestors
  }

  function OfEntry(entry: Node, ancestors: set<string>, overlaid: bool): seq<KeptRef> {
    if entry.ref.Some? then [KeptRef(entry.ref.value, ancestors, overlaid)] else []
  }

  ghost function Kept(node: Node, bodies: Bodies, stack: map<string, string>, inlining: bool, c: Ctx,
                      ancestors: set<string>)
    : seq<KeptRef>
    requires Indexed(bodies)
    decreases Unstacked(bodies, stack), Waiting(node, bodies, stack), Size(node), 2
  {
    if node.Body? then
      if inlining && c.budget - 1 < 0 then [] else KeptInBody(node, bodies, stack, inlining, c, ancestors)
    else if node.target in stack || node.target !in bodies then OfEntry(node, ancestors, false)
    else if c.budget - 1 < 0 then []
    else
      var body := bodies[node.target];
      if !node.own then KeptInBody(body, bodies, stack, true, c, ancestors)
      else KeptInKids(body, bodies, stack, true, c, ancestors) + OfEntry(node, Inside(body, c, ancestors), true)
  }

  ghost function KeptInBody(node: Node, bodies: Bodies, stack: map<string, string>, inlining: bool, c: Ctx,
                            ancestors: set<string>)
    : seq<KeptRef>
    requires Indexed(bodies) && node.Body?
    decreases Unstacked(bodies, stack), Waiting(node, bodies, stack), Size(node), 1
  {
    PushShrinks(node, bodies, stack, c);
    var next, entered := Stacked(node, stack, c), Entered(node, inlining, c);
    KeptInKids(node, bodies, stack, inlining, c, ancestors) +
    if node.ref.None? then []
    else Kept(node.ref.value, bodies, next, inlining, InlineKids(node.kids, bodies, next, inlining, entered).1,
              Inside(node, c, ancestors))
  }

  ghost function KeptInKids(node: Node, bodies: Bodies, stack: map<string, string>, inlining: bool, c: Ctx,
                            ancestors: set<string>)
    : seq<KeptRef>
    requires Indexed(bodies) && node.Body?
    decreases Unstacked(bodies, stack), Waiting(node, bodies, stack), Size(node), 0
  {
    PushShrinks(node, bodies, stack, c);
    KeptOfKids(node.kids, bodies, Stacked(node, stack, c), inlining, Entered(node, inlining, c),
               Inside(node, c, ancestors))
  }

  ghost function KeptOfKids(kids: seq<Kid>, bodies: Bodies, stack: map<string, string>, inlining: bool, c: Ctx,
                            ancestors: set<string>)
    : seq<KeptRef>
    requires Indexed(bodies)
    decreases Unstacked(bodies, stack), 1, KidsSize(kids), 0
  {
    if kids == [] then []
    else
      assert KidsSize(kids) == KidSize(kids[0]) + KidsSize(kids[1..]);
      Kept(kids[0].node, bodies, stack, inlining, c, ancestors) +
      KeptOfKids(kids[1..], bodies, stack, inlining, Inline(kids[0].node, bodies, stack, inlining, c).1, ancestors)
  }

  /** What inlining the type keeps. */
  ghost function KeptOf(root: Node): seq<KeptRef> {
    CollectIndexed(root, map[]);
    Kept(root, Collect(root, map[]), map[], false, Ctx(MAX_INLINED_NODES, 0), {})
  }

  // ── Ids ────────────

  /** The ids of a node; `through` looks into the `ref`s of `$ref` entries too. */
  function Ids(node: Node, through: bool): multiset<string> {
    if node.Ref? then if through && node.ref.Some? then Ids(node.ref.value, through) else multiset{}
    else
      (if node.id.Some? then multiset{node.id.value} else multiset{}) + KidsIds(node.kids, through) +
      (if node.ref.Some? then Ids(node.ref.value, through) else multiset{})
  }

  function KidsIds(kids: seq<Kid>, through: bool): multiset<string> {
    if kids == [] then multiset{} else KidIds(kids[0], through) + KidsIds(kids[1..], through)
  }

  function KidIds(kid: Kid, through: bool): multiset<string> {
    Ids(kid.node, through)
  }

  /** The ids of a node reached through children alone. */
  function Own(node: Node): multiset<string> {
    if node.Ref? then multiset{}
    else (if node.id.Some? then multiset{node.id.value} else multiset{}) + KidsOwn(node.kids)
  }

  function KidsOwn(kids: seq<Kid>): multiset<string> {
    if kids == [] then multiset{} else KidOwn(kids[0]) + KidsOwn(kids[1..])
  }

  function KidOwn(kid: Kid): multiset<string> {
    Own(kid.node)
  }

  /** The ids inside kept `ref`s; those laid over a body, or all of them. */
  function KeptIds(kept: seq<KeptRef>, through: bool): multiset<string> {
    if kept == [] then multiset{}
    else
      (if kept[0].overlaid || through then Ids(kept[0].ref, through) else multiset{}) + KeptIds(kept[1..], through)
  }

  lemma {:induction false} KidsIdsAppend(kids: seq<Kid>, more: seq<Kid>, through: bool)
    ensures KidsIds(kids + more, through) == KidsIds(kids, through) + KidsIds(more, through)
    ensures KidsOwn(kids + more) == KidsOwn(kids) + KidsOwn(more)
  {
    if kids == [] {
      assert kids + more == more;
    } else {
      assert (kids + more)[1..] == kids[1..] + more;
      KidsIdsAppend(kids[1..], more, through);
    }
  }

  lemma {:induction false} KeptIdsAppend(kept: seq<KeptRef>, more: seq<KeptRef>, through: bool)
    ensures KeptIds(kept + more, through) == KeptIds(kept, through) + KeptIds(more, through)
    ensures KeptWeight(kept + more) == KeptWeight(kept) + KeptWeight(more)
  {
    if kept == [] {
      assert kept + more == more;
    } else {
      assert (kept + more)[1..] == kept[1..] + more;
      KeptIdsAppend(kept[1..], more, through);
    }
  }

  // ── References ────────────

  /** Every `$ref` to a known id points at an ancestor; a `ref` kept from a `$ref` entry counts too. */
  ghost predicate Anchored(node: Node, ancestors: set<string>, known: set<string>) {
    if node.Ref? then
      && (node.target in ancestors || node.target !in known)
      && (node.ref.Some? ==> Anchored(node.ref.value, ancestors, known))
    else
      var inside := if node.id.Some? then ancestors + {node.id.value} else ancestors;
      AnchoredKids(node.kids, inside, known) && (node.ref.Some? ==> Anchored(node.ref.value, inside, known))
  }

  ghost predicate AnchoredKids(kids: seq<Kid>, ancestors: set<string>, known: set<string>) {
    kids == [] || (AnchoredKid(kids[0], ancestors, known) && AnchoredKids(kids[1..], ancestors, known))
  }

  ghost predicate AnchoredKid(kid: Kid, ancestors: set<string>, known: set<string>) {
    Anchored(kid.node, ancestors, known)
  }

  ghost predicate AnchoredIfKept(r: Option<Node>, ancestors: set<string>, known: set<string>) {
    r.Some? ==> Anchored(r.value, ancestors, known)
  }

  /** Each kept `ref` is anchored where it hangs. */
  ghost predicate KeptAnchored(kept: seq<KeptRef>, known: set<string>) {
    forall k :: k in kept ==> Anchored(k.ref, k.ancestors, known)
  }

  lemma {:induction false} AnchoredKidsAppend(kids: seq<Kid>, more: seq<Kid>, ancestors: set<string>,
                                              known: set<string>)
    ensures AnchoredKids(kids + more, ancestors, known)
      <==> AnchoredKids(kids, ancestors, known) && AnchoredKids(more, ancestors, known)
  {
    if kids == [] {
      assert kids + more == more;
    } else {
      assert (kids + more)[1..] == kids[1..] + more;
      AnchoredKidsAppend(kids[1..], more, ancestors, known);
    }
  }

  /** More ancestors anchor no less. */
  lemma {:induction false} AnchoredBelow(node: Node, ancestors: set<string>, more: set<string>, known: set<string>)
    requires Anchored(node, ancestors, known) && ancestors <= more
    ensures Anchored(node, more, known)
    decreases node
  {
    var inside, inMore := ancestors, more;
    if node.Body? {
      if node.id.Some? {
        inside, inMore := ancestors + {node.id.value}, more + {node.id.value};
      }
      AnchoredKidsBelow(node.kids, inside, inMore, known);
    }
    if node.ref.Some? {
      AnchoredBelow(node.ref.value, inside, inMore, known);
    }
  }

  lemma {:induction false} AnchoredKidsBelow(kids: seq<Kid>, ancestors: set<string>, more: set<string>,
                                             known: set<string>)
    requires AnchoredKids(kids, ancestors, known) && ancestors <= more
    ensures AnchoredKids(kids, more, known)
    decreases kids
  {
    if kids != [] {
      AnchoredKidBelow(kids[0], ancestors, more, known);
      AnchoredKidsBelow(kids[1..], ancestors, more, known);
    }
  }

  lemma {:induction false} AnchoredKidBelow(kid: Kid, ancestors: set<string>, more: set<string>, known: set<string>)
    requires AnchoredKid(kid, ancestors, known) && ancestors <= more
    ensures AnchoredKid(kid, more, known)
    decreases kid
  {
    AnchoredBelow(kid.node, ancestors, more, known);
  }

  // ── Nodes ────────────

  /** The bodies of a node, stubs aside, those inside the `ref`s of `$ref` entries too. */
  function Weight(node: Node): nat {
    if node == STUB then 0
    else
      (if node.Body? then 1 + KidsWeight(node.kids) else 0) + if node.ref.Some? then Weight(node.ref.value) else 0
  }

  function KidsWeight(kids: seq<Kid>): nat {
    if kids == [] then 0 else KidWeight(kids[0]) + KidsWeight(kids[1..])
  }

  function KidWeight(kid: Kid): nat {
    Weight(kid.node)
  }

  /** The bodies of a node outside the `ref`s of `$ref` entries. */
  function Originals(node: Node): nat {
    if node.Ref? then 0
    else 1 + KidsOriginals(node.kids) + if node.ref.Some? then Originals(node.ref.value) else 0
  }

  function KidsOriginals(kids: seq<Kid>): nat {
    if kids == [] then 0 else KidOriginals(kids[0]) + KidsOriginals(kids[1..])
  }

  function KidOriginals(kid: Kid): nat {
    Originals(kid.node)
  }

  function KeptWeight(kept: seq<KeptRef>): nat {
    if kept == [] then 0 else Weight(kept[0].ref) + KeptWeight(kept[1..])
  }

  lemma {:induction false} KidsWeightAppend(kids: seq<Kid>, more: seq<Kid>)
    ensures KidsWeight(kids + more) == KidsWeight(kids) + KidsWeight(more)
  {
    if kids == [] {
      assert kids + more == more;
    } else {
      assert (kids + more)[1..] == kids[1..] + more;
      KidsWeightAppend(kids[1..], more);
    }
  }

  // ── What collecting finds ────────────

  /** Collecting adds exactly the ids, and keeps what was there. */
  lemma {:induction false} CollectAdds(node: Node, acc: Bodies)
    ensures forall k :: k in Collect(node, acc) <==> k in acc || k in Ids(node, false)
    ensures forall k :: k in acc ==> Collect(node, acc)[k] == acc[k]
    decreases node
  {
    if node.Body? {
      var self := if node.id.Some? && node.id.value !in acc then acc[node.id.value := node] else acc;
      CollectKidsAdds(node.kids, self);
      if node.ref.Some? {
        CollectAdds(node.ref.value, CollectKids(node.kids, self));
      }
    }
  }

  lemma {:induction false} CollectKidsAdds(kids: seq<Kid>, acc: Bodies)
    ensures forall k :: k in CollectKids(kids, acc) <==> k in acc || k in KidsIds(kids, false)
    ensures forall k :: k in acc ==> CollectKids(kids, acc)[k] == acc[k]
    decreases kids
  {
    if kids != [] {
      CollectKidAdds(kids[0], acc);
      CollectKidsAdds(kids[1..], CollectKid(kids[0], acc));
    }
  }

  lemma {:induction false} CollectKidAdds(kid: Kid, acc: Bodies)
    ensures forall k :: k in CollectKid(kid, acc) <==> k in acc || k in KidIds(kid, false)
    ensures forall k :: k in acc ==> CollectKid(kid, acc)[k] == acc[k]
    decreases kid
  {
    CollectAdds(kid.node, acc);
  }
}
