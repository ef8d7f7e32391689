/**
 What inlining leaves: distinct copy ids, recursive `$ref`s that point at an
 ancestor copy, and no more copied nodes than the budget. The `ref`s it keeps
 un-inlined are the only exception, and are accounted for exactly.
 */
module InliningSafety {
  import opened Options
  import opened TypeInlining
  import opened KeptRefs

  // ── Ids ────────────

  ghost predicate CopyBetween(id: string, lo: nat, hi: nat) {
    exists b, k: nat :: lo < k <= hi && id == CopyId(b, k)
  }

  /**
   Apart from the ids of kept `ref`s, the ids are distinct copy ids numbered in
   `(lo, hi]`; those reached through children are among them.
   */
  ghost predicate Numbered(own: multiset<string>, ids: multiset<string>, kept: multiset<string>, lo: nat, hi: nat) {
    own + kept <= ids && forall x :: x in ids - kept ==> (ids - kept)[x] == 1 && CopyBetween(x, lo, hi)
  }

  lemma NumberedJoin(o1: multiset<string>, i1: multiset<string>, k1: multiset<string>, o2: multiset<string>,
                     i2: multiset<string>, k2: multiset<string>, lo: nat, mid: nat, hi: nat)
    requires Numbered(o1, i1, k1, lo, mid) && Numbered(o2, i2, k2, mid, hi) && lo <= mid <= hi
    ensures Numbered(o1 + o2, i1 + i2, k1 + k2, lo, hi)
  {
    assert (i1 + i2) - (k1 + k2) == (i1 - k1) + (i2 - k2);
    forall x | x in (i1 + i2) - (k1 + k2)
      ensures ((i1 + i2) - (k1 + k2))[x] == 1 && CopyBetween(x, lo, hi) {
      if x in i1 - k1 {
        assert CopyBetween(x, lo, mid);
      }
      if x in i2 - k2 {
        assert CopyBetween(x, mid, hi);
      }
      if x in i1 - k1 && x in i2 - k2 {
        RangesApart(x, lo, mid, hi);
      }
    }
  }

  /** What is joined below a `ref` is not reached through children. */
  lemma NumberedBelow(own: multiset<string>, i1: multiset<string>, k1: multiset<string>, o2: multiset<string>,
                      i2: multiset<string>, k2: multiset<string>, lo: nat, mid: nat, hi: nat)
    requires Numbered(own, i1, k1, lo, mid) && Numbered(o2, i2, k2, mid, hi) && lo <= mid <= hi
    ensures Numbered(own, i1 + i2, k1 + k2, lo, hi)
  {
    NumberedJoin(own, i1, k1, o2, i2, k2, lo, mid, hi);
    assert own <= own + o2;
  }

  lemma RangesApart(x: string, lo: nat, mid: nat, hi: nat)
    requires lo <= mid <= hi
    ensures !(CopyBetween(x, lo, mid) && CopyBetween(x, mid, hi))
  {
    if CopyBetween(x, lo, mid) && CopyBetween(x, mid, hi) {
      var a, k: nat :| lo < k <= mid && x == CopyId(a, k);
      var b, l: nat :| mid < l <= hi && x == CopyId(b, l);
      CopyIdInjective(a, k, b, l);
    }
  }

  lemma NumberedWiden(own: multiset<string>, ids: multiset<string>, kept: multiset<string>, lo: nat, mid: nat, hi: nat)
    requires Numbered(own, ids, kept, lo, mid) && mid <= hi
    ensures Numbered(own, ids, kept, lo, hi)
  {
    forall x | x in ids - kept ensures CopyBetween(x, lo, hi) {
      assert CopyBetween(x, lo, mid);
    }
  }

  lemma NumberedOne(id: string, n: nat)
    ensures var one := multiset{CopyId(id, n + 1)}; Numbered(one, one, multiset{}, n, n + 1)
  {
    assert CopyBetween(CopyId(id, n + 1), n, n + 1);
    assert multiset{CopyId(id, n + 1)} - multiset{} == multiset{CopyId(id, n + 1)};
  }

  /** A kept `ref` adds its ids and nothing else. */
  lemma NumberedKept(ids: multiset<string>, n: nat)
    ensures Numbered(multiset{}, ids, ids, n, n)
  {
  }

  ghost predicate NodeNumbered(r: Option<Node>, kept: seq<KeptRef>, lo: nat, hi: nat, through: bool) {
    lo <= hi &&
    if r.Some? then Numbered(Own(r.value), Ids(r.value, through), KeptIds(kept, through), lo, hi)
    else KeptIds(kept, through) == multiset{}
  }

  lemma {:induction false} InlineIds(node: Node, bodies: Bodies, stack: map<string, string>, inlining: bool, c: Ctx,
                                     ancestors: set<string>, through: bool)
    requires Indexed(bodies)
    ensures var (r, c') := Inline(node, bodies, stack, inlining, c);
            NodeNumbered(r, Kept(node, bodies, stack, inlining, c, ancestors), c.n, c'.n, through)
    decreases Unstacked(bodies, stack), Waiting(node, bodies, stack), Size(node), 2
  {
    if node.Body? {
      if !(inlining && c.budget - 1 < 0) {
        BodyIds(node, bodies, stack, inlining, c, ancestors, through);
      }
    } else if node.target in stack || node.target !in bodies {
      EntryIds(node, ancestors, false, through);
      NumberedKept(Ids(node, through), c.n);
    } else if c.budget - 1 >= 0 {
      var body := bodies[node.target];
      if node.own {
        OverlaidIds(node, bodies, stack, inlining, c, ancestors, through);
      } else {
        BodyIds(body, bodies, stack, true, c, ancestors, through);
      }
    }
  }

  lemma EntryIds(entry: Node, ancestors: set<string>, overlaid: bool, through: bool)
    requires entry.Ref?
    ensures KeptIds(OfEntry(entry, ancestors, overlaid), through)
            == if entry.ref.Some? && (overlaid || through) then Ids(entry.ref.value, through) else multiset{}
    ensures KeptWeight(OfEntry(entry, ancestors, overlaid)) == if entry.ref.Some? then Weight(entry.ref.value) else 0
  {
    var kept := OfEntry(entry, ancestors, overlaid);
    assert kept != [] ==> kept[1..] == [];
  }

  function WithRef(head: Node, ref: Option<Node>): Node
    requires head.Body?
  {
    Body(head.id, head.kind, head.kids, head.meta, ref)
  }

  /** The own id of a copy and the ids of its children. */
  function HeadIds(r: Node, through: bool): multiset<string>
    requires r.Body?
  {
    (if r.id.Some? then multiset{r.id.value} else multiset{}) + KidsIds(r.kids, through)
  }

  lemma {:induction false} HeadNumbered(node: Node, bodies: Bodies, stack: map<string, string>, inlining: bool, c: Ctx,
                                        ancestors: set<string>, through: bool)
    requires Indexed(bodies) && node.Body?
    ensures var (next, entered) := (Stacked(node, stack, c), Entered(node, inlining, c));
            var (kids, c1) := InlineKids(node.kids, bodies, next, inlining, entered);
            var r := Body(CopiedId(node, c), node.kind, kids, node.meta, None);
            var kept := KeptIds(KeptInKids(node, bodies, stack, inlining, c, ancestors), through);
            c.n <= c1.n && Numbered(Own(r), HeadIds(r, through), kept, c.n, c1.n)
    decreases Unstacked(bodies, stack), Waiting(node, bodies, stack), Size(node), 0
  {
    PushShrinks(node, bodies, stack, c);
    var next, entered := Stacked(node, stack, c), Entered(node, inlining, c);
    var (kids, c1) := InlineKids(node.kids, bodies, next, inlining, entered);
    var kept := KeptInKids(node, bodies, stack, inlining, c, ancestors);
    KidsNumbered(node.kids, bodies, next, inlining, entered, Inside(node, c, ancestors), through);
    HeadJoins(CopiedId(node, c), node.id, KidsOwn(kids), KidsIds(kids, through), KeptIds(kept, through), c.n, c1.n);
  }

  /** The head's own numbered id before those of its children. */
  lemma HeadJoins(copied: Option<string>, id: Option<string>, own: multiset<string>, ids: multiset<string>,
                  kept: multiset<string>, n: nat, hi: nat)
    requires copied == if id.Some? then Some(CopyId(id.value, n + 1)) else None
    requires var mid := if id.Some? then n + 1 else n; mid <= hi && Numbered(own, ids, kept, mid, hi)
    ensures var head := if copied.Some? then multiset{copied.value} else multiset{};
      Numbered(head + own, head + ids, kept, n, hi)
  {
    if id.Some? {
      NumberedOne(id.value, n);
      var one := multiset{CopyId(id.value, n + 1)};
      NumberedJoin(one, one, multiset{}, own, ids, kept, n, n + 1, hi);
      assert multiset{} + kept == kept;
    } else {
      assert multiset{} + ids == ids && multiset{} + own == own;
    }
  }

  lemma {:induction false} BodyIds(node: Node, bodies: Bodies, stack: map<string, string>, inlining: bool, c: Ctx,
                                   ancestors: set<string>, through: bool)
    requires Indexed(bodies) && node.Body?
    ensures var (r, c') := InlineBody(node, bodies, stack, inlining, c);
            NodeNumbered(Some(r), KeptInBody(node, bodies, stack, inlining, c, ancestors), c.n, c'.n, through)
    decreases Unstacked(bodies, stack), Waiting(node, bodies, stack), Size(node), 1
  {
    PushShrinks(node, bodies, stack, c);
    var next, entered, inside := Stacked(node, stack, c), Entered(node, inlining, c), Inside(node, c, ancestors);
    var (kids, c1) := InlineKids(node.kids, bodies, next, inlining, entered);
    HeadNumbered(node, bodies, stack, inlining, c, ancestors, through);
    BodyUnfolds(node, bodies, stack, inlining, c, kids, c1);
    var head := Body(CopiedId(node, c), node.kind, kids, node.meta, None);
    var ks := KeptInKids(node, bodies, stack, inlining, c, ancestors);
    if node.ref.Some? {
      InlineIds(node.ref.value, bodies, next, inlining, c1, inside, through);
      var (ref, c2) := Inline(node.ref.value, bodies, next, inlining, c1);
      RefNumbered(head, ks, ref, Kept(node.ref.value, bodies, next, inlining, c1, inside), c.n, c1.n, c2.n, through);
    } else {
      RefNumbered(head, ks, None, [], c.n, c1.n, c1.n, through);
    }
  }

  /** A copied body: its own id and its children's, then its `ref`'s. */
  lemma RefNumbered(head: Node, ks: seq<KeptRef>, ref: Option<Node>, kr: seq<KeptRef>, lo: nat, mid: nat, hi: nat,
                    through: bool)
    requires head.Body? && lo <= mid && Numbered(Own(head), HeadIds(head, through), KeptIds(ks, through), lo, mid)
    requires NodeNumbered(ref, kr, mid, hi, through)
    ensures NodeNumbered(Some(WithRef(head, ref)), ks + kr, lo, hi, through)
  {
    var own, ids, kept := Own(head), HeadIds(head, through), KeptIds(ks, through);
    KeptIdsAppend(ks, kr, through);
    WithRefIds(head, ref, through);
    if ref.Some? {
      NumberedBelow(own, ids, kept, Own(ref.value), Ids(ref.value, through), KeptIds(kr, through), lo, mid, hi);
    } else {
      NumberedWiden(own, ids, kept, lo, mid, hi);
      assert kept + KeptIds(kr, through) == kept;
    }
  }

  lemma WithRefIds(head: Node, ref: Option<Node>, through: bool)
    requires head.Body?
    ensures Own(WithRef(head, ref)) == Own(head)
    ensures Ids(WithRef(head, ref), through)
      == HeadIds(head, through) + if ref.Some? then Ids(ref.value, through) else multiset{}
    ensures ref.None? ==> Ids(WithRef(head, ref), through) == HeadIds(head, through)
  {
  }

  /** The context after a body's `ref`. */
  ghost function AfterRef(body: Node, bodies: Bodies, next: map<string, string>, c1: Ctx): Ctx
    requires Indexed(bodies) && body.Body?
  {
    if body.ref.None? then c1 else Inline(body.ref.value, bodies, next, true, c1).1
  }

  /** An `own` entry: the copied body, with the entry's metadata and `ref` in place of its own. */
  lemma OverlayIs(node: Node, bodies: Bodies, stack: map<string, string>, inlining: bool, c: Ctx, kids: seq<Kid>,
                  c1: Ctx)
    requires Indexed(bodies) && node.Ref? && node.own && node.target in bodies && node.target !in stack && c.budget >= 1
    requires (kids, c1) == InlineKids(bodies[node.target].kids, bodies, Stacked(bodies[node.target], stack, c), true,
                                      Entered(bodies[node.target], true, c))
    ensures var body := bodies[node.target];
      Inline(node, bodies, stack, inlining, c)
        == (Some(Body(CopiedId(body, c), body.kind, kids, node.meta, node.ref)),
            AfterRef(body, bodies, Stacked(body, stack, c), c1))
  {
    BodyUnfolds(bodies[node.target], bodies, stack, true, c, kids, c1);
  }

  lemma {:induction false} OverlaidIds(node: Node, bodies: Bodies, stack: map<string, string>, inlining: bool, c: Ctx,
                                       ancestors: set<string>, through: bool)
    requires Indexed(bodies) && node.Ref? && node.own && node.target in bodies && node.target !in stack && c.budget >= 1
    ensures var (r, c') := Inline(node, bodies, stack, inlining, c);
            NodeNumbered(r, Kept(node, bodies, stack, inlining, c, ancestors), c.n, c'.n, through)
    decreases Unstacked(bodies, stack), Waiting(node, bodies, stack), Size(node), 1
  {
    var body := bodies[node.target];
    PushShrinks(body, bodies, stack, c);
    var next, inside := Stacked(body, stack, c), Inside(body, c, ancestors);
    var (kids, c1) := InlineKids(body.kids, bodies, next, true, Entered(body, true, c));
    HeadNumbered(body, bodies, stack, true, c, ancestors, through);
    if body.ref.Some? {
      InlineIds(body.ref.value, bodies, next, true, c1, inside, through);
    }
    OverlayIs(node, bodies, stack, inlining, c, kids, c1);
    var head := Body(CopiedId(body, c), body.kind, kids, node.meta, None);
    var ks := KeptInKids(body, bodies, stack, true, c, ancestors);
    var plain := Body(CopiedId(body, c), body.kind, kids, body.meta, None);
    assert Own(head) == Own(plain) && HeadIds(head, through) == HeadIds(plain, through);
    LaidOver(head, ks, node, inside, c.n, c1.n, AfterRef(body, bodies, next, c1).n, through);
  }

  lemma LaidOver(head: Node, ks: seq<KeptRef>, entry: Node, inside: set<string>, lo: nat, mid: nat, hi: nat,
                 through: bool)
    requires head.Body? && lo <= mid <= hi && Numbered(Own(head), HeadIds(head, through), KeptIds(ks, through), lo, mid)
    requires entry.Ref?
    ensures NodeNumbered(Some(WithRef(head, entry.ref)), ks + OfEntry(entry, inside, true), lo, hi, through)
  {
    var own, ids, kept, laid := Own(head), HeadIds(head, through), KeptIds(ks, through), OfEntry(entry, inside, true);
    EntryIds(entry, inside, true, through);
    KeptIdsAppend(ks, laid, through);
    WithRefIds(head, entry.ref, through);
    var added := KeptIds(laid, through);
    NumberedKept(added, mid);
    NumberedWiden(multiset{}, added, added, mid, mid, hi);
    NumberedBelow(own, ids, kept, multiset{}, added, added, lo, mid, hi);
  }

  lemma {:induction false} KidsNumbered(kids: seq<Kid>, bodies: Bodies, stack: map<string, string>, inlining: bool,
                                        c: Ctx, ancestors: set<string>, through: bool)
    requires Indexed(bodies)
    ensures var (r, c') := InlineKids(kids, bodies, stack, inlining, c);
            var kept := KeptIds(KeptOfKids(kids, bodies, stack, inlining, c, ancestors), through);
            c.n <= c'.n && Numbered(KidsOwn(r), KidsIds(r, through), kept, c.n, c'.n)
    decreases Unstacked(bodies, stack), 1, KidsSize(kids), 0
  {
    if kids != [] {
      assert KidsSize(kids) == KidSize(kids[0]) + KidsSize(kids[1..]);
      var (first, c1) := Inline(kids[0].node, bodies, stack, inlining, c);
      var (rest, c2) := InlineKids(kids[1..], bodies, stack, inlining, c1);
      InlineIds(kids[0].node, bodies, stack, inlining, c, ancestors, through);
      KidsNumbered(kids[1..], bodies, stack, inlining, c1, ancestors, through);
      KidNumbered(kids[0], first, Kept(kids[0].node, bodies, stack, inlining, c, ancestors), c.n, c1.n, through);
      var kept := KeptKid(kids[0], first);
      var k1 := Kept(kids[0].node, bodies, stack, inlining, c, ancestors);
      var k2 := KeptOfKids(kids[1..], bodies, stack, inlining, c1, ancestors);
      NumberedJoin(KidsOwn(kept), KidsIds(kept, through), KeptIds(k1, through),
        KidsOwn(rest), KidsIds(rest, through), KeptIds(k2, through), c.n, c1.n, c2.n);
      KidsIdsAppend(kept, rest, through);
      KeptIdsAppend(k1, k2, through);
    }
  }

  lemma KidNumbered(kid: Kid, first: Option<Node>, kept: seq<KeptRef>, lo: nat, hi: nat, through: bool)
    requires NodeNumbered(first, kept, lo, hi, through)
    ensures var kids := KeptKid(kid, first);
            Numbered(KidsOwn(kids), KidsIds(kids, through), KeptIds(kept, through), lo, hi)
  {
    var kids := KeptKid(kid, first);
    assert Own(STUB) == multiset{} && Ids(STUB, through) == multiset{} by {
      assert STUB.kids == [] && STUB.id.None? && STUB.ref.None?;
    }
    if kids != [] {
      assert kids[1..] == [];
      assert KidsIds(kids, through) == Ids(kids[0].node, through) && KidsOwn(kids) == Own(kids[0].node);
    }
    if first.None? {
      NumberedKept(multiset{}, lo);
      NumberedWiden(multiset{}, multiset{}, multiset{}, lo, lo, hi);
    }
  }

  /** Every id occurs once. */
  predicate Unique(ids: multiset<string>) {
    forall x :: x in ids ==> ids[x] == 1
  }

  lemma UniqueIff(own: multiset<string>, ids: multiset<string>, kept: multiset<string>, lo: nat, hi: nat)
    requires Numbered(own, ids, kept, lo, hi)
    ensures Unique(ids) <==> forall x :: x in kept ==> ids[x] == 1
    ensures (forall x :: x in kept ==> '#' !in x) ==> (Unique(ids) <==> Unique(kept))
  {
    forall x | x in ids && x !in kept ensures ids[x] == 1 {
      assert (ids - kept)[x] == ids[x];
    }
    forall x | x in kept && '#' !in x ensures ids[x] == kept[x] {
      if x in ids - kept {
        assert CopyBetween(x, lo, hi);
        CopyHashed(x, lo, hi);
      }
    }
  }

  lemma CopyHashed(x: string, lo: nat, hi: nat)
    requires CopyBetween(x, lo, hi)
    ensures '#' in x
  {
    var b, k: nat :| lo < k <= hi && x == CopyId(b, k);
    assert x[|b|] == '#';
  }

  // ── Recursive references point at ancestors ────────────

  lemma KeptAnchoredJoin(a: seq<KeptRef>, b: seq<KeptRef>, known: set<string>)
    ensures KeptAnchored(a + b, known) <==> KeptAnchored(a, known) && KeptAnchored(b, known)
  {
    assert forall k :: k in a + b <==> k in a || k in b;
  }

  lemma {:induction false} InlineAnchored(node: Node, bodies: Bodies, stack: map<string, string>, inlining: bool,
                                          c: Ctx, ancestors: set<string>)
    requires Indexed(bodies) && stack.Values <= ancestors
    ensures AnchoredIfKept(Inline(node, bodies, stack, inlining, c).0, ancestors, bodies.Keys)
            <==> KeptAnchored(Kept(node, bodies, stack, inlining, c, ancestors), bodies.Keys)
    decreases Unstacked(bodies, stack), Waiting(node, bodies, stack), Size(node), 2
  {
    if node.Body? {
      if !(inlining && c.budget - 1 < 0) {
        BodyAnchored(node, bodies, stack, inlining, c, ancestors);
      }
    } else if node.target in stack {
      assert stack[node.target] in stack.Values;
    } else if node.target in bodies && c.budget - 1 >= 0 {
      var body := bodies[node.target];
      if node.own {
        HeadAnchored(body, bodies, stack, true, c, ancestors);
        var (kids, c1) := InlineKids(body.kids, bodies, Stacked(body, stack, c), true, Entered(body, true, c));
        BodyUnfolds(body, bodies, stack, true, c, kids, c1);
        KeptAnchoredJoin(KeptInKids(body, bodies, stack, true, c, ancestors),
          OfEntry(node, Inside(body, c, ancestors), true), bodies.Keys);
      } else {
        BodyAnchored(body, bodies, stack, true, c, ancestors);
      }
    }
  }

  lemma {:induction false} HeadAnchored(node: Node, bodies: Bodies, stack: map<string, string>, inlining: bool, c: Ctx,
                                        ancestors: set<string>)
    requires Indexed(bodies) && node.Body? && stack.Values <= ancestors
    ensures AnchoredKids(InlineKids(node.kids, bodies, Stacked(node, stack, c), inlining, Entered(node, inlining, c)).0,
                         Inside(node, c, ancestors), bodies.Keys)
            <==> KeptAnchored(KeptInKids(node, bodies, stack, inlining, c, ancestors), bodies.Keys)
    decreases Unstacked(bodies, stack), Waiting(node, bodies, stack), Size(node), 0
  {
    PushShrinks(node, bodies, stack, c);
    StackedWithin(node, stack, c, ancestors);
    KidsAnchored(node.kids, bodies, Stacked(node, stack, c), inlining, Entered(node, inlining, c),
      Inside(node, c, ancestors));
  }

  lemma {:induction false} BodyAnchored(node: Node, bodies: Bodies, stack: map<string, string>, inlining: bool, c: Ctx,
                                        ancestors: set<string>)
    requires Indexed(bodies) && node.Body? && stack.Values <= ancestors
    ensures Anchored(InlineBody(node, bodies, stack, inlining, c).0, ancestors, bodies.Keys)
            <==> KeptAnchored(KeptInBody(node, bodies, stack, inlining, c, ancestors), bodies.Keys)
    decreases Unstacked(bodies, stack), Waiting(node, bodies, stack), Size(node), 1
  {
    PushShrinks(node, bodies, stack, c);
    StackedWithin(node, stack, c, ancestors);
    var next, inside := Stacked(node, stack, c), Inside(node, c, ancestors);
    var (kids, c1) := InlineKids(node.kids, bodies, next, inlining, Entered(node, inlining, c));
    HeadAnchored(node, bodies, stack, inlining, c, ancestors);
    BodyUnfolds(node, bodies, stack, inlining, c, kids, c1);
    if node.ref.Some? {
      InlineAnchored(node.ref.value, bodies, next, inlining, c1, inside);
      KeptAnchoredJoin(KeptInKids(node, bodies, stack, inlining, c, ancestors),
        Kept(node.ref.value, bodies, next, inlining, c1, inside), bodies.Keys);
    }
  }

  lemma StackedWithin(node: Node, stack: map<string, string>, c: Ctx, ancestors: set<string>)
    requires node.Body? && stack.Values <= ancestors
    ensures Stacked(node, stack, c).Values <= Inside(node, c, ancestors)
  {
  }

  lemma {:induction false} KidsAnchored(kids: seq<Kid>, bodies: Bodies, stack: map<string, string>, inlining: bool,
                                        c: Ctx, ancestors: set<string>)
    requires Indexed(bodies) && stack.Values <= ancestors
    ensures AnchoredKids(InlineKids(kids, bodies, stack, inlining, c).0, ancestors, bodies.Keys)
            <==> KeptAnchored(KeptOfKids(kids, bodies, stack, inlining, c, ancestors), bodies.Keys)
    decreases Unstacked(bodies, stack), 1, KidsSize(kids), 0
  {
    if kids != [] {
      assert KidsSize(kids) == KidSize(kids[0]) + KidsSize(kids[1..]);
      var (first, c1) := Inline(kids[0].node, bodies, stack, inlining, c);
      var (rest, _) := InlineKids(kids[1..], bodies, stack, inlining, c1);
      InlineAnchored(kids[0].node, bodies, stack, inlining, c, ancestors);
      KidsAnchored(kids[1..], bodies, stack, inlining, c1, ancestors);
      var kept := KeptKid(kids[0], first);
      assert STUB.kids == [] && Anchored(STUB, ancestors, bodies.Keys);
      assert AnchoredKids(kept, ancestors, bodies.Keys) <==> AnchoredIfKept(first, ancestors, bodies.Keys) by {
        assert kept != [] ==> kept[1..] == [];
      }
      AnchoredKidsAppend(kept, rest, ancestors, bodies.Keys);
      KeptAnchoredJoin(Kept(kids[0].node, bodies, stack, inlining, c, ancestors),
        KeptOfKids(kids[1..], bodies, stack, inlining, c1, ancestors), bodies.Keys);
    }
  }

  // ── The budget ────────────

  function Left(c: Ctx): nat {
    if c.budget < 0 then 0 else c.budget
  }

  /**
   A walk outside inlining keeps its own nodes and the kept `ref`s; everything beyond them was
   paid from the budget.
   */
  lemma {:induction false} InlineWeight(node: Node, bodies: Bodies, stack: map<string, string>, inlining: bool, c: Ctx,
                                        ancestors: set<string>)
    requires Indexed(bodies)
    ensures var (r, c') := Inline(node, bodies, stack, inlining, c);
            var kept := Kept(node, bodies, stack, inlining, c, ancestors);
            && c'.budget <= c.budget
            && (r.Some? ==>
                 Weight(r.value) + Left(c') <= Left(c) + KeptWeight(kept) + if inlining then 0 else Originals(node))
    decreases Unstacked(bodies, stack), Waiting(node, bodies, stack), Size(node), 2
  {
    if node.Body? {
      if !(inlining && c.budget - 1 < 0) {
        BodyWeight(node, bodies, stack, inlining, c, ancestors);
      }
    } else if node.target in stack || node.target !in bodies {
      EntryIds(node, ancestors, false, false);
    } else if c.budget - 1 >= 0 {
      if node.own {
        OverlaidWeight(node, bodies, stack, inlining, c, ancestors);
      } else {
        BodyWeight(bodies[node.target], bodies, stack, true, c, ancestors);
      }
    }
  }

  lemma BodyWeighs(head: Node, ref: Option<Node>)
    requires head.Body?
    ensures Weight(WithRef(head, ref)) <= 1 + KidsWeight(head.kids) + if ref.Some? then Weight(ref.value) else 0
  {
  }

  lemma {:induction false} HeadWeight(node: Node, bodies: Bodies, stack: map<string, string>, inlining: bool, c: Ctx,
                                      ancestors: set<string>)
    requires Indexed(bodies) && node.Body? && (inlining ==> c.budget >= 1)
    ensures var (next, entered) := (Stacked(node, stack, c), Entered(node, inlining, c));
            var (kids, c1) := InlineKids(node.kids, bodies, next, inlining, entered);
            var kept := KeptInKids(node, bodies, stack, inlining, c, ancestors);
            && c1.budget <= Entered(node, inlining, c).budget
            && 1 + KidsWeight(kids) + Left(c1)
                 <= Left(c) + KeptWeight(kept) + if inlining then 0 else 1 + KidsOriginals(node.kids)
    decreases Unstacked(bodies, stack), Waiting(node, bodies, stack), Size(node), 0
  {
    PushShrinks(node, bodies, stack, c);
    KidsWeighed(node.kids, bodies, Stacked(node, stack, c), inlining, Entered(node, inlining, c),
      Inside(node, c, ancestors));
  }

  lemma {:induction false} BodyWeight(node: Node, bodies: Bodies, stack: map<string, string>, inlining: bool, c: Ctx,
                                      ancestors: set<string>)
    requires Indexed(bodies) && node.Body? && (inlining ==> c.budget >= 1)
    ensures var (r, c') := InlineBody(node, bodies, stack, inlining, c);
            var kept := KeptInBody(node, bodies, stack, inlining, c, ancestors);
            && c'.budget <= c.budget
            && Weight(r) + Left(c') <= Left(c) + KeptWeight(kept) + if inlining then 0 else Originals(node)
    decreases Unstacked(bodies, stack), Waiting(node, bodies, stack), Size(node), 1
  {
    PushShrinks(node, bodies, stack, c);
    var next, inside := Stacked(node, stack, c), Inside(node, c, ancestors);
    var (kids, c1) := InlineKids(node.kids, bodies, next, inlining, Entered(node, inlining, c));
    BodyUnfolds(node, bodies, stack, inlining, c, kids, c1);
    HeadWeight(node, bodies, stack, inlining, c, ancestors);
    var r := InlineBody(node, bodies, stack, inlining, c).0;
    BodyWeighs(r, r.ref);
    if node.ref.Some? {
      InlineWeight(node.ref.value, bodies, next, inlining, c1, inside);
      KeptIdsAppend(KeptInKids(node, bodies, stack, inlining, c, ancestors),
        Kept(node.ref.value, bodies, next, inlining, c1, inside), false);
    } else {
      KeptIdsAppend(KeptInKids(node, bodies, stack, inlining, c, ancestors), [], false);
    }
  }

  lemma {:induction false} OverlaidWeight(node: Node, bodies: Bodies, stack: map<string, string>, inlining: bool,
                                          c: Ctx, ancestors: set<string>)
    requires Indexed(bodies) && node.Ref? && node.own && node.target in bodies && node.target !in stack && c.budget >= 1
    ensures var (r, c') := Inline(node, bodies, stack, inlining, c);
            && c'.budget <= c.budget && r.Some?
            && Weight(r.value) + Left(c') <= Left(c) + KeptWeight(Kept(node, bodies, stack, inlining, c, ancestors))
    decreases Unstacked(bodies, stack), Waiting(node, bodies, stack), Size(node), 1
  {
    var body := bodies[node.target];
    PushShrinks(body, bodies, stack, c);
    var next, inside := Stacked(body, stack, c), Inside(body, c, ancestors);
    var (kids, c1) := InlineKids(body.kids, bodies, next, true, Entered(body, true, c));
    HeadWeight(body, bodies, stack, true, c, ancestors);
    if body.ref.Some? {
      InlineWeight(body.ref.value, bodies, next, true, c1, inside);
    }
    OverlayIs(node, bodies, stack, inlining, c, kids, c1);
    BodyWeighs(Body(CopiedId(body, c), body.kind, kids, node.meta, None), node.ref);
    LaidWeight(KeptInKids(body, bodies, stack, true, c, ancestors), node, inside);
  }

  lemma LaidWeight(ks: seq<KeptRef>, entry: Node, inside: set<string>)
    requires entry.Ref?
    ensures KeptWeight(ks + OfEntry(entry, inside, true))
      == KeptWeight(ks) + if entry.ref.Some? then Weight(entry.ref.value) else 0
  {
    EntryIds(entry, inside, true, false);
    KeptIdsAppend(ks, OfEntry(entry, inside, true), false);
  }

  lemma {:induction false} KidsWeighed(kids: seq<Kid>, bodies: Bodies, stack: map<string, string>, inlining: bool,
                                       c: Ctx, ancestors: set<string>)
    requires Indexed(bodies)
    ensures var (r, c') := InlineKids(kids, bodies, stack, inlining, c);
            var kept := KeptOfKids(kids, bodies, stack, inlining, c, ancestors);
            && c'.budget <= c.budget
            && KidsWeight(r) + Left(c') <= Left(c) + KeptWeight(kept) + if inlining then 0 else KidsOriginals(kids)
    decreases Unstacked(bodies, stack), 1, KidsSize(kids), 0
  {
    if kids != [] {
      assert KidsSize(kids) == KidSize(kids[0]) + KidsSize(kids[1..]);
      var (first, c1) := Inline(kids[0].node, bodies, stack, inlining, c);
      var (rest, _) := InlineKids(kids[1..], bodies, stack, inlining, c1);
      InlineWeight(kids[0].node, bodies, stack, inlining, c, ancestors);
      KidsWeighed(kids[1..], bodies, stack, inlining, c1, ancestors);
      var kept := KeptKid(kids[0], first);
      assert KidsWeight(kept) == if first.Some? then Weight(first.value) else 0 by {
        assert kept != [] ==> kept[1..] == [];
      }
      KidsWeightAppend(kept, rest);
      KeptIdsAppend(Kept(kids[0].node, bodies, stack, inlining, c, ancestors),
        KeptOfKids(kids[1..], bodies, stack, inlining, c1, ancestors), false);
    }
  }
}
