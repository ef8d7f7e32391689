/**
 The overlay of a write in memory: payload objects may be shared between the
 caller and the result, so every object that changes is a copy.
 */
module Payloads {
  import opened Options
  import opened DottedPaths
  import opened Filters
  import opened Whitelists
  import opened Overlays

  /** What a key of an object holds: a plain value, or a reference to an object. */
  datatype Slot = Plain(value: Value) | Ref(target: JsObject)

  class JsObject {
    var fields: map<string, Slot>
    ghost var repr: set<JsObject>

    constructor (fields: map<string, Slot>, ghost below: set<JsObject>)
      requires AllSound(fields, below)
      ensures Valid() && this.fields == fields && repr == below + {this}
      ensures Contents() == Row(fields, below)
    {
      this.fields := fields;
      this.repr := below + {this};
      new;
      assert repr - {this} == below;
    }

    /** The objects below form no cycle. */
    ghost predicate Valid()
      reads this, repr
      decreases repr, 0
    {
      this in repr && AllSound(fields, repr - {this})
    }

    /** The row this object stands for. */
    ghost function Contents(): (v: Value)
      requires Valid()
      reads this, repr
      ensures v.Doc? && v.fields.Keys == fields.Keys
      decreases repr, 0
    {
      Row(fields, repr - {this})
    }
  }

  ghost predicate AllSound(fields: map<string, Slot>, below: set<JsObject>)
    reads below
    decreases below, 2
  {
    forall k :: k in fields ==> Sound(fields[k], below)
  }

  ghost function Row(fields: map<string, Slot>, below: set<JsObject>): (v: Value)
    requires AllSound(fields, below)
    reads below
    ensures v.Doc? && v.fields.Keys == fields.Keys
    decreases below, 2
  {
    Doc(map k | k in fields :: Meaning(fields[k], below))
  }

  ghost predicate Sound(s: Slot, below: set<JsObject>)
    reads below
    decreases below, 1
  {
    match s
    case Plain(v) => !v.Doc?
    case Ref(o) => o in below && o.repr <= below && o.Valid()
  }

  ghost function Meaning(s: Slot, below: set<JsObject>): Value
    requires Sound(s, below)
    reads below
    decreases below, 1
  {
    match s
    case Plain(v) => v
    case Ref(o) => o.Contents()
  }

  lemma SlotOf(o: JsObject, k: string)
    requires o.Valid()
    ensures k in o.fields <==> k in o.Contents().fields
    ensures k in o.fields ==>
      var s, below := o.fields[k], o.repr - {o};
      && Sound(s, below) && o.Contents().fields[k] == Meaning(s, below)
      && (s.Plain? ==> !s.value.Doc? && Meaning(s, below) == s.value)
      && (s.Ref? ==> s.target.Valid() && s.target.repr <= below && Meaning(s, below) == s.target.Contents())
  {
    assert AllSound(o.fields, o.repr - {o});
    assert o.Contents() == Row(o.fields, o.repr - {o});
    if k in o.fields {
      assert Sound(o.fields[k], o.repr - {o});
    }
  }

  lemma SoundMore(s: Slot, below: set<JsObject>, more: set<JsObject>)
    requires Sound(s, below) && below <= more
    ensures Sound(s, more) && Meaning(s, more) == Meaning(s, below)
  {
  }

  // ── Building the whitelist ────────────

  ghost function Paths(fields: set<string>): set<Path> {
    set f | f in fields :: Split(f)
  }

  lemma PathsAdd(fields: set<string>, f: string)
    ensures Paths(fields + {f}) == Paths(fields) + {Split(f)}
  {
  }

  /** The trie of the allowed fields and the always preserved ones. */
  method BuildWhitelist(allowed: set<string>, preserved: seq<string>) returns (w: Whitelist)
    ensures fresh(w) && fresh(w.repr) && w.Valid()
    ensures w.paths == Paths(allowed + set f | f in preserved)
  {
    w := new Whitelist();
    var todo := allowed;
    while todo != {}
      invariant todo <= allowed && w.Valid() && fresh(w.repr)
      invariant w.paths == Paths(allowed - todo)
      decreases todo
    {
      var f :| f in todo;
      w.AddPath(Split(f));
      PathsAdd(allowed - todo, f);
      assert allowed - (todo - {f}) == allowed - todo + {f};
      todo := todo - {f};
    }
    assert allowed - {} == allowed;
    PreserveFields(w, allowed, preserved);
  }

  method PreserveFields(w: Whitelist, ghost allowed: set<string>, preserved: seq<string>)
    requires w.Valid() && w.paths == Paths(allowed)
    modifies w, w.repr
    ensures w.Valid() && fresh(w.repr - old(w.repr))
    ensures w.paths == Paths(allowed + set f | f in preserved)
  {
    ghost var done := allowed;
    for i := 0 to |preserved|
      invariant w.Valid() && fresh(w.repr - old(w.repr))
      invariant done == allowed + set f | f in preserved[..i]
      invariant w.paths == Paths(done)
    {
      w.AddPath(Split(preserved[i]));
      PathsAdd(done, preserved[i]);
      done := done + {preserved[i]};
      assert preserved[..i + 1] == preserved[..i] + [preserved[i]];
    }
    assert preserved[..|preserved|] == preserved;
  }

  // ── Pruning ────────────

  /** Keep what the subtree of an open node whitelists. Copies; the payload is only read. */
  method PruneByTree(obj: JsObject, w: Whitelist, node: FieldTree, ghost p: Path, prefix: string, merge: MergePatch)
    returns (out: JsObject)
    requires obj.Valid() && w.Valid() && node in w.repr && node.path == p && Open(w.nodes, p)
    ensures out.Valid() && fresh(out) && fresh(out.repr - obj.repr)
    ensures out.Contents() == Prune(obj.Contents(), Under(w.paths, p), prefix, merge)
    decreases obj.repr, 1
  {
    var kept: map<string, Slot> := map[];
    ghost var below := obj.repr - {obj};
    ghost var doc, under := obj.Contents(), Under(w.paths, p);
    var todo := obj.fields.Keys;
    while todo != {}
      invariant todo <= obj.fields.Keys && fresh(below - obj.repr)
      invariant forall k :: k in kept <==> k in obj.fields && k !in todo && PruneKey(doc, under, prefix, merge, k).Some?
      invariant forall k :: k in kept ==> Keeps(kept[k], below, PruneKey(doc, under, prefix, merge, k))
      decreases todo
    {
      var k :| k in todo;
      ghost var more;
      var slot;
      slot, more := PruneEntry(obj, k, w, node, p, prefix, merge);
      if slot.Some? {
        forall j | j in kept ensures Keeps(kept[j], below + more, PruneKey(doc, under, prefix, merge, j)) {
          SoundMore(kept[j], below, below + more);
        }
        SoundMore(slot.value, more, below + more);
        below := below + more;
        kept := kept[k := slot.value];
      }
      todo := todo - {k};
    }
    KeptIsPruned(doc, under, prefix, merge, kept, below);
    out := new JsObject(kept, below);
  }

  lemma KeptIsPruned(doc: Value, under: set<Path>, prefix: string, merge: MergePatch, kept: map<string, Slot>,
                     below: set<JsObject>)
    requires doc.Doc?
    requires forall k :: k in kept <==> k in doc.fields && PruneKey(doc, under, prefix, merge, k).Some?
    requires forall k :: k in kept ==> Keeps(kept[k], below, PruneKey(doc, under, prefix, merge, k))
    ensures AllSound(kept, below) && Row(kept, below) == Prune(doc, under, prefix, merge)
  {
  }

  ghost predicate Keeps(s: Slot, below: set<JsObject>, expected: Option<Value>)
    reads below
  {
    Sound(s, below) && expected == Some(Meaning(s, below))
  }

  /** One key of the payload. */
  method PruneEntry(obj: JsObject, k: string, w: Whitelist, node: FieldTree, ghost p: Path, prefix: string,
                    merge: MergePatch)
    returns (slot: Option<Slot>, ghost below: set<JsObject>)
    requires obj.Valid() && k in obj.fields
    requires w.Valid() && node in w.repr && node.path == p && Open(w.nodes, p)
    ensures fresh(below - obj.repr)
    ensures slot.Some? <==> PruneKey(obj.Contents(), Under(w.paths, p), prefix, merge, k).Some?
    ensures slot.Some? ==> Keeps(slot.value, below, PruneKey(obj.Contents(), Under(w.paths, p), prefix, merge, k))
    decreases obj.repr, 0
  {
    SlotOf(obj, k);
    var v := obj.fields[k];
    below := obj.repr - {obj};
    if '.' in k {
      var covered := w.CoversFrom(node, p, Split(k));
      return if covered then Some(v) else None, below;
    }
    UnderUnder(w.paths, p, k);
    ChildDenotes(w.nodes, w.paths, p, k);
    if k !in node.children {
      return None, below;
    }
    var next := node.children[k];
    if next.all {
      return Some(v), below;
    }
    if v.Plain? || (merge.Some? && !merge.value(prefix + k)) {
      return None, below;
    }
    OpenStep(w.nodes, p, k);
    var pruned := PruneByTree(v.target, w, next, p + [k], prefix + k + ".", merge);
    return if pruned.fields != map[] then Some(Ref(pruned)) else None, pruned.repr;
  }

  // ── Forcing values ────────────

  /** Set a path in `target`, copying the nested objects on the way. Only `target` itself is written. */
  method SetPath(target: JsObject, path: Path, value: Slot, ghost shared: set<JsObject>, merge: MergePatch,
                 prefix: string)
    requires target.Valid() && path != [] && Sound(value, shared) && target !in shared
    modifies target
    ensures target.Valid() && fresh(target.repr - old(target.repr) - shared)
    ensures target.Contents() == SetForced(old(target.Contents()), path, old(Meaning(value, shared)), merge, prefix)
    decreases |path|
  {
    if |path| == 1 {
      Store(target, path[0], value, shared);
      return;
    }
    Delete(target, Join(path));
    var head := path[0];
    SlotOf(target, head);
    var nested := head in target.fields && target.fields[head].Ref?;
    if !nested && merge.Some? && !merge.value(prefix + head) {
      return;
    }
    var child := CopyChild(target, head);
    SetPath(child, path[1..], value, shared, merge, prefix + head + ".");
    Store(target, head, Ref(child), child.repr);
  }

  /** A copy of the object a key holds, or an empty one. */
  method CopyChild(target: JsObject, head: string) returns (child: JsObject)
    requires target.Valid()
    ensures child.Valid() && fresh(child) && fresh(child.repr - target.repr) && target !in child.repr
    ensures child.Contents() == ChildOf(FieldOf(target.Contents(), head))
  {
    SlotOf(target, head);
    if head in target.fields && target.fields[head].Ref? {
      var existing := target.fields[head].target;
      assert AllSound(existing.fields, existing.repr - {existing});
      child := new JsObject(existing.fields, existing.repr - {existing});
    } else {
      child := new JsObject(map[], {});
    }
  }

  /** `delete target[key]` */
  method Delete(target: JsObject, key: string)
    requires target.Valid()
    modifies target`fields
    ensures target.Valid() && target.Contents() == Doc(old(target.Contents()).fields - {key})
  {
    ghost var below := target.repr - {target};
    assert AllSound(target.fields, below);
    target.fields := target.fields - {key};
    assert AllSound(target.fields, below);
    assert forall k :: k in target.fields ==> Meaning(target.fields[k], below) == old(Meaning(target.fields[k], below));
  }

  /** `target[key] = value` */
  method Store(target: JsObject, key: string, value: Slot, ghost shared: set<JsObject>)
    requires target.Valid() && Sound(value, shared) && target !in shared
    modifies target
    ensures target.Valid() && target.repr == old(target.repr) + shared
    ensures target.Contents() == Doc(old(target.Contents()).fields[key := old(Meaning(value, shared))])
  {
    ghost var below := target.repr - {target};
    target.fields := target.fields[key := value];
    target.repr := target.repr + shared;
    assert target.repr - {target} == below + shared;
    forall k | k in target.fields
      ensures Sound(target.fields[k], below + shared)
      ensures Meaning(target.fields[k], below + shared) ==
        if k == key then old(Meaning(value, shared)) else old(Meaning(target.fields[k], below)) {
      if k == key {
        SoundMore(value, shared, below + shared);
      } else {
        SoundMore(target.fields[k], below, below + shared);
      }
    }
  }

  // ── The whole overlay ────────────

  datatype SetOverride = SetOverride(path: Path, value: Slot)

  ghost predicate Usable(sets: seq<SetOverride>, shared: set<JsObject>)
    reads shared
  {
    forall i :: 0 <= i < |sets| ==> sets[i].path != [] && Sound(sets[i].value, shared)
  }

  ghost function ForcedValues(sets: seq<SetOverride>, shared: set<JsObject>): (forced: seq<Forced>)
    requires Usable(sets, shared)
    reads shared
    ensures |forced| == |sets| && forall s :: s in forced ==> s.path != []
  {
    if sets == [] then []
    else
      var last := sets[|sets| - 1];
      ForcedValues(sets[..|sets| - 1], shared) + [Forced(last.path, Meaning(last.value, shared))]
  }

  lemma ForcedStep(sets: seq<SetOverride>, shared: set<JsObject>, i: nat)
    requires Usable(sets, shared) && i < |sets|
    ensures Usable(sets[..i], shared) && Usable(sets[..i + 1], shared)
    ensures ForcedValues(sets[..i + 1], shared) ==
      ForcedValues(sets[..i], shared) + [Forced(sets[i].path, Meaning(sets[i].value, shared))]
  {
    assert sets[..i + 1][..i] == sets[..i];
  }

  lemma ForceStep(v: Value, sets: seq<Forced>, last: Forced, merge: MergePatch)
    requires v.Doc? && last.path != [] && forall s :: s in sets ==> s.path != []
    ensures ForceAll(v, sets + [last], merge) == SetForced(ForceAll(v, sets, merge), last.path, last.value, merge, "")
  {
    assert (sets + [last])[..|sets|] == sets;
  }

  method ForceEach(target: JsObject, sets: seq<SetOverride>, ghost shared: set<JsObject>, merge: MergePatch)
    requires target.Valid() && Usable(sets, shared) && target !in shared
    modifies target
    ensures target.Valid()
    ensures target.Contents() == ForceAll(old(target.Contents()), old(ForcedValues(sets, shared)), merge)
  {
    ghost var start := target.Contents();
    for i := 0 to |sets|
      invariant target.Valid()
      invariant Usable(sets, shared) && Usable(sets[..i], shared)
      invariant ForcedValues(sets, shared) == old(ForcedValues(sets, shared))
      invariant target.Contents() == ForceAll(start, ForcedValues(sets[..i], shared), merge)
    {
      ghost var last := Forced(sets[i].path, Meaning(sets[i].value, shared));
      ForceStep(start, ForcedValues(sets[..i], shared), last, merge);
      SetPath(target, sets[i].path, sets[i].value, shared, merge, "");
      ForcedStep(sets, shared, i);
    }
    assert sets[..|sets|] == sets;
  }

  ghost function Allowed(tree: Option<Whitelist>): Option<set<Path>>
    reads if tree.Some? then {tree.value} else {}
  {
    if tree.Some? then Some(tree.value.paths) else None
  }

  method PruneOrCopy(source: JsObject, tree: Option<Whitelist>, merge: MergePatch) returns (merged: JsObject)
    requires source.Valid() && (tree.Some? ==> tree.value.Valid())
    ensures merged.Valid() && fresh(merged)
    ensures merged.Contents() == Whitelisted(source.Contents(), Allowed(tree), merge)
  {
    if tree.Some? {
      UnderNothing(tree.value.paths);
      RootOpen(tree.value);
      merged := PruneByTree(source, tree.value, tree.value.root, [], "", merge);
    } else {
      assert AllSound(source.fields, source.repr - {source});
      merged := new JsObject(source.fields, source.repr - {source});
    }
  }

  /** Prune and overlay one row. Nothing of the caller's is modified. */
  method ApplyOverlay(source: JsObject, tree: Option<Whitelist>, sets: seq<SetOverride>, ghost shared: set<JsObject>,
                      merge: MergePatch)
    returns (merged: JsObject)
    requires source.Valid() && (tree.Some? ==> tree.value.Valid()) && Usable(sets, shared)
    ensures merged.Valid() && fresh(merged)
    ensures merged.Contents() == Overlay(source.Contents(), Allowed(tree), ForcedValues(sets, shared), merge)
  {
    merged := PruneOrCopy(source, tree, merge);
    ForceEach(merged, sets, shared, merge);
  }

  lemma RootOpen(w: Whitelist)
    requires w.Valid()
    ensures Open(w.nodes, [])
  {
  }
}
