/**
 What a write keeps of its payload: pruning by the whitelist, then the forced
 (`set`) values laid over the rest. Rows are values here; `Payloads` does the
 same in memory.
 */
module Overlays {
  import opened Options
  import opened DottedPaths
  import opened Filters
  import opened Whitelists

  /** Given on patches: is the object at this path written field by field? */
  type MergePatch = Option<string -> bool>

  // ── Pruning by the whitelist ────────────

  /** What becomes of key `k`: kept whole, pruned inside, or dropped. */
  ghost function PruneKey(obj: Value, paths: set<Path>, prefix: string, merge: MergePatch, k: string): Option<Value>
    requires obj.Doc? && k in obj.fields
    decreases obj, 0
  {
    var v, inside := obj.fields[k], Under(paths, [k]);
    if '.' in k then
      if CoversBy(paths, Split(k)) then Some(v) else None
    else if inside == {} then None
    else if [] in inside then Some(v)
    else if !v.Doc? || (merge.Some? && !merge.value(prefix + k)) then None
    else
      var pruned := Prune(v, inside, prefix + k + ".", merge);
      if pruned.fields == map[] then None else Some(pruned)
  }

  ghost function Prune(obj: Value, paths: set<Path>, prefix: string, merge: MergePatch): (out: Value)
    requires obj.Doc?
    ensures out.Doc?
    decreases obj, 1
  {
    Doc(map k | k in obj.fields && PruneKey(obj, paths, prefix, merge, k).Some? ::
      PruneKey(obj, paths, prefix, merge, k).value)
  }

  /** `path.join(".")` */
  function Join(path: Path): string {
    if path == [] then "" else if |path| == 1 then path[0] else path[0] + "." + Join(path[1..])
  }

  /** The field path a chain of payload keys names: a dotted key is several segments. */
  function Flatten(keys: seq<string>): Path {
    if keys == [] then [] else Split(keys[0]) + Flatten(keys[1..])
  }

  lemma {:induction false} SplitPlain(k: string)
    requires '.' !in k
    ensures Split(k) == [k]
  {
    if k != "" {
      assert k[0] in k;
      SplitPlain(k[1..]);
      assert [k[0]] + k[1..] == k;
    }
  }

  lemma CoversDeeper(paths: set<Path>, p: Path, q: Path)
    requires CoversBy(paths, p) && p <= q
    ensures CoversBy(paths, q)
  {
    var w :| w in paths && w <= p;
    assert w <= q;
  }

  lemma CoversStep(paths: set<Path>, k: string, rest: Path)
    ensures CoversBy(Under(paths, [k]), rest) ==> CoversBy(paths, [k] + rest)
    ensures CoversBy(paths, [k] + rest) && [] !in paths ==> CoversBy(Under(paths, [k]), rest)
  {
    if CoversBy(Under(paths, [k]), rest) {
      var w :| w in Under(paths, [k]) && w <= rest;
      UnderMember(paths, [k], w);
      assert [k] + w <= [k] + rest;
    }
    if CoversBy(paths, [k] + rest) && [] !in paths {
      var w :| w in paths && w <= [k] + rest;
      assert w == [k] + w[1..];
      UnderMember(paths, [k], w[1..]);
      assert ([k] + rest)[1..] == rest && w[1..] <= rest;
    }
  }

  /** A value that is present and not an object read through. */
  predicate IsLeaf(v: Value) {
    !v.Undef? && !v.Doc?
  }

  /** Every leaf that survives pruning is whitelisted, and unchanged. */
  lemma {:induction false} PruneKeepsOnlyCovered(obj: Value, paths: set<Path>, prefix: string, merge: MergePatch,
                                                 keys: seq<string>)
    requires obj.Doc? && IsLeaf(ReadAt(Prune(obj, paths, prefix, merge), keys))
    ensures CoversBy(paths, Flatten(keys))
    ensures ReadAt(Prune(obj, paths, prefix, merge), keys) == ReadAt(obj, keys)
    decreases obj
  {
    assert keys != [];
    var k, rest := keys[0], keys[1..];
    assert k in obj.fields && PruneKey(obj, paths, prefix, merge, k).Some?;
    var v, inside := obj.fields[k], Under(paths, [k]);
    if '.' in k {
      CoversDeeper(paths, Split(k), Flatten(keys));
    } else {
      SplitPlain(k);
      CoversStep(paths, k, Flatten(rest));
      if [] in inside {
        assert [] <= Flatten(rest);
      } else {
        PruneKeepsOnlyCovered(v, inside, prefix + k + ".", merge, rest);
      }
    }
  }

  /** The block at this path may be written in part: always on an insert or replace, on a patch where it merges. */
  predicate Merges(merge: MergePatch, path: string) {
    merge.None? || merge.value(path)
  }

  /** The first `m` keys lead, undotted, to a block that may be written in part. */
  predicate Passes(merge: MergePatch, prefix: string, keys: seq<string>, m: nat)
    requires 1 <= m <= |keys|
  {
    '.' !in keys[m - 1] && Merges(merge, prefix + Join(keys[..m]))
  }

  ghost predicate KeptFrom(paths: set<Path>, prefix: string, merge: MergePatch, keys: seq<string>, n: nat) {
    && 1 <= n <= |keys| && CoversBy(paths, Flatten(keys[..n]))
    && forall m :: 1 <= m < n ==> Passes(merge, prefix, keys, m)
  }

  /**
   What the write keeps of a chain of keys: down to some whitelisted path it
   passes only undotted keys and blocks that may be written in part.
   */
  ghost predicate Survives(paths: set<Path>, prefix: string, merge: MergePatch, keys: seq<string>) {
    exists n: nat :: KeptFrom(paths, prefix, merge, keys, n)
  }

  lemma PassesStep(prefix: string, merge: MergePatch, keys: seq<string>, m: nat)
    requires 1 <= m < |keys|
    ensures Passes(merge, prefix, keys, m + 1) <==> Passes(merge, prefix + keys[0] + ".", keys[1..], m)
  {
    assert keys[..m + 1][1..] == keys[1..][..m];
    assert prefix + (keys[0] + "." + Join(keys[1..][..m])) == prefix + keys[0] + "." + Join(keys[1..][..m]);
  }

  lemma KeptFromStep(paths: set<Path>, prefix: string, merge: MergePatch, keys: seq<string>, n: nat)
    requires [] !in paths && 1 <= n < |keys|
    ensures KeptFrom(paths, prefix, merge, keys, n + 1) <==>
      && Passes(merge, prefix, keys, 1)
      && KeptFrom(Under(paths, [keys[0]]), prefix + keys[0] + ".", merge, keys[1..], n)
  {
    var rest, inner := keys[1..], prefix + keys[0] + ".";
    assert keys[..n + 1][1..] == rest[..n];
    if '.' !in keys[0] {
      SplitPlain(keys[0]);
      CoversStep(paths, keys[0], Flatten(rest[..n]));
    }
    forall m | 1 <= m < n ensures Passes(merge, prefix, keys, m + 1) <==> Passes(merge, inner, rest, m) {
      PassesStep(prefix, merge, keys, m);
    }
    if KeptFrom(paths, prefix, merge, keys, n + 1) {
      assert Passes(merge, prefix, keys, 1);
      forall m | 1 <= m < n ensures Passes(merge, inner, rest, m) {
        assert Passes(merge, prefix, keys, m + 1);
      }
    }
    if Passes(merge, prefix, keys, 1) && KeptFrom(Under(paths, [keys[0]]), inner, merge, rest, n) {
      forall m | 1 <= m < n + 1 ensures Passes(merge, prefix, keys, m) {
        assert m > 1 ==> Passes(merge, inner, rest, m - 1);
      }
    }
  }

  /** What the first key of the chain decides. */
  lemma SurvivesStep(paths: set<Path>, prefix: string, merge: MergePatch, keys: seq<string>)
    requires [] !in paths && keys != []
    ensures Survives(paths, prefix, merge, keys) <==>
      || CoversBy(paths, Split(keys[0]))
      || (&& '.' !in keys[0] && Merges(merge, prefix + keys[0])
          && Survives(Under(paths, [keys[0]]), prefix + keys[0] + ".", merge, keys[1..]))
  {
    assert Flatten(keys[..1]) == Split(keys[0]) by {
      assert keys[..1][1..] == [];
    }
    if Survives(paths, prefix, merge, keys) {
      var n: nat :| KeptFrom(paths, prefix, merge, keys, n);
      if n > 1 {
        KeptFromStep(paths, prefix, merge, keys, n - 1);
      }
    }
    if Survives(Under(paths, [keys[0]]), prefix + keys[0] + ".", merge, keys[1..]) {
      var n: nat :| KeptFrom(Under(paths, [keys[0]]), prefix + keys[0] + ".", merge, keys[1..], n);
      KeptFromStep(paths, prefix, merge, keys, n);
    }
    if CoversBy(paths, Split(keys[0])) {
      assert KeptFrom(paths, prefix, merge, keys, 1);
    }
  }

  /**
   A whitelisted value survives unchanged exactly when nothing on the way to
   its whitelisted path is a dotted key or a block a patch would replace whole;
   otherwise a leaf is dropped.
   */
  lemma {:induction false} PruneKeepsCovered(obj: Value, paths: set<Path>, prefix: string, merge: MergePatch,
                                             keys: seq<string>)
    requires obj.Doc? && [] !in paths && keys != [] && !ReadAt(obj, keys).Undef?
    ensures Survives(paths, prefix, merge, keys) ==> ReadAt(Prune(obj, paths, prefix, merge), keys) == ReadAt(obj, keys)
    ensures !Survives(paths, prefix, merge, keys) && IsLeaf(ReadAt(obj, keys)) ==>
      ReadAt(Prune(obj, paths, prefix, merge), keys).Undef?
    decreases obj
  {
    SurvivesStep(paths, prefix, merge, keys);
    var k, rest := keys[0], keys[1..];
    assert k in obj.fields;
    var v, inside := obj.fields[k], Under(paths, [k]);
    if '.' !in k {
      SplitPlain(k);
      CoveredHead(paths, k);
      if [] !in inside && rest != [] {
        PruneKeepsCovered(v, inside, prefix + k + ".", merge, rest);
      }
    }
  }

  /** Pruning leaves no empty shell: what it keeps of a value is the value, or an object with something left in it. */
  lemma PruneLeavesNoShell(obj: Value, paths: set<Path>, prefix: string, merge: MergePatch, k: string)
    requires obj.Doc? && k in Prune(obj, paths, prefix, merge).fields
    ensures k in obj.fields
    ensures var kept := Prune(obj, paths, prefix, merge).fields[k];
      kept == obj.fields[k] || (kept.Doc? && kept.fields != map[])
  {
  }

  lemma CoveredHead(paths: set<Path>, k: string)
    requires [] !in paths
    ensures CoversBy(paths, [k]) <==> [] in Under(paths, [k])
  {
    UnderMember(paths, [k], []);
    if CoversBy(paths, [k]) {
      var w :| w in paths && w <= [k];
      assert w == [k] + [];
    }
  }

  // ── Forced values ────────────

  lemma JoinIsDotted(path: Path)
    requires |path| >= 2
    ensures '.' in Join(path)
  {
    assert Join(path)[|path[0]|] == '.';
  }

  function FieldOf(v: Value, k: string): Value
    requires v.Doc?
  {
    if k in v.fields then v.fields[k] else Undef
  }

  /** The nested object to write into: the one there, or a new one. */
  function ChildOf(existing: Value): (child: Value)
    ensures child.Doc?
  {
    if existing.Doc? then existing else Doc(map[])
  }

  /** Lay `x` at `path`: a literal dotted twin goes, and a patch does not create a replace block. */
  function SetForced(v: Value, path: Path, x: Value, merge: MergePatch, prefix: string): (out: Value)
    requires v.Doc? && path != []
    ensures out.Doc?
    decreases |path|
  {
    if |path| == 1 then Doc(v.fields[path[0] := x])
    else
      var fields := v.fields - {Join(path)};
      var existing := FieldOf(Doc(fields), path[0]);
      if !existing.Doc? && merge.Some? && !merge.value(prefix + path[0]) then Doc(fields)
      else
        var child := ChildOf(existing);
        Doc(fields[path[0] := SetForced(child, path[1..], x, merge, prefix + path[0] + ".")])
  }

  /** A patch would have to create a block that the database replaces whole. */
  predicate Blocked(v: Value, path: Path, merge: MergePatch, prefix: string)
    decreases |path|
  {
    |path| >= 2 && merge.Some?
    && var existing := if v.Doc? then FieldOf(v, path[0]) else Undef;
       || (!existing.Doc? && !merge.value(prefix + path[0]))
       || Blocked(existing, path[1..], merge, prefix + path[0] + ".")
  }

  predicate PlainPath(path: Path) {
    path != [] && forall s :: s in path ==> '.' !in s
  }

  /** Neither path covers the other. */
  predicate Apart(p: Path, q: Path) {
    !(p <= q) && !(q <= p)
  }

  lemma ApartStep(p: Path, q: Path)
    requires p != [] && q != [] && p[0] == q[0]
    ensures p[1..] <= q[1..] <==> p <= q
  {
    assert p == [p[0]] + p[1..] && q == [q[0]] + q[1..];
  }

  /** The forced value reads back, unless a replace block would have to be created; then nothing is there. */
  lemma {:induction false} ForcedReadsBack(v: Value, path: Path, x: Value, merge: MergePatch, prefix: string)
    requires v.Doc? && PlainPath(path)
    ensures ReadAt(SetForced(v, path, x, merge, prefix), path) == if Blocked(v, path, merge, prefix) then Undef else x
    decreases |path|
  {
    if |path| >= 2 {
      JoinIsDotted(path);
      assert path[0] in path;
      var existing := FieldOf(v, path[0]);
      if existing.Doc? || merge.None? || merge.value(prefix + path[0]) {
        var child := ChildOf(existing);
        ForcedReadsBack(child, path[1..], x, merge, prefix + path[0] + ".");
        BlockedOnMissing(existing, child, path[1..], merge, prefix + path[0] + ".");
      }
    }
  }

  /** A missing block and an empty one block the same paths. */
  lemma BlockedOnMissing(existing: Value, child: Value, path: Path, merge: MergePatch, prefix: string)
    requires child == ChildOf(existing)
    ensures Blocked(existing, path, merge, prefix) <==> Blocked(child, path, merge, prefix)
  {
  }

  lemma {:induction false} SplitAtDot(k: string, rest: string)
    requires '.' !in k
    ensures Split(k + "." + rest) == [k] + Split(rest)
  {
    var all := k + "." + rest;
    if k == "" {
      assert all[1..] == rest;
    } else {
      assert k[0] in k && all[1..] == k[1..] + "." + rest;
      SplitAtDot(k[1..], rest);
      assert [k[0]] + k[1..] == k;
    }
  }

  lemma {:induction false} SplitJoin(path: Path)
    requires PlainPath(path)
    ensures Split(Join(path)) == path
  {
    assert path[0] in path;
    if |path| == 1 {
      SplitPlain(path[0]);
    } else {
      assert PlainPath(path[1..]);
      SplitJoin(path[1..]);
      SplitAtDot(path[0], Join(path[1..]));
      assert path == [path[0]] + path[1..];
    }
  }

  lemma {:induction false} FlattenPlain(q: Path)
    requires forall s :: s in q ==> '.' !in s
    ensures Flatten(q) == q
  {
    if q != [] {
      SplitPlain(q[0]);
      FlattenPlain(q[1..]);
      assert q == [q[0]] + q[1..];
    }
  }

  /** A chain apart from the forced path does not begin with it, nor with a dotted key that spells it. */
  lemma ApartHead(path: Path, q: seq<string>)
    requires PlainPath(path) && q != [] && Apart(path, Flatten(q))
    ensures |path| == 1 ==> q[0] != path[0]
    ensures q[0] != Join(path)
    ensures q[0] == path[0] ==> q[1..] != [] && Apart(path[1..], Flatten(q[1..]))
  {
    SplitJoin(path);
    assert path[0] in path;
    if q[0] == path[0] {
      SplitPlain(q[0]);
      assert Flatten(q)[1..] == Flatten(q[1..]);
      ApartStep(path, Flatten(q));
      ApartStep(Flatten(q), path);
      assert path[1..] != [] && Flatten(q[1..]) != [];
    }
    assert Join(path) == q[0] ==> path <= Flatten(q);
  }

  /** A forced value leaves every path that is apart from it as it was, dotted keys included. */
  lemma {:induction false} ForcedLeavesOthers(v: Value, path: Path, x: Value, merge: MergePatch, prefix: string,
                                              q: seq<string>)
    requires v.Doc? && PlainPath(path) && q != [] && Apart(path, Flatten(q))
    ensures ReadAt(SetForced(v, path, x, merge, prefix), q) == ReadAt(v, q)
    decreases |path|
  {
    ApartHead(path, q);
    if |path| >= 2 {
      JoinIsDotted(path);
      assert path[0] in path;
      if q[0] == path[0] {
        var existing := FieldOf(v, path[0]);
        var child := ChildOf(existing);
        ForcedLeavesOthers(child, path[1..], x, merge, prefix + path[0] + ".", q[1..]);
        assert ReadAt(child, q[1..]) == ReadAt(existing, q[1..]);
      }
    }
  }

  /** A leaf after forcing is part of the forced value or was there before. */
  lemma {:induction false} ForcedAddsOnly(v: Value, path: Path, x: Value, merge: MergePatch, prefix: string,
                                          keys: seq<string>)
    requires v.Doc? && path != [] && IsLeaf(ReadAt(SetForced(v, path, x, merge, prefix), keys))
    ensures var leaf := ReadAt(SetForced(v, path, x, merge, prefix), keys);
      (path <= keys && leaf == ReadAt(x, keys[|path|..])) || leaf == ReadAt(v, keys)
    decreases |path|
  {
    assert keys != [];
    if keys[0] == path[0] {
      if |path| == 1 {
        assert path <= keys;
      } else {
        var existing := FieldOf(Doc(v.fields - {Join(path)}), path[0]);
        if existing.Doc? || merge.None? || merge.value(prefix + path[0]) {
          var child := ChildOf(existing);
          ForcedAddsOnly(child, path[1..], x, merge, prefix + path[0] + ".", keys[1..]);
          ApartStep(path, keys);
          if path <= keys {
            assert keys[1..][|path| - 1..] == keys[|path|..];
          }
        }
      }
    }
  }

  /** Nor does a literal dotted key that spells the rest of the path survive next to the nested value. */
  lemma {:induction false} ForcedHasNoTwin(v: Value, path: Path, x: Value, merge: MergePatch, prefix: string, i: nat)
    requires v.Doc? && PlainPath(path) && i + 1 < |path|
    ensures ReadAt(SetForced(v, path, x, merge, prefix), path[..i] + [Join(path[i..])]).Undef?
    decreases |path|
  {
    JoinIsDotted(path);
    assert path[0] in path;
    if i == 0 {
      assert path[..0] + [Join(path[0..])] == [Join(path)] && path[0..] == path;
    } else {
      TwinStep(path, i);
      ReadsThroughHead(v, path, x, merge, prefix, path[..i] + [Join(path[i..])]);
      var existing := FieldOf(v, path[0]);
      if existing.Doc? || merge.None? || merge.value(prefix + path[0]) {
        ForcedHasNoTwin(ChildOf(existing), path[1..], x, merge, prefix + path[0] + ".", i - 1);
      }
    }
  }

  lemma ReadsThroughHead(v: Value, path: Path, x: Value, merge: MergePatch, prefix: string, keys: seq<string>)
    requires v.Doc? && |path| >= 2 && keys != [] && keys[0] == path[0] && path[0] != Join(path)
    ensures var existing := FieldOf(v, path[0]);
      ReadAt(SetForced(v, path, x, merge, prefix), keys) ==
        if existing.Doc? || merge.None? || merge.value(prefix + path[0])
        then ReadAt(SetForced(ChildOf(existing), path[1..], x, merge, prefix + path[0] + "."), keys[1..])
        else ReadAt(existing, keys[1..])
  {
    assert ReadAt(Undef, keys[1..]) == Undef;
  }

  lemma TwinStep(path: Path, i: nat)
    requires 1 <= i && i + 1 < |path|
    ensures var twin := path[..i] + [Join(path[i..])];
      twin[0] == path[0] && twin[1..] == path[1..][..i - 1] + [Join(path[1..][i - 1..])]
  {
    assert path[1..][i - 1..] == path[i..];
  }

  // ── The whole overlay ────────────

  datatype Forced = Forced(path: Path, value: Value)

  function ForceAll(v: Value, sets: seq<Forced>, merge: MergePatch): (out: Value)
    requires v.Doc? && forall s :: s in sets ==> s.path != []
    ensures out.Doc?
  {
    if sets == [] then v
    else
      var last := sets[|sets| - 1];
      SetForced(ForceAll(v, sets[..|sets| - 1], merge), last.path, last.value, merge, "")
  }

  /** Pairwise incomparable paths, as the keys of one `set` split into segments. */
  predicate Independent(sets: seq<Forced>) {
    && (forall s :: s in sets ==> PlainPath(s.path))
    && (forall i, j :: 0 <= i < j < |sets| ==> Apart(sets[i].path, sets[j].path))
  }

  /** On an insert or replace, every forced value reads back from the written row, whatever the order. */
  lemma {:induction false} AllForcedReadBack(v: Value, sets: seq<Forced>, i: nat)
    requires v.Doc? && Independent(sets) && i < |sets|
    ensures ReadAt(ForceAll(v, sets, None), sets[i].path) == sets[i].value
    decreases |sets|
  {
    var n := |sets| - 1;
    var before, last := ForceAll(v, sets[..n], None), sets[n];
    if i == n {
      ForcedReadsBack(before, last.path, last.value, None, "");
    } else {
      AllForcedReadBack(v, sets[..n], i);
      FlattenPlain(sets[i].path);
      ForcedLeavesOthers(before, last.path, last.value, None, "", sets[i].path);
    }
  }

  /** No whitelist means every field. */
  ghost function Whitelisted(v: Value, paths: Option<set<Path>>, merge: MergePatch): (out: Value)
    requires v.Doc?
    ensures out.Doc?
  {
    if paths.Some? then Prune(v, paths.value, "", merge) else v
  }

  /** The row that is written: the whitelisted part of the payload, then the forced values. */
  ghost function Overlay(v: Value, paths: Option<set<Path>>, sets: seq<Forced>, merge: MergePatch): Value
    requires v.Doc? && forall s :: s in sets ==> s.path != []
  {
    ForceAll(Whitelisted(v, paths, merge), sets, merge)
  }

  /** Every leaf of the written row is part of a forced value, or whitelisted and unchanged. */
  lemma {:induction false} OverlayWritesOnly(v: Value, paths: set<Path>, sets: seq<Forced>, merge: MergePatch,
                                             keys: seq<string>)
    requires v.Doc? && forall s :: s in sets ==> s.path != []
    requires IsLeaf(ReadAt(Overlay(v, Some(paths), sets, merge), keys))
    ensures var leaf := ReadAt(Overlay(v, Some(paths), sets, merge), keys);
      || (exists s :: s in sets && s.path <= keys && leaf == ReadAt(s.value, keys[|s.path|..]))
      || (CoversBy(paths, Flatten(keys)) && leaf == ReadAt(v, keys))
    decreases |sets|
  {
    if sets == [] {
      PruneKeepsOnlyCovered(v, paths, "", merge, keys);
    } else {
      var n := |sets| - 1;
      var before, last := Overlay(v, Some(paths), sets[..n], merge), sets[n];
      ForcedAddsOnly(before, last.path, last.value, merge, "", keys);
      if ReadAt(Overlay(v, Some(paths), sets, merge), keys) == ReadAt(before, keys) {
        OverlayWritesOnly(v, paths, sets[..n], merge, keys);
      } else {
        assert last in sets;
      }
    }
  }

  /**
   On every write, a whitelisted value that survives the pruning and is apart
   from the forced paths is written unchanged.
   */
  lemma {:induction false} OverlayKeepsCovered(v: Value, paths: set<Path>, sets: seq<Forced>, merge: MergePatch,
                                               keys: seq<string>)
    requires v.Doc? && [] !in paths && keys != [] && !ReadAt(v, keys).Undef?
    requires Survives(paths, "", merge, keys)
    requires forall s :: s in sets ==> s.path != [] && PlainPath(s.path) && Apart(s.path, Flatten(keys))
    ensures ReadAt(Overlay(v, Some(paths), sets, merge), keys) == ReadAt(v, keys)
    decreases |sets|
  {
    if sets == [] {
      PruneKeepsCovered(v, paths, "", merge, keys);
    } else {
      var n := |sets| - 1;
      OverlayKeepsCovered(v, paths, sets[..n], merge, keys);
      ForcedLeavesOthers(Overlay(v, Some(paths), sets[..n], merge), sets[n].path, sets[n].value, merge, "", keys);
    }
  }

  /** Whatever the whitelist, every forced value of an insert or replace is written, in any order. */
  lemma OverlayForces(v: Value, paths: Option<set<Path>>, sets: seq<Forced>, i: nat)
    requires v.Doc? && Independent(sets) && i < |sets| && forall s :: s in sets ==> s.path != []
    ensures ReadAt(Overlay(v, paths, sets, None), sets[i].path) == sets[i].value
  {
    AllForcedReadBack(Whitelisted(v, paths, None), sets, i);
  }

  /** Without a whitelist and apart from the forced paths everything is written as submitted. */
  lemma {:induction false} OverlayKeepsAll(v: Value, sets: seq<Forced>, merge: MergePatch, keys: seq<string>)
    requires v.Doc? && keys != []
    requires forall s :: s in sets ==> s.path != [] && PlainPath(s.path) && Apart(s.path, Flatten(keys))
    ensures ReadAt(Overlay(v, None, sets, merge), keys) == ReadAt(v, keys)
    decreases |sets|
  {
    if sets != [] {
      var n := |sets| - 1;
      OverlayKeepsAll(v, sets[..n], merge, keys);
      ForcedLeavesOthers(Overlay(v, None, sets[..n], merge), sets[n].path, sets[n].value, merge, "", keys);
    }
  }

  /** On an insert or replace, undotted keys survive exactly when they are whitelisted. */
  lemma SurvivesOnInsert(paths: set<Path>, prefix: string, keys: Path)
    requires PlainPath(keys) && [] !in paths
    ensures Survives(paths, prefix, None, keys) <==> CoversBy(paths, keys)
  {
    if Survives(paths, prefix, None, keys) {
      var n: nat :| KeptFrom(paths, prefix, None, keys, n);
      FlattenPlain(keys[..n]);
      CoversDeeper(paths, keys[..n], keys);
    }
    if CoversBy(paths, keys) {
      assert keys[..|keys|] == keys;
      FlattenPlain(keys);
      assert KeptFrom(paths, prefix, None, keys, |keys|);
    }
  }
}
