/**
 The references a write sets, and the counts that decide whether the caller can
 read every referenced row.
 */
module RefTargets {
  import opened Options
  import opened DottedPaths
  import opened Filters
  import opened CountGuards
  import opened WriteChecks

  type Row = map<string, Value>
  type Tuple = seq<Value>

  // ── The references a write sets ────────────

  /** A literal dotted key first, else the nested path. */
  function ReadPath(row: Row, path: string): Value {
    if path in row then row[path] else Read(Doc(row), path)
  }

  /** `null`, a primitive or a class instance. */
  predicate IsScalar(v: Value) {
    !v.Arr? && !v.Doc?
  }

  function TupleOf(row: Row, fields: seq<string>): Tuple {
    seq(|fields|, j requires 0 <= j < |fields| => ReadPath(row, fields[j]))
  }

  predicate Touches(row: Row, fields: seq<string>) {
    exists f :: f in fields && !ReadPath(row, f).Undef?
  }

  /** The reference one written row sets, over its pre-image where there is one; none with a missing part. */
  function SetTuple(isPatch: bool, row: Row, pre: Option<Row>, fields: seq<string>): Option<Tuple> {
    if isPatch && !Touches(row, fields) then None
    else
      var tuple := TupleOf(if pre.Some? then pre.value + row else row, fields);
      if exists v :: v in tuple && IsNullish(v) then None else Some(tuple)
  }

  function PreOf(pre: seq<Option<Row>>, i: nat): Option<Row> {
    if i < |pre| then pre[i] else None
  }

  /** The value the row holds at the field, a literal dotted key before the nested path. */
  predicate Holds(row: Row, f: string, v: Value) {
    if f in row then row[f] == v else Read(Doc(row), f) == v
  }

  /** The row carries the reference part by part, none missing. */
  predicate Carries(row: Row, fields: seq<string>, t: Tuple) {
    |t| == |fields| && forall j :: 0 <= j < |fields| ==> Holds(row, fields[j], t[j]) && !t[j].Undef? && !t[j].Null?
  }

  /** A patch that leaves every field of the key alone. */
  predicate LeavesAlone(patch: Row, fields: seq<string>) {
    forall f :: f in fields ==> Holds(patch, f, Undef)
  }

  /**
   The write of one row sets the reference: the row carries it, laid over its
   pre-image where there is one; a patch only if it touches the key.
   */
  predicate Sets(isPatch: bool, row: Row, written: Row, fields: seq<string>, t: Tuple) {
    (isPatch ==> !LeavesAlone(row, fields)) && Carries(written, fields, t)
  }

  lemma SetTupleIff(isPatch: bool, row: Row, pre: Option<Row>, fields: seq<string>, t: Tuple)
    ensures var written := if pre.Some? then pre.value + row else row;
      SetTuple(isPatch, row, pre, fields) == Some(t) <==> Sets(isPatch, row, written, fields, t)
  {
    var written := if pre.Some? then pre.value + row else row;
    if Carries(written, fields, t) {
      assert t == TupleOf(written, fields);
    } else if t == TupleOf(written, fields) {
      var j :| 0 <= j < |fields| && !(Holds(written, fields[j], t[j]) && !t[j].Undef? && !t[j].Null?);
      assert t[j] == ReadPath(written, fields[j]) && t[j] in t && IsNullish(t[j]);
    }
    assert LeavesAlone(row, fields) <==> !Touches(row, fields);
  }

  /** Row `i` laid over its pre-image, where one was read. */
  function WrittenRow(rows: seq<Row>, pre: seq<Option<Row>>, i: nat): Row
    requires i < |rows|
  {
    if i < |pre| && pre[i].Some? then pre[i].value + rows[i] else rows[i]
  }

  /** One of the first `n` rows sets the reference. */
  predicate AnySets(isPatch: bool, rows: seq<Row>, pre: seq<Option<Row>>, fields: seq<string>, n: nat, t: Tuple)
    requires n <= |rows|
  {
    exists i :: 0 <= i < n && Sets(isPatch, rows[i], WrittenRow(rows, pre, i), fields, t)
  }

  /** A part that is no key value: an operator or an array. */
  predicate HasOperator(t: Tuple) {
    exists v :: v in t && (v.Arr? || v.Doc?)
  }

  /**
   The references of a batch: those the rows set, each once. An operator or
   array value in one is refused.
   */
  method ReferencedTuples(isPatch: bool, rows: seq<Row>, pre: seq<Option<Row>>,
                          fields: seq<string>) returns (r: Attempt<seq<Tuple>>)
    ensures r.Threw? <==> exists t :: AnySets(isPatch, rows, pre, fields, |rows|, t) && HasOperator(t)
    ensures r.Returned? ==> forall t :: t in r.value <==> AnySets(isPatch, rows, pre, fields, |rows|, t)
    ensures r.Returned? ==> forall i, j :: 0 <= i < j < |r.value| ==> r.value[i] != r.value[j]
  {
    var tuples: seq<Tuple> := [];
    for i := 0 to |rows|
      invariant forall t :: t in tuples <==> AnySets(isPatch, rows, pre, fields, i, t)
      invariant forall t :: t in tuples ==> !HasOperator(t)
      invariant forall j, k :: 0 <= j < k < |tuples| ==> tuples[j] != tuples[k]
    {
      var tuple := SetTuple(isPatch, rows[i], PreOf(pre, i), fields);
      forall t ensures tuple == Some(t) <==> Sets(isPatch, rows[i], WrittenRow(rows, pre, i), fields, t) {
        SetTupleIff(isPatch, rows[i], PreOf(pre, i), fields, t);
      }
      if tuple.Some? {
        if !forall v :: v in tuple.value ==> IsScalar(v) {
          assert AnySets(isPatch, rows, pre, fields, |rows|, tuple.value) && HasOperator(tuple.value);
          return Threw;
        }
        if tuple.value !in tuples {
          tuples := tuples + [tuple.value];
        }
      }
    }
    return Returned(tuples);
  }

  /** No stored column name is dotted. */
  predicate PlainRow(row: Row) {
    forall k :: k in row ==> Split(k) == [k]
  }

  /**
   A patch over its pre-image: the checked reference is the one the written
   row carries, unless a patch key lies above or below one of its fields.
   */
  lemma ReferenceIsWritten(patch: Row, current: Row, fields: seq<string>, written: Value)
    requires PlainRow(current) && Touches(patch, fields)
    requires forall f, k :: f in fields && k in patch ==> ModelledKey(patch, f, k)
    requires RealPostImage(Doc(current), patch, written)
    requires SetTuple(true, patch, Some(current), fields).Some?
    ensures var t := SetTuple(true, patch, Some(current), fields).value;
      |t| == |fields| && forall j :: 0 <= j < |fields| ==> t[j] == Read(written, fields[j])
  {
    forall j | 0 <= j < |fields| ensures ReadPath(current + patch, fields[j]) == Read(written, fields[j]) {
      var f := fields[j];
      if f in patch {
        assert ModelledKey(patch, f, f);
      } else {
        forall k | k in patch ensures !Comparable(k, f) {
          assert ModelledKey(patch, f, k);
        }
        ReadsThroughMerge(patch, current, f);
      }
    }
  }

  lemma ReadsThroughMerge(patch: Row, current: Row, f: string)
    requires PlainRow(current) && f !in patch && forall k :: k in patch ==> !Comparable(k, f)
    ensures ReadPath(current + patch, f) == Read(Doc(current), f)
  {
    var head := Split(f)[0];
    if head in patch {
      HeadCovers(f);
    }
    assert Read(Doc(current + patch), f) == Read(Doc(current), f);
    if f in current {
      assert Split(f) == [f] && Split(f)[1..] == [];
      assert Read(Doc(current), f) == ReadAt(current[f], []);
    }
  }

  /** The first segment of a path is the path or an ancestor of it. */
  lemma {:induction false} HeadCovers(f: string)
    ensures Covers(Split(f)[0], f)
  {
    var head := Split(f)[0];
    HeadIsPlain(f);
    CoversIffSplitPrefix(head, f);
  }

  lemma {:induction false} HeadIsPlain(f: string)
    ensures Split(Split(f)[0]) == [Split(f)[0]]
  {
    if f != "" && f[0] != '.' {
      HeadIsPlain(f[1..]);
      var rest := Split(f[1..]);
      assert ([f[0]] + rest[0])[1..] == rest[0];
    }
  }

  // ── The target check ────────────

  /** What one foreign key refers to on its target table. */
  datatype TargetRef = TargetRef(targetFields: seq<string>, tuples: seq<Tuple>)

  /** The table the references point into, and the caller's read filter on it. */
  datatype Target = Target(table: Table, scope: Option<Filter>)

  /** The row a tuple names: each target field equal to its part. */
  function KeyFilter(fields: seq<string>, t: Tuple): Filter
    requires |t| == |fields|
  {
    Filter(seq(|fields|, j requires 0 <= j < |fields| => FieldIs(fields[j], t[j])))
  }

  predicate ValidRef(r: TargetRef) {
    && r.targetFields != [] && r.tuples != []
    && (forall t :: t in r.tuples ==> |t| == |r.targetFields| && forall v :: v in t ==> !IsNullish(v))
    && (forall i, j :: 0 <= i < j < |r.tuples| ==> r.tuples[i] != r.tuples[j])
  }

  function KeyFilters(r: TargetRef): seq<Filter>
    requires ValidRef(r)
  {
    seq(|r.tuples|, i requires 0 <= i < |r.tuples| => KeyFilter(r.targetFields, r.tuples[i]))
  }

  /** A single target field lists its values; several become one alternative per tuple. */
  function TargetFilter(r: TargetRef): Filter
    requires ValidRef(r)
  {
    if |r.targetFields| == 1 then
      Filter([Compare(r.targetFields[0],
                      [Comparison(In, Arr(seq(|r.tuples|, i requires 0 <= i < |r.tuples| =>
          assert r.tuples[i] in r.tuples; r.tuples[i][0])))])])
    else Filter([Or(KeyFilters(r))])
  }

  lemma SatKeyFilter(db: Db, fields: seq<string>, t: Tuple, row: Value)
    requires |t| == |fields| && forall v :: v in t ==> !IsNullish(v)
    ensures Sat(db, KeyFilter(fields, t), row) <==> forall j :: 0 <= j < |fields| ==> Same(Read(row, fields[j]), t[j])
  {
    var entries := KeyFilter(fields, t).entries;
    assert forall j :: 0 <= j < |fields| ==> entries[j] in entries && t[j] in t;
    forall j | 0 <= j < |fields| ensures SatEntry(db, entries[j], row) <==> Same(Read(row, fields[j]), t[j]) {
    }
  }

  lemma SatListed(db: Db, r: TargetRef, row: Value)
    requires ValidRef(r) && |r.targetFields| == 1
    ensures forall i :: 0 <= i < |r.tuples| ==> |r.tuples[i]| == 1
    ensures Sat(db, TargetFilter(r), row)
      <==> exists i :: 0 <= i < |r.tuples| && Same(Read(row, r.targetFields[0]), r.tuples[i][0])
  {
    forall i | 0 <= i < |r.tuples| ensures |r.tuples[i]| == 1 {
      assert r.tuples[i] in r.tuples;
    }
    var entry := TargetFilter(r).entries[0];
    var c := entry.comparisons[0];
    SingleEntry(db, TargetFilter(r), row);
    assert forall x :: x in [c] ==> x == c;
    assert SatEntry(db, entry, row) <==> SatisfiesComparison(db, Read(row, r.targetFields[0]), c);
    var v, items := Read(row, r.targetFields[0]), c.operand.items;
    if exists x :: x in items && Same(v, x) {
      var x :| x in items && Same(v, x);
      var i :| 0 <= i < |items| && items[i] == x;
      assert Same(v, r.tuples[i][0]);
    }
    if exists i :: 0 <= i < |r.tuples| && Same(v, r.tuples[i][0]) {
      var i :| 0 <= i < |r.tuples| && Same(v, r.tuples[i][0]);
      assert items[i] in items;
    }
  }

  /** The target filter selects the rows that some tuple names. */
  lemma SatTargetFilter(db: Db, r: TargetRef, row: Value)
    requires ValidRef(r)
    ensures Sat(db, TargetFilter(r), row) <==> exists i :: 0 <= i < |r.tuples| && Sat(db, KeyFilters(r)[i], row)
  {
    if |r.targetFields| == 1 {
      SatListed(db, r, row);
      forall i | 0 <= i < |r.tuples|
        ensures Sat(db, KeyFilters(r)[i], row) <==> Same(Read(row, r.targetFields[0]), r.tuples[i][0]) {
        SatSingleKey(db, r, i, row);
      }
    } else {
      SatOr(db, KeyFilters(r), row);
    }
  }

  lemma SatSingleKey(db: Db, r: TargetRef, i: nat, row: Value)
    requires ValidRef(r) && |r.targetFields| == 1 && i < |r.tuples|
    ensures |r.tuples[i]| == 1
    ensures (Sat(db, KeyFilters(r)[i], row) <==> Same(Read(row, r.targetFields[0]), r.tuples[i][0]))
  {
    assert r.tuples[i] in r.tuples;
    SatKeyFilter(db, r.targetFields, r.tuples[i], row);
  }

  /** Two tuples of one key that name the same row are the same tuple. */
  lemma OneRowOneTuple(db: Db, r: TargetRef, i: nat, j: nat, row: Value)
    requires ValidRef(r) && i < |r.tuples| && j < |r.tuples|
    requires Sat(db, KeyFilters(r)[i], row) && Sat(db, KeyFilters(r)[j], row)
    ensures i == j
  {
    var a, b := r.tuples[i], r.tuples[j];
    assert a in r.tuples && b in r.tuples;
    SatKeyFilter(db, r.targetFields, a, row);
    SatKeyFilter(db, r.targetFields, b, row);
    forall k | 0 <= k < |a| ensures a[k] == b[k] {
      assert Same(Read(row, r.targetFields[k]), a[k]);
    }
    assert a == b;
  }

  lemma TuplesNameApart(db: Db, r: TargetRef, i: nat, j: nat, row: Value)
    requires ValidRef(r) && i < j < |r.tuples|
    ensures !(Sat(db, KeyFilters(r)[i], row) && Sat(db, KeyFilters(r)[j], row))
  {
    if Sat(db, KeyFilters(r)[i], row) && Sat(db, KeyFilters(r)[j], row) {
      OneRowOneTuple(db, r, i, j, row);
    }
  }

  /** Every reference of the key names a row of the target that the caller can read. */
  ghost predicate AllReadable(db: Db, target: Target, r: TargetRef)
    requires ValidRef(r)
  {
    forall i :: 0 <= i < |r.tuples| ==> NamesInScope(db, target.table, KeyFilters(r)[i], target.scope)
  }

  /** Target keys are unique: a tuple names at most one row. */
  ghost predicate UniqueKeys(db: Db, table: Table, r: TargetRef)
    requires ValidRef(r)
  {
    forall i :: 0 <= i < |r.tuples| ==> Exact(db, table, KeyFilters(r)[i])
  }

  /** The count of one foreign key is exact: it equals the number of tuples just when all are readable. */
  lemma RecountIsExact(db: Db, target: Target, r: TargetRef)
    requires ValidRef(r) && UniqueKeys(db, target.table, r)
    ensures |Matching(db, target.table, Within(TargetFilter(r), target.scope))| == |r.tuples|
      <==> AllReadable(db, target, r)
  {
    var fs := KeyFilters(r);
    var table, scope := target.table, target.scope;
    CountDecides(db, table, fs, scope);
    forall i, j, id | 0 <= i < j < |fs| && id in table
      ensures !(Sat(db, fs[i], table[id]) && Sat(db, fs[j], table[id])) {
      TuplesNameApart(db, r, i, j, table[id]);
    }
    forall id | id in table
      ensures Sat(db, Within(TargetFilter(r), scope), table[id]) <==> Sat(db, Within(AnyOf(fs), scope), table[id]) {
      SatWithin(db, TargetFilter(r), scope, table[id]);
      SatWithin(db, AnyOf(fs), scope, table[id]);
      SatTargetFilter(db, r, table[id]);
      SatAnyOf(db, fs, table[id]);
    }
    assert Matching(db, table, Within(TargetFilter(r), scope)) == Matching(db, table, Within(AnyOf(fs), scope));
  }

  // ── One count for all the foreign keys of a target ────────────

  type Key = (seq<string>, Tuple)

  ghost predicate IsKeyOf(refs: seq<TargetRef>, key: Key) {
    exists i :: 0 <= i < |refs| && refs[i].targetFields == key.0 && key.1 in refs[i].tuples
  }

  function Combined(refs: seq<TargetRef>): Filter
    requires forall r :: r in refs ==> ValidRef(r)
  {
    Filter([Or(seq(|refs|, i requires 0 <= i < |refs| => assert refs[i] in refs; TargetFilter(refs[i])))])
  }

  lemma SatCombined(db: Db, refs: seq<TargetRef>, row: Value)
    requires forall i :: 0 <= i < |refs| ==> ValidRef(refs[i])
    ensures Sat(db, Combined(refs), row) <==>
      exists i, k :: 0 <= i < |refs| && 0 <= k < |refs[i].tuples| && Sat(db, KeyFilters(refs[i])[k], row)
  {
    var fs := Combined(refs).entries[0].any;
    SatOr(db, fs, row);
    forall i | 0 <= i < |refs|
      ensures Sat(db, fs[i], row) <==> exists k :: 0 <= k < |refs[i].tuples| && Sat(db, KeyFilters(refs[i])[k], row) {
      SatTargetFilter(db, refs[i], row);
    }
  }

  function KeyRow(key: Key): Filter
    requires |key.1| == |key.0|
  {
    KeyFilter(key.0, key.1)
  }

  /** The combined count accepts only where every recount would. */
  lemma CombinedCountSound(db: Db, target: Target, refs: seq<TargetRef>, keys: seq<Key>)
    requires refs != [] && forall i :: 0 <= i < |refs| ==> ValidRef(refs[i]) && UniqueKeys(db, target.table, refs[i])
    requires forall key :: key in keys <==> IsKeyOf(refs, key)
    requires |Matching(db, target.table, Within(Combined(refs), target.scope))| == |keys|
    ensures forall i :: 0 <= i < |refs| ==> AllReadable(db, target, refs[i])
  {
    forall i | 0 <= i < |keys| ensures |keys[i].1| == |keys[i].0| {
      assert keys[i] in keys;
    }
    var fs := seq(|keys|, i requires 0 <= i < |keys| => KeyRow(keys[i]));
    KeysAreFilters(db, target, refs, keys, fs);
    var table, scope := target.table, target.scope;
    forall id | id in table
      ensures Sat(db, Within(Combined(refs), scope), table[id]) <==> Sat(db, Within(AnyOf(fs), scope), table[id]) {
      SatWithin(db, Combined(refs), scope, table[id]);
      SatWithin(db, AnyOf(fs), scope, table[id]);
      SatCombined(db, refs, table[id]);
      SatAnyOf(db, fs, table[id]);
    }
    assert Matching(db, table, Within(Combined(refs), scope)) == Matching(db, table, Within(AnyOf(fs), scope));
    CountDecides(db, table, fs, scope);
  }

  /** The keys' filters are exactly the filters of the references' tuples. */
  lemma KeysAreFilters(db: Db, target: Target, refs: seq<TargetRef>, keys: seq<Key>, fs: seq<Filter>)
    requires refs != [] && forall i :: 0 <= i < |refs| ==> ValidRef(refs[i]) && UniqueKeys(db, target.table, refs[i])
    requires forall key :: key in keys <==> IsKeyOf(refs, key)
    requires |fs| == |keys| && forall i :: 0 <= i < |keys| ==> |keys[i].1| == |keys[i].0| && fs[i] == KeyRow(keys[i])
    ensures fs != [] && forall i :: 0 <= i < |fs| ==> Exact(db, target.table, fs[i])
    ensures forall i, k :: 0 <= i < |refs| && 0 <= k < |refs[i].tuples| ==> KeyFilters(refs[i])[k] in fs
    ensures forall m :: 0 <= m < |fs| ==>
      exists i, k :: 0 <= i < |refs| && 0 <= k < |refs[i].tuples| && KeyFilters(refs[i])[k] == fs[m]
  {
    forall i, k | 0 <= i < |refs| && 0 <= k < |refs[i].tuples| ensures KeyFilters(refs[i])[k] in fs {
      var key := (refs[i].targetFields, refs[i].tuples[k]);
      assert IsKeyOf(refs, key);
      var m :| 0 <= m < |keys| && keys[m] == key;
      assert fs[m] == KeyFilters(refs[i])[k];
    }
    assert 0 < |refs[0].tuples| && KeyFilters(refs[0])[0] in fs;
    forall m | 0 <= m < |fs|
      ensures exists i, k :: 0 <= i < |refs| && 0 <= k < |refs[i].tuples| && KeyFilters(refs[i])[k] == fs[m] {
      assert keys[m] in keys && IsKeyOf(refs, keys[m]);
      var i :| 0 <= i < |refs| && refs[i].targetFields == keys[m].0 && keys[m].1 in refs[i].tuples;
      var k :| 0 <= k < |refs[i].tuples| && refs[i].tuples[k] == keys[m].1;
      assert KeyFilters(refs[i])[k] == fs[m];
    }
  }

  /** The distinct (target fields, tuple) pairs. */
  method KeysOf(refs: seq<TargetRef>) returns (keys: seq<Key>)
    ensures forall key :: key in keys <==> IsKeyOf(refs, key)
    ensures forall i, j :: 0 <= i < j < |keys| ==> keys[i] != keys[j]
  {
    keys := [];
    for i := 0 to |refs|
      invariant forall key :: key in keys <==> IsKeyOf(refs[..i], key)
      invariant forall i, j :: 0 <= i < j < |keys| ==> keys[i] != keys[j]
    {
      ghost var before := keys;
      for k := 0 to |refs[i].tuples|
        invariant forall key :: (key in keys <==>
          (key in before || (key.0 == refs[i].targetFields && key.1 in refs[i].tuples[..k])))
        invariant forall i, j :: 0 <= i < j < |keys| ==> keys[i] != keys[j]
      {
        var key := (refs[i].targetFields, refs[i].tuples[k]);
        if key !in keys {
          keys := keys + [key];
        }
      }
      assert refs[i].tuples[..|refs[i].tuples|] == refs[i].tuples;
      forall key ensures key in keys <==> IsKeyOf(refs[..i + 1], key) {
        IsKeyOfStep(refs, i, key);
      }
    }
    assert refs[..|refs|] == refs;
  }

  lemma IsKeyOfStep(refs: seq<TargetRef>, i: nat, key: Key)
    requires i < |refs|
    ensures IsKeyOf(refs[..i + 1], key)
      <==> IsKeyOf(refs[..i], key) || (key.0 == refs[i].targetFields && key.1 in refs[i].tuples)
  {
    assert forall j :: 0 <= j < i ==> refs[..i + 1][j] == refs[..i][j];
    assert refs[..i + 1][i] == refs[i];
  }

  /**
   The check of one target type: one combined count, then one per foreign key.
   The outcome is that of the per-key counts: the first foreign key with an
   unreadable reference, if any.
   */
  method AssertTargetRefs(db: Db, target: Option<Target>, refs: seq<TargetRef>) returns (offender: Option<nat>)
    requires refs != [] && forall i :: 0 <= i < |refs| ==> ValidRef(refs[i])
    requires target.Some? ==> forall i :: 0 <= i < |refs| ==> UniqueKeys(db, target.value.table, refs[i])
    ensures target.None? ==> offender == Some(0)
    ensures target.Some? && offender.None? ==> forall i :: 0 <= i < |refs| ==> AllReadable(db, target.value, refs[i])
    ensures target.Some? && offender.Some? ==>
      offender.value < |refs| && !AllReadable(db, target.value, refs[offender.value])
    ensures target.Some? && offender.Some? ==> forall i :: 0 <= i < offender.value ==>
      AllReadable(db, target.value, refs[i])
  {
    if target.None? {
      return Some(0);
    }
    var table, scope := target.value.table, target.value.scope;
    if |refs| > 1 {
      var keys := KeysOf(refs);
      var n := Count(db, table, Within(Combined(refs), scope));
      if n == |keys| {
        CombinedCountSound(db, target.value, refs, keys);
        return None;
      }
    }
    for i := 0 to |refs|
      invariant forall j :: 0 <= j < i ==> AllReadable(db, target.value, refs[j])
    {
      var n := Count(db, table, Within(TargetFilter(refs[i]), scope));
      RecountIsExact(db, target.value, refs[i]);
      if n != |refs[i].tuples| {
        return Some(i);
      }
    }
    return None;
  }
}
