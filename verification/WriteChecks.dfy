/**
 The in-memory WITH CHECK: which filters it models, the verdict on rows about
 to be inserted, and the post-image of an update patch for the fields a check
 reads. Anything it cannot decide is left undecided, so callers fail closed.
 */
module WriteChecks {
  import opened Options
  import opened DottedPaths
  import opened Filters

  // ── Compilation ────────────

  /** No operator or relation outside the evaluator's subset. */
  predicate Supported(f: Filter) {
    forall e :: e in f.entries ==> SupportedEntry(e)
  }

  predicate SupportedEntry(e: Entry) {
    match e
    case FieldIs(_, _) => true
    case Compare(_, comparisons) => forall c :: c in comparisons ==> !c.op.Foreign?
    case And(all) => forall f :: f in all ==> Supported(f)
    case Or(any) => forall f :: f in any ==> Supported(f)
    case Not(negated) => Supported(negated)
    case Related(_, _, _) => false
  }

  /** The field paths a filter reads. */
  function Fields(f: Filter): set<string> {
    set e, p | e in f.entries && p in EntryFields(e) :: p
  }

  function EntryFields(e: Entry): set<string> {
    match e
    case FieldIs(path, _) => {path}
    case Compare(path, _) => {path}
    case And(all) => set f, p | f in all && p in Fields(f) :: p
    case Or(any) => set f, p | f in any && p in Fields(f) :: p
    case Not(negated) => Fields(negated)
    case Related(_, _, _) => {}
  }

  /** The conditions a filter is built from, at any depth of its connectives. */
  ghost function Conditions(f: Filter): set<Entry> {
    set e, l | e in f.entries && l in ConditionsOf(e) :: l
  }

  ghost function ConditionsOf(e: Entry): set<Entry> {
    match e
    case And(all) => set f, l | f in all && l in Conditions(f) :: l
    case Or(any) => set f, l | f in any && l in Conditions(f) :: l
    case Not(negated) => Conditions(negated)
    case _ => {e}
  }

  ghost predicate Evaluable(e: Entry) {
    e.FieldIs? || (e.Compare? && forall c :: c in e.comparisons ==> c.op in {Eq, Ne, In, Nin, Exists, Gt, Gte, Lt, Lte})
  }

  ghost predicate AllEvaluable(conditions: set<Entry>) {
    forall e :: e in conditions ==> Evaluable(e)
  }

  ghost predicate Compares(e: Entry, p: string) {
    (e.FieldIs? || e.Compare?) && e.path == p
  }

  ghost predicate AnyCompares(conditions: set<Entry>, p: string) {
    exists e :: e in conditions && Compares(e, p)
  }

  /**
   A check is modelled exactly when each of its conditions compares a field by
   the evaluator's own operators, and it reads the fields they compare.
   */
  lemma {:induction false} SupportedIff(f: Filter, p: string)
    ensures Supported(f) <==> AllEvaluable(Conditions(f))
    ensures p in Fields(f) <==> AnyCompares(Conditions(f), p)
    decreases f
  {
    forall e | e in f.entries
      ensures SupportedEntry(e) <==> AllEvaluable(ConditionsOf(e))
      ensures p in EntryFields(e) <==> AnyCompares(ConditionsOf(e), p) {
      SupportedEntryIff(e, p);
    }
    assert forall e, l :: e in f.entries && l in ConditionsOf(e) ==> l in Conditions(f);
  }

  lemma {:induction false} SupportedEntryIff(e: Entry, p: string)
    ensures SupportedEntry(e) <==> AllEvaluable(ConditionsOf(e))
    ensures p in EntryFields(e) <==> AnyCompares(ConditionsOf(e), p)
    decreases e
  {
    match e
    case FieldIs(path, _) => assert e in ConditionsOf(e);
    case Compare(path, _) => assert e in ConditionsOf(e);
    case Related(_, _, _) => assert e in ConditionsOf(e);
    case Not(negated) => SupportedIff(negated, p);
    case And(all) =>
      forall f | f in all
        ensures Supported(f) <==> AllEvaluable(Conditions(f))
        ensures p in Fields(f) <==> AnyCompares(Conditions(f), p) {
        SupportedIff(f, p);
      }
      assert forall f, l :: f in all && l in Conditions(f) ==> l in ConditionsOf(e);
    case Or(any) =>
      forall f | f in any
        ensures Supported(f) <==> AllEvaluable(Conditions(f))
        ensures p in Fields(f) <==> AnyCompares(Conditions(f), p) {
        SupportedIff(f, p);
      }
      assert forall f, l :: f in any && l in Conditions(f) ==> l in ConditionsOf(e);
  }

  /** How the in-memory evaluator orders two values. */
  type Order = (Op, Value, Value) -> bool

  /** The compiled predicate; an unsupported operator anywhere throws. */
  function CompileScopeCheck(check: Filter, order: Order): Attempt<Value -> bool> {
    if !Supported(check) then Threw
    else Returned(row => Sat(Db(order, (_, _) => false, (_, _, _, _) => false), check, row))
  }

  // ── What the verdict of a supported filter depends on ────────────

  /** Equal, or both nested objects (whose content no comparison reads). */
  predicate Agrees(v: Value, w: Value) {
    v == w || (v.Doc? && w.Doc?)
  }

  lemma {:induction false} VerdictDependsOnFields(db: Db, other: Db, f: Filter, row: Value, row': Value)
    requires Supported(f) && other.order == db.order
    requires forall p :: p in Fields(f) ==> Agrees(Read(row, p), Read(row', p))
    ensures Sat(db, f, row) <==> Sat(other, f, row')
    decreases f
  {
    forall e | e in f.entries ensures SatEntry(db, e, row) <==> SatEntry(other, e, row') {
      assert SupportedEntry(e);
      assert EntryFields(e) <= Fields(f);
      EntryDependsOnFields(db, other, e, row, row');
    }
  }

  lemma {:induction false} EntryDependsOnFields(db: Db, other: Db, e: Entry, row: Value, row': Value)
    requires SupportedEntry(e) && other.order == db.order
    requires forall p :: p in EntryFields(e) ==> Agrees(Read(row, p), Read(row', p))
    ensures SatEntry(db, e, row) <==> SatEntry(other, e, row')
    decreases e
  {
    match e
    case FieldIs(path, value) => assert path in EntryFields(e);
    case Compare(path, comparisons) =>
      assert path in EntryFields(e);
      forall c | c in comparisons
        ensures SatisfiesComparison(db, Read(row, path), c) <==> SatisfiesComparison(other, Read(row', path), c) {}
    case And(all) =>
      forall f | f in all ensures Sat(db, f, row) <==> Sat(other, f, row') {
        assert Fields(f) <= EntryFields(e);
        VerdictDependsOnFields(db, other, f, row, row');
      }
    case Or(any) =>
      forall f | f in any ensures Sat(db, f, row) <==> Sat(other, f, row') {
        assert Fields(f) <= EntryFields(e);
        VerdictDependsOnFields(db, other, f, row, row');
      }
    case Not(negated) => VerdictDependsOnFields(db, other, negated, row, row');
  }

  /** A compiled predicate gives the database's own verdict, whatever its other operators mean. */
  lemma CompiledIsFaithful(db: Db, check: Filter, row: Value)
    requires CompileScopeCheck(check, db.order).Returned?
    ensures CompileScopeCheck(check, db.order).value(row) <==> Sat(db, check, row)
  {
    VerdictDependsOnFields(db, Db(db.order, (_, _) => false, (_, _, _, _) => false), check, row, row);
  }

  // ── Rows about to be inserted ────────────

  /** The row carries every field the check reads. */
  predicate Decidable(check: Filter, row: Value) {
    forall f :: f in Fields(check) ==> !Read(row, f).Undef?
  }

  /** `false` when a decidable row fails, `true` when all rows are decidable and pass, else undecided. */
  function InsertVerdict(rows: seq<Value>, check: Filter, order: Order): Option<bool> {
    if CompileScopeCheck(check, order).Threw? then None
    else
      var passes := CompileScopeCheck(check, order).value;
      if exists row :: row in rows && Decidable(check, row) && !passes(row) then Some(false)
      else if forall row :: row in rows ==> Decidable(check, row) then Some(true)
      else None
  }

  /** The loop, returning at the first decidable row that fails. */
  method InsertRowsVerdict(rows: seq<Value>, check: Filter, order: Order) returns (verdict: Option<bool>)
    ensures verdict == InsertVerdict(rows, check, order)
  {
    var passes := CompileScopeCheck(check, order);
    if passes.Threw? {
      return None;
    }
    verdict := Some(true);
    for i := 0 to |rows|
      invariant verdict == if forall j :: 0 <= j < i ==> Decidable(check, rows[j]) then Some(true) else None
      invariant forall j :: 0 <= j < i && Decidable(check, rows[j]) ==> passes.value(rows[j])
    {
      if exists f :: f in Fields(check) && Read(rows[i], f).Undef? {
        verdict := None;
      } else if !passes.value(rows[i]) {
        return Some(false);
      }
    }
  }

  /** `c` is `row` with omitted fields filled in (defaults, generated values): what it carries stays. */
  ghost predicate Completes(row: Value, c: Value) {
    forall p :: !Read(row, p).Undef? ==> Agrees(Read(row, p), Read(c, p))
  }

  /**
   A decided verdict holds for every completion of the rows: `true` only if
   all pass whatever the database fills in, `false` only if some row fails whatever it does.
   */
  lemma InsertVerdictSound(db: Db, rows: seq<Value>, completed: seq<Value>, check: Filter)
    requires |rows| == |completed| && forall i :: 0 <= i < |rows| ==> Completes(rows[i], completed[i])
    requires InsertVerdict(rows, check, db.order).Some?
    ensures InsertVerdict(rows, check, db.order).value <==> forall i :: 0 <= i < |rows| ==> Sat(db, check, completed[i])
  {
    forall i | 0 <= i < |rows| && Decidable(check, rows[i])
      ensures Sat(db, check, completed[i]) <==> CompileScopeCheck(check, db.order).value(rows[i])
    {
      CompiledIsFaithful(db, check, rows[i]);
      VerdictDependsOnFields(db, db, check, rows[i], completed[i]);
    }
    assert forall i :: 0 <= i < |rows| ==> rows[i] in rows;
  }

  /** The verdict does not depend on the order of the rows. */
  lemma InsertVerdictIgnoresOrder(rows: seq<Value>, shuffled: seq<Value>, check: Filter, order: Order)
    requires forall row :: row in rows <==> row in shuffled
    ensures InsertVerdict(rows, check, order) == InsertVerdict(shuffled, check, order)
  {
  }

  // ── The post-image of an update patch ────────────

  /** A value the evaluator compares faithfully: a primitive, null or a date. */
  predicate IsComparable(v: Value) {
    !v.Arr? && !v.Doc? && !v.Other?
  }

  /** Missing, null, or a boolean, number, string or date. */
  predicate PlainValue(v: Value) {
    v.Undef? || v.Null? || v.Bool? || v.Num? || v.Str? || v.Date?
  }

  /** Set a path, creating (or replacing non-objects by) the objects on the way. */
  function SetAt(v: Value, segs: seq<string>, x: Value): Value
    decreases |segs|
  {
    if segs == [] then x
    else
      var fields := if v.Doc? then v.fields else map[];
      var inner := if segs[0] in fields then fields[segs[0]] else Undef;
      Doc(fields[segs[0] := SetAt(inner, segs[1..], x)])
  }

  function Inner(v: Value, k: string): Value {
    if v.Doc? && k in v.fields then v.fields[k] else Undef
  }

  lemma ReadStep(v: Value, from: seq<string>)
    requires from != []
    ensures ReadAt(v, from) == ReadAt(Inner(v, from[0]), from[1..])
  {
    assert ReadAt(Undef, from[1..]) == Undef;
  }

  lemma SetStep(v: Value, at: seq<string>, x: Value, k: string)
    requires at != []
    ensures Inner(SetAt(v, at, x), k) == if k == at[0] then SetAt(Inner(v, k), at[1..], x) else Inner(v, k)
  {
  }

  lemma {:induction false} SetThenRead(v: Value, at: seq<string>, x: Value, from: seq<string>)
    ensures at == from ==> ReadAt(SetAt(v, at, x), from) == x
    ensures !(at <= from) && !(from <= at) ==> ReadAt(SetAt(v, at, x), from) == ReadAt(v, from)
    decreases |at|
  {
    if at != [] && from != [] {
      ReadStep(v, from);
      ReadStep(SetAt(v, at, x), from);
      SetStep(v, at, x, from[0]);
      if at[0] == from[0] {
        SetThenRead(Inner(v, at[0]), at[1..], x, from[1..]);
        TailsPrefix(at, from);
        TailsPrefix(from, at);
      }
    }
  }

  lemma TailsPrefix(p: seq<string>, q: seq<string>)
    requires p != [] && q != [] && p[0] == q[0]
    ensures p[1..] <= q[1..] <==> p <= q
    ensures p[1..] == q[1..] <==> p == q
  {
    assert p == [p[0]] + p[1..] && q == [q[0]] + q[1..];
  }

  lemma SetPathThenRead(row: Value, path: string, x: Value, other: string)
    ensures Read(SetAt(row, Split(path), x), path) == x
    ensures !Comparable(path, other) ==> Read(SetAt(row, Split(path), x), other) == Read(row, other)
  {
    SetThenRead(row, Split(path), x, Split(path));
    SetThenRead(row, Split(path), x, Split(other));
    CoversIffSplitPrefix(path, other);
    CoversIffSplitPrefix(other, path);
  }

  /** Every patch key over, under or at a checked field is exactly it, with a comparable value. */
  predicate Modelled(patch: map<string, Value>, fields: set<string>) {
    forall field, key :: field in fields && key in patch ==> ModelledKey(patch, field, key)
  }

  predicate ModelledKey(patch: map<string, Value>, field: string, key: string)
    requires key in patch
  {
    if key == field then PlainValue(patch[key]) else !Below(field, key) && !Below(key, field)
  }

  /** The two nested loops over the checked fields and the patch keys. */
  method PatchPostImage(current: Value, patch: map<string, Value>, fields: set<string>) returns (image: Option<Value>)
    ensures image.Some? <==> Modelled(patch, fields)
    ensures image.Some? ==> forall f :: f in fields ==>
      Read(image.value, f) == if f in patch then patch[f] else Read(current, f)
  {
    var out := current;
    var todo := fields;
    while todo != {}
      invariant todo <= fields
      invariant forall f, key :: f in fields - todo && key in patch ==> ModelledKey(patch, f, key)
      invariant Modelled(patch, fields) ==> forall f :: f in fields ==>
        Read(out, f) == if f !in todo && f in patch then patch[f] else Read(current, f)
      decreases todo
    {
      var field :| field in todo;
      var keys := patch.Keys;
      ghost var before := out;
      while keys != {}
        invariant keys <= patch.Keys
        invariant forall key :: key in patch && key !in keys ==> ModelledKey(patch, field, key)
        invariant out == if field in patch && field !in keys then SetAt(before, Split(field), patch[field]) else before
        decreases keys
      {
        var key :| key in keys;
        if key == field {
          if !IsComparable(patch[key]) {
            assert !ModelledKey(patch, field, key);
            return None;
          }
          out := SetAt(out, Split(field), patch[key]);
        } else if Below(field, key) || Below(key, field) {
          assert !ModelledKey(patch, field, key);
          return None;
        }
        keys := keys - {key};
      }
      if Modelled(patch, fields) {
        SetKeepsOthers(before, patch, fields, field);
      }
      todo := todo - {field};
    }
    return Some(out);
  }

  lemma SetKeepsOthers(before: Value, patch: map<string, Value>, fields: set<string>, field: string)
    requires Modelled(patch, fields) && field in fields
    ensures field in patch ==>
      var out := SetAt(before, Split(field), patch[field]);
      Read(out, field) == patch[field] && forall f :: f in fields && f != field ==> Read(out, f) == Read(before, f)
  {
    if field in patch {
      SetPathThenRead(before, field, patch[field], field);
      forall f | f in fields && f != field
        ensures Read(SetAt(before, Split(field), patch[field]), f) == Read(before, f) {
        assert ModelledKey(patch, f, field);
        SetPathThenRead(before, field, patch[field], f);
      }
    }
  }

  /**
   What the database may make of the patch: a plain value lands at its key, and
   a path comparable to no patch key stays as it was.
   */
  ghost predicate RealPostImage(current: Value, patch: map<string, Value>, written: Value) {
    && (forall key :: key in patch && PlainValue(patch[key]) ==> Read(written, key) == patch[key])
    && (forall p :: (forall key :: key in patch ==> !Comparable(key, p)) ==> Read(written, p) == Read(current, p))
  }

  /** When an image is predicted, its verdict is the verdict on any real post-image. */
  lemma PostImageFaithful(db: Db, check: Filter, current: Value, patch: map<string, Value>, image: Value,
                          written: Value)
    requires Supported(check) && Modelled(patch, Fields(check))
    requires forall f :: f in Fields(check) ==> Read(image, f) == if f in patch then patch[f] else Read(current, f)
    requires RealPostImage(current, patch, written)
    ensures Sat(db, check, image) <==> Sat(db, check, written)
  {
    forall f | f in Fields(check) ensures Read(image, f) == Read(written, f) {
      if f in patch {
        assert ModelledKey(patch, f, f);
      } else {
        forall key | key in patch ensures !Comparable(key, f) {
          assert ModelledKey(patch, f, key);
        }
      }
    }
    VerdictDependsOnFields(db, db, check, image, written);
  }

  // ── Rows judged as submitted ────────────

  /** The path can be filled in: it is absent, and only objects or nothing lie above it. */
  predicate Open(v: Value, segs: seq<string>)
    decreases |segs|
  {
    if segs == [] then v.Undef? else (v.Undef? || v.Doc?) && Open(Inner(v, segs[0]), segs[1..])
  }

  lemma {:induction false} OpenIsAbsent(v: Value, at: seq<string>)
    requires Open(v, at)
    ensures ReadAt(v, at).Undef?
    decreases |at|
  {
    if at != [] {
      ReadStep(v, at);
      OpenIsAbsent(Inner(v, at[0]), at[1..]);
    }
  }

  lemma {:induction false} SetCompletes(v: Value, at: seq<string>, x: Value, from: seq<string>)
    requires Open(v, at) && !ReadAt(v, from).Undef?
    ensures Agrees(ReadAt(v, from), ReadAt(SetAt(v, at, x), from))
    decreases |at|
  {
    if at != [] && from != [] {
      ReadStep(v, from);
      ReadStep(SetAt(v, at, x), from);
      SetStep(v, at, x, from[0]);
      if at[0] == from[0] {
        SetCompletes(Inner(v, at[0]), at[1..], x, from[1..]);
      }
    } else if at == [] {
      OpenReadsNothing(from);
    }
  }

  lemma OpenReadsNothing(from: seq<string>)
    ensures ReadAt(Undef, from).Undef?
  {
  }

  /**
   A submitted row that omits a field the database can fill in is judged as if
   it stayed absent: a check on that field accepts the row and not its completion.
   */
  lemma OmittedFieldEscapes(db: Db, row: Value, f: string) returns (completed: Value)
    requires Open(row, Split(f))
    ensures Completes(row, completed)
    ensures var check := Filter([FieldIs(f, Null)]);
            Supported(check) && Sat(db, check, row) && !Sat(db, check, completed)
  {
    completed := SetAt(row, Split(f), Num(1));
    OpenIsAbsent(row, Split(f));
    forall p | !Read(row, p).Undef? ensures Agrees(Read(row, p), Read(completed, p)) {
      SetCompletes(row, Split(f), Num(1), Split(p));
    }
    SetPathThenRead(row, f, Num(1), f);
    var check := Filter([FieldIs(f, Null)]);
    assert check.entries[0] in check.entries;
  }

  /** Under nothing everything can be filled in. */
  lemma {:induction false} AbsentIsOpen(segs: seq<string>)
    ensures Open(Undef, segs)
  {
    if segs != [] {
      AbsentIsOpen(segs[1..]);
    }
  }

  /** An absent path that cannot be filled in has a value above it that is no object. */
  lemma {:induction false} BlockedAbove(v: Value, segs: seq<string>) returns (k: nat)
    requires v.Doc? && !Open(v, segs) && ReadAt(v, segs).Undef?
    ensures 1 <= k < |segs|
    ensures !ReadAt(v, segs[..k]).Undef? && !ReadAt(v, segs[..k]).Doc?
    decreases |segs|
  {
    var inner := Inner(v, segs[0]);
    ReadStep(v, segs);
    AbsentIsOpen(segs[1..]);
    if inner.Doc? {
      k := BlockedAbove(inner, segs[1..]);
      k := k + 1;
      assert segs[..k][1..] == segs[1..][..k - 1];
    } else {
      k := 1;
    }
    ReadStep(v, segs[..k]);
  }

  lemma {:induction false} ReadThrough(v: Value, segs: seq<string>, k: nat)
    requires k <= |segs|
    ensures ReadAt(v, segs) == ReadAt(ReadAt(v, segs[..k]), segs[k..])
    decreases k
  {
    if k > 0 {
      ReadStep(v, segs);
      ReadStep(v, segs[..k]);
      ReadThrough(Inner(v, segs[0]), segs[1..], k - 1);
      assert segs[1..][..k - 1] == segs[..k][1..] && segs[1..][k - 1..] == segs[k..];
    }
  }

  /** A path that cannot be filled in reads the same in every completion. */
  lemma ClosedReadsSame(row: Value, c: Value, f: string)
    requires row.Doc? && Completes(row, c) && !Open(row, Split(f))
    ensures Agrees(Read(row, f), Read(c, f))
  {
    if Read(row, f).Undef? {
      var k := BlockedAbove(row, Split(f));
      var p := LeadingPath(f, k);
      assert Agrees(Read(row, p), Read(c, p));
      ReadThrough(c, Split(f), k);
    }
  }

  lemma FieldsOfOne(f: string)
    ensures Fields(Filter([FieldIs(f, Null)])) <= {f}
  {
    var entry := FieldIs(f, Null);
    assert forall e :: e in [entry] ==> e == entry && EntryFields(e) == {f};
  }

  /** No completion changes the verdict of a check on these fields. */
  ghost predicate VerdictSettled(db: Db, row: Value, fields: set<string>) {
    forall check, c :: Supported(check) && Fields(check) <= fields && Completes(row, c) ==>
      (Sat(db, check, row) <==> Sat(db, check, c))
  }

  /**
   Exactly when an object row may be judged as submitted: every check on these
   fields decides it as it decides each of its completions, if and only if none
   of them can be filled in.
   */
  lemma VerdictSettledIff(db: Db, row: Value, fields: set<string>)
    requires row.Doc?
    ensures VerdictSettled(db, row, fields) <==> forall f :: f in fields ==> !Open(row, Split(f))
  {
    if forall f :: f in fields ==> !Open(row, Split(f)) {
      forall check, c | Supported(check) && Fields(check) <= fields && Completes(row, c)
        ensures Sat(db, check, row) <==> Sat(db, check, c) {
        forall f | f in Fields(check) ensures Agrees(Read(row, f), Read(c, f)) {
          ClosedReadsSame(row, c, f);
        }
        VerdictDependsOnFields(db, db, check, row, c);
      }
    } else {
      var f :| f in fields && Open(row, Split(f));
      var c := OmittedFieldEscapes(db, row, f);
      FieldsOfOne(f);
    }
  }

  // ── The check before a write ────────────

  /** What is about to be written: patches over their pre-images (`None`: missing), or rows as submitted. */
  datatype Batch =
    | Patches(currents: seq<Option<Value>>, patches: seq<map<string, Value>>)
    | FullRows(rows: seq<Value>, inserting: bool)

  /** The rows the database may write: real post-images, or the submitted rows completed. */
  ghost predicate MayWrite(batch: Batch, written: seq<Value>) {
    match batch
    case Patches(currents, patches) =>
      && |currents| == |patches| == |written|
      && (forall i :: 0 <= i < |currents| && currents[i].Some? ==>
           RealPostImage(currents[i].value, patches[i], written[i]))
    case FullRows(rows, _) => |rows| == |written| && forall i :: 0 <= i < |rows| ==> Completes(rows[i], written[i])
  }

  /** The row's verdict is settled: no checked field can be filled in. */
  ghost predicate Settled(check: Filter, row: Value) {
    forall f :: f in Fields(check) ==> row.Doc? && !Open(row, Split(f))
  }

  /** The batch shows what the check reads: modelled patches of known rows, or rows whose verdict is settled. */
  ghost predicate Shows(batch: Batch, check: Filter) {
    match batch
    case Patches(currents, patches) =>
      |currents| == |patches| && forall i :: 0 <= i < |patches| ==>
        currents[i].Some? && Modelled(patches[i], Fields(check))
    case FullRows(rows, _) => forall i :: 0 <= i < |rows| ==> Settled(check, rows[i])
  }

  ghost predicate AllPass(db: Db, check: Filter, written: seq<Value>) {
    forall i :: 0 <= i < |written| ==> Sat(db, check, written[i])
  }

  /** The patches of a batch: accepted only if every post-image passes, exactly so when all are modelled. */
  method CheckPatches(db: Db, currents: seq<Option<Value>>, patches: seq<map<string, Value>>, check: Filter,
                      ghost written: seq<Value>)
    returns (accepted: bool)
    requires Supported(check) && MayWrite(Patches(currents, patches), written)
    ensures accepted ==> Shows(Patches(currents, patches), check) && AllPass(db, check, written)
    ensures Shows(Patches(currents, patches), check) && AllPass(db, check, written) ==> accepted
  {
    for i := 0 to |currents|
      invariant forall j :: 0 <= j < i ==>
        currents[j].Some? && Modelled(patches[j], Fields(check)) && Sat(db, check, written[j])
    {
      if currents[i].None? {
        return false;
      }
      var image := PatchPostImage(currents[i].value, patches[i], Fields(check));
      if image.None? {
        return false;
      }
      CompiledIsFaithful(db, check, image.value);
      PostImageFaithful(db, check, currents[i].value, patches[i], image.value, written[i]);
      if !CompileScopeCheck(check, db.order).value(image.value) {
        return false;
      }
    }
    return true;
  }

  /** Rows evaluated as submitted. */
  method CheckRows(db: Db, rows: seq<Value>, check: Filter) returns (accepted: bool)
    requires Supported(check)
    ensures accepted <==> AllPass(db, check, rows)
  {
    for i := 0 to |rows|
      invariant forall j :: 0 <= j < i ==> Sat(db, check, rows[j])
    {
      CompiledIsFaithful(db, check, rows[i]);
      if !CompileScopeCheck(check, db.order).value(rows[i]) {
        return false;
      }
    }
    return true;
  }

  lemma CompletedVerdict(db: Db, rows: seq<Value>, written: seq<Value>, check: Filter)
    requires Supported(check) && MayWrite(FullRows(rows, true), written) && Shows(FullRows(rows, true), check)
    ensures AllPass(db, check, rows) <==> AllPass(db, check, written)
  {
    forall i | 0 <= i < |rows| ensures Sat(db, check, rows[i]) <==> Sat(db, check, written[i]) {
      forall f | f in Fields(check) ensures Agrees(Read(rows[i], f), Read(written[i], f)) {
        ClosedReadsSame(rows[i], written[i], f);
      }
      VerdictDependsOnFields(db, db, check, rows[i], written[i]);
    }
  }

  /**
   The pre-write check of a batch. Patches are accepted only if the database's
   post-images all pass; inserted and replacing rows are judged as submitted; a
   batch that shows what the check reads is accepted exactly when what the
   database writes passes.
   */
  method AssertCheckBeforeWrite(db: Db, batch: Batch, check: Filter, ghost written: seq<Value>) returns (accepted: bool)
    requires MayWrite(batch, written)
    ensures accepted ==> Supported(check)
    ensures batch.Patches? && accepted ==> Shows(batch, check) && AllPass(db, check, written)
    ensures batch.FullRows? && Supported(check) ==> (accepted <==> AllPass(db, check, batch.rows))
    ensures Supported(check) && Shows(batch, check) ==> (accepted <==> AllPass(db, check, written))
  {
    var passes := CompileScopeCheck(check, db.order);
    if passes.Threw? {
      return false;
    }
    match batch {
      case Patches(currents, patches) => accepted := CheckPatches(db, currents, patches, check, written);
      case FullRows(rows, _) =>
        accepted := CheckRows(db, rows, check);
        if Shows(batch, check) {
          CompletedVerdict(db, rows, written, check);
        }
    }
  }

  /**
   The guard before a write. Without a transaction the check decides now, on
   post-images and on rows as submitted. An insert inside one is refused when
   the check is modelled and a row that carries every checked field fails it,
   so only if some row fails whatever the database fills in; where conflicting
   rows are skipped, and so never checked again, it is accepted only when every
   row carries the checked fields and passes.
   */
  method GuardCheck(db: Db, transactional: bool, batch: Batch, check: Filter, ignoreConflicts: bool,
                    ghost written: seq<Value>)
    returns (accepted: bool)
    requires MayWrite(batch, written)
    ensures !transactional && accepted ==> Supported(check) && (batch.Patches? ==> Shows(batch, check))
    ensures !transactional && Supported(check) && Shows(batch, check) ==> (accepted <==> AllPass(db, check, written))
    ensures !transactional && batch.FullRows? && Supported(check) ==> (accepted <==> AllPass(db, check, batch.rows))
    ensures transactional && !(batch.FullRows? && batch.inserting) ==> accepted
    ensures transactional && batch.FullRows? && batch.inserting && ignoreConflicts ==>
      (accepted <==> Supported(check) && AllSurelyPass(db, check, batch.rows))
    ensures transactional && batch.FullRows? && batch.inserting && !ignoreConflicts ==>
      (!accepted <==> Supported(check) && SomeSurelyFails(db, check, batch.rows))
    ensures transactional && batch.FullRows? && batch.inserting ==>
      if ignoreConflicts then accepted ==> AllPass(db, check, written) else !accepted ==> !AllPass(db, check, written)
    ensures transactional && batch.FullRows? && batch.inserting && Supported(check)
      && (forall row :: row in batch.rows ==> CarriesAll(check, row))
      ==> (accepted <==> AllPass(db, check, written))
  {
    if !transactional {
      accepted := AssertCheckBeforeWrite(db, batch, check, written);
    } else if batch.FullRows? && batch.inserting {
      var verdict := InsertRowsVerdict(batch.rows, check, db.order);
      if verdict.Some? {
        InsertVerdictSound(db, batch.rows, written, check);
      }
      InsertVerdictExactly(db, batch.rows, check);
      accepted := !(verdict == Some(false) || (verdict.None? && ignoreConflicts));
    } else {
      accepted := true;
    }
  }

  /** The row holds a value, `null` included, at every field the check reads. */
  ghost predicate CarriesAll(check: Filter, row: Value) {
    forall f :: f in Fields(check) ==> Read(row, f) != Undef
  }

  /** Every row carries what the check reads, and passes. */
  ghost predicate AllSurelyPass(db: Db, check: Filter, rows: seq<Value>) {
    forall row :: row in rows ==> CarriesAll(check, row) && Sat(db, check, row)
  }

  /** Some row carries what the check reads, and fails. */
  ghost predicate SomeSurelyFails(db: Db, check: Filter, rows: seq<Value>) {
    exists row :: row in rows && CarriesAll(check, row) && !Sat(db, check, row)
  }

  /** The verdict on rows to be inserted, in terms of what the check means on them. */
  lemma InsertVerdictExactly(db: Db, rows: seq<Value>, check: Filter)
    ensures InsertVerdict(rows, check, db.order) == Some(false)
      <==> Supported(check) && SomeSurelyFails(db, check, rows)
    ensures InsertVerdict(rows, check, db.order) == Some(true)
      <==> Supported(check) && AllSurelyPass(db, check, rows)
  {
    if Supported(check) {
      forall row ensures CompileScopeCheck(check, db.order).value(row) <==> Sat(db, check, row) {
        CompiledIsFaithful(db, check, row);
      }
    }
    assert forall row :: Decidable(check, row) <==> CarriesAll(check, row);
  }
}
