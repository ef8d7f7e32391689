/**
 Row filters and their meaning over a row, the `$or` union of several grants
 and the `$and` conjunction of two constraints.
 */
module Filters {
  import opened Options
  import opened DottedPaths

  /** A JSON-like value. `Other` is a class instance compared by identity. */
  datatype Value =
    | Undef | Null | Bool(b: bool) | Num(n: int) | Str(s: string) | Date(ms: int)
    | Arr(items: seq<Value>) | Doc(fields: map<string, Value>) | Other(tag: nat)

  datatype Op = Eq | Ne | In | Nin | Exists | Gt | Gte | Lt | Lte | Foreign(name: string)

  datatype Comparison = Comparison(op: Op, operand: Value)

  /** An object of a filter: its entries are conjoined; `{}` admits every row. */
  datatype Filter = Filter(entries: seq<Entry>)

  /** One key of a filter object. */
  datatype Entry =
    | FieldIs(path: string, value: Value)
    | Compare(path: string, comparisons: seq<Comparison>)
    | And(all: seq<Filter>)
    | Or(any: seq<Filter>)
    | Not(negated: Filter)
    | Related(relation: string, op: string, operand: Filter)

  /**
   What the row meaning leaves to the database: how two values are ordered,
   and the operators the in-memory evaluator does not model.
   */
  datatype Db = Db(
    order: (Op, Value, Value) -> bool,
    foreign: (Value, Comparison) -> bool,
    related: (string, string, Filter, Value) -> bool)

  // ── Reading a row ────────────

  function ReadAt(v: Value, segs: seq<string>): Value
    decreases |segs|
  {
    if segs == [] then v
    else if v.Doc? && segs[0] in v.fields then ReadAt(v.fields[segs[0]], segs[1..])
    else Undef
  }

  /** The value of a row at a dotted path. */
  function Read(row: Value, path: string): Value {
    ReadAt(row, Split(path))
  }

  // ── The meaning of a filter ────────────

  predicate IsNullish(v: Value) {
    v.Undef? || v.Null?
  }

  predicate Truthy(v: Value) {
    match v
    case Undef => false
    case Null => false
    case Bool(b) => b
    case Num(n) => n != 0
    case Str(s) => s != ""
    case _ => true
  }

  /** Strict equality: scalars by value, dates by time, objects never (distinct identities). */
  predicate Same(a: Value, b: Value) {
    a == b && !a.Arr? && !a.Doc? && !a.Other?
  }

  /** `$eq`: a null operand matches null and missing alike. */
  predicate Equals(v: Value, operand: Value) {
    if operand.Null? then IsNullish(v) else Same(v, operand)
  }

  /** `$in`: strict membership, so a null member does not match a missing value. */
  predicate Among(v: Value, operand: Value) {
    operand.Arr? && exists x :: x in operand.items && Same(v, x)
  }

  /** A nested object is one opaque operand to an ordering comparison. */
  function Blur(v: Value): Value {
    if v.Doc? then Doc(map[]) else v
  }

  predicate SatisfiesComparison(db: Db, v: Value, c: Comparison) {
    match c.op
    case Eq => Equals(v, c.operand)
    case Ne => !Equals(v, c.operand)
    case In => Among(v, c.operand)
    case Nin => !Among(v, c.operand)
    case Exists => !IsNullish(v) == Truthy(c.operand)
    case Foreign(_) => db.foreign(v, c)
    case _ => !IsNullish(v) && db.order(c.op, Blur(v), c.operand)
  }

  predicate Sat(db: Db, f: Filter, row: Value) {
    forall e :: e in f.entries ==> SatEntry(db, e, row)
  }

  predicate SatEntry(db: Db, e: Entry, row: Value) {
    match e
    case FieldIs(path, value) => Equals(Read(row, path), value)
    case Compare(path, comparisons) => forall c :: c in comparisons ==> SatisfiesComparison(db, Read(row, path), c)
    case And(all) => forall f :: f in all ==> Sat(db, f, row)
    case Or(any) => exists f :: f in any && Sat(db, f, row)
    case Not(negated) => !Sat(db, negated, row)
    case Related(relation, op, operand) => db.related(relation, op, operand, row)
  }

  /**
   The operators of the in-memory evaluator: equality with `null` matches a
   missing value, membership and other equalities are strict, `$exists` asks for
   a value or none by the truth of its operand, and no ordering matches a missing value.
   */
  lemma OperatorsMean(db: Db, v: Value, x: Value)
    ensures SatisfiesComparison(db, v, Comparison(Eq, x))
      <==> (x == Null && (v == Null || v == Undef)) || (x != Null && v == x && !x.Arr? && !x.Doc? && !x.Other?)
    ensures SatisfiesComparison(db, v, Comparison(In, x))
      <==> x.Arr? && !v.Arr? && !v.Doc? && !v.Other? && v in x.items
    ensures SatisfiesComparison(db, v, Comparison(Ne, x)) <==> !SatisfiesComparison(db, v, Comparison(Eq, x))
    ensures SatisfiesComparison(db, v, Comparison(Nin, x)) <==> !SatisfiesComparison(db, v, Comparison(In, x))
    ensures SatisfiesComparison(db, v, Comparison(Exists, x))
      <==> ((v == Null || v == Undef) <==> x in {Undef, Null, Bool(false), Num(0), Str("")})
    ensures forall op :: op in {Gt, Gte, Lt, Lte} ==>
      (SatisfiesComparison(db, v, Comparison(op, x)) <==>
         v != Null && v != Undef && db.order(op, if v.Doc? then Doc(map[]) else v, x))
  {
  }

  /** The connectives: all, some, not; and an entry per field, every comparison of it. */
  lemma ConnectivesMean(db: Db, fs: seq<Filter>, path: string, comparisons: seq<Comparison>, row: Value)
    ensures Sat(db, Filter([And(fs)]), row) <==> forall f :: f in fs ==> Sat(db, f, row)
    ensures Sat(db, Filter([Or(fs)]), row) <==> exists f :: f in fs && Sat(db, f, row)
    ensures forall f :: Sat(db, Filter([Not(f)]), row) <==> !Sat(db, f, row)
    ensures forall x ::
      Sat(db, Filter([FieldIs(path, x)]), row) <==> SatisfiesComparison(db, Read(row, path), Comparison(Eq, x))
    ensures Sat(db, Filter([Compare(path, comparisons)]), row)
      <==> forall c :: c in comparisons ==> SatisfiesComparison(db, Read(row, path), c)
  {
    SingleEntry(db, Filter([And(fs)]), row);
    SingleEntry(db, Filter([Or(fs)]), row);
    SingleEntry(db, Filter([Compare(path, comparisons)]), row);
    forall f ensures Sat(db, Filter([Not(f)]), row) <==> !Sat(db, f, row) {
      SingleEntry(db, Filter([Not(f)]), row);
    }
    forall x ensures Sat(db, Filter([FieldIs(path, x)]), row)
      <==> SatisfiesComparison(db, Read(row, path), Comparison(Eq, x)) {
      SingleEntry(db, Filter([FieldIs(path, x)]), row);
    }
  }

  /** Several entries of one filter are conjoined. */
  lemma EntriesConjoined(db: Db, a: seq<Entry>, b: seq<Entry>, row: Value)
    ensures Sat(db, Filter(a + b), row) <==> Sat(db, Filter(a), row) && Sat(db, Filter(b), row)
  {
    assert forall e :: e in a + b <==> e in a || e in b;
  }

  const UNRESTRICTED := Filter([])

  /** Matches no row. */
  const DENY_FILTER := Filter([Or([])])

  /** A row passes an optional filter; none admits every row. */
  predicate Admits(db: Db, f: Option<Filter>, row: Value) {
    f.None? || Sat(db, f.value, row)
  }

  // ── Union of grants ────────────

  /** All filters single-keyed on one field with a primitive (or null) value. */
  predicate CanOptimizeToIn(fs: seq<Filter>) {
    && fs != []
    && (forall f :: f in fs ==> |f.entries| == 1 && f.entries[0].FieldIs?)
    && (forall f :: f in fs ==> f.entries[0].path == fs[0].entries[0].path && IsPrimitive(f.entries[0].value))
  }

  predicate IsPrimitive(v: Value) {
    !v.Date? && !v.Arr? && !v.Doc? && !v.Other?
  }

  function MergeScopeFilters(fs: seq<Filter>): Option<Filter> {
    if fs == [] then None
    else if UNRESTRICTED in fs then None
    else if |fs| == 1 then Some(fs[0])
    else if CanOptimizeToIn(fs) then
      var values := seq(|fs|, i requires 0 <= i < |fs| => assert fs[i] in fs; fs[i].entries[0].value);
      Some(Filter([Compare(fs[0].entries[0].path, [Comparison(In, Arr(values))])]))
    else Some(Filter([Or(fs)]))
  }

  /** The rewrite to `$in` compares a null. */
  predicate RewritesNull(fs: seq<Filter>) {
    |fs| > 1 && CanOptimizeToIn(fs) && exists f :: f in fs && f.entries[0].value.Null?
  }

  lemma OrMeans(db: Db, fs: seq<Filter>, row: Value)
    ensures Sat(db, Filter([Or(fs)]), row) <==> exists f :: f in fs && Sat(db, f, row)
  {
    var e := Or(fs);
    assert e in [e];
    assert Sat(db, Filter([e]), row) <==> SatEntry(db, e, row);
  }

  lemma SingleEntry(db: Db, f: Filter, row: Value)
    requires |f.entries| == 1
    ensures Sat(db, f, row) <==> SatEntry(db, f.entries[0], row)
  {
    assert f.entries[0] in f.entries;
  }

  /** The `$in` rewrite: some filter's value is strictly the row's. */
  lemma InMeans(db: Db, fs: seq<Filter>, row: Value)
    requires |fs| > 1 && CanOptimizeToIn(fs) && UNRESTRICTED !in fs
    ensures Admits(db, MergeScopeFilters(fs), row) <==>
            exists f :: f in fs && Same(Read(row, fs[0].entries[0].path), f.entries[0].value)
  {
    var path := fs[0].entries[0].path;
    var merged := MergeScopeFilters(fs).value;
    SingleEntry(db, merged, row);
    var c := merged.entries[0].comparisons[0];
    assert c in merged.entries[0].comparisons;
    var v := Read(row, path);
    assert SatEntry(db, merged.entries[0], row) <==> Among(v, c.operand);
    if exists f :: f in fs && Same(v, f.entries[0].value) {
      var f :| f in fs && Same(v, f.entries[0].value);
      var i :| 0 <= i < |fs| && fs[i] == f;
      assert c.operand.items[i] == f.entries[0].value;
    }
    if Among(v, c.operand) {
      var x :| x in c.operand.items && Same(v, x);
      var i :| 0 <= i < |fs| && c.operand.items[i] == x;
      assert fs[i] in fs;
    }
  }

  lemma UnrestrictedAdmits(db: Db, fs: seq<Filter>, row: Value)
    requires UNRESTRICTED in fs
    ensures exists f :: f in fs && Sat(db, f, row)
  {
    assert Sat(db, UNRESTRICTED, row);
  }

  /** The union admits no row that no grant admits. */
  lemma MergeNeverWidens(db: Db, fs: seq<Filter>, row: Value)
    requires fs != [] && Admits(db, MergeScopeFilters(fs), row)
    ensures exists f :: f in fs && Sat(db, f, row)
  {
    if UNRESTRICTED in fs {
      UnrestrictedAdmits(db, fs, row);
    } else if |fs| == 1 {
      assert fs[0] in fs;
    } else if CanOptimizeToIn(fs) {
      InMeans(db, fs, row);
      var f :| f in fs && Same(Read(row, fs[0].entries[0].path), f.entries[0].value);
      SingleEntry(db, f, row);
    } else {
      OrMeans(db, fs, row);
    }
  }

  lemma MergeKeepsGrants(db: Db, fs: seq<Filter>, f: Filter, row: Value)
    requires f in fs && Sat(db, f, row) && !RewritesNull(fs)
    ensures Admits(db, MergeScopeFilters(fs), row)
  {
    if UNRESTRICTED in fs {
    } else if |fs| == 1 {
    } else if CanOptimizeToIn(fs) {
      SingleEntry(db, f, row);
      InMeans(db, fs, row);
    } else {
      OrMeans(db, fs, row);
    }
  }

  /** The rewrite to `$in` compares a null, and no operand is `undefined`: rows without the field are dropped. */
  predicate DropsMissing(fs: seq<Filter>) {
    RewritesNull(fs) && forall f :: f in fs ==> !f.entries[0].value.Undef?
  }

  /** Several equalities on one field with scalar operands, one of them `null` and none `undefined`. */
  ghost predicate NullAmongScalars(fs: seq<Filter>, path: string) {
    && |fs| > 1
    && (forall f :: f in fs ==> |f.entries| == 1 && f.entries[0].FieldIs? && f.entries[0].path == path)
    && (forall f :: f in fs ==> var v := f.entries[0].value; v.Null? || v.Bool? || v.Num? || v.Str?)
    && Filter([FieldIs(path, Null)]) in fs
  }

  /** Read off the filters: exactly these unions lose the rows without the field. */
  lemma DropsMissingIff(fs: seq<Filter>)
    ensures DropsMissing(fs) <==> exists path :: NullAmongScalars(fs, path)
  {
    if DropsMissing(fs) {
      var path := fs[0].entries[0].path;
      var f :| f in fs && f.entries[0].value.Null?;
      assert f.entries == [FieldIs(path, Null)];
      assert NullAmongScalars(fs, path);
    }
    if exists path :: NullAmongScalars(fs, path) {
      var path :| NullAmongScalars(fs, path);
      assert fs[0] in fs;
      var f := Filter([FieldIs(path, Null)]);
      assert f in fs && f.entries[0].value.Null?;
    }
  }

  /** Without grants there is no filter, and an unrestricted one lifts every other. */
  lemma MergeUnrestricted(db: Db, fs: seq<Filter>, row: Value)
    requires fs == [] || UNRESTRICTED in fs
    ensures Admits(db, MergeScopeFilters(fs), row)
  {
  }

  /** A row that one grant admits and the union does not: the grant compares a null, the row has no such field. */
  lemma LostRowIsMissing(db: Db, fs: seq<Filter>, f: Filter, row: Value)
    requires f in fs && Sat(db, f, row) && !Admits(db, MergeScopeFilters(fs), row)
    ensures DropsMissing(fs) && f.entries[0].value.Null?
  {
    if !RewritesNull(fs) {
      MergeKeepsGrants(db, fs, f, row);
    }
    SingleEntry(db, f, row);
    InMeans(db, fs, row);
    assert !Same(Read(row, fs[0].entries[0].path), f.entries[0].value);
  }

  /** The empty row passes a null comparison and is dropped by the rewrite. */
  lemma MissingIsDropped(db: Db, fs: seq<Filter>, f: Filter)
    requires DropsMissing(fs) && f in fs && f.entries[0].value.Null?
    ensures Sat(db, f, Doc(map[])) && !Admits(db, MergeScopeFilters(fs), Doc(map[]))
  {
    SingleEntry(db, f, Doc(map[]));
    InMeans(db, fs, Doc(map[]));
  }

  /**
   The union is exactly the union of the grants on every row, if and only if
   the `$in` rewrite drops no row: `$in: [null]` misses the rows where the
   field is absent, which `$eq: null` matches.
   */
  lemma MergeExactIffNoNullRewrite(db: Db, fs: seq<Filter>)
    requires fs != []
    ensures (forall row :: Admits(db, MergeScopeFilters(fs), row) <==> exists f :: f in fs && Sat(db, f, row))
            <==> !DropsMissing(fs)
  {
    if DropsMissing(fs) {
      var f :| f in fs && f.entries[0].value.Null?;
      MissingIsDropped(db, fs, f);
    } else {
      forall row ensures Admits(db, MergeScopeFilters(fs), row) <==> exists f :: f in fs && Sat(db, f, row) {
        if Admits(db, MergeScopeFilters(fs), row) {
          MergeNeverWidens(db, fs, row);
        } else if exists f :: f in fs && Sat(db, f, row) {
          var f :| f in fs && Sat(db, f, row);
          LostRowIsMissing(db, fs, f, row);
        }
      }
    }
  }

  /** More grants never lose a row, unless the rewrite drops one. */
  lemma MergeMonotone(db: Db, fs: seq<Filter>, more: seq<Filter>, row: Value)
    requires fs != [] && (forall f :: f in fs ==> f in more) && !DropsMissing(more)
    requires Admits(db, MergeScopeFilters(fs), row)
    ensures Admits(db, MergeScopeFilters(more), row)
  {
    MergeNeverWidens(db, fs, row);
    var f :| f in fs && Sat(db, f, row);
    if !Admits(db, MergeScopeFilters(more), row) {
      LostRowIsMissing(db, more, f, row);
    }
  }

  /** A sole comparison with null, which no rewrite has touched yet. */
  predicate SoleNull(fs: seq<Filter>) {
    |fs| == 1 && |fs[0].entries| == 1 && fs[0].entries[0].FieldIs? && fs[0].entries[0].value.Null?
  }

  /**
   Joining a list with others keeps every row the list admits by itself, if and
   only if the list is not a sole null comparison that the joint rewrite drops.
   */
  lemma JoinKeepsRowsIff(db: Db, fs: seq<Filter>, more: seq<Filter>)
    requires fs != [] && forall f :: f in fs ==> f in more
    ensures (forall row :: Admits(db, MergeScopeFilters(fs), row) ==> Admits(db, MergeScopeFilters(more), row))
            <==> !(SoleNull(fs) && DropsMissing(more))
  {
    if SoleNull(fs) && DropsMissing(more) {
      MissingIsDropped(db, more, fs[0]);
      assert Admits(db, MergeScopeFilters(fs), Doc(map[]));
    } else {
      forall row | Admits(db, MergeScopeFilters(fs), row) ensures Admits(db, MergeScopeFilters(more), row) {
        JoinKeepsRow(db, fs, more, row);
      }
    }
  }

  lemma JoinKeepsRow(db: Db, fs: seq<Filter>, more: seq<Filter>, row: Value)
    requires fs != [] && forall f :: f in fs ==> f in more
    requires !(SoleNull(fs) && DropsMissing(more)) && Admits(db, MergeScopeFilters(fs), row)
    ensures Admits(db, MergeScopeFilters(more), row)
  {
    MergeNeverWidens(db, fs, row);
    var f :| f in fs && Sat(db, f, row);
    if !Admits(db, MergeScopeFilters(more), row) {
      LostRowIsMissing(db, more, f, row);
      RewrittenWithin(fs, more);
      if |fs| > 1 {
        InMeans(db, fs, row);
        InMeans(db, more, row);
      }
    }
  }

  lemma RewrittenWithin(fs: seq<Filter>, more: seq<Filter>)
    requires fs != [] && CanOptimizeToIn(more) && UNRESTRICTED !in more && forall f :: f in fs ==> f in more
    ensures CanOptimizeToIn(fs) && UNRESTRICTED !in fs
    ensures fs[0].entries[0].path == more[0].entries[0].path
  {
    assert fs[0] in more;
  }

  // ── Conjunction of constraints ────────────

  /** `undefined` and `{}` are the identity; never a key-wise merge. */
  function ConjoinScopeFilters(a: Option<Filter>, b: Option<Filter>): Option<Filter> {
    var aEmpty := a.None? || a.value == UNRESTRICTED;
    var bEmpty := b.None? || b.value == UNRESTRICTED;
    if aEmpty && bEmpty then None
    else if aEmpty then b
    else if bEmpty then a
    else Some(Filter([And([a.value, b.value])]))
  }

  /** A row survives exactly when both sides admit it. */
  lemma ConjunctionExact(db: Db, a: Option<Filter>, b: Option<Filter>, row: Value)
    ensures Admits(db, ConjoinScopeFilters(a, b), row) <==> Admits(db, a, row) && Admits(db, b, row)
    ensures ConjoinScopeFilters(a, b).Some? ==> ConjoinScopeFilters(a, b).value != UNRESTRICTED
  {
    assert Sat(db, UNRESTRICTED, row);
    if a.Some? && b.Some? && a.value != UNRESTRICTED && b.value != UNRESTRICTED {
      var fs := [a.value, b.value];
      var e := And(fs);
      SingleEntry(db, Filter([e]), row);
      assert fs[0] in fs && fs[1] in fs;
      assert forall f :: f in fs ==> f == a.value || f == b.value;
    }
  }

  lemma DenyAdmitsNothing(db: Db, row: Value)
    ensures !Sat(db, DENY_FILTER, row)
  {
    OrMeans(db, [], row);
  }

  /** The read filter and the WITH CHECK filter (which defaults to it). */
  datatype RowPolicy = RowPolicy(filter: Option<Filter>, check: Option<Filter>)

  function EffectiveCheck(p: RowPolicy): Option<Filter> {
    if p.check.Some? then p.check else p.filter
  }

  function ConjoinRowPolicies(a: RowPolicy, b: RowPolicy): RowPolicy {
    var filter := ConjoinScopeFilters(a.filter, b.filter);
    if a.check.None? && b.check.None? then RowPolicy(filter, None)
    else
      var check := ConjoinScopeFilters(EffectiveCheck(a), EffectiveCheck(b)).Or(UNRESTRICTED);
      RowPolicy(filter, if check != filter.Or(UNRESTRICTED) then Some(check) else None)
  }

  /** Filter and effective check of the conjunction are exactly both sides'. */
  lemma RowPolicyConjunctionExact(db: Db, a: RowPolicy, b: RowPolicy, row: Value)
    ensures Admits(db, ConjoinRowPolicies(a, b).filter, row) <==> Admits(db, a.filter, row) && Admits(db, b.filter, row)
    ensures Admits(db, EffectiveCheck(ConjoinRowPolicies(a, b)), row)
            <==> Admits(db, EffectiveCheck(a), row) && Admits(db, EffectiveCheck(b), row)
  {
    ConjunctionExact(db, a.filter, b.filter, row);
    ConjunctionExact(db, EffectiveCheck(a), EffectiveCheck(b), row);
    assert Sat(db, UNRESTRICTED, row);
  }
}
