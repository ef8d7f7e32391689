/**
 `checkRefs`: which foreign keys a write must check, and how a conjunction of
 two scope lists names them.
 */
module WriteRefs {
  import opened Options
  import opened Enforcement

  /** A foreign key of the table; the keys are told apart by their position. */
  datatype ForeignKey = ForeignKey(fields: seq<string>, targetFields: seq<string>)

  /** The table's foreign keys, and the relations each key backs. */
  datatype ForeignKeys = ForeignKeys(fks: seq<ForeignKey>, relations: map<string, nat>)

  predicate ValidKeys(t: ForeignKeys) {
    && (forall i :: 0 <= i < |t.fks| ==> t.fks[i].fields != [])
    && (forall r :: r in t.relations ==> t.relations[r] < |t.fks|)
  }

  type RefTable = t: ForeignKeys | ValidKeys(t) witness ForeignKeys([], map[])

  // ── Which foreign keys are enforced ────────────

  /** The first key with that local field, at or after position `i`. */
  function FirstWith(fks: seq<ForeignKey>, name: string, i: nat): (found: Option<nat>)
    requires i <= |fks|
    ensures found.Some? ==> i <= found.value < |fks| && name in fks[found.value].fields
    ensures found.Some? ==> forall j :: i <= j < found.value ==> name !in fks[j].fields
    ensures found.None? ==> forall j :: i <= j < |fks| ==> name !in fks[j].fields
    decreases |fks| - i
  {
    if i == |fks| then None
    else if name in fks[i].fields then Some(i)
    else FirstWith(fks, name, i + 1)
  }

  /** A local field of a key, else a relation it backs; any other name is a configuration error. */
  function RefForeignKeyOf(t: RefTable, name: string): Attempt<nat> {
    var byField := FirstWith(t.fks, name, 0);
    if byField.Some? then Returned(byField.value)
    else if name in t.relations then Returned(t.relations[name])
    else Threw
  }

  predicate Resolvable(t: RefTable, e: Enabled<string>) {
    e.These? ==> forall name :: name in e.entries ==> RefForeignKeyOf(t, name).Returned?
  }

  function Resolve(t: RefTable, e: Enabled<string>): Enabled<nat>
    requires Resolvable(t, e)
  {
    if e.All? then All else These(set name | name in e.entries :: RefForeignKeyOf(t, name).value)
  }

  function UpTo(n: nat): (s: set<nat>)
    ensures |s| == n && forall i: nat :: i in s <==> i < n
  {
    if n == 0 then {} else UpTo(n - 1) + {n - 1}
  }

  function AllKeys(t: RefTable): set<nat> {
    UpTo(|t.fks|)
  }

  /** The keys every scope enables. */
  function EnforcedRefs(t: RefTable, scopes: seq<Enabled<string>>): Attempt<set<nat>> {
    if |t.fks| == 0 || |scopes| == 0 then Returned({})
    else if exists i :: 0 <= i < |scopes| && !Resolvable(t, scopes[i]) then Threw
    else
      var enforced := EnabledByAll(seq(|scopes|, i requires 0 <= i < |scopes| => Resolve(t, scopes[i])));
      Returned(if enforced.All? then AllKeys(t) else enforced.entries)
  }

  /** The name means the first key with that local field or, where no key has it, the key behind the relation. */
  ghost predicate Designates(t: RefTable, name: string, i: nat) {
    && i < |t.fks|
    && if exists k :: k in t.fks && name in k.fields
       then name in t.fks[i].fields && forall j :: 0 <= j < i ==> name !in t.fks[j].fields
       else name in t.relations && t.relations[name] == i
  }

  lemma NameDesignates(t: RefTable, name: string, i: nat)
    ensures RefForeignKeyOf(t, name) == Returned(i) <==> Designates(t, name, i)
    ensures RefForeignKeyOf(t, name).Threw?
      <==> (forall k :: k in t.fks ==> name !in k.fields) && name !in t.relations
  {
    assert forall j :: 0 <= j < |t.fks| ==> t.fks[j] in t.fks;
  }

  /** On a table with foreign keys, the names of a non-empty list throw exactly when one means nothing. */
  lemma EnforcedThrowsIff(t: RefTable, scopes: seq<Enabled<string>>)
    ensures EnforcedRefs(t, scopes).Threw? <==>
      && t.fks != []
      && exists e, name :: e in scopes && e.These? && name in e.entries && MeansNothing(t, name)
  {
    forall e | e in scopes
      ensures !Resolvable(t, e) <==> e.These? && exists name :: name in e.entries && MeansNothing(t, name) {
      if e.These? {
        forall name | name in e.entries ensures RefForeignKeyOf(t, name).Threw? <==> MeansNothing(t, name) {
          NameDesignates(t, name, 0);
        }
      }
    }
    assert forall i :: 0 <= i < |scopes| ==> scopes[i] in scopes;
  }

  ghost predicate MeansNothing(t: RefTable, name: string) {
    (forall k :: k in t.fks ==> name !in k.fields) && name !in t.relations
  }

  /** A scope asks for the check of key `i`: by `true`, or by a name that means it. */
  ghost predicate Asks(t: RefTable, e: Enabled<string>, i: nat) {
    e.All? || exists name :: name in e.entries && Designates(t, name, i)
  }

  /** A key is enforced exactly when every scope asks for it. */
  lemma EnforcedExactly(t: RefTable, scopes: seq<Enabled<string>>, i: nat)
    requires scopes != [] && EnforcedRefs(t, scopes).Returned?
    ensures i in EnforcedRefs(t, scopes).value <==> i < |t.fks| && forall j :: 0 <= j < |scopes| ==>
      Asks(t, scopes[j], i)
  {
    if |t.fks| > 0 {
      var resolved := seq(|scopes|, j requires 0 <= j < |scopes| => Resolve(t, scopes[j]));
      EnablesExactly(resolved, i);
      forall j | 0 <= j < |scopes|
        ensures Enables(resolved[j], i) <==> Asks(t, scopes[j], i)
        ensures scopes[j].These? && Asks(t, scopes[j], i) ==> i < |t.fks| {
        assert Resolvable(t, scopes[j]);
        forall name ensures RefForeignKeyOf(t, name) == Returned(i) <==> Designates(t, name, i) {
          NameDesignates(t, name, i);
        }
      }
      assert EnabledByAll(resolved).All? ==> forall j :: 0 <= j < |scopes| ==> resolved[j].All?;
      if EnabledByAll(resolved).These? {
        assert exists j :: 0 <= j < |scopes| && resolved[j].These?;
      }
    }
  }

  // ── The conjunction of two scope lists ────────────

  /** What either side enforces, each key named by its first local field. */
  function ConjoinCheckRefs(t: RefTable, user: seq<Enabled<string>>,
                            cred: seq<Enabled<string>>): Attempt<Enabled<string>>
  {
    var ofUser :- EnforcedRefs(t, user);
    var ofCred :- EnforcedRefs(t, cred);
    var all := ofUser + ofCred;
    Returned(
      if all == {} then These({})
      else if |all| == |t.fks| then All
      else These(set i | i in all && i < |t.fks| :: t.fks[i].fields[0]))
  }

  /** The first local field of key `i` occurs in no earlier key. */
  predicate OwnsFirstField(t: RefTable, i: nat)
    requires i < |t.fks| && t.fks[i].fields != []
  {
    forall j :: 0 <= j < i ==> t.fks[i].fields[0] !in t.fks[j].fields
  }

  lemma FirstFieldResolves(t: RefTable, i: nat)
    requires i < |t.fks|
    ensures var r := RefForeignKeyOf(t, t.fks[i].fields[0]);
            r.Returned? && r.value <= i && (r.value == i <==> OwnsFirstField(t, i))
  {
    var name := t.fks[i].fields[0];
    assert name in t.fks[i].fields;
  }

  /** Every member of `s` is the image of one. */
  ghost predicate Onto(s: set<nat>, f: map<nat, nat>) {
    forall x {:trigger Covered(s, f, x)} :: x in s ==> Covered(s, f, x)
  }

  ghost predicate Covered(s: set<nat>, f: map<nat, nat>, x: nat) {
    exists i :: i in s && i in f && f[i] == x
  }

  /** A map that never goes up and covers a finite set of numbers by itself is the identity on it. */
  lemma {:induction false} NeverUpIsIdentity(s: set<nat>, f: map<nat, nat>, bound: nat)
    requires forall i :: i in s ==> i in f && f[i] <= i && i < bound
    requires Onto(s, f)
    ensures forall i :: i in s ==> f[i] == i
    decreases bound
  {
    if bound > 0 {
      var top := bound - 1;
      if top in s {
        assert Covered(s, f, top);
        var i :| i in s && i in f && f[i] == top;
        assert i == top;
      }
      var below := s - {top};
      forall x | x in below ensures Covered(below, f, x) {
        assert Covered(s, f, x);
        var i :| i in s && i in f && f[i] == x;
        assert i != top;
      }
      NeverUpIsIdentity(below, f, top);
    }
  }

  lemma EnforcedInRange(t: RefTable, scopes: seq<Enabled<string>>)
    requires EnforcedRefs(t, scopes).Returned?
    ensures EnforcedRefs(t, scopes).value <= AllKeys(t)
  {
    if scopes != [] {
      forall i | i in EnforcedRefs(t, scopes).value ensures i in AllKeys(t) {
        EnforcedExactly(t, scopes, i);
      }
    }
  }

  lemma SameSizeSubset(a: set<nat>, b: set<nat>)
    requires a <= b && |a| == |b|
    ensures a == b
  {
    assert b == a + (b - a);
  }

  /** What one named scope enforces: the keys its names resolve to. */
  lemma EnforcedOfNames(t: RefTable, names: set<string>, keys: set<nat>)
    requires |t.fks| > 0 && Resolvable(t, These(names))
    requires forall i :: i in keys <==> exists name :: name in names && RefForeignKeyOf(t, name) == Returned(i)
    ensures EnforcedRefs(t, [These(names)]) == Returned(keys)
  {
    var one := [These(names)];
    assert one[0] == These(names);
    var r := EnforcedRefs(t, one);
    assert r.Returned?;
    forall i ensures i in r.value <==> i in keys {
      EnforcedExactly(t, one, i);
      assert Asks(t, one[0], i) <==> i in keys;
      if i in keys {
        var name :| name in names && RefForeignKeyOf(t, name) == Returned(i);
      }
    }
    assert r.value == keys;
  }

  /** The keys whose names resolve back: none, all, or each owning its first field. */
  predicate NamesResolveBack(t: RefTable, keys: set<nat>)
    requires keys <= AllKeys(t)
  {
    keys == {} || keys == AllKeys(t) || forall i :: i in keys ==> OwnsFirstField(t, i)
  }

  /**
   The names of a conjunction enforce everything either side enforces, and then
   exactly that, if and only if everything or nothing is enforced or each
   enforced key's first field occurs in no earlier key.
   */
  lemma ConjunctionFaithfulIff(t: RefTable, user: seq<Enabled<string>>, cred: seq<Enabled<string>>)
    requires ConjoinCheckRefs(t, user, cred).Returned?
    ensures EnforcedRefs(t, user).Returned? && EnforcedRefs(t, cred).Returned?
    ensures var all, kept := EnforcedRefs(t, user).value + EnforcedRefs(t, cred).value,
                             EnforcedRefs(t, [ConjoinCheckRefs(t, user, cred).value]);
      && all <= AllKeys(t) && kept.Returned?
      && (all <= kept.value <==> NamesResolveBack(t, all))
      && (kept.value == all <==> NamesResolveBack(t, all))
  {
    EnforcedInRange(t, user);
    EnforcedInRange(t, cred);
    var all := EnforcedRefs(t, user).value + EnforcedRefs(t, cred).value;
    var conjoined := ConjoinCheckRefs(t, user, cred).value;
    if all == {} {
      NothingEnforced(t);
    } else if |all| == |t.fks| {
      SameSizeSubset(all, AllKeys(t));
      EverythingEnforced(t);
    } else {
      NamedEnforced(t, all, conjoined.entries);
    }
  }

  lemma NothingEnforced(t: RefTable)
    ensures EnforcedRefs(t, [These({})]) == Returned({})
  {
    if |t.fks| > 0 {
      EnforcedOfNames(t, {}, {});
    }
  }

  lemma EverythingEnforced(t: RefTable)
    ensures EnforcedRefs(t, [All]) == Returned(AllKeys(t))
  {
    var one: seq<Enabled<string>> := [All];
    assert one[0] == All && Resolvable(t, one[0]);
    var r := EnforcedRefs(t, one);
    assert r.Returned?;
    forall i ensures i in r.value <==> i in AllKeys(t) {
      EnforcedExactly(t, one, i);
      assert Asks(t, one[0], i);
    }
  }

  lemma NamedEnforced(t: RefTable, all: set<nat>, names: set<string>)
    requires all != {} && all <= AllKeys(t)
    requires names == set i | i in all && i < |t.fks| :: t.fks[i].fields[0]
    ensures var kept := EnforcedRefs(t, [These(names)]);
      && kept.Returned?
      && (all <= kept.value <==> forall i :: i in all ==> OwnsFirstField(t, i))
      && (kept.value == all <==> forall i :: i in all ==> OwnsFirstField(t, i))
  {
    forall i | i in all
      ensures var r := RefForeignKeyOf(t, t.fks[i].fields[0]);
              r.Returned? && r.value <= i && (r.value == i <==> OwnsFirstField(t, i)) {
      FirstFieldResolves(t, i);
    }
    var f := map i | i in all :: RefForeignKeyOf(t, t.fks[i].fields[0]).value;
    NamesResolveToImage(t, all, names, f);
    ImageKeepsAllIff(all, f, |t.fks|);
  }

  lemma NamesResolveToImage(t: RefTable, all: set<nat>, names: set<string>, f: map<nat, nat>)
    requires all != {} && all <= AllKeys(t)
    requires names == set i | i in all && i < |t.fks| :: t.fks[i].fields[0]
    requires f.Keys == all && forall i :: i in all ==> RefForeignKeyOf(t, t.fks[i].fields[0]) == Returned(f[i])
    ensures EnforcedRefs(t, [These(names)]) == Returned(set i | i in all :: f[i])
  {
    var image := set i | i in all :: f[i];
    forall k: nat ensures k in image <==> exists name :: name in names && RefForeignKeyOf(t, name) == Returned(k) {
      NamesReach(t, all, names, f, k);
    }
    var i :| i in all;
    assert Resolvable(t, These(names));
    EnforcedOfNames(t, names, image);
  }

  lemma ImageKeepsAllIff(all: set<nat>, f: map<nat, nat>, bound: nat)
    requires f.Keys == all && forall i :: i in all ==> f[i] <= i && i < bound
    ensures all <= (set i | i in all :: f[i]) <==> forall i :: i in all ==> f[i] == i
    ensures (set i | i in all :: f[i]) == all <==> forall i :: i in all ==> f[i] == i
  {
    var image := set i | i in all :: f[i];
    if all <= image {
      forall x | x in all ensures Covered(all, f, x) {
        assert x in image;
      }
      NeverUpIsIdentity(all, f, bound);
    }
    if forall i :: i in all ==> f[i] == i {
      assert forall k :: k in all ==> f[k] in image;
      assert image == all;
    }
  }

  lemma NamesReach(t: RefTable, all: set<nat>, names: set<string>, f: map<nat, nat>, k: nat)
    requires all <= AllKeys(t)
    requires names == set i | i in all && i < |t.fks| :: t.fks[i].fields[0]
    requires f.Keys == all && forall i :: i in all ==> RefForeignKeyOf(t, t.fks[i].fields[0]) == Returned(f[i])
    ensures k in (set i | i in all :: f[i]) <==> exists name :: name in names && RefForeignKeyOf(t, name) == Returned(k)
  {
    if k in (set i | i in all :: f[i]) {
      var i :| i in all && f[i] == k;
      assert t.fks[i].fields[0] in names;
    }
    if exists name :: name in names && RefForeignKeyOf(t, name) == Returned(k) {
      var name :| name in names && RefForeignKeyOf(t, name) == Returned(k);
      var i :| i in all && i < |t.fks| && t.fks[i].fields[0] == name;
      assert f[i] == k;
    }
  }

  /** Two keys sharing a field: the second key's check is traded for the first's. */
  lemma SharedFieldLosesCheck(a: string, b: string, c: string)
    requires a != b && c != a && c != b
    ensures var t: RefTable := ForeignKeys([ForeignKey([a, b], ["id"]), ForeignKey([b, c], ["id"])], map[]);
      && EnforcedRefs(t, [These({c})]) == Returned({1})
      && ConjoinCheckRefs(t, [These({c})], [These({})]) == Returned(These({b}))
      && EnforcedRefs(t, [These({b})]) == Returned({0})
  {
    var t: RefTable := ForeignKeys([ForeignKey([a, b], ["id"]), ForeignKey([b, c], ["id"])], map[]);
    assert FirstWith(t.fks, c, 0) == Some(1) && FirstWith(t.fks, b, 0) == Some(0);
    EnforcedOfNames(t, {c}, {1});
    EnforcedOfNames(t, {b}, {0});
    NothingEnforced(t);
    var all: set<nat> := {1} + {};
    assert all == {1} && |all| == 1;
    assert t.fks[1].fields[0] == b;
    assert (set i | i in all && i < |t.fks| :: t.fks[i].fields[0]) == {b};
  }
}
