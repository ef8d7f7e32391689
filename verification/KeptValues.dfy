/**
 When the values an attenuated caller is shown stay within the claimant's joint
 list whoever the owner is: no handler can lend the owner's fields to another
 handler's rows, at any depth.
 */
module KeptValues {
  import opened Options
  import opened SchemaWalk
  import opened Filters
  import opened Scopes
  import opened RestrictOnly
  import opened JoinedLists
  import opened Fitting
  import opened Handlers

  // ── Enough for every owner: read off the claimant's lists ────────────

  /** The list admits no row. */
  ghost predicate AdmitsNone(db: Db, ss: seq<Scope>) {
    forall row :: !RowVisible(db, ss, row)
  }

  /** The handlers' sub-scopes for a relation. */
  function SubLists(lists: seq<Grant>, rel: string): seq<Grant> {
    seq(|lists|, i requires 0 <= i < |lists| =>
      if lists[i].Some? then Some(WithScopes(lists[i].value, rel)) else None)
  }

  /**
   No owner's fields can be lent from one handler to another's rows: at most one
   handler allows, or the joint list shows every field or no handler admits a
   row, here and in every relation the joint list declares.
   */
  ghost predicate ValuesKept(db: Db, lists: seq<Grant>, x: seq<Scope>)
    decreases Depth(x)
  {
    || Alone(lists)
    || (LevelKept(db, lists, x) && forall rel :: ValuesKeptAt(db, lists, x, rel))
  }

  ghost predicate LevelKept(db: Db, lists: seq<Grant>, x: seq<Scope>) {
    || UnionProjection(x) == Returned(map[])
    || forall i :: 0 <= i < |lists| && lists[i].Some? ==> AdmitsNone(db, lists[i].value)
  }

  ghost predicate ValuesKeptAt(db: Db, lists: seq<Grant>, x: seq<Scope>, rel: string)
    decreases Depth(x), 0
  {
    WithScopesShallower(x, rel);
    WithScopes(x, rel) != [] ==> ValuesKept(db, SubLists(lists, rel), WithScopes(x, rel))
  }

  /** One served handler: its composite (up to the mark) of the owner's and the claimant's list. */
  ghost predicate IsComposite(s: Grant, a: seq<Scope>, b: Grant, opts: ConjoinOptions, x: seq<Scope>) {
    s.Some? ==>
      && b.Some? && |s.value| == 1 && Descending(opts.schema)
      && ConjoinScopes(a, b.value, opts).Returned?
      && s.value[0] == ConjoinScopes(a, b.value, opts).value.(inherited := s.value[0].inherited)
      && b.value != [] && Within(b.value, x) && Fits(Values, b.value, x)
  }

  ghost predicate AreComposites(s: seq<Grant>, a: seq<seq<Scope>>, b: seq<Grant>, opts: seq<ConjoinOptions>,
                                x: seq<Scope>) {
    && |s| == |a| == |b| == |opts|
    && forall i :: 0 <= i < |s| ==> IsComposite(s[i], a[i], b[i], opts[i], x)
  }

  /** Each served scope by itself stays within the claimant's joint list, values included. */
  lemma EachWithin(db: Db, c: Scope, a: seq<Scope>, b: seq<Scope>, opts: ConjoinOptions, x: seq<Scope>)
    requires IsComposite(Some([c]), a, Some(b), opts, x) && Plain(x)
    ensures Attenuates(Values, db, [c], x) && Bounded(Reach, db, [c], x)
  {
    var d := ConjoinScopes(a, b, opts).value;
    BoundedIffFits(Values, db, b, x);
    CompositeAttenuates(Values, db, a, b, opts);
    AttenuatesTransitive(Values, db, [d], b, x);
    MarkIrrelevant(Values, db, d, c.inherited, x);
    FitsLess(b, x);
    BoundedIffFits(Reach, db, b, x);
    CompositeBounded(Reach, db, a, b, opts);
    BoundedTransitive(Reach, db, [d], b, x);
    MarkIrrelevant(Reach, db, d, c.inherited, x);
    MarkIrrelevantToFacets(Reach, d, c.inherited, x);
  }

  /** Fitting for values is fitting for what is reached. */
  lemma {:induction false} FitsLess(a: seq<Scope>, x: seq<Scope>)
    requires Fits(Values, a, x)
    ensures Fits(Reach, a, x)
    decreases Depth(x)
  {
    forall rel ensures FitsAt(Reach, a, x, rel) {
      assert FitsAt(Values, a, x, rel);
      WithScopesShallower(x, rel);
      if WithScopes(x, rel) != [] {
        FitsLess(WithScopes(a, rel), WithScopes(x, rel));
      }
    }
  }

  /** The handler a served scope comes from. */
  lemma ServedBy(s: seq<Grant>, a: seq<seq<Scope>>, b: seq<Grant>, opts: seq<ConjoinOptions>, x: seq<Scope>, c: Scope)
    returns (i: nat)
    requires AreComposites(s, a, b, opts, x) && Joined(s).Some? && c in Joined(s).value
    ensures i < |s| && s[i] == Some([c]) && b[i].Some? && IsComposite(Some([c]), a[i], b[i], opts[i], x)
  {
    i := MemberOf(s, c);
    assert IsComposite(s[i], a[i], b[i], opts[i], x);
    OneMember(s[i].value, c);
  }

  lemma MemberOf(lists: seq<Grant>, c: Scope) returns (i: nat)
    requires Joined(lists).Some? && c in Joined(lists).value
    ensures i < |lists| && lists[i].Some? && c in lists[i].value
  {
    JoinedMembers(lists, c);
    i :| 0 <= i < |lists| && lists[i].Some? && c in lists[i].value;
  }

  lemma OneMember(ss: seq<Scope>, c: Scope)
    requires |ss| == 1 && c in ss
    ensures ss == [c]
  {
  }

  /** What is served reaches no more than the claimant's joint list. */
  lemma ServedReaches(db: Db, s: seq<Grant>, a: seq<seq<Scope>>, b: seq<Grant>, opts: seq<ConjoinOptions>,
                      x: seq<Scope>)
    requires AreComposites(s, a, b, opts, x) && Plain(x) && Joined(s).Some?
    ensures Joined(s).value != [] && Bounded(Reach, db, Joined(s).value, x)
  {
    JoinedMembers(s, EMPTY_SCOPE);
    var k :| 0 <= k < |s| && s[k].Some?;
    assert IsComposite(s[k], a[k], b[k], opts[k], x);
    JoinedMembers(s, s[k].value[0]);
    forall c | c in Joined(s).value ensures Bounded(Reach, db, [c], x) {
      var i := ServedBy(s, a, b, opts, x, c);
      EachWithin(db, c, a[i], b[i].value, opts[i], x);
    }
    ListBounded(Reach, db, Joined(s).value, x);
  }

  /** And shows no more, where the level is kept. */
  lemma ServedShows(db: Db, s: seq<Grant>, a: seq<seq<Scope>>, b: seq<Grant>, opts: seq<ConjoinOptions>, x: seq<Scope>,
                    row: Value, f: string)
    requires AreComposites(s, a, b, opts, x) && Joined(s).Some? && Joined(s).value != [] && LevelKept(db, b, x)
    requires RowVisible(db, Joined(s).value, row)
    ensures PathGranted(x, f)
  {
    if UnionProjection(x) != Returned(map[]) {
      var c := SomeScopeShows(db, Joined(s).value, row);
      var i := ServedBy(s, a, b, opts, x, c);
      NoRowWithoutClaimant(db, c, a[i], b[i].value, opts[i], x, row);
    }
  }

  lemma NoRowWithoutClaimant(db: Db, c: Scope, a: seq<Scope>, b: seq<Scope>, opts: ConjoinOptions, x: seq<Scope>,
                             row: Value)
    requires IsComposite(Some([c]), a, Some(b), opts, x) && RowVisible(db, [c], row)
    ensures RowVisible(db, b, row)
  {
    CompositeRowsExact(db, a, b, opts, row);
    OneScopeRows(db, c, row);
    OneScopeRows(db, ConjoinScopes(a, b, opts).value, row);
  }

  /** A relation's sub-scopes of joined lists are the joined sub-lists. */
  lemma {:induction false} JoinedSubLists(lists: seq<Grant>, rel: string)
    ensures Joined(SubLists(lists, rel)).Some? <==> Joined(lists).Some?
    ensures Joined(SubLists(lists, rel)).Or([]) == WithScopes(Joined(lists).Or([]), rel)
  {
    if lists != [] {
      var n := |lists| - 1;
      JoinedSubLists(lists[..n], rel);
      assert SubLists(lists, rel)[..n] == SubLists(lists[..n], rel);
      if lists[n].Some? {
        WithScopesAppend(Joined(lists[..n]).Or([]), lists[n].value, rel);
      }
    }
  }

  lemma {:induction false} WithScopesAppend(a: seq<Scope>, b: seq<Scope>, rel: string)
    ensures WithScopes(a + b, rel) == WithScopes(a, rel) + WithScopes(b, rel)
  {
    if b == [] {
      assert a + b == a;
    } else {
      WithScopesAppend(a, b[..|b| - 1], rel);
      assert (a + b)[..|a + b| - 1] == a + b[..|b| - 1];
    }
  }

  function SubOptions(opts: seq<ConjoinOptions>): seq<ConjoinOptions> {
    seq(|opts|, i requires 0 <= i < |opts| => ConjoinOptions(NoSchema, None, opts[i].fields))
  }

  function SubScopes(a: seq<seq<Scope>>, rel: string): seq<seq<Scope>> {
    seq(|a|, i requires 0 <= i < |a| => WithScopes(a[i], rel))
  }

  /** Below a relation the joint list declares, the served scopes are composites of the sub-lists. */
  lemma CompositesBelow(s: seq<Grant>, a: seq<seq<Scope>>, b: seq<Grant>, opts: seq<ConjoinOptions>, x: seq<Scope>,
                        rel: string)
    requires AreComposites(s, a, b, opts, x) && WithScopes(x, rel) != []
    ensures AreComposites(SubLists(s, rel), SubScopes(a, rel), SubLists(b, rel), SubOptions(opts), WithScopes(x, rel))
  {
    forall i | 0 <= i < |s|
      ensures IsComposite(SubLists(s, rel)[i], SubScopes(a, rel)[i], SubLists(b, rel)[i], SubOptions(opts)[i],
                          WithScopes(x, rel)) {
      assert IsComposite(s[i], a[i], b[i], opts[i], x);
      if s[i].Some? {
        CompositeBelow(s[i].value[0], a[i], b[i].value, opts[i], x, rel);
        assert s[i].value == [s[i].value[0]];
      }
    }
  }

  lemma CompositeBelow(c: Scope, a: seq<Scope>, b: seq<Scope>, opts: ConjoinOptions, x: seq<Scope>, rel: string)
    requires IsComposite(Some([c]), a, Some(b), opts, x) && WithScopes(x, rel) != []
    ensures IsComposite(Some(WithScopes([c], rel)), WithScopes(a, rel), Some(WithScopes(b, rel)),
                        ConjoinOptions(NoSchema, None, opts.fields), WithScopes(x, rel))
  {
    assert FitsAt(Values, b, x, rel);
    WithWithin(b, x, rel);
    CompositeSub(a, b, opts, rel);
    OneScopeWith(c, rel);
    OneScopeWith(ConjoinScopes(a, b, opts).value, rel);
  }

  /** For every owner what is served stays within the claimant's joint list, values included. */
  lemma {:induction false} ValuesStay(db: Db, s: seq<Grant>, a: seq<seq<Scope>>, b: seq<Grant>,
                                      opts: seq<ConjoinOptions>, x: seq<Scope>)
    requires AreComposites(s, a, b, opts, x) && Plain(x) && Joined(s).Some? && ValuesKept(db, b, x)
    ensures Attenuates(Values, db, Joined(s).value, x)
    decreases Depth(x)
  {
    if Alone(b) {
      AloneStays(db, s, a, b, opts, x);
    } else {
      var n := Joined(s).value;
      ServedReaches(db, s, a, b, opts, x);
      forall row, f | Exposes(db, n, row, f) ensures Exposes(db, x, row, f) {
        ServedShows(db, s, a, b, opts, x, row, f);
      }
      assert Narrower(Reach, db, n, x);
      forall rel ensures RelationAttenuates(Values, db, n, x, rel) {
        assert RelationAttenuates(Reach, db, n, x, rel) && ValuesKeptAt(db, b, x, rel);
        WithScopesShallower(x, rel);
        if WithScopes(x, rel) != [] {
          CompositesBelow(s, a, b, opts, x, rel);
          JoinedSubLists(s, rel);
          PlainSubScopes(x, rel);
          ValuesStay(db, SubLists(s, rel), SubScopes(a, rel), SubLists(b, rel), SubOptions(opts), WithScopes(x, rel));
        }
      }
    }
  }

  lemma AloneStays(db: Db, s: seq<Grant>, a: seq<seq<Scope>>, b: seq<Grant>, opts: seq<ConjoinOptions>, x: seq<Scope>)
    requires AreComposites(s, a, b, opts, x) && Plain(x) && Joined(s).Some? && Alone(b)
    ensures Attenuates(Values, db, Joined(s).value, x)
  {
    JoinedMembers(s, EMPTY_SCOPE);
    var i :| 0 <= i < |s| && s[i].Some?;
    assert IsComposite(s[i], a[i], b[i], opts[i], x);
    forall j | 0 <= j < |s| && j != i ensures s[j].None? {
      assert IsComposite(s[j], a[j], b[j], opts[j], x);
    }
    JoinedOne(s, i);
    var c := s[i].value[0];
    assert s[i].value == [c];
    EachWithin(db, c, a[i], b[i].value, opts[i], x);
  }
}
