/**
 A table's handlers on the claimant's side. Rows, checks, controls and writes stay
 within the claimant's joint list as they do within the owner's. The values shown
 do for every owner exactly when no handler can lend the owner's fields to
 another handler's rows.
 */
module Claimants {
  import opened Options
  import opened SchemaWalk
  import opened Filters
  import opened Scopes
  import opened RestrictOnly
  import opened JoinedLists
  import opened Fitting
  import opened Handlers
  import opened KeptValues
  import opened Lending

  // ── Exactly ────────────

  /** What this owner's attenuated caller is served stays within the claimant's joint list, values included. */
  ghost predicate ClaimKept(db: Db, user: seq<Grant>, cred: seq<Grant>, opts: seq<ConjoinOptions>)
    requires |user| == |cred| == |opts|
  {
    var served := ServedTogether(AttenuatedEach(user, cred, opts));
    served.Returned? && served.value.Some? ==>
      Joined(cred).Some? && Attenuates(Values, db, served.value.value, Joined(cred).value)
  }

  /** For every owner. */
  ghost predicate NoOwnerWidens(db: Db, cred: seq<Grant>, opts: seq<ConjoinOptions>)
    requires |cred| == |opts|
  {
    forall user: seq<Grant> :: |user| == |cred| && RoleLists(user) ==> ClaimKept(db, user, cred, opts)
  }

  function OwnLists(user: seq<Grant>): seq<seq<Scope>> {
    seq(|user|, i requires 0 <= i < |user| => user[i].Or([]))
  }

  /** Enough: the claimant's lists keep their values for this owner and every other. */
  lemma KeptForEveryOwner(db: Db, user: seq<Grant>, cred: seq<Grant>, opts: seq<ConjoinOptions>)
    requires |user| == |cred| == |opts| && Lookups(opts) && RoleLists(cred) && AllFit(Values, cred)
    requires ValuesKept(db, cred, Joined(cred).Or([]))
    ensures ClaimKept(db, user, cred, opts)
  {
    var each := AttenuatedEach(user, cred, opts);
    var served := ServedTogether(each);
    if served.Returned? && served.value.Some? {
      var s := seq(|each|, i requires 0 <= i < |each| => each[i].value);
      assert served.value == Joined(s);
      ServedComposites(user, cred, opts);
      JoinedMembers(s, EMPTY_SCOPE);
      var k :| 0 <= k < |s| && s[k].Some?;
      assert each[k].value == s[k] && cred[k].Some?;
      PartWithin(cred, k);
      JoinedPlain(cred);
      var x := Joined(cred).value;
      forall i | 0 <= i < |s| ensures IsComposite(s[i], OwnLists(user)[i], cred[i], opts[i], x) {
        assert each[i].value == s[i];
        if s[i].Some? {
          PartWithin(cred, i);
        }
      }
      ValuesStay(db, s, OwnLists(user), cred, opts, x);
    }
  }

  /** The owner of two handlers alone, with one scope on each. */
  function OnTwo(n: nat, i: nat, j: nat, oi: Scope, oj: Scope): (user: seq<Grant>)
    requires i < n && j < n && i != j
    ensures |user| == n
  {
    seq(n, k requires 0 <= k < n => if k == i then Some([oi]) else if k == j then Some([oj]) else None)
  }

  lemma {:induction false} JoinedTwoOf(lists: seq<Grant>, i: nat, j: nat)
    requires i < j < |lists| && lists[i].Some? && lists[j].Some?
    requires forall k :: 0 <= k < |lists| && k != i && k != j ==> lists[k].None?
    ensures Joined(lists) == Some(lists[i].value + lists[j].value)
  {
    var n := |lists| - 1;
    if j == n {
      JoinedOne(lists[..n], i);
    } else {
      JoinedTwoOf(lists[..n], i, j);
    }
  }

  lemma ServedOnTwo(cred: seq<Grant>, opts: seq<ConjoinOptions>, i: nat, j: nat, oi: Scope, oj: Scope, ci: Scope,
                    cj: Scope)
    requires |cred| == |opts| && i < |cred| && j < |cred| && i != j && cred[i].Some? && cred[j].Some?
    requires ConjoinScopes([oi], cred[i].value, opts[i]) == Returned(ci)
    requires ConjoinScopes([oj], cred[j].value, opts[j]) == Returned(cj)
    ensures var served := ServedTogether(AttenuatedEach(OnTwo(|cred|, i, j, oi, oj), cred, opts));
      served.Returned? && served.value.Some? && Pair(served.value.value, ci, cj)
  {
    var user := OnTwo(|cred|, i, j, oi, oj);
    var each := AttenuatedEach(user, cred, opts);
    forall k | 0 <= k < |each|
      ensures each[k] == Returned(if k == i then Some([ci]) else if k == j then Some([cj]) else None) {
      assert each[k] == AttenuatedGrant(Returned(user[k]), Returned(cred[k]), opts[k]);
    }
    TwoTogether(each, i, j, ci, cj);
  }

  lemma TwoTogether(each: seq<Attempt<Grant>>, i: nat, j: nat, c: Scope, d: Scope)
    requires i < |each| && j < |each| && i != j
    requires forall k :: 0 <= k < |each| ==>
      each[k] == Returned(if k == i then Some([c]) else if k == j then Some([d]) else None)
    ensures var served := ServedTogether(each);
      served.Returned? && served.value.Some? && Pair(served.value.value, c, d)
  {
    var lists := seq(|each|, k requires 0 <= k < |each| => each[k].value);
    assert ServedTogether(each) == Returned(Joined(lists));
    if i < j {
      JoinedTwoOf(lists, i, j);
      PairInOrder(lists[i].value + lists[j].value, c, d);
    } else {
      JoinedTwoOf(lists, j, i);
      PairInOrder(lists[j].value + lists[i].value, c, d);
    }
  }

  lemma PairInOrder(n: seq<Scope>, c: Scope, d: Scope)
    requires n == [c] + [d] || n == [d] + [c]
    ensures Pair(n, c, d)
  {
  }

  /**
   The exact condition on the claimant's own lists, whose handlers fit: whoever
   the owner is, no attenuated caller is shown more than the claimant's joint
   list shows, at every depth, if and only if no field can be lent.
   */
  lemma NoOwnerWidensIff(db: Db, cred: seq<Grant>, opts: seq<ConjoinOptions>)
    requires |cred| == |opts| && Lookups(opts) && RoleLists(cred) && AllFit(Values, cred)
    requires forall i :: 0 <= i < |cred| && cred[i].Some? ==> Projectable(cred[i].value, opts[i])
    ensures NoOwnerWidens(db, cred, opts) <==> ValuesKept(db, cred, Joined(cred).Or([]))
  {
    if ValuesKept(db, cred, Joined(cred).Or([])) {
      forall user: seq<Grant> | |user| == |cred| && RoleLists(user) ensures ClaimKept(db, user, cred, opts) {
        KeptForEveryOwner(db, user, cred, opts);
      }
    } else {
      SomeOwnerWidens(db, cred, opts);
    }
  }

  lemma SomeOwnerWidens(db: Db, cred: seq<Grant>, opts: seq<ConjoinOptions>)
    requires |cred| == |opts| && Lookups(opts) && RoleLists(cred) && AllFit(Values, cred)
    requires forall i :: 0 <= i < |cred| && cred[i].Some? ==> Projectable(cred[i].value, opts[i])
    requires !ValuesKept(db, cred, Joined(cred).Or([]))
    ensures !NoOwnerWidens(db, cred, opts)
  {
    var x := Joined(cred).Or([]);
    forall k | 0 <= k < |cred| && cred[k].Some? ensures PartOf(cred[k].value, opts[k], x) {
      PartWithin(cred, k);
    }
    var i, j, oi, oj := Lends(db, cred, opts, x);
    var user := OnTwo(|cred|, i, j, oi, oj);
    ServedOnTwo(cred, opts, i, j, oi, oj, ConjoinScopes([oi], cred[i].value, opts[i]).value,
      ConjoinScopes([oj], cred[j].value, opts[j]).value);
    OnTwoIsRole(|cred|, i, j, oi, oj);
    assert !ClaimKept(db, user, cred, opts);
  }

  lemma OnTwoIsRole(n: nat, i: nat, j: nat, oi: Scope, oj: Scope)
    requires i < n && j < n && i != j && ProjectsOnly(oi) && ProjectsOnly(oj)
    ensures RoleLists(OnTwo(n, i, j, oi, oj))
  {
    ProjectingIsPlain(oi);
    ProjectingIsPlain(oj);
  }

  lemma {:induction false} ProjectingIsPlain(o: Scope)
    requires ProjectsOnly(o)
    ensures PlainScope(o)
    decreases o
  {
    forall rel | rel in o.withs ensures !o.withs[rel].inherited && PlainScope(o.withs[rel]) {
      ProjectingIsPlain(o.withs[rel]);
    }
  }

  // ── What is reached: exactly ────────────

  lemma SilentOwnerKeeps(db: Db, a: seq<Scope>, b: seq<Scope>, opts: ConjoinOptions)
    requires Silent(a) && ConjoinScopes(a, b, opts).Returned?
    ensures var c := ConjoinScopes(a, b, opts).value;
      && (forall row :: RowVisible(db, b, row) ==> RowVisible(db, [c], row))
      && (forall row :: CheckPasses(db, b, row) ==> CheckPasses(db, [c], row))
      && (forall f :: PathGranted(b, f) ==> PathGranted([c], f))
      && (forall key, used :: ControlPermitted(b, key, used) ==> ControlPermitted([c], key, used))
      && (forall path :: Writable(b, path) ==> Writable([c], path))
  {
    var c := ConjoinScopes(a, b, opts).value;
    assert CommonFields(a, b, opts.schema) == Some(UnionProjection(b).value);
    forall row
      ensures RowVisible(db, b, row) ==> RowVisible(db, [c], row)
      ensures CheckPasses(db, b, row) ==> CheckPasses(db, [c], row) {
      CompositeRowsExact(db, a, b, opts, row);
    }
    UnionIsValid(b);
    OneScopeProjection(c);
    forall key, used | ControlPermitted(b, key, used) ensures ControlPermitted([c], key, used) {
      CompositeControlsExact(a, b, opts, key, used);
    }
    OneScopeWrites(c);
  }

  /** What the composite for an unrestricted owner stays within, the claimant's list stays within. */
  lemma {:induction false} SilentOwnerShows(e: Extent, db: Db, a: seq<Scope>, b: seq<Scope>, opts: ConjoinOptions,
                                            x: seq<Scope>)
    requires Silent(a) && ConjoinScopes(a, b, opts).Returned?
    requires Bounded(e, db, [ConjoinScopes(a, b, opts).value], x) && Within(b, x) && Plain(x)
    ensures Bounded(e, db, b, x)
    decreases Depth(x)
  {
    SilentOwnerKeeps(db, a, b, opts);
    NestedWritesFit(b, x);
    assert Narrower(e, db, b, x);
    forall rel ensures RelationAttenuates(e, db, b, x, rel) && FacetsWithinAt(e, b, x, rel) {
      SilentOwnerRelation(e, db, a, b, opts, x, rel);
    }
  }

  lemma {:induction false} SilentOwnerRelation(e: Extent, db: Db, a: seq<Scope>, b: seq<Scope>, opts: ConjoinOptions,
                                               x: seq<Scope>, rel: string)
    requires Silent(a) && ConjoinScopes(a, b, opts).Returned?
    requires Bounded(e, db, [ConjoinScopes(a, b, opts).value], x) && Within(b, x) && Plain(x)
    ensures RelationAttenuates(e, db, b, x, rel) && FacetsWithinAt(e, b, x, rel)
    decreases Depth(x), 0
  {
    var c := ConjoinScopes(a, b, opts).value;
    assert RelationAttenuates(e, db, [c], x, rel) && FacetsWithinAt(e, [c], x, rel);
    CompositeSub(a, b, opts, rel);
    WithScopesShallower(a, rel);
    WithScopesShallower(x, rel);
    WithWithin(b, x, rel);
    PlainSubScopes(x, rel);
    var sb, sx := WithScopes(b, rel), WithScopes(x, rel);
    if sb != [] {
      assert sb[0] in sb;
      var subOpts := ConjoinOptions(NoSchema, None, opts.fields);
      var sub := ConjoinScopes([], sb, subOpts).value;
      var marked := sub.(inherited := OwesInherited([], sb));
      assert marked.(inherited := sub.inherited) == sub;
      MarkIrrelevant(e, db, marked, sub.inherited, sx);
      MarkIrrelevantToFacets(e, marked, sub.inherited, sx);
      SilentLists();
      SilentOwnerShows(e, db, [], sb, subOpts, sx);
    }
  }

  /** For this owner the caller reaches no more than the claimant's joint list. */
  ghost predicate ClaimReached(db: Db, user: seq<Grant>, cred: seq<Grant>, opts: seq<ConjoinOptions>)
    requires |user| == |cred| == |opts|
  {
    var served := ServedTogether(AttenuatedEach(user, cred, opts));
    served.Returned? && served.value.Some? ==>
      Joined(cred).Some? && Bounded(Reach, db, served.value.value, Joined(cred).value)
  }

  lemma OnlyOwnerServes(cred: seq<Grant>, opts: seq<ConjoinOptions>, i: nat)
    requires |cred| == |opts| && i < |cred| && cred[i].Some?
    requires ConjoinScopes([EMPTY_SCOPE], cred[i].value, opts[i]).Returned?
    ensures ServedTogether(AttenuatedEach(OnlyHandler(|cred|, i), cred, opts))
            == Returned(Some([ConjoinScopes([EMPTY_SCOPE], cred[i].value, opts[i]).value]))
  {
    var each := AttenuatedEach(OnlyHandler(|cred|, i), cred, opts);
    assert forall j :: 0 <= j < |each| && j != i ==> each[j] == Returned(None);
    var lists := seq(|each|, j requires 0 <= j < |each| => each[j].value);
    JoinedOne(lists, i);
    assert ServedTogether(each) == Returned(Joined(lists));
  }

  /**
   Whoever the owner is, no attenuated caller reaches more rows, checks, controls
   or writes than the claimant's joint list, if and only if each of its handlers
   fits in these.
   */
  lemma NoOwnerReachesIff(db: Db, cred: seq<Grant>, opts: seq<ConjoinOptions>)
    requires |cred| == |opts| && Lookups(opts) && RoleLists(cred)
    requires forall i :: 0 <= i < |cred| && cred[i].Some? ==>
      ConjoinScopes([EMPTY_SCOPE], cred[i].value, opts[i]).Returned?
    ensures (forall user: seq<Grant> :: |user| == |cred| && RoleLists(user) ==> ClaimReached(db, user, cred, opts))
            <==> AllFit(Reach, cred)
  {
    if AllFit(Reach, cred) {
      forall user: seq<Grant> | |user| == |cred| && RoleLists(user) ensures ClaimReached(db, user, cred, opts) {
        var served := ServedTogether(AttenuatedEach(user, cred, opts));
        if served.Returned? && served.value.Some? {
          KeptHandlersStay(Reach, db, user, cred, opts);
        }
      }
    }
    if forall user: seq<Grant> :: |user| == |cred| && RoleLists(user) ==> ClaimReached(db, user, cred, opts) {
      forall i | 0 <= i < |cred| && cred[i].Some?
        ensures Joined(cred).Some? && Fits(Reach, cred[i].value, Joined(cred).value) {
        MisfitReaches(db, cred, opts, i);
      }
    }
  }

  lemma MisfitReaches(db: Db, cred: seq<Grant>, opts: seq<ConjoinOptions>, i: nat)
    requires |cred| == |opts| && RoleLists(cred) && i < |cred| && cred[i].Some?
    requires ConjoinScopes([EMPTY_SCOPE], cred[i].value, opts[i]).Returned?
    ensures Joined(cred).Some? && RoleLists(OnlyHandler(|cred|, i))
    ensures !Fits(Reach, cred[i].value, Joined(cred).value) ==> !ClaimReached(db, OnlyHandler(|cred|, i), cred, opts)
  {
    OnlyOwnerServes(cred, opts, i);
    HandlerBoundedIffFits(Reach, db, cred, i);
    JoinedPlain(cred);
    PartWithin(cred, i);
    SilentLists();
    if ClaimReached(db, OnlyHandler(|cred|, i), cred, opts) {
      SilentOwnerShows(Reach, db, [EMPTY_SCOPE], cred[i].value, opts[i], Joined(cred).value);
    }
  }

  // ── Enough for one owner: common fields ────────────

  /** The claimant's side too: of several served handlers each must leave a common field. */
  ghost predicate ServedFieldsKept(user: seq<Grant>, cred: seq<Grant>, opts: seq<ConjoinOptions>)
    requires |user| == |cred| == |opts|
  {
    || OneServed(user, cred)
    || (forall i :: 0 <= i < |user| && user[i].Some? && cred[i].Some? ==>
          KeepsFields(user[i].value, cred[i].value, opts[i].schema))
  }

  // ── One table for an attenuated caller ────────────

  /** The claimant's values on a table: kept for this owner by common fields, or for every owner. */
  ghost predicate ClaimantKept(db: Db, user: seq<Grant>, cred: seq<Grant>, opts: seq<ConjoinOptions>)
    requires |user| == |cred| == |opts|
  {
    ServedFieldsKept(user, cred, opts) || ValuesKept(db, cred, Joined(cred).Or([]))
  }

  /**
   What an attenuated caller is served on a table attenuates the claimant's joint
   grant there; the values shown too, where they are kept.
   */
  lemma ClaimantTable(e: Extent, db: Db, user: seq<Grant>, cred: seq<Grant>, opts: seq<ConjoinOptions>)
    requires |user| == |cred| == |opts| && Lookups(opts) && Unwidenable(e, cred)
    requires e.Values? ==> ClaimantKept(db, user, cred, opts)
    requires ServedTogether(AttenuatedEach(user, cred, opts)).Returned?
    requires ServedTogether(AttenuatedEach(user, cred, opts)).value.Some?
    ensures Joined(cred).Some?
    ensures Attenuates(e, db, ServedTogether(AttenuatedEach(user, cred, opts)).value.value, Joined(cred).value)
  {
    var served := ServedTogether(AttenuatedEach(user, cred, opts)).value.value;
    if e.Values? && AllFit(e, cred) && !ServedFieldsKept(user, cred, opts) {
      KeptForEveryOwner(db, user, cred, opts);
    } else if AllFit(e, cred) && (e.Reach? || !OneServed(user, cred)) {
      KeptHandlersStay(e, db, user, cred, opts);
    } else {
      var i := ServedOne(user, cred, opts);
      CompositeAttenuates(e, db, user[i].value, cred[i].value, opts[i]);
      PartAttenuates(e, db, cred, i, served);
    }
  }

  lemma KeptHandlersStay(e: Extent, db: Db, user: seq<Grant>, cred: seq<Grant>, opts: seq<ConjoinOptions>)
    requires |user| == |cred| == |opts| && Lookups(opts) && RoleLists(cred) && AllFit(e, cred)
    requires e.Values? ==> forall i :: 0 <= i < |user| && user[i].Some? && cred[i].Some? ==>
      KeepsFields(user[i].value, cred[i].value, opts[i].schema)
    requires ServedTogether(AttenuatedEach(user, cred, opts)).Returned?
    requires ServedTogether(AttenuatedEach(user, cred, opts)).value.Some?
    ensures Joined(cred).Some?
    ensures Bounded(e, db, ServedTogether(AttenuatedEach(user, cred, opts)).value.value, Joined(cred).value)
  {
    var served := ServedTogether(AttenuatedEach(user, cred, opts)).value.value;
    ServedComposites(user, cred, opts);
    assert served[0] in served;
    forall s | s in served ensures Joined(cred).Some? && Bounded(e, db, [s], Joined(cred).value) {
      var i := ServedFrom(user, cred, opts, s);
      CompositeBounded(e, db, user[i].value, cred[i].value, opts[i]);
      PartBounded(e, db, cred, i, [s]);
    }
    ListBounded(e, db, served, Joined(cred).value);
  }
}
