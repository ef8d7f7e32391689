/**
 A table's read grant over all the handlers registered for it. Each handler is
 evaluated and attenuated by itself, then their scopes are served as one list.
 An attenuated caller stays within its owner for every credential exactly when
 each handler's own list fits into the owner's joint list.
 */
module Handlers {
  import opened Options
  import opened Projections
  import opened SchemaWalk
  import opened Intersections
  import opened Filters
  import opened Scopes
  import opened RestrictOnly
  import opened JoinedLists
  import opened Fitting

  /** One handler's outcome: the scopes it is served under, or none when it denies. */
  type Grant = Option<seq<Scope>>

  /** An attenuated caller's grant on one handler: both passes must allow, and their scopes are conjoined. */
  function AttenuatedGrant(user: Attempt<Grant>, cred: Attempt<Grant>, opts: ConjoinOptions): Attempt<Grant> {
    var u :- user;
    var c :- cred;
    if u.None? || c.None? then Returned(None)
    else
      var conjoined :- ConjoinScopes(u.value, c.value, opts);
      Returned(Some([conjoined]))
  }

  /** Several handlers as one surface: a failing evaluation fails it, the allowing ones' scopes are concatenated. */
  function ServedTogether(outcomes: seq<Attempt<Grant>>): Attempt<Grant> {
    if exists i :: 0 <= i < |outcomes| && outcomes[i].Threw? then Threw
    else Returned(Joined(seq(|outcomes|, i requires 0 <= i < |outcomes| => outcomes[i].value)))
  }

  /** The handlers of one table for an attenuated caller. */
  function AttenuatedEach(user: seq<Grant>, cred: seq<Grant>, opts: seq<ConjoinOptions>): seq<Attempt<Grant>>
    requires |user| == |cred| == |opts|
  {
    seq(|user|, i requires 0 <= i < |user| => AttenuatedGrant(Returned(user[i]), Returned(cred[i]), opts[i]))
  }

  // ── One composite against each side, facet by facet ────────────

  /** The two sides leave a common field, here and in every relation the second side declares. */
  ghost predicate KeepsFields(a: seq<Scope>, b: seq<Scope>, schema: Schema)
    decreases Depth(b)
  {
    && UnionProjection(a).Returned? && UnionProjection(b).Returned? && CommonFields(a, b, schema).Some?
    && forall rel :: KeepsFieldsAt(a, b, rel)
  }

  ghost predicate KeepsFieldsAt(a: seq<Scope>, b: seq<Scope>, rel: string)
    decreases Depth(b), 0
  {
    WithScopesShallower(b, rel);
    WithScopes(b, rel) != [] ==> KeepsFields(WithScopes(a, rel), WithScopes(b, rel), NoSchema)
  }

  lemma CompositePaths(a: seq<Scope>, b: seq<Scope>, opts: ConjoinOptions, f: string)
    requires ConjoinScopes(a, b, opts).Returned? && Descending(opts.schema)
    ensures var c := ConjoinScopes(a, b, opts).value;
      && UnionProjection([c]) == Returned(c.projection) && UnionControls([c]).Returned?
      && (PathGranted([c], f) ==> PathGranted(a, f))
      && (PathGranted([c], f) && CommonFields(a, b, opts.schema).Some? ==> PathGranted(b, f))
  {
    var c := ConjoinScopes(a, b, opts).value;
    UnionIsValid(a);
    UnionIsValid(b);
    CompositeControlsExact(a, b, opts, "", {});
    var pa, pb := UnionProjection(a).value, UnionProjection(b).value;
    if CommonFields(a, b, opts.schema).Some? {
      OnlyUniversesGiveUniverse(pa, pb, opts.schema);
      if Grants(c.projection, f) {
        IntersectionGrantsBoth(pa, pb, opts.schema, f);
      }
    }
    OneScopeProjection(c);
  }

  /** What a relation's sub-scope of the composite is. */
  lemma CompositeSub(a: seq<Scope>, b: seq<Scope>, opts: ConjoinOptions, rel: string)
    requires ConjoinScopes(a, b, opts).Returned?
    ensures var c := ConjoinScopes(a, b, opts).value;
            var sa, sb := WithScopes(a, rel), WithScopes(b, rel);
            var sub := ConjoinScopes(sa, sb, ConjoinOptions(NoSchema, None, opts.fields));
      if sa == [] && sb == [] then WithScopes([c], rel) == []
      else sub.Returned? && WithScopes([c], rel) == [sub.value.(inherited := OwesInherited(sa, sb))]
  {
    OneScopeWith(ConjoinScopes(a, b, opts).value, rel);
    WithScopesShallower(a, rel);
    WithScopesShallower(b, rel);
    if rel in WithNames(a) + WithNames(b) {
      assert ConjoinRelation(a, b, rel, opts.fields).Returned?;
    }
  }

  lemma MarkIrrelevantToFacets(e: Extent, c: Scope, mark: bool, x: seq<Scope>)
    requires FacetsWithin(e, [c], x)
    ensures FacetsWithin(e, [c.(inherited := mark)], x)
  {
    var d := c.(inherited := mark);
    assert ProjectionList([d]) == ProjectionList([c]) && PolicyList([d]) == PolicyList([c]);
    assert UnionProjection([d]) == UnionProjection([c]) && UnionControls([d]) == UnionControls([c]);
    assert forall f :: PathGranted([d], f) <==> PathGranted([c], f);
    forall rel ensures FacetsWithinAt(e, [d], x, rel) {
      OneScopeWith(c, rel);
      OneScopeWith(d, rel);
      assert FacetsWithinAt(e, [c], x, rel);
    }
  }

  /**
   The composite's fields stay within the first side's, at every depth; within the second side's
   where a common field is left.
   */
  lemma {:induction false} CompositeFacetsWithin(e: Extent, a: seq<Scope>, b: seq<Scope>, opts: ConjoinOptions)
    requires ConjoinScopes(a, b, opts).Returned? && Descending(opts.schema)
    ensures FacetsWithin(e, [ConjoinScopes(a, b, opts).value], a)
    ensures e.Reach? || KeepsFields(a, b, opts.schema) ==> FacetsWithin(e, [ConjoinScopes(a, b, opts).value], b)
    decreases Depth(a) + Depth(b)
  {
    var c := ConjoinScopes(a, b, opts).value;
    forall f
      ensures PathGranted([c], f) ==> PathGranted(a, f)
      ensures PathGranted([c], f) && CommonFields(a, b, opts.schema).Some? ==> PathGranted(b, f) {
      CompositePaths(a, b, opts, f);
    }
    CompositePaths(a, b, opts, "");
    forall rel ensures FacetsWithinAt(e, [c], a, rel) {
      SubFacetsWithin(e, a, b, opts, rel);
    }
    if e.Reach? || KeepsFields(a, b, opts.schema) {
      forall rel ensures FacetsWithinAt(e, [c], b, rel) {
        assert e.Values? ==> KeepsFieldsAt(a, b, rel);
        SubFacetsWithin(e, a, b, opts, rel);
      }
    }
  }

  lemma {:induction false} SubFacetsWithin(e: Extent, a: seq<Scope>, b: seq<Scope>, opts: ConjoinOptions, rel: string)
    requires ConjoinScopes(a, b, opts).Returned?
    ensures FacetsWithinAt(e, [ConjoinScopes(a, b, opts).value], a, rel)
    ensures e.Reach? || KeepsFieldsAt(a, b, rel) ==> FacetsWithinAt(e, [ConjoinScopes(a, b, opts).value], b, rel)
    decreases Depth(a) + Depth(b), 0
  {
    CompositeSub(a, b, opts, rel);
    WithScopesShallower(a, rel);
    WithScopesShallower(b, rel);
    var sa, sb := WithScopes(a, rel), WithScopes(b, rel);
    if sa != [] || sb != [] {
      var subOpts := ConjoinOptions(NoSchema, None, opts.fields);
      var sub := ConjoinScopes(sa, sb, subOpts).value;
      CompositeFacetsWithin(e, sa, sb, subOpts);
      MarkIrrelevantToFacets(e, sub, OwesInherited(sa, sb), sa);
      if FacetsWithin(e, [sub], sb) {
        MarkIrrelevantToFacets(e, sub, OwesInherited(sa, sb), sb);
      }
    }
  }

  lemma CompositeBounded(e: Extent, db: Db, a: seq<Scope>, b: seq<Scope>, opts: ConjoinOptions)
    requires ConjoinScopes(a, b, opts).Returned? && Descending(opts.schema)
    ensures Bounded(e, db, [ConjoinScopes(a, b, opts).value], a)
    ensures e.Reach? || KeepsFields(a, b, opts.schema) ==> Bounded(e, db, [ConjoinScopes(a, b, opts).value], b)
  {
    CompositeAttenuates(e, db, a, b, opts);
    CompositeFacetsWithin(e, a, b, opts);
  }

  // ── A joined list and its parts ────────────

  lemma PartWithin(lists: seq<Grant>, i: nat)
    requires i < |lists| && lists[i].Some?
    ensures Joined(lists).Some? && Within(lists[i].value, Joined(lists).value)
  {
    forall s ensures s in lists[i].value ==> s in Joined(lists).Or([]) {
      JoinedMembers(lists, s);
    }
    JoinedMembers(lists, EMPTY_SCOPE);
  }

  lemma JoinedPlain(lists: seq<Grant>)
    requires forall i :: 0 <= i < |lists| && lists[i].Some? ==> Plain(lists[i].value)
    ensures Plain(Joined(lists).Or([]))
  {
    forall s | s in Joined(lists).Or([]) ensures PlainScope(s) {
      JoinedMembers(lists, s);
    }
  }

  // ── Enough: every handler fits ────────────

  /** Each allowing handler's list fits into the joint one. */
  ghost predicate AllFit(e: Extent, lists: seq<Grant>) {
    forall i :: 0 <= i < |lists| && lists[i].Some? ==>
      Joined(lists).Some? && Fits(e, lists[i].value, Joined(lists).value)
  }

  /** What role scopes are: lists that are not empty, without the one-sided mark. */
  ghost predicate RoleLists(lists: seq<Grant>) {
    forall i :: 0 <= i < |lists| && lists[i].Some? ==> lists[i].value != [] && Plain(lists[i].value)
  }

  /** Each table lookup answers with children below their parent. */
  ghost predicate Lookups(opts: seq<ConjoinOptions>) {
    forall i :: 0 <= i < |opts| ==> Descending(opts[i].schema)
  }

  /** One handler's own list stays within the joint list exactly when it fits. */
  lemma HandlerBoundedIffFits(e: Extent, db: Db, lists: seq<Grant>, i: nat)
    requires RoleLists(lists) && i < |lists| && lists[i].Some?
    ensures Joined(lists).Some?
    ensures Bounded(e, db, lists[i].value, Joined(lists).value) <==> Fits(e, lists[i].value, Joined(lists).value)
  {
    JoinedPlain(lists);
    PartWithin(lists, i);
    BoundedIffFits(e, db, lists[i].value, Joined(lists).value);
  }

  /** The composites of an attenuated table: one scope per handler both passes allow. */
  lemma ServedComposites(user: seq<Grant>, cred: seq<Grant>, opts: seq<ConjoinOptions>)
    requires |user| == |cred| == |opts|
    requires ServedTogether(AttenuatedEach(user, cred, opts)).Returned?
    ensures forall i :: 0 <= i < |user| && user[i].Some? && cred[i].Some? ==>
      ConjoinScopes(user[i].value, cred[i].value, opts[i]).Returned?
    ensures forall s :: s in ServedTogether(AttenuatedEach(user, cred, opts)).value.Or([]) ==>
      exists i :: 0 <= i < |user| && user[i].Some? && cred[i].Some?
                  && Returned(s) == ConjoinScopes(user[i].value, cred[i].value, opts[i])
    ensures ServedTogether(AttenuatedEach(user, cred, opts)).value.Some? ==>
      ServedTogether(AttenuatedEach(user, cred, opts)).value.value != []
  {
    var each := AttenuatedEach(user, cred, opts);
    forall i | 0 <= i < |user| && user[i].Some? && cred[i].Some?
      ensures ConjoinScopes(user[i].value, cred[i].value, opts[i]).Returned? {
      assert each[i].Returned?;
    }
    var lists := seq(|each|, i requires 0 <= i < |each| => each[i].value);
    assert Joined(lists) == ServedTogether(each).value;
    forall s | s in Joined(lists).Or([])
      ensures exists i :: 0 <= i < |user| && user[i].Some? && cred[i].Some?
                          && Returned(s) == ConjoinScopes(user[i].value, cred[i].value, opts[i]) {
      JoinedMembers(lists, s);
      var i :| 0 <= i < |lists| && lists[i].Some? && s in lists[i].value;
      assert each[i].value == lists[i];
    }
    if Joined(lists).Some? {
      JoinedMembers(lists, EMPTY_SCOPE);
      var i :| 0 <= i < |lists| && lists[i].Some?;
      assert each[i].value == lists[i];
      JoinedMembers(lists, lists[i].value[0]);
    }
  }

  lemma ServedFrom(user: seq<Grant>, cred: seq<Grant>, opts: seq<ConjoinOptions>, s: Scope) returns (i: nat)
    requires |user| == |cred| == |opts|
    requires ServedTogether(AttenuatedEach(user, cred, opts)).Returned?
    requires s in ServedTogether(AttenuatedEach(user, cred, opts)).value.Or([])
    ensures i < |user| && user[i].Some? && cred[i].Some?
    ensures Returned(s) == ConjoinScopes(user[i].value, cred[i].value, opts[i])
  {
    ServedComposites(user, cred, opts);
    i :| 0 <= i < |user| && user[i].Some? && cred[i].Some? &&
         Returned(s) == ConjoinScopes(user[i].value, cred[i].value, opts[i]);
  }

  lemma PartBounded(e: Extent, db: Db, lists: seq<Grant>, i: nat, n: seq<Scope>)
    requires RoleLists(lists) && AllFit(e, lists) && i < |lists| && lists[i].Some? && Bounded(e, db, n, lists[i].value)
    ensures Joined(lists).Some? && Bounded(e, db, n, Joined(lists).value)
  {
    HandlerBoundedIffFits(e, db, lists, i);
    BoundedTransitive(e, db, n, lists[i].value, Joined(lists).value);
  }

  /** If every handler fits, no credential widens the joint grant, each facet at every depth. */
  lemma FittingHandlersNeverWiden(e: Extent, db: Db, user: seq<Grant>, cred: seq<Grant>, opts: seq<ConjoinOptions>)
    requires |user| == |cred| == |opts| && Lookups(opts) && RoleLists(user) && AllFit(e, user)
    requires ServedTogether(AttenuatedEach(user, cred, opts)).Returned?
    requires ServedTogether(AttenuatedEach(user, cred, opts)).value.Some?
    ensures Joined(user).Some?
    ensures Bounded(e, db, ServedTogether(AttenuatedEach(user, cred, opts)).value.value, Joined(user).value)
  {
    var served := ServedTogether(AttenuatedEach(user, cred, opts)).value.value;
    ServedComposites(user, cred, opts);
    assert served[0] in served;
    forall s | s in served ensures Joined(user).Some? && Bounded(e, db, [s], Joined(user).value) {
      var i := ServedFrom(user, cred, opts, s);
      CompositeBounded(e, db, user[i].value, cred[i].value, opts[i]);
      PartBounded(e, db, user, i, [s]);
    }
    ListBounded(e, db, served, Joined(user).value);
  }

  // ── Needed: a credential for one handler alone ────────────

  /** Scopes that restrict nothing and declare no relation. */
  ghost predicate Silent(b: seq<Scope>) {
    && UnionFilter(b).None? && UnionCheck(b).None?
    && UnionProjection(b) == Returned(map[]) && UnionControls(b) == Returned(map[])
    && UnionAllowedFields(b).None? && WithNames(b) == {}
  }

  lemma SilentLists()
    ensures Silent([]) && Silent([EMPTY_SCOPE])
  {
    var e := [EMPTY_SCOPE];
    assert FilterList(e) == [UNRESTRICTED] && CheckList(e) == [UNRESTRICTED];
    OneScopeProjection(EMPTY_SCOPE);
    assert PolicyList(e) == [None] && PolicyList(e)[0] == None;
    OneScopeWrites(EMPTY_SCOPE);
    assert FilterList([]) == [] && CheckList([]) == [];
  }

  lemma SilentKeepsFacets(db: Db, a: seq<Scope>, b: seq<Scope>, opts: ConjoinOptions)
    requires Silent(b) && ConjoinScopes(a, b, opts).Returned?
    ensures var c := ConjoinScopes(a, b, opts).value;
      && (forall row :: RowVisible(db, a, row) ==> RowVisible(db, [c], row))
      && (forall row :: CheckPasses(db, a, row) ==> CheckPasses(db, [c], row))
      && (forall f :: PathGranted(a, f) ==> PathGranted([c], f))
      && (forall key, used :: ControlPermitted(a, key, used) ==> ControlPermitted([c], key, used))
      && (forall path :: Writable(a, path) ==> Writable([c], path))
  {
    var c := ConjoinScopes(a, b, opts).value;
    SilentKeepsFields(a, b, opts);
    forall row
      ensures RowVisible(db, a, row) ==> RowVisible(db, [c], row)
      ensures CheckPasses(db, a, row) ==> CheckPasses(db, [c], row) {
      CompositeRowsExact(db, a, b, opts, row);
    }
    forall key, used | ControlPermitted(a, key, used) ensures ControlPermitted([c], key, used) {
      CompositeControlsExact(a, b, opts, key, used);
    }
  }

  lemma SilentKeepsFields(a: seq<Scope>, b: seq<Scope>, opts: ConjoinOptions)
    requires Silent(b) && ConjoinScopes(a, b, opts).Returned?
    ensures var c := ConjoinScopes(a, b, opts).value;
      && (forall f :: PathGranted(a, f) ==> PathGranted([c], f))
      && (forall path :: Writable(a, path) ==> Writable([c], path))
  {
    var c := ConjoinScopes(a, b, opts).value;
    assert CommonFields(a, b, opts.schema) == Some(UnionProjection(a).value);
    UnionIsValid(a);
    OneScopeProjection(c);
    OneScopeWrites(c);
  }

  /** What a composite with a silent side stays within, the other side stays within. */
  lemma {:induction false} SilentSideShows(e: Extent, db: Db, a: seq<Scope>, b: seq<Scope>, opts: ConjoinOptions,
                                           x: seq<Scope>)
    requires Silent(b) && ConjoinScopes(a, b, opts).Returned?
    requires Bounded(e, db, [ConjoinScopes(a, b, opts).value], x) && Within(a, x) && Plain(x)
    ensures Bounded(e, db, a, x)
    decreases Depth(x)
  {
    SilentKeepsFacets(db, a, b, opts);
    NestedWritesFit(a, x);
    assert Narrower(e, db, a, x);
    forall rel ensures RelationAttenuates(e, db, a, x, rel) && FacetsWithinAt(e, a, x, rel) {
      SilentSideRelation(e, db, a, b, opts, x, rel);
    }
  }

  lemma {:induction false} SilentSideRelation(e: Extent, db: Db, a: seq<Scope>, b: seq<Scope>, opts: ConjoinOptions,
                                              x: seq<Scope>, rel: string)
    requires Silent(b) && ConjoinScopes(a, b, opts).Returned?
    requires Bounded(e, db, [ConjoinScopes(a, b, opts).value], x) && Within(a, x) && Plain(x)
    ensures RelationAttenuates(e, db, a, x, rel) && FacetsWithinAt(e, a, x, rel)
    decreases Depth(x), 0
  {
    var c := ConjoinScopes(a, b, opts).value;
    assert RelationAttenuates(e, db, [c], x, rel) && FacetsWithinAt(e, [c], x, rel);
    CompositeSub(a, b, opts, rel);
    WithScopesShallower(b, rel);
    WithScopesShallower(x, rel);
    WithWithin(a, x, rel);
    PlainSubScopes(x, rel);
    var da, dx := WithScopes(a, rel), WithScopes(x, rel);
    if da != [] {
      assert da[0] in da;
      var subOpts := ConjoinOptions(NoSchema, None, opts.fields);
      var sub := ConjoinScopes(da, [], subOpts).value;
      var marked := sub.(inherited := OwesInherited(da, []));
      assert marked.(inherited := sub.inherited) == sub;
      MarkIrrelevant(e, db, marked, sub.inherited, dx);
      MarkIrrelevantToFacets(e, marked, sub.inherited, dx);
      SilentLists();
      SilentSideShows(e, db, da, [], subOpts, dx);
    }
  }

  /** The credential of one handler: it may use that one without restriction, and no other. */
  function OnlyHandler(n: nat, i: nat): (cred: seq<Grant>)
    requires i < n
    ensures |cred| == n
  {
    seq(n, j requires 0 <= j < n => if j == i then Some([EMPTY_SCOPE]) else None)
  }

  lemma OnlyHandlerServes(user: seq<Grant>, opts: seq<ConjoinOptions>, i: nat)
    requires |user| == |opts| && i < |user| && user[i].Some?
    requires ConjoinScopes(user[i].value, [EMPTY_SCOPE], opts[i]).Returned?
    ensures ServedTogether(AttenuatedEach(user, OnlyHandler(|user|, i), opts))
            == Returned(Some([ConjoinScopes(user[i].value, [EMPTY_SCOPE], opts[i]).value]))
  {
    var each := AttenuatedEach(user, OnlyHandler(|user|, i), opts);
    assert forall j :: 0 <= j < |each| && j != i ==> each[j] == Returned(None);
    var lists := seq(|each|, j requires 0 <= j < |each| => each[j].value);
    JoinedOne(lists, i);
    assert ServedTogether(each) == Returned(Joined(lists));
  }

  lemma {:induction false} JoinedOne(lists: seq<Grant>, i: nat)
    requires i < |lists| && lists[i].Some? && forall j :: 0 <= j < |lists| && j != i ==> lists[j].None?
    ensures Joined(lists) == lists[i]
  {
    var n := |lists| - 1;
    if i == n {
      JoinedNone(lists[..n]);
      assert [] + lists[n].value == lists[n].value;
    } else {
      JoinedOne(lists[..n], i);
    }
  }

  lemma {:induction false} JoinedNone(lists: seq<Grant>)
    requires forall j :: 0 <= j < |lists| ==> lists[j].None?
    ensures Joined(lists) == None
  {
    if lists != [] {
      JoinedNone(lists[..|lists| - 1]);
    }
  }

  /** No credential widens the joint grant of a table, each facet at every depth. */
  ghost predicate NoCredentialWidens(e: Extent, db: Db, user: seq<Grant>, opts: seq<ConjoinOptions>)
    requires |user| == |opts|
  {
    forall cred: seq<Grant> :: |cred| == |user| ==> CredentialStays(e, db, user, cred, opts)
  }

  ghost predicate CredentialStays(e: Extent, db: Db, user: seq<Grant>, cred: seq<Grant>, opts: seq<ConjoinOptions>)
    requires |user| == |cred| == |opts|
  {
    var served := ServedTogether(AttenuatedEach(user, cred, opts));
    served.Returned? && served.value.Some? ==>
      Joined(user).Some? && Bounded(e, db, served.value.value, Joined(user).value)
  }

  /** Each handler's list can be conjoined with a claim that restricts nothing. */
  ghost predicate Conjoinable(user: seq<Grant>, opts: seq<ConjoinOptions>)
    requires |user| == |opts|
  {
    forall i :: 0 <= i < |user| && user[i].Some? ==> ConjoinScopes(user[i].value, [EMPTY_SCOPE], opts[i]).Returned?
  }

  /**
   The exact condition on the owner's own lists: no credential widens the joint
   grant of a table's handlers, if and only if each handler's list fits into it.
   */
  lemma NoCredentialWidensIff(e: Extent, db: Db, user: seq<Grant>, opts: seq<ConjoinOptions>)
    requires |user| == |opts| && Lookups(opts) && RoleLists(user) && Conjoinable(user, opts)
    ensures NoCredentialWidens(e, db, user, opts) <==> AllFit(e, user)
  {
    if AllFit(e, user) {
      forall cred: seq<Grant> | |cred| == |user| ensures CredentialStays(e, db, user, cred, opts) {
        var served := ServedTogether(AttenuatedEach(user, cred, opts));
        if served.Returned? && served.value.Some? {
          FittingHandlersNeverWiden(e, db, user, cred, opts);
        }
      }
    }
    if NoCredentialWidens(e, db, user, opts) {
      forall i | 0 <= i < |user| && user[i].Some?
        ensures Joined(user).Some? && Fits(e, user[i].value, Joined(user).value) {
        MisfitWidens(e, db, user, opts, i);
        assert CredentialStays(e, db, user, OnlyHandler(|user|, i), opts);
      }
    }
  }

  /** A handler that does not fit: the credential for it alone, without restriction, is served more than its owner. */
  lemma MisfitWidens(e: Extent, db: Db, user: seq<Grant>, opts: seq<ConjoinOptions>, i: nat)
    requires |user| == |opts| && RoleLists(user) && i < |user| && user[i].Some?
    requires ConjoinScopes(user[i].value, [EMPTY_SCOPE], opts[i]).Returned?
    ensures Joined(user).Some?
    ensures !Fits(e, user[i].value, Joined(user).value) ==> !CredentialStays(e, db, user, OnlyHandler(|user|, i), opts)
  {
    OnlyHandlerServes(user, opts, i);
    HandlerBoundedIffFits(e, db, user, i);
    JoinedPlain(user);
    PartWithin(user, i);
    SilentLists();
    if CredentialStays(e, db, user, OnlyHandler(|user|, i), opts) {
      SilentSideShows(e, db, user[i].value, [EMPTY_SCOPE], opts[i], Joined(user).value);
    }
  }

  // ── One table for an attenuated caller ────────────

  /** At most one handler of the table allows. */
  ghost predicate Alone(lists: seq<Grant>) {
    forall i, j :: 0 <= i < |lists| && 0 <= j < |lists| && lists[i].Some? && lists[j].Some? ==> i == j
  }

  /** The owner's lists of one table that no credential can widen. */
  ghost predicate Unwidenable(e: Extent, lists: seq<Grant>) {
    RoleLists(lists) && (Alone(lists) || AllFit(e, lists))
  }

  /** At most one handler allows both. */
  ghost predicate OneServed(user: seq<Grant>, cred: seq<Grant>)
    requires |user| == |cred|
  {
    forall i, j | 0 <= i < |user| && 0 <= j < |user| ::
      user[i].Some? && cred[i].Some? && user[j].Some? && cred[j].Some? ==> i == j
  }

  /** A part of joined lists that cannot be widened attenuates the whole. */
  lemma PartAttenuates(e: Extent, db: Db, lists: seq<Grant>, i: nat, n: seq<Scope>)
    requires Unwidenable(e, lists) && i < |lists| && lists[i].Some? && Attenuates(e, db, n, lists[i].value)
    ensures Joined(lists).Some? && Attenuates(e, db, n, Joined(lists).value)
  {
    if AllFit(e, lists) {
      HandlerBoundedIffFits(e, db, lists, i);
      AttenuatesTransitive(e, db, n, lists[i].value, Joined(lists).value);
    } else {
      JoinedOne(lists, i);
    }
  }

  /** What an attenuated caller is served on a table attenuates the owner's joint grant there. */
  lemma OwnerTable(e: Extent, db: Db, user: seq<Grant>, cred: seq<Grant>, opts: seq<ConjoinOptions>)
    requires |user| == |cred| == |opts| && Lookups(opts) && Unwidenable(e, user)
    requires ServedTogether(AttenuatedEach(user, cred, opts)).Returned?
    requires ServedTogether(AttenuatedEach(user, cred, opts)).value.Some?
    ensures Joined(user).Some?
    ensures Attenuates(e, db, ServedTogether(AttenuatedEach(user, cred, opts)).value.value, Joined(user).value)
  {
    var served := ServedTogether(AttenuatedEach(user, cred, opts)).value.value;
    if AllFit(e, user) {
      FittingHandlersNeverWiden(e, db, user, cred, opts);
    } else {
      var i := ServedOne(user, cred, opts);
      CompositeAttenuates(e, db, user[i].value, cred[i].value, opts[i]);
      PartAttenuates(e, db, user, i, served);
    }
  }

  /** Where at most one handler is served, it is one composite scope. */
  lemma ServedOne(user: seq<Grant>, cred: seq<Grant>, opts: seq<ConjoinOptions>) returns (i: nat)
    requires |user| == |cred| == |opts|
    requires ServedTogether(AttenuatedEach(user, cred, opts)).Returned?
    requires ServedTogether(AttenuatedEach(user, cred, opts)).value.Some?
    requires OneServed(user, cred)
    ensures i < |user| && user[i].Some? && cred[i].Some?
    ensures ConjoinScopes(user[i].value, cred[i].value, opts[i]).Returned?
    ensures ServedTogether(AttenuatedEach(user, cred, opts)).value.value
            == [ConjoinScopes(user[i].value, cred[i].value, opts[i]).value]
  {
    var each := AttenuatedEach(user, cred, opts);
    var lists := seq(|each|, j requires 0 <= j < |each| => each[j].value);
    assert Joined(lists) == ServedTogether(each).value;
    ServedComposites(user, cred, opts);
    var s := Joined(lists).value[0];
    assert s in Joined(lists).Or([]);
    i :| 0 <= i < |user| && user[i].Some? && cred[i].Some? &&
         Returned(s) == ConjoinScopes(user[i].value, cred[i].value, opts[i]);
    forall j | 0 <= j < |lists| && j != i ensures lists[j].None? {
      assert each[j].value == lists[j];
    }
    assert each[i].value == lists[i];
    JoinedOne(lists, i);
  }
}
