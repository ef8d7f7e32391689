/**
 Resolution of `$with` relations: a declared sub-scope governs the joined rows,
 a silent or one-sided one owes the caller's own grant on the related table.
 An attenuated caller reaches, through any chain of relations, no more than
 either side alone.
 */
module Relations {
  import opened Options
  import opened SchemaWalk
  import opened Filters
  import opened Scopes
  import opened RestrictOnly
  import opened Handlers
  import opened Claimants

  /**
   What resolution reads besides the scopes: the relation graph, the caller's
   own outcome on each handler registered for a table, each table's relations,
   and what a conjunction over a table knows of its schema.
   */
  datatype World = World(
    related: (string, string) -> Option<string>,
    outcomes: string -> seq<Attempt<Grant>>,
    relations: string -> set<string>,
    options: string -> ConjoinOptions)

  /** The caller's own read grant on a table: all its handlers served as one; none without a handler. */
  function ReadGrant(w: World, table: string): Attempt<Grant> {
    ServedTogether(w.outcomes(table))
  }

  function Target(w: World, table: Option<string>, rel: string): Option<string> {
    if table.Some? then w.related(table.value, rel) else None
  }

  /** The scopes governing a relation's rows; `None` when the relation is hidden. */
  function ResolveRelation(w: World, scopes: seq<Scope>, table: Option<string>,
                           rel: string): Attempt<Option<seq<Scope>>> {
    var declared := WithScopes(scopes, rel);
    var target := Target(w, table, rel);
    if declared != [] && !Inherits(declared) then Returned(Some(declared))
    else if target.None? then Returned(None)
    else
      var read :- ReadGrant(w, target.value);
      if read.None? || declared == [] then Returned(read)
      else
        var conjoined :- ConjoinScopes(declared, read.value, w.options(target.value));
        Returned(Some([conjoined]))
  }

  /** Some scope declares the relation, and no declared sub-scope is marked one-sided. */
  ghost predicate DeclaredAlone(scopes: seq<Scope>, rel: string) {
    && (exists s :: s in scopes && rel in s.withs)
    && (forall s :: s in scopes && rel in s.withs ==> !s.withs[rel].inherited)
  }

  /** The caller's own grant on the table the relation leads to; none without a related table. */
  ghost predicate GrantBehind(w: World, table: Option<string>, rel: string, grant: Attempt<Grant>) {
    if table.Some? && w.related(table.value, rel).Some?
    then grant == ReadGrant(w, w.related(table.value, rel).value)
    else grant == Returned(None)
  }

  lemma {:induction false} SubScopesOf(ss: seq<Scope>, rel: string, sub: Scope)
    ensures sub in WithScopes(ss, rel) <==> exists s :: s in ss && rel in s.withs && s.withs[rel] == sub
  {
    if ss != [] {
      var init, last := ss[..|ss| - 1], ss[|ss| - 1];
      SubScopesOf(init, rel, sub);
      assert ss == init + [last];
      assert forall s :: s in ss <==> s in init || s == last;
    }
  }

  lemma DeclaredSomewhere(scopes: seq<Scope>, rel: string)
    ensures WithScopes(scopes, rel) != [] <==> exists s :: s in scopes && rel in s.withs
    ensures Inherits(WithScopes(scopes, rel)) <==> exists s :: s in scopes && rel in s.withs && s.withs[rel].inherited
  {
    var declared := WithScopes(scopes, rel);
    forall sub ensures sub in declared <==> exists s :: s in scopes && rel in s.withs && s.withs[rel] == sub {
      SubScopesOf(scopes, rel, sub);
    }
    assert declared != [] ==> declared[0] in declared;
    assert Inherits(declared) <==> exists sub :: sub in declared && sub.inherited;
  }

  /** A relation declared without a one-sided mark is governed by its sub-scopes alone, whatever the world grants. */
  lemma DeclaredGovernsAlone(w: World, scopes: seq<Scope>, table: Option<string>, rel: string, sub: Scope)
    requires DeclaredAlone(scopes, rel)
    ensures var r := ResolveRelation(w, scopes, table, rel);
      && r.Returned? && r.value.Some?
      && (sub in r.value.value <==> exists s :: s in scopes && rel in s.withs && s.withs[rel] == sub)
  {
    DeclaredSomewhere(scopes, rel);
    SubScopesOf(scopes, rel, sub);
  }

  /** An undeclared relation is governed by the caller's own grant on the related table. */
  lemma UndeclaredFollowsGrant(w: World, scopes: seq<Scope>, table: Option<string>, rel: string, grant: Attempt<Grant>)
    requires GrantBehind(w, table, rel, grant) && forall s :: s in scopes ==> rel !in s.withs
    ensures ResolveRelation(w, scopes, table, rel) == grant
  {
    DeclaredSomewhere(scopes, rel);
  }

  ghost predicate SharesFields(a: seq<Scope>, b: seq<Scope>, schema: Schema) {
    UnionProjection(a).Returned? && UnionProjection(b).Returned? && CommonFields(a, b, schema).Some?
  }

  /**
   Where a declared sub-scope is marked one-sided the relation is hidden without
   the caller's own grant; with it, one scope governs whose rows are those of both.
   */
  lemma OneSidedOwesBoth(db: Db, w: World, scopes: seq<Scope>, table: Option<string>, rel: string,
                         grant: Attempt<Grant>, row: Value)
    requires GrantBehind(w, table, rel, grant)
    requires exists s :: s in scopes && rel in s.withs && s.withs[rel].inherited
    ensures var r := ResolveRelation(w, scopes, table, rel);
      if grant.Threw? || grant.value.None? then r == grant
      else
        var declared, opts := WithScopes(scopes, rel), w.options(w.related(table.value, rel).value);
        && (r.Threw? <==> ConjoinScopes(declared, grant.value.value, opts).Threw?)
        && (r.Returned? ==> r.value.Some?)
        && (r.Returned? ==>
              (RowVisible(db, r.value.value, row) <==>
                 SharesFields(declared, grant.value.value, opts.schema)
                 && RowVisible(db, declared, row) && RowVisible(db, grant.value.value, row)))
  {
    DeclaredSomewhere(scopes, rel);
    if grant.Returned? && grant.value.Some? {
      var declared, opts := WithScopes(scopes, rel), w.options(w.related(table.value, rel).value);
      if ConjoinScopes(declared, grant.value.value, opts).Returned? {
        CompositeRowsExact(db, declared, grant.value.value, opts, row);
      }
    }
  }

  /** One failing evaluation fails the caller's grant on a table. */
  lemma GrantFailsIff(w: World, table: string)
    ensures ReadGrant(w, table).Threw? <==> exists o :: o in w.outcomes(table) && o.Threw?
  {
  }

  /** Otherwise it serves every scope of every allowing handler, and is none when none allows. */
  lemma GrantServesAllowing(w: World, table: string, s: Scope)
    requires forall o :: o in w.outcomes(table) ==> o.Returned?
    ensures ReadGrant(w, table).Returned?
    ensures ReadGrant(w, table).value.Some? <==> exists o :: o in w.outcomes(table) && o.value.Some?
    ensures s in ReadGrant(w, table).value.Or([]) <==>
      exists o :: o in w.outcomes(table) && o.value.Some? && s in o.value.value
  {
    var outcomes := w.outcomes(table);
    var lists := seq(|outcomes|, i requires 0 <= i < |outcomes| => outcomes[i].value);
    assert forall i :: 0 <= i < |outcomes| ==> outcomes[i] in outcomes;
    JoinedMembers(lists, s);
    assert forall o :: o in outcomes ==> exists i :: 0 <= i < |outcomes| && outcomes[i] == o && lists[i] == o.value;
  }

  /** The scopes reached through a chain of relations. */
  function ResolvePath(w: World, scopes: seq<Scope>, table: Option<string>,
                       rels: seq<string>): Attempt<Option<seq<Scope>>>
    decreases |rels|
  {
    if rels == [] then Returned(Some(scopes))
    else
      var next :- ResolveRelation(w, scopes, table, rels[0]);
      if next.None? then Returned(None)
      else ResolvePath(w, next.value, Target(w, table, rels[0]), rels[1..])
  }

  // ── The tree of a request's relations ────────────

  /** Relation names to resolve, per level. */
  datatype NameTree = NameTree(nested: map<string, NameTree>)

  datatype Resolution = Resolution(nodes: map<string, Option<Node>>)

  datatype Node = Node(scopes: seq<Scope>, relations: Resolution)

  /** Every resolved name of a resolution, at every level, is what `ResolveRelation` answers. */
  predicate Resolves(w: World, scopes: seq<Scope>, table: Option<string>, r: Resolution)
    decreases r
  {
    forall rel :: rel in r.nodes ==>
      var node := r.nodes[rel];
      var expected := ResolveRelation(w, scopes, table, rel);
      && expected.Returned?
      && (node.None? <==> expected.value.None?)
      && (node.Some? ==> expected.value == Some(node.value.scopes))
      && (node.Some? ==> Resolves(w, node.value.scopes, Target(w, table, rel), node.value.relations))
  }

  /** Every requested name is resolved, down to the hidden ones. */
  predicate Answers(names: NameTree, r: Resolution) {
    forall rel :: rel in names.nested ==>
      rel in r.nodes && (r.nodes[rel].Some? ==> Answers(names.nested[rel], r.nodes[rel].value.relations))
  }

  /** Some requested name of the level is hidden. */
  ghost predicate HidesSome(w: World, scopes: seq<Scope>, table: Option<string>, names: NameTree) {
    exists rel :: rel in names.nested && ResolveRelation(w, scopes, table, rel) == Returned(None)
  }

  /** The relations listed besides the requested names: all the table's, once a name is hidden. */
  ghost function Listed(w: World, scopes: seq<Scope>, table: Option<string>, names: NameTree,
                        listSiblings: bool): set<string> {
    if listSiblings && table.Some? && HidesSome(w, scopes, table, names) then w.relations(table.value) else {}
  }

  /** No relation the tree reaches throws. */
  ghost predicate Settles(w: World, scopes: seq<Scope>, table: Option<string>, names: NameTree, listSiblings: bool)
    decreases names, 1
  {
    && SettlesNames(w, scopes, table, names, listSiblings)
    && (forall rel :: rel in Listed(w, scopes, table, names, listSiblings) && rel !in names.nested ==>
          ResolveRelation(w, scopes, table, rel).Returned?)
  }

  ghost predicate SettlesNames(w: World, scopes: seq<Scope>, table: Option<string>, names: NameTree, listSiblings: bool)
    decreases names, 0
  {
    forall rel :: rel in names.nested ==> SettlesAt(w, scopes, table, rel, names.nested[rel], listSiblings)
  }

  ghost predicate SettlesAt(w: World, scopes: seq<Scope>, table: Option<string>, rel: string, nested: NameTree,
                            listSiblings: bool)
    decreases nested, 2
  {
    var governing := ResolveRelation(w, scopes, table, rel);
    governing.Returned? &&
    (governing.value.Some? && nested.nested != map[] ==>
       Settles(w, governing.value.value, Target(w, table, rel), nested, listSiblings))
  }

  method ResolveOne(w: World, scopes: seq<Scope>, table: Option<string>, rel: string, nested: NameTree,
                    listSiblings: bool)
    returns (r: Attempt<Option<Node>>)
    ensures r.Returned? <==> SettlesAt(w, scopes, table, rel, nested, listSiblings)
    ensures r.Returned? ==> Resolves(w, scopes, table, Resolution(map[rel := r.value]))
    ensures r.Returned? && r.value.Some? ==> Answers(nested, r.value.value.relations)
    decreases nested, 2
  {
    var governing := ResolveRelation(w, scopes, table, rel);
    if governing.Threw? {
      return Threw;
    }
    if governing.value.None? {
      return Returned(None);
    }
    var relations := Resolution(map[]);
    if nested.nested != map[] {
      var sub := ResolveTree(w, governing.value.value, Target(w, table, rel), nested, listSiblings);
      if sub.Threw? {
        return Threw;
      }
      relations := sub.value;
    }
    return Returned(Some(Node(governing.value.value, relations)));
  }

  /** Fill the level's map; on a hidden name, list the table's other relations too. */
  method ResolveTree(w: World, scopes: seq<Scope>, table: Option<string>, names: NameTree, listSiblings: bool)
    returns (r: Attempt<Resolution>)
    ensures r.Returned? <==> Settles(w, scopes, table, names, listSiblings)
    ensures r.Returned? ==> Resolves(w, scopes, table, r.value) && Answers(names, r.value)
    ensures r.Returned? ==> r.value.nodes.Keys == names.nested.Keys + Listed(w, scopes, table, names, listSiblings)
    decreases names, 1
  {
    r := ResolveNames(w, scopes, table, names, listSiblings);
    if r.Threw? {
      return;
    }
    var nodes := r.value.nodes;
    assert None in nodes.Values <==> HidesSome(w, scopes, table, names) by {
      assert forall rel :: rel in r.value.nodes ==>
        (nodes[rel].None? <==> ResolveRelation(w, scopes, table, rel) == Returned(None));
    }
    if listSiblings && None in nodes.Values && table.Some? {
      r := WithSiblings(w, scopes, table, nodes);
    }
  }

  method ResolveNames(w: World, scopes: seq<Scope>, table: Option<string>, names: NameTree, listSiblings: bool)
    returns (r: Attempt<Resolution>)
    ensures r.Returned? <==> SettlesNames(w, scopes, table, names, listSiblings)
    ensures r.Returned? ==> Resolves(w, scopes, table, r.value) && Answers(names, r.value)
    ensures r.Returned? ==> r.value.nodes.Keys == names.nested.Keys
    decreases names, 0
  {
    var nodes: map<string, Option<Node>> := map[];
    var todo := names.nested.Keys;
    while todo != {}
      invariant todo <= names.nested.Keys && nodes.Keys == names.nested.Keys - todo
      invariant Resolves(w, scopes, table, Resolution(nodes))
      invariant forall rel :: rel in nodes ==> SettlesAt(w, scopes, table, rel, names.nested[rel], listSiblings)
      invariant forall rel :: rel in nodes && nodes[rel].Some? ==>
        Answers(names.nested[rel], nodes[rel].value.relations)
      decreases todo
    {
      var rel :| rel in todo;
      var node := ResolveOne(w, scopes, table, rel, names.nested[rel], listSiblings);
      if node.Threw? {
        return Threw;
      }
      assert rel in map[rel := node.value];
      nodes := nodes[rel := node.value];
      todo := todo - {rel};
    }
    return Returned(Resolution(nodes));
  }

  /** Add the table's relations that are not there yet, unresolved below. */
  method WithSiblings(w: World, scopes: seq<Scope>, table: Option<string>, nodes: map<string, Option<Node>>)
    returns (r: Attempt<Resolution>)
    requires table.Some? && Resolves(w, scopes, table, Resolution(nodes))
    ensures r.Returned? <==>
      forall rel :: rel in w.relations(table.value) && rel !in nodes ==>
        ResolveRelation(w, scopes, table, rel).Returned?
    ensures r.Returned? ==> Resolves(w, scopes, table, r.value)
    ensures r.Returned? ==> r.value.nodes.Keys == nodes.Keys + w.relations(table.value)
    ensures r.Returned? ==> forall rel :: rel in nodes ==> r.value.nodes[rel] == nodes[rel]
  {
    var all := nodes;
    var siblings := w.relations(table.value) - nodes.Keys;
    while siblings != {}
      invariant siblings <= w.relations(table.value) && siblings !! nodes.Keys
      invariant all.Keys == nodes.Keys + (w.relations(table.value) - siblings)
      invariant Resolves(w, scopes, table, Resolution(all))
      invariant forall rel :: rel in nodes ==> all[rel] == nodes[rel]
      invariant forall rel :: rel in all && rel !in nodes ==> ResolveRelation(w, scopes, table, rel).Returned?
      decreases siblings
    {
      var rel :| rel in siblings;
      var governing := ResolveRelation(w, scopes, table, rel);
      if governing.Threw? {
        return Threw;
      }
      all := all[rel := if governing.value.None? then None else Some(Node(governing.value.value, Resolution(map[])))];
      siblings := siblings - {rel};
    }
    return Returned(Resolution(all));
  }

  // ── Restrict-only through relations ────────────

  /** Each grant of the narrow world attenuates the wide world's, whose scopes are plain. */
  ghost predicate GrantsAttenuate(e: Extent, db: Db, narrow: World, wide: World) {
    && (forall table, rel :: narrow.related(table, rel) == wide.related(table, rel))
    && (forall table :: Descending(narrow.options(table).schema))
    && (forall table :: GrantAttenuates(e, db, ReadGrant(narrow, table), ReadGrant(wide, table)))
  }

  ghost predicate GrantAttenuates(e: Extent, db: Db, narrow: Attempt<Grant>, wide: Attempt<Grant>) {
    narrow.Returned? && narrow.value.Some? ==>
      && wide.Returned? && wide.value.Some? && Plain(wide.value.value)
      && Attenuates(e, db, narrow.value.value, wide.value.value)
  }

  /** One relation: what the narrow side reaches, the wide side reaches with at least as much. */
  lemma RelationStep(e: Extent, db: Db, narrow: World, wide: World, n: seq<Scope>, x: seq<Scope>, table: Option<string>,
                     rel: string)
    requires GrantsAttenuate(e, db, narrow, wide) && Attenuates(e, db, n, x) && Plain(x)
    requires ResolveRelation(narrow, n, table, rel).Returned? && ResolveRelation(narrow, n, table, rel).value.Some?
    ensures var rx := ResolveRelation(wide, x, table, rel);
            rx.Returned? && rx.value.Some? && Plain(rx.value.value) &&
            Attenuates(e, db, ResolveRelation(narrow, n, table, rel).value.value, rx.value.value)
  {
    var dn, dx := WithScopes(n, rel), WithScopes(x, rel);
    assert RelationAttenuates(e, db, n, x, rel);
    PlainSubScopes(x, rel);
    assert Target(narrow, table, rel) == Target(wide, table, rel);
    if dn == [] || Inherits(dn) {
      var t := Target(narrow, table, rel).value;
      assert GrantAttenuates(e, db, ReadGrant(narrow, t), ReadGrant(wide, t));
      var gn := ReadGrant(narrow, t).value.value;
      if dn != [] {
        CompositeAttenuates(e, db, dn, gn, narrow.options(t));
        var c := ConjoinScopes(dn, gn, narrow.options(t)).value;
        if dx == [] {
          AttenuatesTransitive(e, db, [c], gn, ReadGrant(wide, t).value.value);
        } else {
          AttenuatesTransitive(e, db, [c], dn, dx);
        }
      }
    }
  }

  /** Any chain of relations. */
  lemma {:induction false} ChainAttenuates(e: Extent, db: Db, narrow: World, wide: World, n: seq<Scope>, x: seq<Scope>,
                                           table: Option<string>, rels: seq<string>)
    requires GrantsAttenuate(e, db, narrow, wide) && Attenuates(e, db, n, x) && Plain(x)
    requires ResolvePath(narrow, n, table, rels).Returned? && ResolvePath(narrow, n, table, rels).value.Some?
    ensures var rx := ResolvePath(wide, x, table, rels);
            rx.Returned? && rx.value.Some? &&
            Attenuates(e, db, ResolvePath(narrow, n, table, rels).value.value, rx.value.value)
    decreases |rels|
  {
    if rels != [] {
      RelationStep(e, db, narrow, wide, n, x, table, rels[0]);
      ChainAttenuates(e, db, narrow, wide,
        ResolveRelation(narrow, n, table, rels[0]).value.value,
        ResolveRelation(wide, x, table, rels[0]).value.value,
        Target(wide, table, rels[0]), rels[1..]);
    }
  }

  /** Nothing fails when the principal's own handlers are evaluated. */
  ghost predicate Evaluates(w: World, table: string) {
    forall i :: 0 <= i < |w.outcomes(table)| ==> w.outcomes(table)[i].Returned?
  }

  /** The principal's own lists on a table, one per handler. */
  function Lists(w: World, table: string): seq<Grant>
    requires Evaluates(w, table)
  {
    seq(|w.outcomes(table)|, i requires 0 <= i < |w.outcomes(table)| => w.outcomes(table)[i].value)
  }

  lemma ReadGrantIsJoined(w: World, table: string)
    requires Evaluates(w, table)
    ensures ReadGrant(w, table) == Returned(Joined(Lists(w, table)))
  {
    var outcomes := w.outcomes(table);
    assert seq(|outcomes|, i requires 0 <= i < |outcomes| => outcomes[i].value) == Lists(w, table);
  }

  /** The world of the attenuated caller, over the user's and the credential's own: handler by handler. */
  ghost predicate AttenuatedWorld(both: World, user: World, cred: World, opts: string -> seq<ConjoinOptions>) {
    && (forall table, rel :: both.related(table, rel) == user.related(table, rel) == cred.related(table, rel))
    && (forall table :: Descending(both.options(table).schema))
    && (forall table :: AttenuatedTable(both, user, cred, opts(table), table))
  }

  ghost predicate AttenuatedTable(both: World, user: World, cred: World, opts: seq<ConjoinOptions>, table: string) {
    && Evaluates(user, table) && Evaluates(cred, table)
    && |user.outcomes(table)| == |cred.outcomes(table)| == |opts| && Lookups(opts)
    && both.outcomes(table) == AttenuatedEach(Lists(user, table), Lists(cred, table), opts)
  }

  /** No table's joint grant to the owner can be widened. */
  ghost predicate OwnerUnwidenable(e: Extent, user: World) {
    forall table :: Evaluates(user, table) && Unwidenable(e, Lists(user, table))
  }

  /** Nor the claimant's; its values, where they are compared, are kept on every table. */
  ghost predicate ClaimantUnwidenable(e: Extent, db: Db, user: World, cred: World,
                                      opts: string -> seq<ConjoinOptions>) {
    && (forall table :: Evaluates(cred, table) && Unwidenable(e, Lists(cred, table)))
    && (e.Values? ==> forall table :: ClaimantKeeps(db, user, cred, opts(table), table))
  }

  ghost predicate ClaimantKeeps(db: Db, user: World, cred: World, opts: seq<ConjoinOptions>, table: string) {
    && Evaluates(user, table) && Evaluates(cred, table)
    && |user.outcomes(table)| == |cred.outcomes(table)| == |opts|
    && ClaimantKept(db, Lists(user, table), Lists(cred, table), opts)
  }

  lemma OwnerGrants(e: Extent, db: Db, both: World, user: World, cred: World, opts: string -> seq<ConjoinOptions>)
    requires AttenuatedWorld(both, user, cred, opts) && OwnerUnwidenable(e, user)
    ensures GrantsAttenuate(e, db, both, user)
  {
    forall table ensures GrantAttenuates(e, db, ReadGrant(both, table), ReadGrant(user, table)) {
      assert AttenuatedTable(both, user, cred, opts(table), table);
      var own := Lists(user, table);
      ReadGrantIsJoined(user, table);
      JoinedPlain(own);
      if ReadGrant(both, table).Returned? && ReadGrant(both, table).value.Some? {
        OwnerTable(e, db, own, Lists(cred, table), opts(table));
      }
    }
  }

  lemma ClaimantGrants(e: Extent, db: Db, both: World, user: World, cred: World, opts: string -> seq<ConjoinOptions>)
    requires AttenuatedWorld(both, user, cred, opts) && ClaimantUnwidenable(e, db, user, cred, opts)
    ensures GrantsAttenuate(e, db, both, cred)
  {
    forall table ensures GrantAttenuates(e, db, ReadGrant(both, table), ReadGrant(cred, table)) {
      assert AttenuatedTable(both, user, cred, opts(table), table);
      var claimed := Lists(cred, table);
      ReadGrantIsJoined(cred, table);
      JoinedPlain(claimed);
      if ReadGrant(both, table).Returned? && ReadGrant(both, table).value.Some? {
        assert e.Values? ==> ClaimantKeeps(db, user, cred, opts(table), table);
        ClaimantTable(e, db, Lists(user, table), claimed, opts(table));
      }
    }
  }

  /** A composite reaches, through a chain of relations, `reached`; the principal's own scopes reach at least that. */
  ghost predicate ReachesAtLeast(e: Extent, db: Db, w: World, own: seq<Scope>, table: Option<string>, rels: seq<string>,
                                 reached: seq<Scope>) {
    var r := ResolvePath(w, own, table, rels);
    r.Returned? && r.value.Some? && Narrower(e, db, reached, r.value.value)
  }

  /**
   A scoped credential reaches, through any chain of relations, only what the
   user alone reaches, with no more rows, checks, controls or writes there, when
   the user's joint grants cannot be widened in these; and only what the
   credential's view alone reaches, when that view's cannot. It is shown no more
   values than either when theirs cannot be widened either.
   */
  lemma RelationsNeverWiden(e: Extent, db: Db, both: World, user: World, cred: World,
                            handlers: string -> seq<ConjoinOptions>,
                            a: seq<Scope>, b: seq<Scope>, opts: ConjoinOptions, table: Option<string>,
                            rels: seq<string>)
    requires AttenuatedWorld(both, user, cred, handlers) && Plain(a) && Plain(b) && Descending(opts.schema)
    requires ConjoinScopes(a, b, opts).Returned?
    requires ResolvePath(both, [ConjoinScopes(a, b, opts).value], table, rels).Returned?
    requires ResolvePath(both, [ConjoinScopes(a, b, opts).value], table, rels).value.Some?
    ensures var reached := ResolvePath(both, [ConjoinScopes(a, b, opts).value], table, rels).value.value;
            && (OwnerUnwidenable(e, user) ==> ReachesAtLeast(e, db, user, a, table, rels, reached))
            && (ClaimantUnwidenable(e, db, user, cred, handlers) ==>
                 ReachesAtLeast(e, db, cred, b, table, rels, reached))
  {
    CompositeAttenuates(e, db, a, b, opts);
    var c := ConjoinScopes(a, b, opts).value;
    if OwnerUnwidenable(e, user) {
      OwnerGrants(e, db, both, user, cred, handlers);
      ChainAttenuates(e, db, both, user, [c], a, table, rels);
    }
    if ClaimantUnwidenable(e, db, user, cred, handlers) {
      ClaimantGrants(e, db, both, user, cred, handlers);
      ChainAttenuates(e, db, both, cred, [c], b, table, rels);
    }
  }
}
