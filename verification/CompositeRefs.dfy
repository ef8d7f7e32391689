/**
 The reference checks of a composite scope: on its own table by the table's
 foreign keys, below `with` by name.
 */
module CompositeRefs {
  import opened Options
  import opened Enforcement
  import opened Scopes
  import opened RestrictOnly
  import opened SchemaWalk
  import opened Handlers
  import opened WriteRefs

  // ── On the evaluated table ────────────

  function RefLists(ss: seq<Scope>): seq<Enabled<string>> {
    seq(|ss|, i requires 0 <= i < |ss| => ss[i].checkRefs)
  }

  /** The keys a scope list enforces on a table; a table without foreign keys has nothing to check. */
  function Checked(t: Option<RefTable>, ss: seq<Scope>): Attempt<set<nat>> {
    if t.None? then Returned({}) else EnforcedRefs(t.value, RefLists(ss))
  }

  /** The schema-aware rule a table with foreign keys is conjoined by. */
  function RefRule(t: Option<RefTable>): Option<(seq<Scope>, seq<Scope>) -> Attempt<Enabled<string>>> {
    if t.None? then None
    else Some((a: seq<Scope>, b: seq<Scope>) => ConjoinCheckRefs(t.value, RefLists(a), RefLists(b)))
  }

  /** What either side enforces on the table. */
  function EitherChecked(t: Option<RefTable>, a: seq<Scope>, b: seq<Scope>): set<nat> {
    Checked(t, a).Or({}) + Checked(t, b).Or({})
  }

  /**
   The composite scope of a table enforces every reference check of either side,
   and then exactly those, if and only if their names resolve back.
   */
  lemma CompositeChecksIff(t: Option<RefTable>, a: seq<Scope>, b: seq<Scope>, opts: ConjoinOptions)
    requires opts.refs == RefRule(t) && ConjoinScopes(a, b, opts).Returned?
    ensures Checked(t, a).Returned? && Checked(t, b).Returned?
    ensures var all, kept := EitherChecked(t, a, b), Checked(t, [ConjoinScopes(a, b, opts).value]);
      && kept.Returned?
      && (all <= kept.value <==> t.None? || (all <= AllKeys(t.value) && NamesResolveBack(t.value, all)))
      && (kept.value == all <==> t.None? || (all <= AllKeys(t.value) && NamesResolveBack(t.value, all)))
  {
    if t.Some? {
      var c := ConjoinScopes(a, b, opts).value;
      assert Returned(c.checkRefs) == ConjoinCheckRefs(t.value, RefLists(a), RefLists(b));
      ConjunctionFaithfulIff(t.value, RefLists(a), RefLists(b));
      assert RefLists([c]) == [c.checkRefs];
    }
  }

  // ── Below `with` ────────────

  /** Every name `x` enforces `n` enforces, here and in each relation `x` declares. */
  ghost predicate KeepsRefs(n: seq<Scope>, x: seq<Scope>)
    decreases Depth(x)
  {
    && (forall name :: Enables(UnionRefs(x), name) ==> Enables(UnionRefs(n), name))
    && KeepsRefsBelow(n, x)
  }

  ghost predicate KeepsRefsBelow(n: seq<Scope>, x: seq<Scope>)
    decreases Depth(x), 0
  {
    forall rel :: KeepsRefsAt(n, x, rel)
  }

  ghost predicate KeepsRefsAt(n: seq<Scope>, x: seq<Scope>, rel: string)
    decreases Depth(x), 0, 0
  {
    WithScopesShallower(x, rel);
    WithScopes(x, rel) != [] ==> WithScopes(n, rel) != [] && KeepsRefs(WithScopes(n, rel), WithScopes(x, rel))
  }

  /** The mark does not matter to the checks. */
  lemma MarkKeepsRefs(c: Scope, mark: bool, x: seq<Scope>)
    requires KeepsRefs([c], x)
    ensures KeepsRefs([c.(inherited := mark)], x)
  {
    OneScopeWrites(c);
    OneScopeWrites(c.(inherited := mark));
    forall rel ensures KeepsRefsAt([c.(inherited := mark)], x, rel) {
      assert KeepsRefsAt([c], x, rel);
      OneScopeWith(c, rel);
      OneScopeWith(c.(inherited := mark), rel);
    }
  }

  /**
   No reference check either side enforces is lost in the declared relations, at
   any depth; nor on the list itself when no table's foreign keys are known.
   */
  lemma {:induction false} CompositeKeepsRefs(a: seq<Scope>, b: seq<Scope>, opts: ConjoinOptions)
    requires ConjoinScopes(a, b, opts).Returned?
    ensures var c := [ConjoinScopes(a, b, opts).value];
      && KeepsRefsBelow(c, a) && KeepsRefsBelow(c, b)
      && (opts.refs.None? ==> KeepsRefs(c, a) && KeepsRefs(c, b))
    decreases Depth(a) + Depth(b)
  {
    var c := [ConjoinScopes(a, b, opts).value];
    forall rel ensures KeepsRefsAt(c, a, rel) && KeepsRefsAt(c, b, rel) {
      SubKeepsRefs(a, b, opts, rel);
    }
    if opts.refs.None? {
      forall name
        ensures Enables(UnionRefs(c), name) <==> Enables(UnionRefs(a), name) || Enables(UnionRefs(b), name) {
        CompositeRefsExact(a, b, opts, name);
      }
    }
  }

  lemma {:induction false} SubKeepsRefs(a: seq<Scope>, b: seq<Scope>, opts: ConjoinOptions, rel: string)
    requires ConjoinScopes(a, b, opts).Returned?
    ensures KeepsRefsAt([ConjoinScopes(a, b, opts).value], a, rel)
    ensures KeepsRefsAt([ConjoinScopes(a, b, opts).value], b, rel)
    decreases Depth(a) + Depth(b), 0
  {
    CompositeSub(a, b, opts, rel);
    WithScopesShallower(a, rel);
    WithScopesShallower(b, rel);
    var sa, sb := WithScopes(a, rel), WithScopes(b, rel);
    if sa != [] || sb != [] {
      var subOpts := ConjoinOptions(NoSchema, None, opts.fields);
      CompositeKeepsRefs(sa, sb, subOpts);
      var sub := ConjoinScopes(sa, sb, subOpts).value;
      MarkKeepsRefs(sub, OwesInherited(sa, sb), sa);
      MarkKeepsRefs(sub, OwesInherited(sa, sb), sb);
    }
  }
}
