/**
 The composite at every depth: in each declared relation, along any chain, it
 is the conjunction of what the two sides declare there.
 */
module CompositeDepths {
  import opened Options
  import opened Filters
  import opened SchemaWalk
  import opened Scopes
  import opened RestrictOnly
  import opened Handlers
  import opened ConjunctionErrors

  /** The rows and checks of both lists, where a common field is left. */
  ghost predicate RowsOfBoth(db: Db, c: seq<Scope>, a: seq<Scope>, b: seq<Scope>, row: Value) {
    UnionProjection(a).Returned? && UnionProjection(b).Returned? &&
    var kept := CommonFields(a, b, NoSchema).Some?;
    && (RowVisible(db, c, row) <==> kept && RowVisible(db, a, row) && RowVisible(db, b, row))
    && (CheckPasses(db, c, row) <==> kept && CheckPasses(db, a, row) && CheckPasses(db, b, row))
  }

  ghost predicate ControlsOfBoth(c: seq<Scope>, a: seq<Scope>, b: seq<Scope>, key: string, used: set<string>) {
    ControlPermitted(c, key, used) <==> ControlPermitted(a, key, used) && ControlPermitted(b, key, used)
  }

  /** One scope that conjoins the two lists, marked where a side is silent or itself marked. */
  ghost predicate ConjoinsAt(db: Db, c: seq<Scope>, a: seq<Scope>, b: seq<Scope>) {
    && |c| == 1
    && (c[0].inherited <==> a == [] || b == [] || exists s :: s in a + b && s.inherited)
    && (forall row :: RowsOfBoth(db, c, a, b, row))
    && (forall key, used :: ControlsOfBoth(c, a, b, key, used))
  }

  lemma MarkKeepsFacets(db: Db, c: Scope, mark: bool, row: Value, key: string, used: set<string>)
    ensures var d := c.(inherited := mark);
      && (RowVisible(db, [d], row) <==> RowVisible(db, [c], row))
      && (CheckPasses(db, [d], row) <==> CheckPasses(db, [c], row))
      && (ControlPermitted([d], key, used) <==> ControlPermitted([c], key, used))
  {
    var d := c.(inherited := mark);
    assert FilterList([d]) == FilterList([c]) && CheckList([d]) == CheckList([c]);
    assert HasExplicitCheck([d]) <==> HasExplicitCheck([c]) by {
      assert [d][0].check == [c][0].check;
    }
    assert seq(1, i requires 0 <= i < 1 => [d][i].controls) == seq(1, i requires 0 <= i < 1 => [c][i].controls);
  }

  lemma MarkMeans(a: seq<Scope>, b: seq<Scope>)
    ensures OwesInherited(a, b) <==> a == [] || b == [] || exists s :: s in a + b && s.inherited
  {
    if exists s :: s in a + b && s.inherited {
      var s :| s in a + b && s.inherited;
      if s in a {
        var i :| 0 <= i < |a| && a[i] == s;
        assert Inherits(a);
      } else {
        var i :| 0 <= i < |b| && b[i] == s;
        assert Inherits(b);
      }
    }
  }

  lemma MarkedConjoins(db: Db, a: seq<Scope>, b: seq<Scope>, fields: FieldRules)
    requires ConjoinScopes(a, b, ConjoinOptions(NoSchema, None, fields)).Returned?
    ensures var c := ConjoinScopes(a, b, ConjoinOptions(NoSchema, None, fields)).value;
            ConjoinsAt(db, [c.(inherited := OwesInherited(a, b))], a, b)
  {
    var opts := ConjoinOptions(NoSchema, None, fields);
    var c := ConjoinScopes(a, b, opts).value;
    var d := c.(inherited := OwesInherited(a, b));
    MarkMeans(a, b);
    forall row ensures RowsOfBoth(db, [d], a, b, row) {
      CompositeRowsExact(db, a, b, opts, row);
      MarkKeepsFacets(db, c, d.inherited, row, "", {});
    }
    forall key, used ensures ControlsOfBoth([d], a, b, key, used) {
      CompositeControlsExact(a, b, opts, key, used);
      MarkKeepsFacets(db, c, d.inherited, Undef, key, used);
    }
  }

  /** Where the chain is declared, `c` conjoins what the two sides declare there; elsewhere it is silent. */
  ghost predicate AtDepth(db: Db, c: seq<Scope>, a: seq<Scope>, b: seq<Scope>, chain: seq<string>) {
    if Declared(a, b, chain) then ConjoinsAt(db, c, Nested(a, chain), Nested(b, chain)) else c == []
  }

  lemma DepthStep(db: Db, c: seq<Scope>, a: seq<Scope>, b: seq<Scope>, chain: seq<string>)
    requires chain != [] && exists s :: s in a + b && chain[0] in s.withs
    requires AtDepth(db, c, WithScopes(a, chain[0]), WithScopes(b, chain[0]), chain[1..])
    ensures AtDepth(db, c, a, b, chain)
  {
  }

  /**
   Along any chain of relations: where the chain is declared, the composite
   carries one scope that conjoins both sides' sub-scopes; elsewhere it is
   silent as they are.
   */
  lemma {:induction false} CompositeAtDepth(db: Db, a: seq<Scope>, b: seq<Scope>, opts: ConjoinOptions,
                                            chain: seq<string>)
    requires ConjoinScopes(a, b, opts).Returned? && chain != []
    ensures AtDepth(db, Nested([ConjoinScopes(a, b, opts).value], chain), a, b, chain)
    decreases |chain|, 0
  {
    var rel, rest := chain[0], chain[1..];
    var sa, sb := WithScopes(a, rel), WithScopes(b, rel);
    CompositeSub(a, b, opts, rel);
    DeclaredHere(a, b, rel);
    if sa == [] && sb == [] {
      NestedNothing(rest);
    } else {
      var subOpts := ConjoinOptions(NoSchema, None, opts.fields);
      var sub, mark := ConjoinScopes(sa, sb, subOpts).value, OwesInherited(sa, sb);
      SubAtDepth(db, sa, sb, subOpts, mark, rest);
      DepthStep(db, Nested([sub.(inherited := mark)], rest), a, b, chain);
    }
  }

  lemma {:induction false} SubAtDepth(db: Db, a: seq<Scope>, b: seq<Scope>, opts: ConjoinOptions, mark: bool,
                                      chain: seq<string>)
    requires opts == ConjoinOptions(NoSchema, None, opts.fields) && mark == OwesInherited(a, b)
    requires ConjoinScopes(a, b, opts).Returned?
    ensures AtDepth(db, Nested([ConjoinScopes(a, b, opts).value.(inherited := mark)], chain), a, b, chain)
    decreases |chain|, 1
  {
    if chain == [] {
      MarkedConjoins(db, a, b, opts.fields);
    } else {
      MarkNests(ConjoinScopes(a, b, opts).value, mark, chain);
      CompositeAtDepth(db, a, b, opts, chain);
    }
  }

  lemma DeclaredHere(a: seq<Scope>, b: seq<Scope>, rel: string)
    ensures (exists s :: s in a + b && rel in s.withs) <==> WithScopes(a, rel) != [] || WithScopes(b, rel) != []
  {
    DeclaredNames(a, b, rel);
    WithScopesShallower(a, rel);
    WithScopesShallower(b, rel);
  }

  lemma MarkNests(c: Scope, mark: bool, chain: seq<string>)
    requires chain != []
    ensures Nested([c.(inherited := mark)], chain) == Nested([c], chain)
  {
    OneScopeWith(c, chain[0]);
    OneScopeWith(c.(inherited := mark), chain[0]);
  }

  lemma {:induction false} NestedNothing(chain: seq<string>)
    ensures Nested([], chain) == []
  {
    if chain != [] {
      NestedNothing(chain[1..]);
    }
  }
}
