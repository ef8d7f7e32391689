/**
 When a conjunction throws: an invalid facet or a custom field without a rule
 in either list, or in the sub-scopes of a declared relation at any depth, or
 an unknown reference name.
 */
module ConjunctionErrors {
  import opened Options
  import opened Projections
  import opened SchemaWalk
  import opened Controls
  import opened Scopes

  /** A projection mixing 0 and 1, or a custom field without a rule. */
  ghost predicate InvalidScope(s: Scope, rules: set<string>) {
    Mixed(s.projection) || !(s.custom.Keys <= rules)
  }

  /** Where every scope has a policy: a whitelist on a control without values, before any scope that allows it. */
  ghost predicate InvalidControls(ss: seq<Scope>) {
    && (forall s :: s in ss ==> s.controls.Some?)
    && exists i, key :: 0 <= i < |ss| && WhitelistFirst(ss, i, key)
  }

  ghost predicate WhitelistFirst(ss: seq<Scope>, i: nat, key: string)
    requires i < |ss| && forall s :: s in ss ==> s.controls.Some?
  {
    && key !in WHITELISTABLE_CONTROLS && GateOf(ss[i].controls.value, key).Only?
    && forall j :: 0 <= j < i ==> !GateOf(ss[j].controls.value, key).Allow?
  }

  ghost predicate Invalid(a: seq<Scope>, b: seq<Scope>, rules: set<string>) {
    || (exists s :: s in a + b && InvalidScope(s, rules))
    || InvalidControls(a) || InvalidControls(b)
  }

  lemma ProjectionThrowsIff(ss: seq<Scope>)
    ensures UnionProjection(ss).Threw? <==> exists s :: s in ss && Mixed(s.projection)
  {
    var ps := seq(|ss|, i requires 0 <= i < |ss| => ss[i].projection);
    forall i | 0 <= i < |ss| ensures ps[i] in ps && ss[i] in ss {
    }
  }

  lemma ControlsThrowIff(ss: seq<Scope>)
    ensures UnionControls(ss).Threw? <==> InvalidControls(ss)
  {
    var policies := seq(|ss|, i requires 0 <= i < |ss| => ss[i].controls);
    assert None in policies <==> exists s :: s in ss && s.controls.None? by {
      forall i | 0 <= i < |ss| ensures policies[i] in policies && ss[i] in ss {
      }
    }
    if None !in policies {
      forall i, key | 0 <= i < |ss| && WhitelistFirst(ss, i, key)
        ensures key in MentionedKeys(policies) && BadWhitelist(policies, key) {
        assert policies[i] in policies && IsWhitelist(policies[i], key);
        assert forall j :: 0 <= j < i ==> !Allows(policies[j], key);
      }
      forall key | BadWhitelist(policies, key) ensures InvalidControls(ss) {
        var i :| 0 <= i < |policies| && IsWhitelist(policies[i], key)
          && forall j :: 0 <= j < i ==> !Allows(policies[j], key);
        forall j | 0 <= j < i ensures !GateOf(ss[j].controls.value, key).Allow? {
          assert policies[j] in policies && !Allows(policies[j], key);
        }
        assert WhitelistFirst(ss, i, key);
      }
    }
  }

  lemma CombinableIff(a: seq<Scope>, b: seq<Scope>, fields: FieldRules)
    ensures Combinable(a, b, fields) <==> !Invalid(a, b, fields.Keys)
  {
    ProjectionThrowsIff(a);
    ProjectionThrowsIff(b);
    ControlsThrowIff(a);
    ControlsThrowIff(b);
    CustomIn(a, fields.Keys);
    CustomIn(b, fields.Keys);
    assert forall s :: s in a + b <==> s in a || s in b;
  }

  lemma CustomIn(ss: seq<Scope>, rules: set<string>)
    ensures CustomFields(ss) <= rules <==> forall s :: s in ss ==> s.custom.Keys <= rules
  {
    if CustomFields(ss) <= rules {
      forall s, k | s in ss && k in s.custom ensures k in rules {
        var i :| 0 <= i < |ss| && ss[i] == s;
        assert k in CustomFields(ss);
      }
    }
  }

  // ── At every depth ────────────

  /** The sub-scopes along a chain of relations. */
  function Nested(ss: seq<Scope>, chain: seq<string>): seq<Scope>
    decreases |chain|
  {
    if chain == [] then ss else Nested(WithScopes(ss, chain[0]), chain[1..])
  }

  /** Each relation of the chain is declared where it is reached, on one side at least. */
  predicate Declared(a: seq<Scope>, b: seq<Scope>, chain: seq<string>)
    decreases |chain|
  {
    chain == []
    || (&& (exists s :: s in a + b && chain[0] in s.withs)
        && Declared(WithScopes(a, chain[0]), WithScopes(b, chain[0]), chain[1..]))
  }

  ghost predicate InvalidBelow(a: seq<Scope>, b: seq<Scope>, rules: set<string>) {
    exists chain :: InvalidAt(a, b, rules, chain)
  }

  ghost predicate InvalidAt(a: seq<Scope>, b: seq<Scope>, rules: set<string>, chain: seq<string>) {
    Declared(a, b, chain) && Invalid(Nested(a, chain), Nested(b, chain), rules)
  }

  lemma DeclaredNames(a: seq<Scope>, b: seq<Scope>, rel: string)
    ensures rel in WithNames(a) + WithNames(b) <==> exists s :: s in a + b && rel in s.withs
  {
    if exists s :: s in a + b && rel in s.withs {
      var s :| s in a + b && rel in s.withs;
      if s in a {
        var i :| 0 <= i < |a| && a[i] == s;
        assert rel in a[i].withs;
      } else {
        var i :| 0 <= i < |b| && b[i] == s;
        assert rel in b[i].withs;
      }
    }
  }

  lemma InvalidThrough(a: seq<Scope>, b: seq<Scope>, rules: set<string>, rel: string)
    requires rel in WithNames(a) + WithNames(b) && InvalidBelow(WithScopes(a, rel), WithScopes(b, rel), rules)
    ensures InvalidBelow(a, b, rules)
  {
    var chain :| InvalidAt(WithScopes(a, rel), WithScopes(b, rel), rules, chain);
    DeclaredNames(a, b, rel);
    assert ([rel] + chain)[1..] == chain;
    assert InvalidAt(a, b, rules, [rel] + chain);
  }

  /** Without a schema, a conjunction throws exactly when something at some depth is invalid. */
  lemma {:induction false} NestedThrowsIff(a: seq<Scope>, b: seq<Scope>, fields: FieldRules)
    ensures ConjoinWith(a, b, fields).Threw? <==>
      exists rel :: rel in WithNames(a) + WithNames(b)
        && InvalidBelow(WithScopes(a, rel), WithScopes(b, rel), fields.Keys)
    decreases Depth(a) + Depth(b)
  {
    forall rel | rel in WithNames(a) + WithNames(b)
      ensures ConjoinRelation(a, b, rel, fields).Threw?
        <==> InvalidBelow(WithScopes(a, rel), WithScopes(b, rel), fields.Keys) {
      WithScopesShallower(a, rel);
      WithScopesShallower(b, rel);
      var sa, sb := WithScopes(a, rel), WithScopes(b, rel);
      NestedThrowsIff(sa, sb, fields);
      LevelThrowsIff(sa, sb, ConjoinOptions(NoSchema, None, fields));
    }
  }

  lemma LevelThrowsIff(a: seq<Scope>, b: seq<Scope>, opts: ConjoinOptions)
    requires ConjoinWith(a, b, opts.fields).Threw? <==>
      exists rel :: rel in WithNames(a) + WithNames(b)
        && InvalidBelow(WithScopes(a, rel), WithScopes(b, rel), opts.fields.Keys)
    ensures ConjoinScopes(a, b, opts).Threw?
      <==> InvalidBelow(a, b, opts.fields.Keys) || (opts.refs.Some? && opts.refs.value(a, b).Threw?)
  {
    var rules := opts.fields.Keys;
    CombinableIff(a, b, opts.fields);
    if Invalid(a, b, rules) {
      assert InvalidAt(a, b, rules, []);
    }
    if exists rel :: rel in WithNames(a) + WithNames(b) && InvalidBelow(WithScopes(a, rel), WithScopes(b, rel), rules) {
      var rel :| rel in WithNames(a) + WithNames(b) && InvalidBelow(WithScopes(a, rel), WithScopes(b, rel), rules);
      InvalidThrough(a, b, rules, rel);
    }
    if InvalidBelow(a, b, rules) && !Invalid(a, b, rules) {
      var chain :| InvalidAt(a, b, rules, chain);
      assert chain != [];
      DeclaredNames(a, b, chain[0]);
      assert InvalidAt(WithScopes(a, chain[0]), WithScopes(b, chain[0]), rules, chain[1..]);
    }
  }

  /** A conjunction throws exactly when its reference rule does or something at some depth is invalid. */
  lemma ConjoinThrowsIff(a: seq<Scope>, b: seq<Scope>, opts: ConjoinOptions)
    ensures ConjoinScopes(a, b, opts).Threw?
      <==> InvalidBelow(a, b, opts.fields.Keys) || (opts.refs.Some? && opts.refs.value(a, b).Threw?)
  {
    NestedThrowsIff(a, b, opts.fields);
    LevelThrowsIff(a, b, opts);
  }
}
