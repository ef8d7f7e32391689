/**
 Per-control gates of a scope (`$with`, `$groupBy`, ...): the additive union of
 several grants (silence wins) and the deny-wins intersection of two policies.
 Whitelists are sets: their arrays are only ever tested for membership.
 */
module Controls {
  import opened Options

  datatype Gate = Allow | Deny | Only(values: set<string>)

  type Policy = map<string, Gate>

  const WHITELISTABLE_CONTROLS: set<string> := {"$with", "$groupBy"}

  /** The gate of a control; an absent key allows. */
  function GateOf(p: Policy, key: string): Gate {
    if key in p then p[key] else Allow
  }

  /** A request using `key` with these named values passes the gate. */
  predicate Permits(g: Gate, used: set<string>) {
    match g
    case Allow => true
    case Deny => false
    case Only(values) => used <= values
  }

  /** A scope's policy; a scope without a `controls` map is silent on every key. */
  predicate ScopePermits(s: Option<Policy>, key: string, v: string) {
    s.None? || Permits(GateOf(s.value, key), {v})
  }

  predicate IsWhitelist(s: Option<Policy>, key: string) {
    s.Some? && GateOf(s.value, key).Only?
  }

  predicate Allows(s: Option<Policy>, key: string) {
    s.Some? ==> GateOf(s.value, key).Allow?
  }

  predicate AnyAllow(scopes: seq<Option<Policy>>, key: string) {
    exists s :: s in scopes && Allows(s, key)
  }

  /** A whitelist met before any allowing scope, for a control that supports none. */
  predicate BadWhitelist(scopes: seq<Option<Policy>>, key: string) {
    key !in WHITELISTABLE_CONTROLS &&
    exists i :: 0 <= i < |scopes| && IsWhitelist(scopes[i], key) && forall j :: 0 <= j < i ==> !Allows(scopes[j], key)
  }

  function MentionedKeys(scopes: seq<Option<Policy>>): set<string>
    requires None !in scopes
  {
    set s, k | s in scopes && k in s.value :: k
  }

  function WhitelistedValues(scopes: seq<Option<Policy>>, key: string): set<string>
    requires None !in scopes
  {
    set s, v | s in scopes && IsWhitelist(s, key) && v in GateOf(s.value, key).values :: v
  }

  function UnionGate(scopes: seq<Option<Policy>>, key: string): Gate
    requires None !in scopes
  {
    if AnyAllow(scopes, key) then Allow
    else if exists s :: s in scopes && IsWhitelist(s, key) then Only(WhitelistedValues(scopes, key))
    else Deny
  }

  /** The union of the scopes' policies; allowed keys are left out. */
  function UnionControlsPolicy(scopes: seq<Option<Policy>>): Attempt<Policy> {
    if scopes == [] || None in scopes then Returned(map[])
    else if exists k :: k in MentionedKeys(scopes) && BadWhitelist(scopes, k) then Threw
    else Returned(map k | k in MentionedKeys(scopes) && !AnyAllow(scopes, k) :: UnionGate(scopes, k))
  }

  /** The inner loop over the scopes for one key: its gate, or `None` when it throws. */
  method UnionKey(scopes: seq<Option<Policy>>, key: string) returns (gate: Option<Gate>)
    requires None !in scopes && scopes != []
    ensures BadWhitelist(scopes, key) <==> gate.None?
    ensures gate.Some? ==> gate.value == UnionGate(scopes, key)
  {
    var anyAllow := false;
    var whitelistAcc: set<string> := {};
    var hadWhitelist := false;
    var i := 0;
    while i < |scopes|
      invariant i <= |scopes| && !anyAllow
      invariant forall j :: 0 <= j < i ==> !Allows(scopes[j], key)
      invariant forall j :: 0 <= j < i && IsWhitelist(scopes[j], key) ==> key in WHITELISTABLE_CONTROLS
      invariant whitelistAcc
        == set j, v | 0 <= j < i && IsWhitelist(scopes[j], key) && v in GateOf(scopes[j].value, key).values :: v
      invariant hadWhitelist <==> exists j :: 0 <= j < i && IsWhitelist(scopes[j], key)
    {
      assert scopes[i] in scopes;
      var v := GateOf(scopes[i].value, key);
      if v.Allow? {
        anyAllow := true;
        break;
      }
      if v.Only? {
        if key !in WHITELISTABLE_CONTROLS {
          return None;
        }
        hadWhitelist := true;
        whitelistAcc := whitelistAcc + v.values;
      }
      i := i + 1;
    }
    if anyAllow {
      return Some(Allow);
    }
    if hadWhitelist {
      assert whitelistAcc == WhitelistedValues(scopes, key);
      return Some(Only(whitelistAcc));
    }
    return Some(Deny);
  }

  /** The outer loop over the mentioned keys, proved against `UnionControlsPolicy`. */
  method MergeControls(scopes: seq<Option<Policy>>) returns (r: Attempt<Policy>)
    ensures r == UnionControlsPolicy(scopes)
  {
    if |scopes| == 0 {
      return Returned(map[]);
    }
    if None in scopes {
      return Returned(map[]);
    }
    var allKeys: set<string> := {};
    for i := 0 to |scopes|
      invariant allKeys == MentionedKeys(scopes[..i])
    {
      assert scopes[..i + 1] == scopes[..i] + [scopes[i]];
      allKeys := allKeys + scopes[i].value.Keys;
    }
    assert scopes[..|scopes|] == scopes;
    var result: Policy := map[];
    var todo := allKeys;
    while todo != {}
      invariant todo <= allKeys
      invariant forall k :: k in allKeys - todo ==> !BadWhitelist(scopes, k)
      invariant result == map k | k in allKeys - todo && !AnyAllow(scopes, k) :: UnionGate(scopes, k)
      decreases todo
    {
      var key :| key in todo;
      var gate := UnionKey(scopes, key);
      if gate.None? {
        return Threw;
      }
      if !gate.value.Allow? {
        result := result[key := gate.value];
      }
      todo := todo - {key};
    }
    assert allKeys - todo == allKeys;
    return Returned(result);
  }

  /** Exact per value: the union permits a value exactly when some scope does. */
  lemma UnionPermitsExactly(scopes: seq<Option<Policy>>, key: string, v: string)
    requires scopes != [] && UnionControlsPolicy(scopes).Returned?
    ensures Permits(GateOf(UnionControlsPolicy(scopes).value, key), {v})
            <==> exists s :: s in scopes && ScopePermits(s, key, v)
    ensures key in UnionControlsPolicy(scopes).value ==> UnionControlsPolicy(scopes).value[key] != Allow
  {
    if None in scopes {
      assert ScopePermits(None, key, v);
    } else {
      assert scopes[0] in scopes;
      if key !in MentionedKeys(scopes) {
        assert key !in scopes[0].value;
        assert ScopePermits(scopes[0], key, v);
      } else if exists s :: s in scopes && ScopePermits(s, key, v) {
        var s :| s in scopes && ScopePermits(s, key, v);
        assert GateOf(s.value, key).Only? ==> v in WhitelistedValues(scopes, key);
      } else if !AnyAllow(scopes, key) && Permits(UnionGate(scopes, key), {v}) {
        assert v in WhitelistedValues(scopes, key);
      }
    }
  }

  /** Whitelists of a union name supported controls only, so a union can be unioned again. */
  lemma UnionWhitelistsSupported(scopes: seq<Option<Policy>>, key: string)
    requires UnionControlsPolicy(scopes).Returned?
    requires GateOf(UnionControlsPolicy(scopes).value, key).Only?
    ensures key in WHITELISTABLE_CONTROLS
  {
    var s :| s in scopes && IsWhitelist(s, key);
    var i :| 0 <= i < |scopes| && scopes[i] == s;
    assert forall j :: 0 <= j < i ==> !Allows(scopes[j], key);
  }

  /** A one-element union changes no gate. */
  lemma UnionOfOnePolicy(p: Policy, key: string)
    requires forall k :: k in p && p[k].Only? ==> k in WHITELISTABLE_CONTROLS
    ensures UnionControlsPolicy([Some(p)]).Returned?
    ensures GateOf(UnionControlsPolicy([Some(p)]).value, key) == GateOf(p, key)
  {
    var scopes := [Some(p)];
    assert forall s :: s in scopes ==> s == Some(p);
    assert MentionedKeys(scopes) == p.Keys by {
      assert Some(p) in scopes;
    }
    if key in p && p[key].Only? {
      assert Some(p) in scopes && IsWhitelist(Some(p), key);
      assert WhitelistedValues(scopes, key) == p[key].values;
    }
  }

  // ── Intersection of two policies ────────────

  function IntersectGate(a: Gate, b: Gate): Gate {
    if a.Deny? || b.Deny? then Deny
    else if a.Allow? then b
    else if b.Allow? then a
    else Only(a.values * b.values)
  }

  function IntersectControlsPolicy(a: Policy, b: Policy): Policy {
    map k | k in a.Keys + b.Keys && !IntersectGate(GateOf(a, k), GateOf(b, k)).Allow?
      :: IntersectGate(GateOf(a, k), GateOf(b, k))
  }

  method IntersectControls(a: Policy, b: Policy) returns (result: Policy)
    ensures result == IntersectControlsPolicy(a, b)
  {
    result := map[];
    var todo := a.Keys + b.Keys;
    while todo != {}
      invariant todo <= a.Keys + b.Keys
      invariant result == map k | k in a.Keys + b.Keys - todo && !IntersectGate(GateOf(a, k), GateOf(b, k)).Allow?
                            :: IntersectGate(GateOf(a, k), GateOf(b, k))
      decreases todo
    {
      var key :| key in todo;
      var av, bv := GateOf(a, key), GateOf(b, key);
      if av.Deny? || bv.Deny? {
        result := result[key := Deny];
      } else if av.Allow? {
        if bv.Only? { result := result[key := bv]; }
      } else if bv.Allow? {
        if av.Only? { result := result[key := av]; }
      } else {
        result := result[key := Only(set v | v in av.values && v in bv.values)];
        assert (set v | v in av.values && v in bv.values) == av.values * bv.values;
      }
      todo := todo - {key};
    }
  }

  /** Exact per use: a set of values is permitted exactly when both sides permit it. */
  lemma IntersectionPermitsExactly(a: Policy, b: Policy, key: string, used: set<string>)
    ensures Permits(GateOf(IntersectControlsPolicy(a, b), key), used)
            <==> Permits(GateOf(a, key), used) && Permits(GateOf(b, key), used)
    ensures key in IntersectControlsPolicy(a, b) ==> IntersectControlsPolicy(a, b)[key] != Allow
  {
  }

  lemma IntersectionWhitelistsSupported(a: Policy, b: Policy, key: string)
    requires GateOf(IntersectControlsPolicy(a, b), key).Only?
    ensures GateOf(a, key).Only? || GateOf(b, key).Only?
  {
  }
}
