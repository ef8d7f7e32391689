/** Opt-in checks several grants enable: enforced only where every grant enables them. */
module Enforcement {
  /** `true` (everything), or the enabled entries. */
  datatype Enabled<K> = All | These(entries: set<K>)

  predicate Enables<K(==)>(e: Enabled<K>, k: K) {
    e.All? || k in e.entries
  }

  predicate EnabledInEach<K(==)>(inputs: seq<Enabled<K>>, k: K) {
    forall i :: 0 <= i < |inputs| ==> Enables(inputs[i], k)
  }

  function EnabledByAll<K(==)>(inputs: seq<Enabled<K>>): Enabled<K> {
    if inputs == [] then These({})
    else if forall i :: 0 <= i < |inputs| ==> inputs[i].All? then All
    else These(set i, k |
      0 <= i < |inputs| && inputs[i].These? && k in inputs[i].entries && EnabledInEach(inputs, k) :: k)
  }

  /**
   An entry is enforced exactly when there are inputs and every one enables it;
   everything is, when each enables everything.
   */
  lemma EnablesExactly<K>(inputs: seq<Enabled<K>>, k: K)
    ensures Enables(EnabledByAll(inputs), k) <==> inputs != [] && EnabledInEach(inputs, k)
    ensures EnabledByAll(inputs).All? <==> inputs != [] && forall e :: e in inputs ==> e.All?
  {
  }

  /** The accumulating loop, stopping early once nothing is left enforced. */
  method IntersectEnabled<K(==,!new)>(inputs: seq<Enabled<K>>) returns (r: Enabled<K>)
    ensures r == EnabledByAll(inputs)
  {
    if |inputs| == 0 {
      return These({});
    }
    r := inputs[0];
    var i := 1;
    while i < |inputs| && r != These({})
      invariant 1 <= i <= |inputs|
      invariant r.All? <==> forall j :: 0 <= j < i ==> inputs[j].All?
      invariant forall k :: Enables(r, k) <==> EnabledInEach(inputs[..i], k)
    {
      ghost var before := r;
      if inputs[i].These? {
        r := if r.All? then inputs[i] else These(r.entries * inputs[i].entries);
      }
      forall k ensures Enables(r, k) <==> EnabledInEach(inputs[..i + 1], k) {
        assert Enables(r, k) <==> Enables(before, k) && Enables(inputs[i], k);
        assert EnabledInEach(inputs[..i + 1], k) <==> EnabledInEach(inputs[..i], k) && Enables(inputs[i], k) by {
          assert forall j :: 0 <= j < i ==> inputs[..i + 1][j] == inputs[..i][j];
          assert inputs[..i + 1][i] == inputs[i];
        }
      }
      i := i + 1;
    }
    forall k ensures Enables(r, k) <==> EnabledInEach(inputs, k) {
      if EnabledInEach(inputs, k) {
        assert EnabledInEach(inputs[..i], k);
      }
      if i == |inputs| {
        assert inputs[..i] == inputs;
      }
    }
    if r.These? {
      assert EnabledByAll(inputs).These?;
      forall k ensures k in r.entries <==> k in EnabledByAll(inputs).entries {
        EnablesExactly(inputs, k);
      }
    }
  }
}
