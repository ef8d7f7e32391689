/**
 The order on dotted field paths (`profile.name`) every scope facet is stated in:
 a key covers a path when it is the path or one of its dotted ancestors. The
 ancestors of one path form a chain, which is what makes the path-wise
 algebra of projections and whitelists work.
 */
module DottedPaths {

  /** `k` is `p` or one of its dotted ancestors. */
  predicate Covers(k: string, p: string) {
    k == p || Below(p, k)
  }

  /** `p` lies strictly below `k` (`a.b.c` is below `a`). */
  predicate Below(p: string, k: string) {
    k + "." <= p
  }

  /** Some key covers `p`. */
  predicate CoveredBy(keys: set<string>, p: string) {
    exists k :: k in keys && Covers(k, p)
  }

  /** Some key lies strictly below `p`. */
  predicate HasDescendant(keys: set<string>, p: string) {
    exists k :: k in keys && Below(k, p)
  }

  /** One of the two paths covers the other. */
  predicate Comparable(a: string, b: string) {
    Covers(a, b) || Covers(b, a)
  }

  lemma BelowTransitive(a: string, b: string, c: string)
    requires Covers(a, b) && Below(c, b)
    ensures Below(c, a)
  {
    if a != b {
      assert c[..|b|] == b;
      assert c[..|a| + 1] == b[..|a| + 1];
    }
  }

  lemma CoversTransitive(a: string, b: string, c: string)
    requires Covers(a, b) && Covers(b, c)
    ensures Covers(a, c)
  {
    if b != c {
      BelowTransitive(a, b, c);
    }
  }

  /** The ancestors of one path form a chain. */
  lemma AncestorsComparable(a: string, b: string, p: string)
    requires Covers(a, p) && Covers(b, p)
    ensures Comparable(a, b)
  {
    assert p[..|a|] == a && p[..|b|] == b;
    if |a| < |b| {
      assert b[..|a|] == p[..|b|][..|a|];
      assert b[|a|] == p[|a|];
    } else if |b| < |a| {
      assert a[..|b|] == p[..|a|][..|b|];
      assert a[|b|] == p[|b|];
    }
  }

  /** Coverage is inherited by every path below a covered one. */
  lemma CoveredByInherited(keys: set<string>, p: string, q: string)
    requires CoveredBy(keys, p) && Covers(p, q)
    ensures CoveredBy(keys, q)
  {
    var k :| k in keys && Covers(k, p);
    CoversTransitive(k, p, q);
  }

  /** Among keys that all cover `p`, one is deepest: every other key covers it. */
  lemma DeepestCover(keys: set<string>, p: string) returns (d: string)
    requires keys != {}
    requires forall k :: k in keys ==> Covers(k, p)
    ensures d in keys
    ensures forall k :: k in keys ==> Covers(k, d)
    decreases |keys|
  {
    var k :| k in keys;
    if keys == {k} {
      d := k;
    } else {
      var e := DeepestCover(keys - {k}, p);
      AncestorsComparable(k, e, p);
      d := if Covers(e, k) then k else e;
      forall j | j in keys ensures Covers(j, d) {
        if j != k && d == k {
          CoversTransitive(j, e, k);
        }
      }
    }
  }

  // ── The ancestor walk on the string itself ────────────

  /** `s.lastIndexOf(".", from)`: the last dot at or before `from` (a negative start reads as 0), else -1. */
  function LastDot(s: string, from: int): (i: int)
    ensures -1 <= i < |s|
    ensures i >= 0 ==> s[i] == '.' && (i <= from || i == 0)
    ensures forall j :: 0 <= j < |s| && i < j && (j <= from || j == 0) ==> s[j] != '.'
    decreases if from < 0 then 0 else from
  {
    var start := if from < 0 then 0 else from;
    if start < |s| && s[start] == '.' then start
    else if start == 0 then -1
    else LastDot(s, start - 1)
  }

  lemma BelowIsDotPrefix(p: string, k: string)
    ensures Below(p, k) <==> |k| < |p| && p[|k|] == '.' && p[..|k|] == k
  {
    if |k| < |p| && p[|k|] == '.' && p[..|k|] == k {
      assert p[..|k| + 1] == k + ".";
    }
    if Below(p, k) {
      assert p[..|k| + 1] == k + ".";
      assert p[..|k|] == p[..|k| + 1][..|k|];
    }
  }

  /**
   The walk from the path towards its root, one dot at a time. It ends only
   when no dot sits at index 0 (there the walk would find the same dot again).
   */
  method CoversPath(keys: set<string>, path: string) returns (covered: bool)
    requires path != "" ==> path[0] != '.'
    ensures covered == CoveredBy(keys, path)
  {
    if path in keys {
      return true;
    }
    var pos := LastDot(path, |path| - 1);
    while pos != -1
      invariant -1 <= pos < |path|
      invariant pos >= 0 ==> path[pos] == '.'
      invariant path !in keys
      invariant forall j :: pos < j < |path| && path[j] == '.' ==> path[..j] !in keys
      decreases pos
    {
      if path[..pos] in keys {
        BelowIsDotPrefix(path, path[..pos]);
        return true;
      }
      pos := LastDot(path, pos - 1);
    }
    forall k | k in keys ensures !Covers(k, path) {
      BelowIsDotPrefix(path, k);
    }
    return false;
  }

  // ── Paths as segments ────────────

  /** `path.split(".")` */
  function Split(path: string): (segs: seq<string>)
    ensures |segs| >= 1
  {
    if path == "" then [""]
    else if path[0] == '.' then [""] + Split(path[1..])
    else
      var rest := Split(path[1..]);
      [[path[0]] + rest[0]] + rest[1..]
  }

  /** Every run of leading segments is the path of some string. */
  lemma {:induction false} LeadingPath(f: string, k: nat) returns (p: string)
    requires 1 <= k <= |Split(f)|
    ensures Split(p) == Split(f)[..k]
    decreases |f|
  {
    if f == "" || (f[0] == '.' && k == 1) {
      p := "";
    } else if f[0] == '.' {
      var rest := LeadingPath(f[1..], k - 1);
      p := "." + rest;
      assert p[1..] == rest;
      assert Split(f)[..k] == [""] + Split(f[1..])[..k - 1];
    } else {
      var rest := LeadingPath(f[1..], k);
      p := [f[0]] + rest;
      assert p[1..] == rest;
    }
  }

  lemma SplitEmpty(a: string)
    ensures Split(a) == [""] <==> a == ""
  {
    if a != "" && a[0] == '.' {
      assert |Split(a)| >= 2;
    } else if a != "" {
      assert |Split(a)[0]| >= 1;
    }
  }

  /** The dotted order is the prefix order on segments, for every string. */
  lemma {:induction false} CoversIffSplitPrefix(k: string, p: string)
    ensures Covers(k, p) <==> Split(k) <= Split(p)
  {
    if k == "" {
      SplitEmpty(p);
      BelowIsDotPrefix(p, k);
      if p != "" && p[0] != '.' {
        assert |Split(p)[0]| >= 1;
      }
    } else if p == "" {
      SplitEmpty(k);
    } else {
      BelowIsDotPrefix(p, k);
      BelowIsDotPrefix(p[1..], k[1..]);
      var rk, rp := Split(k[1..]), Split(p[1..]);
      CoversIffSplitPrefix(k[1..], p[1..]);
      assert k == [k[0]] + k[1..] && p == [p[0]] + p[1..];
      if |k| <= |p| {
        assert p[..|k|] == [p[0]] + p[1..][..|k| - 1];
      }
      assert Covers(k, p) <==> k[0] == p[0] && Covers(k[1..], p[1..]);
      PrefixStep(k, p);
    }
  }

  lemma PrefixStep(k: string, p: string)
    requires k != "" && p != ""
    ensures Split(k) <= Split(p) <==> k[0] == p[0] && Split(k[1..]) <= Split(p[1..])
  {
    var sk, sp, rk, rp := Split(k), Split(p), Split(k[1..]), Split(p[1..]);
    if k[0] == '.' && p[0] == '.' {
      ConsPrefix("", "", rk, rp);
    } else if k[0] == '.' {
      assert |sp[0]| > 0;
    } else if p[0] == '.' {
      assert |sk[0]| > 0;
    } else {
      ConsPrefix([k[0]] + rk[0], [p[0]] + rp[0], rk[1..], rp[1..]);
      ConsPrefix(rk[0], rp[0], rk[1..], rp[1..]);
      assert rk == [rk[0]] + rk[1..] && rp == [rp[0]] + rp[1..];
      ConsEqual(k[0], p[0], rk[0], rp[0]);
    }
  }

  lemma ConsPrefix(a: string, b: string, s: seq<string>, t: seq<string>)
    ensures [a] + s <= [b] + t <==> a == b && s <= t
  {
    if [a] + s <= [b] + t {
      assert s == ([a] + s)[1..] && t == ([b] + t)[1..];
      assert ([a] + s)[0] == ([b] + t)[0];
    }
  }

  lemma ConsEqual(c: char, d: char, s: string, t: string)
    ensures [c] + s == [d] + t <==> c == d && s == t
  {
    if [c] + s == [d] + t {
      assert ([c] + s)[0] == c && ([d] + t)[0] == d;
      assert ([c] + s)[1..] == s && ([d] + t)[1..] == t;
    }
  }
}
