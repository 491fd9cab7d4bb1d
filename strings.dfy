/** String helpers with the meaning of the Python built-ins the recorder and
    the frame extractor rely on: `str.endswith`, the substring test `t in s`,
    `str.replace` and `str(n)` for a non-negative integer. */
module Strings {

  /** Python's `s.startswith(t)`. */
  predicate StartsWith(s: string, t: string) {
    |t| <= |s| && s[..|t|] == t
  }

  /** Python's `s.endswith(t)`. */
  predicate EndsWith(s: string, t: string) {
    |t| <= |s| && s[|s| - |t|..] == t
  }

  /** Python's substring test `t in s`. */
  predicate Contains(s: string, t: string)
    decreases |s|
  {
    StartsWith(s, t) || (|s| > 0 && Contains(s[1..], t))
  }

  /** No '.' anywhere in `s`. */
  predicate NoDot(s: string)
  {
    forall i :: 0 <= i < |s| ==> s[i] != '.'
  }

  /** Python's `s.replace(p, r)` for a non-empty pattern: occurrences of `p`
      are found left to right, never overlapping, and each is replaced. */
  function ReplaceAll(s: string, p: string, r: string): (res: string)
    requires |p| > 0
    ensures !Contains(s, p) ==> res == s
    decreases |s|
  {
    if |s| < |p| then s
    else if s[..|p|] == p then r + ReplaceAll(s[|p|..], p, r)
    else [s[0]] + ReplaceAll(s[1..], p, r)
  }

  /** The character of a decimal digit. */
  function Digit(d: nat): (c: char)
    requires d < 10
    ensures '0' <= c <= '9'
  {
    ('0' as int + d) as char
  }

  /** Python's `str(n)` for `n >= 0`: decimal digits, no leading zero. */
  function NatToString(n: nat): (s: string)
    ensures |s| >= 1
    ensures |s| == 1 <==> n < 10
    ensures forall i :: 0 <= i < |s| ==> '0' <= s[i] <= '9'
  {
    if n < 10 then [Digit(n)] else NatToString(n / 10) + [Digit(n % 10)]
  }

  /** Distinct numbers print differently. */
  lemma {:induction false} NatToStringInjective(a: nat, b: nat)
    requires NatToString(a) == NatToString(b)
    ensures a == b
  {
    if a >= 10 && b >= 10 {
      var sa, sb := NatToString(a), NatToString(b);
      assert sa[..|sa| - 1] == NatToString(a / 10);
      assert sb[..|sb| - 1] == NatToString(b / 10);
      NatToStringInjective(a / 10, b / 10);
      assert sa[|sa| - 1] == Digit(a % 10);
      assert sb[|sb| - 1] == Digit(b % 10);
    }
  }

  /** Scanning for `p` never stops inside a prefix that lacks `p`'s first
      character: the prefix is copied unchanged. */
  lemma {:induction false} ReplaceSkipsPrefix(u: string, t: string, p: string, r: string)
    requires |p| > 0
    requires forall i :: 0 <= i < |u| ==> u[i] != p[0]
    ensures ReplaceAll(u + t, p, r) == u + ReplaceAll(t, p, r)
    decreases |u|
  {
    if u == [] {
      assert u + t == t;
    } else {
      var s := u + t;
      if |s| < |p| {
        assert ReplaceAll(t, p, r) == t;
      } else {
        assert s[..|p|][0] == u[0] != p[0];
        assert s[1..] == u[1..] + t;
        ReplaceSkipsPrefix(u[1..], t, p, r);
        assert [s[0]] + u[1..] == u;
        assert ReplaceAll(s, p, r) == [s[0]] + ReplaceAll(s[1..], p, r);
      }
    }
  }

  /** The pattern on its own is replaced by the replacement. */
  lemma ReplaceWhole(p: string, r: string)
    requires |p| > 0
    ensures ReplaceAll(p, p, r) == r
  {
    assert p[..|p|] == p;
    assert ReplaceAll(p[|p|..], p, r) == [];
  }

  /** A pattern whose first character occurs nowhere else in it (".h264",
      ".mp4") cannot overlap itself, so a trailing occurrence is always the one that
      the left-to-right scan replaces: the result ends with the
      replacement. */
  lemma {:induction false} ReplaceKeepsSuffix(s: string, p: string, r: string)
    requires |p| > 0
    requires forall i :: 1 <= i < |p| ==> p[i] != p[0]
    requires EndsWith(s, p)
    ensures EndsWith(ReplaceAll(s, p, r), r)
    decreases |s|
  {
    if s[..|p|] == p {
      var t := s[|p|..];
      NoShortOverlap(s, p);
      assert ReplaceAll(s, p, r) == r + ReplaceAll(t, p, r);
      if |t| == 0 {
        assert ReplaceAll(t, p, r) == [];
        assert r + [] == r;
      } else {
        assert t[|t| - |p|..] == s[|s| - |p|..];
        ReplaceKeepsSuffix(t, p, r);
        EndsWithAfter(r, ReplaceAll(t, p, r), r);
      }
    } else {
      assert ReplaceAll(s, p, r) == [s[0]] + ReplaceAll(s[1..], p, r);
      assert s[1..][|s| - 1 - |p|..] == s[|s| - |p|..];
      ReplaceKeepsSuffix(s[1..], p, r);
      EndsWithAfter([s[0]], ReplaceAll(s[1..], p, r), r);
    }
  }

  /** Putting something in front keeps what a string ends with. */
  lemma EndsWithAfter(a: string, x: string, r: string)
    requires EndsWith(x, r)
    ensures EndsWith(a + x, r)
  {
    assert (a + x)[|a + x| - |r|..] == x[|x| - |r|..];
  }

  /** A string that starts and ends with such a pattern is the pattern
      itself or holds two disjoint copies of it. */
  lemma NoShortOverlap(s: string, p: string)
    requires |p| > 0
    requires forall i :: 1 <= i < |p| ==> p[i] != p[0]
    requires StartsWith(s, p) && EndsWith(s, p)
    ensures |s| == |p| || |s| >= 2 * |p|
  {
    var j := |s| - |p|;
    if 0 < j < |p| {
      OverlapRepeatsHead(s, p);
      assert false;
    }
  }

  /** When two copies of `p` overlap at the start and the end of `s`, the
      character of `p` under the start of the second copy is `p`'s first. */
  lemma OverlapRepeatsHead(s: string, p: string)
    requires StartsWith(s, p) && EndsWith(s, p)
    requires |p| < |s| < 2 * |p|
    ensures p[|s| - |p|] == p[0]
  {
    var j := |s| - |p|;
    assert s[j] == s[..|p|][j];
    assert s[j] == s[|s| - |p|..][0];
  }

  /** `endswith` is transitive along a chain of suffixes. */
  lemma EndsWithTrans(s: string, t: string, u: string)
    requires EndsWith(s, t) && EndsWith(t, u)
    ensures EndsWith(s, u)
  {
    assert s[|s| - |u|..] == s[|s| - |t|..][|t| - |u|..];
  }
}
