/**
  The part of Python's `str` that the sequence filter of the PCR simulator
  relies on: `str.isspace`, `str.strip()`, `str.startswith` and
  `"".join`.
 */
module Strings {

  /** Python 3's `str.isspace` on one code point: the characters that
      `str.strip()` with no argument removes. */
  predicate IsSpace(c: char)
  {
    var n := c as int;
    || (0x09 <= n <= 0x0D)      // \t \n \v \f \r
    || (0x1C <= n <= 0x20)      // the four separators and the space
    || n == 0x85 || n == 0xA0
    || n == 0x1680
    || (0x2000 <= n <= 0x200A)
    || n == 0x2028 || n == 0x2029
    || n == 0x202F || n == 0x205F || n == 0x3000
  }

  predicate AllSpace(s: string)
  {
    forall k :: 0 <= k < |s| ==> IsSpace(s[k])
  }

  /** Neither the first nor the last character is whitespace. */
  predicate Trimmed(s: string)
  {
    s == [] || (!IsSpace(s[0]) && !IsSpace(s[|s| - 1]))
  }

  /** `s.startswith(prefix)`. */
  predicate StartsWith(s: string, prefix: string)
  {
    |prefix| <= |s| && s[..|prefix|] == prefix
  }

  /** Every character of `s` from index `lo` up to (not including) `hi`
      is whitespace. */
  predicate SpaceIn(s: string, lo: nat, hi: nat)
    requires lo <= hi <= |s|
  {
    forall k :: lo <= k < hi ==> IsSpace(s[k])
  }

  /** The forward scan of `strip()`: from `i`, skip whitespace; the index
      reached is the end of `s` or a non-whitespace character. */
  function SkipSpaceForward(s: string, i: nat): (e: nat)
    requires i <= |s|
    ensures i <= e <= |s| && SpaceIn(s, i, e)
    ensures e == |s| || !IsSpace(s[e])
    decreases |s| - i
  {
    if i < |s| && IsSpace(s[i]) then SkipSpaceForward(s, i + 1) else i
  }

  /** The backward scan of `strip()`: from `j`, step back over whitespace
      but never below `lo`; the index reached is `lo` or follows a
      non-whitespace character. */
  function SkipSpaceBackward(s: string, lo: nat, j: nat): (b: nat)
    requires lo <= j <= |s|
    ensures lo <= b <= j && SpaceIn(s, b, j)
    ensures b == lo || !IsSpace(s[b - 1])
    decreases j
  {
    if lo < j && IsSpace(s[j - 1]) then SkipSpaceBackward(s, lo, j - 1) else j
  }

  /** Where `strip()` starts its slice of `s`. */
  function StripStart(s: string): (i: nat)
    ensures i <= |s| && SpaceIn(s, 0, i)
  {
    SkipSpaceForward(s, 0)
  }

  /** Where `strip()` ends its slice of `s`. */
  function StripEnd(s: string): (j: nat)
    ensures StripStart(s) <= j <= |s| && SpaceIn(s, j, |s|)
  {
    SkipSpaceBackward(s, StripStart(s), |s|)
  }

  /** `s.strip()`: the slice of `s` between the two scans. It is trimmed,
      and what lies outside it is whitespace. */
  function Strip(s: string): (r: string)
    ensures StripStart(s) + |r| <= |s| && r == s[StripStart(s)..StripStart(s) + |r|]
    ensures SpaceIn(s, 0, StripStart(s)) && SpaceIn(s, StripStart(s) + |r|, |s|)
    ensures Trimmed(r)
  {
    s[StripStart(s)..StripEnd(s)]
  }

  /** `strip()` gives the empty string exactly for all-whitespace input. */
  lemma StripEmpty(s: string)
    ensures Strip(s) == [] <==> AllSpace(s)
  {
  }

  /** The forward scan stops at the first non-whitespace character. */
  lemma SkipSpaceForwardAt(s: string, i: nat, m: nat)
    requires i <= m <= |s| && SpaceIn(s, i, m)
    requires m == |s| || !IsSpace(s[m])
    ensures SkipSpaceForward(s, i) == m
  {
  }

  /** The backward scan stops after the last non-whitespace character. */
  lemma SkipSpaceBackwardAt(s: string, lo: nat, j: nat, m: nat)
    requires lo <= m <= j <= |s| && SpaceIn(s, m, j)
    requires m == lo || !IsSpace(s[m - 1])
    ensures SkipSpaceBackward(s, lo, j) == m
  {
  }

  /** `Strip` is fully determined: whatever is surrounded by whitespace
      and is itself trimmed is what `strip()` gives back. */
  lemma StripOfPadded(p: string, t: string, q: string)
    requires AllSpace(p) && AllSpace(q) && Trimmed(t)
    ensures Strip(p + t + q) == t
  {
    var s := p + t + q;
    if t == [] {
      assert SpaceIn(s, 0, |s|) by {
        forall k | 0 <= k < |s| ensures IsSpace(s[k]) {
          if k < |p| { assert s[k] == p[k]; } else { assert s[k] == q[k - |p|]; }
        }
      }
      SkipSpaceForwardAt(s, 0, |s|);
      assert s[|s|..|s|] == [];
    } else {
      var m, n := |p|, |p| + |t|;
      assert SpaceIn(s, 0, m) by {
        forall k | 0 <= k < m ensures IsSpace(s[k]) { assert s[k] == p[k]; }
      }
      assert SpaceIn(s, n, |s|) by {
        forall k | n <= k < |s| ensures IsSpace(s[k]) { assert s[k] == q[k - n]; }
      }
      assert s[m] == t[0] && s[n - 1] == t[|t| - 1];
      SkipSpaceForwardAt(s, 0, m);
      SkipSpaceBackwardAt(s, m, |s|, n);
      assert s[m..n] == t;
    }
  }

  /** `strip()` is idempotent. */
  lemma StripIdempotent(s: string)
    ensures Strip(Strip(s)) == Strip(s)
  {
  }

  /** `"".join(parts)`. */
  function Concat(parts: seq<string>): string
  {
    if parts == [] then "" else parts[0] + Concat(parts[1..])
  }

  /** The summed length of a list of strings. */
  function TotalLength(parts: seq<string>): nat
  {
    if parts == [] then 0 else |parts[0]| + TotalLength(parts[1..])
  }

  lemma {:induction false} ConcatAppend(a: seq<string>, b: seq<string>)
    ensures Concat(a + b) == Concat(a) + Concat(b)
  {
    if a == [] {
      assert a + b == b;
    } else {
      assert (a + b)[1..] == a[1..] + b;
      ConcatAppend(a[1..], b);
    }
  }

  lemma {:induction false} TotalLengthAppend(a: seq<string>, b: seq<string>)
    ensures TotalLength(a + b) == TotalLength(a) + TotalLength(b)
  {
    if a == [] {
      assert a + b == b;
    } else {
      assert (a + b)[1..] == a[1..] + b;
      TotalLengthAppend(a[1..], b);
    }
  }

  /** Joining trimmed strings gives a trimmed string: the ends of the
      result are the ends of the first and the last non-empty part. */
  lemma {:induction false} ConcatTrimmed(parts: seq<string>)
    requires forall k :: 0 <= k < |parts| ==> Trimmed(parts[k])
    ensures Trimmed(Concat(parts))
  {
    if parts != [] {
      ConcatTrimmed(parts[1..]);
      assert Trimmed(parts[0]);
    }
  }
}
