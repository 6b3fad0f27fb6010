/**
 * The std::wstring operations the application relies on: find (with its npos
 * result), prefix tests, substr, and to_wstring of an unsigned number.
 * A string stands for a std::wstring: each char is one wchar_t code unit, a
 * value below 0x10000 that is not a lone surrogate. Text outside the Basic
 * Multilingual Plane, which Windows stores as a surrogate pair of two code
 * units, is not modelled.
 */
module Text {
  import opened Wrappers

  /** std::wstring::npos: size_t is 64 bits wide. */
  const NPOS: nat := 0xFFFF_FFFF_FFFF_FFFF

  /** `pat` occurs in `s` starting at index `i`. */
  predicate MatchAt(s: string, pat: string, i: nat) {
    i + |pat| <= |s| && s[i..i + |pat|] == pat
  }

  /** s.find(pat, from): the leftmost occurrence at or after `from`, or npos (None). */
  function Find(s: string, pat: string, from: nat): (r: Option<nat>)
    ensures r.Some? ==> from <= r.value && MatchAt(s, pat, r.value)
    ensures forall j: nat :: from <= j && (r.None? || j < r.value) ==> !MatchAt(s, pat, j)
    decreases |s| - from
  {
    if from + |pat| > |s| then None
    else if MatchAt(s, pat, from) then Some(from)
    else Find(s, pat, from + 1)
  }

  /** s.find(c, from) for one character: the first index at or after `from` that holds `c`, or npos when there is none. */
  lemma {:induction false} FindChar(s: string, c: char, from: nat)
    ensures Find(s, [c], from).None? <==> forall j :: from <= j < |s| ==> s[j] != c
    ensures forall v: nat :: Find(s, [c], from) == Some(v) <==> from <= v < |s| && s[v] == c && forall j :: from <= j < v ==> s[j] != c
  {
    forall j: nat | from <= j < |s|
      ensures MatchAt(s, [c], j) <==> s[j] == c
    {
      assert s[j..j + 1][0] == s[j];
      if s[j] == c {
        assert s[j..j + 1] == [c];
      }
    }
  }

  /** s.find(pat) != npos. */
  predicate Contains(s: string, pat: string) {
    Find(s, pat, 0).Some?
  }

  lemma {:induction false} ContainsAt(s: string, pat: string, i: nat)
    requires MatchAt(s, pat, i)
    ensures Contains(s, pat)
  {
  }

  lemma {:induction false} ContainsWitness(s: string, pat: string) returns (i: nat)
    requires Contains(s, pat)
    ensures MatchAt(s, pat, i)
  {
    i := Find(s, pat, 0).value;
  }

  /** A match inside a slice is a match in the whole string. */
  lemma {:induction false} MatchInSlice(s: string, pat: string, a: nat, b: nat, i: nat)
    requires a <= b <= |s|
    ensures MatchAt(s[a..b], pat, i) ==> MatchAt(s, pat, a + i)
  {
    var t := s[a..b];
    if i + |pat| <= |t| {
      var u, v := t[i..i + |pat|], s[a + i..a + i + |pat|];
      forall k | 0 <= k < |pat|
        ensures u[k] == v[k]
      {
        assert u[k] == t[i + k] == s[a + i + k];
      }
      assert u == v;
    }
  }

  lemma {:induction false} NotContains(s: string, pat: string)
    requires forall i: nat :: !MatchAt(s, pat, i)
    ensures !Contains(s, pat)
  {
  }

  /** Text appended after a match does not remove it. */
  lemma {:induction false} ContainsPrefix(s: string, t: string, pat: string)
    requires Contains(s, pat)
    ensures Contains(s + t, pat)
  {
    var i := ContainsWitness(s, pat);
    assert (s + t)[i..i + |pat|] == s[i..i + |pat|];
    ContainsAt(s + t, pat, i);
  }

  /** s.find(pat) == 0 holds exactly when `pat` is a prefix of `s`. */
  lemma {:induction false} FindZeroIsPrefix(s: string, pat: string)
    ensures Find(s, pat, 0) == Some(0) <==> pat <= s
  {
    if pat <= s {
      assert s[0..|pat|] == pat;
    }
  }

  /** s.substr(pos, count): requires pos <= |s|, keeps at most `count` characters. */
  function Substr(s: string, pos: nat, count: nat): (r: string)
    requires pos <= |s|
    ensures |r| == if count <= |s| - pos then count else |s| - pos
    ensures r == s[pos..pos + |r|]
  {
    if count <= |s| - pos then s[pos..pos + count] else s[pos..]
  }

  /** a - b on size_t, which wraps around below zero. */
  function SizeSub(a: nat, b: nat): (r: nat)
    ensures b <= a ==> r == a - b
    ensures a < b <= a + NPOS ==> r == NPOS + 1 - (b - a)
  {
    if b <= a then a - b else (a - b) % (NPOS + 1)
  }

  /** Find stops at `v` when `v` is a match and nothing between `from` and `v` is. */
  lemma {:induction false} FindIs(s: string, pat: string, from: nat, v: nat)
    requires from <= v && MatchAt(s, pat, v)
    requires forall j: nat :: from <= j < v ==> !MatchAt(s, pat, j)
    ensures Find(s, pat, from) == Some(v)
  {
  }

  function DigitChar(d: nat): (c: char)
    requires d < 10
    ensures '0' <= c <= '9'
  {
    match d
    case 0 => '0' case 1 => '1' case 2 => '2' case 3 => '3' case 4 => '4'
    case 5 => '5' case 6 => '6' case 7 => '7' case 8 => '8' case _ => '9'
  }

  function DigitValue(c: char): (d: nat)
    requires '0' <= c <= '9'
    ensures d < 10
  {
    (c as int) - ('0' as int)
  }

  predicate AllDigits(s: string) {
    forall i :: 0 <= i < |s| ==> '0' <= s[i] <= '9'
  }

  /** std::to_wstring of an unsigned value: its decimal digits, most significant first. */
  function Decimal(n: nat): (r: string)
    ensures |r| >= 1 && AllDigits(r)
    decreases n
  {
    if n < 10 then [DigitChar(n)] else Decimal(n / 10) + [DigitChar(n % 10)]
  }

  /** The value a string of decimal digits denotes. */
  function DecimalValue(s: string): nat
    requires AllDigits(s)
  {
    if s == [] then 0 else 10 * DecimalValue(s[..|s| - 1]) + DigitValue(s[|s| - 1])
  }

  lemma {:induction false} DecimalRoundTrip(n: nat)
    ensures DecimalValue(Decimal(n)) == n
    decreases n
  {
    if n >= 10 {
      DecimalRoundTrip(n / 10);
      var r := Decimal(n);
      assert r[..|r| - 1] == Decimal(n / 10);
    }
  }

  /** Distinct numbers print differently, so an error number can be read back. */
  lemma {:induction false} DecimalInjective(m: nat, n: nat)
    requires Decimal(m) == Decimal(n)
    ensures m == n
  {
    DecimalRoundTrip(m);
    DecimalRoundTrip(n);
  }

  /** std::wstring built from a buffer of wide characters: the characters before the first NUL. */
  function UpToNul(s: seq<char>): (r: string)
    ensures r <= s && '\0' !in r
    ensures |r| < |s| ==> s[|r|] == '\0'
  {
    if s == [] || s[0] == '\0' then [] else [s[0]] + UpToNul(s[1..])
  }
}
