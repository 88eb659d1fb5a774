/**
 * The string built-ins the extractor and the citation chips rely on:
 * `str.replace("\x00", "")`, `str.strip()` (Python's whitespace set) and the
 * decimal rendering of an integer inside an f-string.
 */
module Text {

  const NUL: char := '\0'

  /** Python's `str.isspace()`: the characters `str.strip()` removes. */
  predicate IsSpace(c: char) {
    || c == ' '
    || ('\t' <= c <= '\r')
    || ('\U{1C}' <= c <= '\U{1F}')
    || c == '\U{85}' || c == '\U{A0}' || c == '\U{1680}'
    || ('\U{2000}' <= c <= '\U{200A}')
    || c == '\U{2028}' || c == '\U{2029}' || c == '\U{202F}' || c == '\U{205F}' || c == '\U{3000}'
  }

  /** `s.replace("\x00", "")`: every character except NUL, in order. */
  function RemoveNul(s: string): (r: string)
    ensures NUL !in r
    ensures |r| <= |s|
  {
    if s == [] then []
    else (if s[0] == NUL then [] else [s[0]]) + RemoveNul(s[1..])
  }

  /**
   * `RemoveNul` drops exactly the NULs: every other character survives as
   * often as it occurs, and the length drops by the number of NULs.
   */
  lemma {:induction false} RemoveNulKeepsOthers(s: string)
    ensures multiset(RemoveNul(s)) == multiset(s)[NUL := 0]
    ensures forall c :: c in RemoveNul(s) <==> c in s && c != NUL
    ensures |RemoveNul(s)| == |s| - multiset(s)[NUL]
    ensures NUL !in s ==> RemoveNul(s) == s
  {
    if s != [] {
      RemoveNulKeepsOthers(s[1..]);
      assert s == [s[0]] + s[1..];
      assert multiset(s) == multiset{s[0]} + multiset(s[1..]);
    }
  }

  /** `RemoveNul` works piece by piece, so the surviving characters keep their order. */
  lemma {:induction false} RemoveNulAppend(a: string, b: string)
    ensures RemoveNul(a + b) == RemoveNul(a) + RemoveNul(b)
  {
    if a != [] {
      assert (a + b)[1..] == a[1..] + b;
      RemoveNulAppend(a[1..], b);
    } else {
      assert a + b == b;
    }
  }

  /** The index of the first non-space at or after `i` (`|s|` when there is none). */
  function SkipSpaces(s: string, i: nat): (r: nat)
    requires i <= |s|
    ensures i <= r <= |s|
    ensures forall k :: i <= k < r ==> IsSpace(s[k])
    ensures r == |s| || !IsSpace(s[r])
    decreases |s| - i
  {
    if i < |s| && IsSpace(s[i]) then SkipSpaces(s, i + 1) else i
  }

  /** The end of `s[..j]` once its trailing spaces are dropped. */
  function SkipSpacesBack(s: string, j: nat): (r: nat)
    requires j <= |s|
    ensures r <= j
    ensures forall k :: r <= k < j ==> IsSpace(s[k])
    ensures r == 0 || !IsSpace(s[r - 1])
  {
    if j > 0 && IsSpace(s[j - 1]) then SkipSpacesBack(s, j - 1) else j
  }

  /** `s.lstrip()`. */
  function TrimStart(s: string): string {
    s[SkipSpaces(s, 0)..]
  }

  /** `s.rstrip()`. */
  function TrimEnd(s: string): string {
    s[..SkipSpacesBack(s, |s|)]
  }

  /** `s.strip()`: `s` with its leading and its trailing spaces removed. */
  function Strip(s: string): (r: string)
    ensures r == [] || (!IsSpace(r[0]) && !IsSpace(r[|r| - 1]))
  {
    TrimEnd(TrimStart(s))
  }

  /**
   * What `Strip` keeps: a slice of `s` with only spaces cut off around it, so
   * it is empty exactly when `s` holds nothing but spaces.
   */
  lemma StripIsSlice(s: string)
    ensures exists a, b :: (0 <= a <= b <= |s| && Strip(s) == s[a..b] &&
      (forall k :: 0 <= k < a ==> IsSpace(s[k])) &&
      (forall k :: b <= k < |s| ==> IsSpace(s[k])))
    ensures forall c :: c in Strip(s) ==> c in s
    ensures Strip(s) == [] <==> forall c :: c in s ==> IsSpace(c)
  {
    var a := SkipSpaces(s, 0);
    var t := s[a..];
    var m := SkipSpacesBack(t, |t|);
    assert Strip(s) == s[a..a + m];
    assert forall k :: a + m <= k < |s| ==> s[k] == t[k - a];
    if Strip(s) == [] {
      assert forall k :: 0 <= k < |s| ==> IsSpace(s[k]);
    }
  }

  /** The decimal digit for `d`. */
  function Digit(d: nat): (c: char)
    requires d < 10
    ensures '0' <= c <= '9' && c as int - '0' as int == d
  {
    ('0' as int + d) as char
  }

  /** `str(n)` for a natural number: its decimal digits, most significant first, with no leading zero. */
  function NatToString(n: nat): (r: string)
    ensures |r| >= 1
    ensures forall k :: 0 <= k < |r| ==> '0' <= r[k] <= '9'
    ensures r[0] == '0' <==> n == 0
  {
    if n < 10 then [Digit(n)] else NatToString(n / 10) + [Digit(n % 10)]
  }

  /** The value of a string of decimal digits (`int(s)`); the partner of `NatToString`. */
  function ParseDecimal(s: string): nat
    requires forall k :: 0 <= k < |s| ==> '0' <= s[k] <= '9'
  {
    if s == [] then 0
    else ParseDecimal(s[..|s| - 1]) * 10 + (s[|s| - 1] as int - '0' as int)
  }

  /** Reading back the decimal rendering of `n` gives `n`. */
  lemma {:induction false} ParseNatToString(n: nat)
    ensures ParseDecimal(NatToString(n)) == n
  {
    var r := NatToString(n);
    if n >= 10 {
      ParseNatToString(n / 10);
      assert r[..|r| - 1] == NatToString(n / 10);
    }
  }

  /** Distinct numbers render as distinct strings. */
  lemma NatToStringInjective(a: nat, b: nat)
    ensures NatToString(a) == NatToString(b) <==> a == b
  {
    if NatToString(a) == NatToString(b) {
      ParseNatToString(a);
      ParseNatToString(b);
    }
  }

  /** Stripping a stripped string changes nothing. */
  lemma StripIdempotent(s: string)
    ensures Strip(Strip(s)) == Strip(s)
  {
    var r := Strip(s);
    if r != [] {
      assert SkipSpaces(r, 0) == 0;
      assert SkipSpacesBack(r, |r|) == |r|;
    }
  }
}
