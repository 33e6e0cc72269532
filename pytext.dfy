/**
 * The few Python `str` operations the client relies on, over Dafny strings:
 * `isspace`, `strip`/`rstrip`, `lower` (as far as `startswith("image/")` can
 * observe it), `startswith` and `str()` of an integer.
 */
module PyText {

  /** `c.isspace()`: exactly the 29 code points CPython treats as whitespace. */
  predicate IsSpace(c: char) {
    || c == ' '
    || '\t' <= c <= '\r'
    || '\U{1C}' <= c <= '\U{1F}'
    || c == '\U{85}' || c == '\U{A0}' || c == '\U{1680}'
    || '\U{2000}' <= c <= '\U{200A}'
    || c == '\U{2028}' || c == '\U{2029}' || c == '\U{202F}' || c == '\U{205F}' || c == '\U{3000}'
  }

  predicate AllSpace(s: string) {
    forall i :: 0 <= i < |s| ==> IsSpace(s[i])
  }

  predicate NoSpace(s: string) {
    forall i :: 0 <= i < |s| ==> !IsSpace(s[i])
  }

  /** The first index from `k` on that does not hold whitespace (`|s|` when there is none). */
  function SpaceEnd(s: string, k: nat): (n: nat)
    requires k <= |s|
    ensures k <= n <= |s|
    ensures forall i :: k <= i < n ==> IsSpace(s[i])
    ensures n < |s| ==> !IsSpace(s[n])
    decreases |s| - k
  {
    if k < |s| && IsSpace(s[k]) then SpaceEnd(s, k + 1) else k
  }

  /** The start of the whitespace run that ends just before index `k`. */
  function SpaceStart(s: string, k: nat): (n: nat)
    requires k <= |s|
    ensures n <= k
    ensures forall i :: n <= i < k ==> IsSpace(s[i])
    ensures n > 0 ==> !IsSpace(s[n - 1])
  {
    if k > 0 && IsSpace(s[k - 1]) then SpaceStart(s, k - 1) else k
  }

  /** `s.lstrip()`: `s` minus its longest whitespace prefix. */
  function TrimStart(s: string): (t: string)
    ensures |t| <= |s| && t == s[|s| - |t|..]
    ensures AllSpace(s[..|s| - |t|])
    ensures t != [] ==> !IsSpace(t[0])
  {
    s[SpaceEnd(s, 0)..]
  }

  /** `s.rstrip()`: `s` minus its longest whitespace suffix. */
  function TrimEnd(s: string): (t: string)
    ensures |t| <= |s| && t == s[..|t|]
    ensures AllSpace(s[|t|..])
    ensures t != [] ==> !IsSpace(t[|t| - 1])
  {
    s[..SpaceStart(s, |s|)]
  }

  /** `s.strip()`: whitespace cut from both ends. */
  function Strip(s: string): (t: string)
    ensures t != [] ==> !IsSpace(t[0]) && !IsSpace(t[|t| - 1])
    ensures t == [] <==> AllSpace(s)
  {
    var u := TrimStart(s);
    assert u == [] ==> AllSpace(s) by {
      if u == [] { assert s[..|s|] == s; }
    }
    assert AllSpace(s) ==> u == [] by {
      if u != [] { assert u[0] == s[|s| - |u|]; }
    }
    TrimEnd(u)
  }

  /**
   * What `strip` leaves is a slice of its input with only whitespace around
   * it; the slice starts where `lstrip` stops.
   */
  lemma StripIsSlice(s: string)
    ensures var t, i := Strip(s), |s| - |TrimStart(s)|;
      i + |t| <= |s| && t == s[i..i + |t|] && AllSpace(s[..i]) && AllSpace(s[i + |t|..])
  {
    var u := TrimStart(s);
    assert Strip(s) == TrimEnd(u);
    SliceOfSuffix(s, |s| - |u|, u, TrimEnd(u));
  }

  /** A prefix `t` of the suffix `u` of `s` from `i` on is the slice of `s` from `i`, and what follows it in `u` follows it in `s`. */
  lemma SliceOfSuffix(s: string, i: nat, u: string, t: string)
    requires i <= |s| && u == s[i..] && |t| <= |u| && t == u[..|t|]
    ensures t == s[i..i + |t|] && u[|t|..] == s[i + |t|..]
  {
  }

  /** A string without whitespace is left alone by `rstrip` and `strip`. */
  lemma {:induction false} TrimOfNoSpace(s: string)
    requires NoSpace(s)
    ensures TrimEnd(s) == s && TrimStart(s) == s && Strip(s) == s
  {
  }

  /** `c.lower()` on the ASCII capitals; every other character is left alone. */
  function LowerChar(c: char): (d: char)
    ensures 'A' <= c <= 'Z' ==> 'a' <= d <= 'z' && d as int == c as int + 32
    ensures !('A' <= c <= 'Z') ==> d == c
  {
    if 'A' <= c <= 'Z' then (c as int - 'A' as int + 'a' as int) as char else c
  }

  /** `s.lower()`, character by character (see LowerChar). */
  function Lower(s: string): (t: string)
    ensures |t| == |s| && forall i :: 0 <= i < |s| ==> t[i] == LowerChar(s[i])
  {
    seq(|s|, i requires 0 <= i < |s| => LowerChar(s[i]))
  }

  predicate StartsWith(s: string, prefix: string) {
    |prefix| <= |s| && s[..|prefix|] == prefix
  }

  function DigitChar(d: nat): (c: char)
    requires d < 10
    ensures '0' <= c <= '9' && c as int - '0' as int == d
  {
    ('0' as int + d) as char
  }

  /** The number a string of decimal digits spells, most significant digit first. */
  function DigitsValue(s: string): int {
    if s == [] then 0 else 10 * DigitsValue(s[..|s| - 1]) + (s[|s| - 1] as int - '0' as int)
  }

  /** `str(n)` for a natural number: its decimal digits, most significant first. */
  function NatDecimal(n: nat): (s: string)
    ensures s != []
    ensures forall i :: 0 <= i < |s| ==> '0' <= s[i] <= '9'
    ensures n < 10 <==> |s| == 1
    ensures n >= 10 ==> s[0] != '0'
  {
    if n < 10 then [DigitChar(n)] else NatDecimal(n / 10) + [DigitChar(n % 10)]
  }

  /** The digits NatDecimal writes spell the number itself. */
  lemma {:induction false} NatDecimalValue(n: nat)
    ensures DigitsValue(NatDecimal(n)) == n
  {
    var s := NatDecimal(n);
    if n < 10 {
      assert s[..0] == [];
    } else {
      NatDecimalValue(n / 10);
      assert s[..|s| - 1] == NatDecimal(n / 10);
    }
  }

  /** `str(n)` for an integer: a minus sign before the digits of `-n` when `n` is negative. */
  function Decimal(n: int): (s: string)
    ensures s != [] && ('0' <= s[0] <= '9' || s[0] == '-')
    ensures s[0] == '-' <==> n < 0
    ensures n >= 0 ==> DigitsValue(s) == n
    ensures n < 0 ==> DigitsValue(s[1..]) == -n
    ensures var k := if n < 0 then 1 else 0;
      && k < |s|
      && (forall j :: k <= j < |s| ==> '0' <= s[j] <= '9')
      && (|s| > k + 1 ==> s[k] != '0')
  {
    if n < 0 then
      NatDecimalValue(-n);
      assert ("-" + NatDecimal(-n))[1..] == NatDecimal(-n);
      "-" + NatDecimal(-n)
    else
      NatDecimalValue(n);
      NatDecimal(n)
  }
}
