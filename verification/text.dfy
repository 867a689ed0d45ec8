/** Decimal digits and separator splitting: the small amount of string
    handling the token format needs. */
module Text {

  import opened Outcomes

  predicate IsDigit(c: char) {
    '0' <= c <= '9'
  }

  predicate AllDigits(s: string) {
    forall i :: 0 <= i < |s| ==> IsDigit(s[i])
  }

  function DigitChar(d: nat): (c: char)
    requires d < 10
    ensures IsDigit(c)
  {
    ('0' as int + d) as char
  }

  function DigitValue(c: char): (d: nat)
    requires IsDigit(c)
    ensures d < 10
    ensures DigitChar(d) == c
  {
    c as int - '0' as int
  }

  /** Canonical decimal rendering of a natural number (no leading zeros). */
  function NatDigits(n: nat): (s: string)
    ensures |s| > 0
    ensures AllDigits(s)
    ensures |s| > 1 ==> s[0] != '0'
    decreases n
  {
    if n < 10 then [DigitChar(n)] else NatDigits(n / 10) + [DigitChar(n % 10)]
  }

  function DigitsValue(s: string): nat
    requires AllDigits(s)
  {
    if |s| == 0 then 0 else DigitsValue(s[..|s| - 1]) * 10 + DigitValue(s[|s| - 1])
  }

  lemma {:induction false} DigitsValueOfNatDigits(n: nat)
    ensures DigitsValue(NatDigits(n)) == n
    decreases n
  {
    var s := NatDigits(n);
    if n < 10 {
      assert s == [DigitChar(n)];
      assert s[..0] == [];
    } else {
      DigitsValueOfNatDigits(n / 10);
      assert s[..|s| - 1] == NatDigits(n / 10);
      assert DigitValue(s[|s| - 1]) == n % 10;
    }
  }

  /** Strict parser: accepts exactly the canonical renderings. */
  function ParseNat(s: string): (r: Option<nat>)
    ensures r.Some? ==> NatDigits(r.value) == s
    ensures r.Some? ==> AllDigits(s)
  {
    if |s| > 0 && AllDigits(s) && NatDigits(DigitsValue(s)) == s then Some(DigitsValue(s)) else None
  }

  lemma ParseNatDigits(n: nat)
    ensures ParseNat(NatDigits(n)) == Some(n)
  {
    DigitsValueOfNatDigits(n);
  }

  /** Position of the first occurrence of `sep` in `s`, if any. */
  function FindFirst(s: string, sep: char): (r: Option<nat>)
    ensures r.Some? ==> r.value < |s| && s[r.value] == sep && sep !in s[..r.value]
    ensures r.None? ==> sep !in s
  {
    if |s| == 0 then None
    else if s[0] == sep then Some(0)
    else
      match FindFirst(s[1..], sep)
      case None => None
      case Some(i) =>
        assert s[..i + 1] == [s[0]] + s[1..][..i];
        Some(i + 1)
  }

  /** Splits `s` at the first `sep`, dropping the separator. */
  function SplitFirst(s: string, sep: char): (r: Option<(string, string)>)
    ensures r.Some? ==> sep !in r.value.0 && s == r.value.0 + [sep] + r.value.1
    ensures r.None? ==> sep !in s
  {
    match FindFirst(s, sep)
    case None => None
    case Some(i) =>
      assert s == s[..i] + [sep] + s[i + 1..];
      Some((s[..i], s[i + 1..]))
  }

  lemma SplitFirstJoin(a: string, sep: char, b: string)
    requires sep !in a
    ensures SplitFirst(a + [sep] + b, sep) == Some((a, b))
  {
    var s := a + [sep] + b;
    var r := SplitFirst(s, sep);
    assert s[|a|] == sep;
    assert r.Some?;
    var (x, y) := r.value;
    assert x == s[..|a|] == a;
    assert y == s[|a| + 1..] == b;
  }

  predicate StartsWith(s: string, prefix: string) {
    |prefix| <= |s| && s[..|prefix|] == prefix
  }
}
