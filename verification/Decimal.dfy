/** Decimal text, as printed by an ostream or std::to_string and read by std::stoll. */
module Decimal {
  import opened InfluxTypes

  predicate IsDigit(c: char) { '0' <= c <= '9' }

  function DigitChar(d: nat): char
    requires d < 10
  {
    '0' + d as char
  }

  function DigitValue(c: char): (d: nat)
    requires IsDigit(c)
    ensures d < 10
  {
    (c - '0') as nat
  }

  ghost predicate AllDigits(s: string) { forall i :: 0 <= i < |s| ==> IsDigit(s[i]) }

  /** Without leading zeros. */
  function PrintNat(n: nat): (s: string)
    ensures s != "" && AllDigits(s)
  {
    if n < 10 then [DigitChar(n)] else PrintNat(n / 10) + [DigitChar(n % 10)]
  }

  function PrintInt(n: int): string { if n < 0 then "-" + PrintNat(-n) else PrintNat(n) }

  /** The value of a string of digits. */
  function NatValue(s: string): nat
    requires AllDigits(s)
  {
    if s == "" then 0 else NatValue(s[..|s| - 1]) * 10 + DigitValue(s[|s| - 1])
  }

  function ParseInt(s: string): Option<int> {
    if s != "" && s[0] == '-' then
      if |s| > 1 && AllDigitsC(s[1..]) then Some(-(NatValue(s[1..]) as int)) else None
    else
      if s != "" && AllDigitsC(s) then Some(NatValue(s)) else None
  }

  predicate AllDigitsC(s: string)
    ensures AllDigitsC(s) <==> AllDigits(s)
  {
    forall i :: 0 <= i < |s| ==> IsDigit(s[i])
  }

  lemma {:induction false} NatValuePrint(n: nat)
    ensures NatValue(PrintNat(n)) == n
  {
    if n >= 10 {
      NatValuePrint(n / 10);
      var s := PrintNat(n);
      assert s[..|s| - 1] == PrintNat(n / 10);
    } else {
      assert PrintNat(n)[..0] == "";
    }
  }

  lemma ParsePrintInt(n: int)
    ensures ParseInt(PrintInt(n)) == Some(n)
    ensures forall c :: c in PrintInt(n) ==> IsDigit(c) || c == '-'
  {
    NatValuePrint(if n < 0 then -n else n);
    if n < 0 {
      assert PrintInt(n)[1..] == PrintNat(-n);
    }
  }

  // ---------------------------------------------------------------- fixed width

  function Pow10(w: nat): (p: nat)
    ensures p >= 1
  {
    if w == 0 then 1 else 10 * Pow10(w - 1)
  }

  /** The last w digits, padded with zeros on the left. */
  function Fixed(n: nat, w: nat): (s: string)
    ensures |s| == w
  {
    if w == 0 then "" else Fixed(n / 10, w - 1) + [DigitChar(n % 10)]
  }

  lemma {:induction false} FixedDigits(n: nat, w: nat)
    ensures AllDigits(Fixed(n, w))
  {
    if w > 0 { FixedDigits(n / 10, w - 1); }
  }

  lemma {:induction false} NatValueFixed(n: nat, w: nat)
    requires n < Pow10(w)
    ensures AllDigits(Fixed(n, w)) && NatValue(Fixed(n, w)) == n
  {
    FixedDigits(n, w);
    if w > 0 {
      NatValueFixed(n / 10, w - 1);
      assert Fixed(n, w)[..w - 1] == Fixed(n / 10, w - 1);
    }
  }

  lemma {:induction false} NatValueConcat(a: string, b: string)
    requires AllDigits(a) && AllDigits(b)
    ensures AllDigits(a + b)
    ensures NatValue(a + b) == NatValue(a) * Pow10(|b|) + NatValue(b)
    decreases |b|
  {
    if b == "" {
      assert a + b == a;
    } else {
      var front := b[..|b| - 1];
      NatValueConcat(a, front);
      assert (a + b)[..|a + b| - 1] == a + front;
      TimesTen(NatValue(a), Pow10(|front|));
    }
  }

  lemma TimesTen(v: nat, p: nat)
    ensures (v * p) * 10 == v * (10 * p)
  {
  }
}
