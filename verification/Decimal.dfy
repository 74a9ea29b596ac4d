/** Decimal numbers as text, as `absl::StrCat` writes and `absl::SimpleAtoi` reads them. */
module Decimals {
  import opened Options

  predicate IsDigit(c: char) { '0' <= c <= '9' }

  function Digit(n: nat): (c: char)
    requires n < 10
    ensures IsDigit(c) && Value(c) == n
  {
    ('0' as int + n) as char
  }

  function Value(c: char): (n: nat)
    requires IsDigit(c)
    ensures n < 10
  {
    c as int - '0' as int
  }

  function OfNat(n: nat): string {
    if n < 10 then [Digit(n)] else OfNat(n / 10) + [Digit(n % 10)]
  }

  function OfInt(n: int): string {
    if n < 0 then "-" + OfNat(-n) else OfNat(n)
  }

  /** The number that a non-empty run of digits stands for. */
  function ToNat(s: string): Option<nat> {
    if s == "" || !IsDigit(s[|s| - 1]) then None
    else if |s| == 1 then Some(Value(s[0]))
    else
      match ToNat(s[..|s| - 1])
      case None => None
      case Some(n) => Some(10 * n + Value(s[|s| - 1]))
  }

  function ToInt(s: string): Option<int> {
    if s != "" && s[0] == '-' then
      match ToNat(s[1..])
      case None => None
      case Some(n) => Some(0 - n)
    else
      match ToNat(s)
      case None => None
      case Some(n) => Some(n)
  }

  lemma {:induction false} NatRoundTrip(n: nat)
    ensures ToNat(OfNat(n)) == Some(n)
    ensures forall c :: c in OfNat(n) ==> IsDigit(c)
  {
    if n >= 10 {
      NatRoundTrip(n / 10);
      var s := OfNat(n);
      assert s[..|s| - 1] == OfNat(n / 10) && s[|s| - 1] == Digit(n % 10);
    }
  }

  /** Reading undoes writing, and what is written holds digits and a sign only. */
  lemma IntRoundTrip(n: int)
    ensures ToInt(OfInt(n)) == Some(n)
    ensures OfInt(n) != "" && forall c :: c in OfInt(n) ==> IsDigit(c) || c == '-'
  {
    NatRoundTrip(if n < 0 then -n else n);
    if n < 0 {
      assert OfInt(n)[1..] == OfNat(-n);
    } else {
      assert OfNat(n)[0] in OfNat(n);
    }
  }
}
