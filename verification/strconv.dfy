/** Go's `strconv.Atoi` for a 64-bit `int`, and `strconv.Itoa` as its
    inverse. Atoi accepts an optional `+` or `-` followed by one or more
    ASCII decimal digits whose value fits in `int`; everything else,
    including surrounding spaces, underscores and trailing text, is an
    error. */
module Strconv {
  import opened Go

  predicate IsDigit(c: char) {
    '0' <= c <= '9'
  }

  function DigitValue(c: char): (d: nat)
    requires IsDigit(c)
    ensures d < 10
  {
    (c as int) - ('0' as int)
  }

  function DigitChar(d: nat): (c: char)
    requires d < 10
    ensures IsDigit(c) && DigitValue(c) == d
  {
    (('0' as int) + d) as char
  }

  predicate AllDigits(s: string) {
    forall i :: 0 <= i < |s| ==> IsDigit(s[i])
  }

  /** Reference reading of a digit string: the last digit is the units. */
  function DecimalValue(s: string): nat
    requires AllDigits(s)
  {
    if |s| == 0 then 0
    else DecimalValue(s[..|s| - 1]) * 10 + DigitValue(s[|s| - 1])
  }

  function Pow10(n: nat): (p: nat)
    ensures p >= 1
  {
    if n == 0 then 1 else 10 * Pow10(n - 1)
  }

  predicate HasSign(s: string) {
    |s| > 0 && (s[0] == '+' || s[0] == '-')
  }

  /** The text after an optional leading sign. */
  function Magnitude(s: string): string {
    if HasSign(s) then s[1..] else s
  }

  /** An optional sign followed by at least one decimal digit. */
  predicate IsDecimalLiteral(s: string) {
    |Magnitude(s)| > 0 && AllDigits(Magnitude(s))
  }

  function LiteralValue(s: string): int
    requires IsDecimalLiteral(s)
  {
    var m: int := DecimalValue(Magnitude(s));
    if HasSign(s) && s[0] == '-' then -m else m
  }

  /** Go's digit loop: `n = n*10 + int(ch - '0')` for each byte, failing
      on the first byte that is not a digit. */
  function Accumulate(s: string, n: nat): Option<nat> {
    if |s| == 0 then Some(n)
    else if !IsDigit(s[0]) then None
    else Accumulate(s[1..], n * 10 + DigitValue(s[0]))
  }

  /** Appending a digit shifts the value one place and adds the digit. */
  lemma DecimalValueSnoc(s: string, c: char)
    requires AllDigits(s) && IsDigit(c)
    ensures AllDigits(s + [c])
    ensures DecimalValue(s + [c]) == DecimalValue(s) * 10 + DigitValue(c)
  {
    assert (s + [c])[..|s|] == s;
  }

  /** Prepending a digit adds its weight to the value of the rest. */
  lemma {:induction false} DecimalValueCons(c: char, s: string)
    requires IsDigit(c) && AllDigits(s)
    ensures AllDigits([c] + s)
    ensures DecimalValue([c] + s) == DigitValue(c) * Pow10(|s|) + DecimalValue(s)
  {
    var t := [c] + s;
    assert AllDigits(t) by {
      forall i | 0 <= i < |t| ensures IsDigit(t[i]) {
        if i > 0 { assert t[i] == s[i - 1]; }
      }
    }
    if |s| > 0 {
      var init := s[..|s| - 1];
      assert AllDigits(init) by {
        forall i | 0 <= i < |init| ensures IsDigit(init[i]) {
          assert init[i] == s[i];
        }
      }
      DecimalValueCons(c, init);
      assert t[..|t| - 1] == [c] + init;
      assert t[|t| - 1] == s[|s| - 1];
      assert DecimalValue(t) == DecimalValue([c] + init) * 10 + DigitValue(s[|s| - 1]);
      assert DecimalValue(s) == DecimalValue(init) * 10 + DigitValue(s[|s| - 1]);
      assert Pow10(|s|) == 10 * Pow10(|init|);
      ShiftByOnePlace(DigitValue(c), Pow10(|init|), DecimalValue(init), DigitValue(s[|s| - 1]));
    } else {
      assert t[..|t| - 1] == [];
    }
  }

  /** Arithmetic step of `DecimalValueCons`: one more place for the leading digit. */
  lemma ShiftByOnePlace(d: nat, p: nat, v: nat, last: nat)
    ensures (d * p + v) * 10 + last == d * (10 * p) + (v * 10 + last)
  {
  }

  /** The left-to-right loop computes the reference value, and fails exactly
      when some character is not a digit. */
  lemma {:induction false} AccumulateValue(s: string, n: nat)
    ensures AllDigits(s) ==> Accumulate(s, n) == Some(n * Pow10(|s|) + DecimalValue(s))
    ensures !AllDigits(s) ==> Accumulate(s, n) == None
  {
    if |s| > 0 && IsDigit(s[0]) {
      var t := s[1..];
      var d := DigitValue(s[0]);
      AccumulateValue(t, n * 10 + d);
      assert AllDigits(s) <==> AllDigits(t) by {
        assert forall i :: 0 <= i < |t| ==> t[i] == s[i + 1];
        if AllDigits(t) {
          forall i | 0 <= i < |s| ensures IsDigit(s[i]) {
            if i > 0 { assert s[i] == t[i - 1]; }
          }
        }
      }
      if AllDigits(s) {
        assert s == [s[0]] + t;
        DecimalValueCons(s[0], t);
        WeightShift(n, d, |t|, DecimalValue(t));
      }
    }
  }

  /** Arithmetic step of the loop: `(n*10 + d)` shifted by `k` digits. */
  lemma WeightShift(n: nat, d: nat, k: nat, v: nat)
    ensures (n * 10 + d) * Pow10(k) + v == n * Pow10(k + 1) + (d * Pow10(k) + v)
  {
    assert Pow10(k + 1) == 10 * Pow10(k);
    assert (n * 10 + d) * Pow10(k) == n * (10 * Pow10(k)) + d * Pow10(k);
  }

  /** `strconv.Atoi(s)`: the value of `s` when it is a decimal literal that
      fits in `int`, and `None` (Go's non-nil error) otherwise. */
  function Atoi(s: string): (r: Option<int>)
    ensures r.Some? <==> IsDecimalLiteral(s) && InIntRange(LiteralValue(s))
    ensures r.Some? ==> r.value == LiteralValue(s)
  {
    var digits := Magnitude(s);
    AccumulateValue(digits, 0);
    if |digits| == 0 then None
    else
      match Accumulate(digits, 0)
      case None => None
      case Some(m) =>
        var v: int := m;
        var n := if s[0] == '-' then -v else v;
        if InIntRange(n) then Some(n) else None
  }

  /** Decimal digits of a natural number, without leading zeros. */
  function FormatNat(n: nat): string
    decreases n
  {
    if n < 10 then [DigitChar(n)] else FormatNat(n / 10) + [DigitChar(n % 10)]
  }

  /** `strconv.Itoa(n)`: a `-` for negative numbers, then the digits. */
  function Itoa(n: int): string {
    if n < 0 then "-" + FormatNat(-n) else FormatNat(n)
  }

  lemma {:induction false} FormatNatValue(n: nat)
    ensures |FormatNat(n)| > 0 && FormatNat(n)[0] != '-' && FormatNat(n)[0] != '+'
    ensures AllDigits(FormatNat(n)) && DecimalValue(FormatNat(n)) == n
    decreases n
  {
    var s := FormatNat(n);
    if n >= 10 {
      FormatNatValue(n / 10);
      var init := FormatNat(n / 10);
      assert s == init + [DigitChar(n % 10)];
      assert s[..|s| - 1] == init;
      assert s[0] == init[0];
      assert AllDigits(s) by {
        forall i | 0 <= i < |s| ensures IsDigit(s[i]) {
          if i < |init| { assert s[i] == init[i]; }
        }
      }
    }
  }

  /** Atoi reads back every `int` that Itoa writes. */
  lemma ItoaRoundTrip(n: int)
    requires InIntRange(n)
    ensures IsDecimalLiteral(Itoa(n)) && LiteralValue(Itoa(n)) == n
    ensures Atoi(Itoa(n)) == Some(n)
  {
    var digits := if n < 0 then -n else n;
    FormatNatValue(digits);
    if n < 0 {
      assert Magnitude(Itoa(n)) == FormatNat(digits);
    } else {
      assert Magnitude(Itoa(n)) == FormatNat(digits);
    }
  }
}
