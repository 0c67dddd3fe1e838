/** Decimal numerals: printing, padding and checked parsing. */
module Decimal {
  import opened Basics

  predicate IsDigit(c: char) { '0' <= c <= '9' }

  predicate AllDigits(s: string) { forall i :: 0 <= i < |s| ==> IsDigit(s[i]) }

  function DigitOf(c: char): nat
    requires IsDigit(c)
  {
    (c as int) - ('0' as int)
  }

  function CharOf(d: nat): (c: char)
    requires d < 10
    ensures IsDigit(c) && DigitOf(c) == d
  {
    (d + ('0' as int)) as char
  }

  /** The number a digit string denotes; leading zeros do not matter. */
  function Value(s: string): nat
    requires AllDigits(s)
  {
    if s == "" then 0 else Value(s[..|s| - 1]) * 10 + DigitOf(s[|s| - 1])
  }

  /** `u32::to_string`. */
  function Print(n: nat): string {
    if n < 10 then [CharOf(n)] else Print(n / 10) + [CharOf(n % 10)]
  }

  /** `str::parse::<u32>` on a digit string: digit by digit, with checked arithmetic. */
  function ParseU32(s: string): Option<nat>
    requires s != "" && AllDigits(s)
  {
    if |s| == 1 then Some(DigitOf(s[0]))
    else
      match ParseU32(s[..|s| - 1])
      case None => None
      case Some(v) =>
        var next := v * 10 + DigitOf(s[|s| - 1]);
        if next <= U32_MAX then Some(next) else None
  }

  /** Checked parsing overflows exactly on the values that do not fit. */
  lemma {:induction false} ParseU32Exact(s: string)
    requires s != "" && AllDigits(s)
    ensures ParseU32(s) == if Value(s) <= U32_MAX then Some(Value(s)) else None
  {
    if |s| == 1 {
      assert Value(s[..0]) == 0;
    } else {
      ParseU32Exact(s[..|s| - 1]);
    }
  }

  /** A printed number reads back, and has no leading zero unless it is zero. */
  lemma {:induction false} PrintValue(n: nat)
    ensures Print(n) != "" && AllDigits(Print(n)) && Value(Print(n)) == n
    ensures Print(n)[0] == '0' <==> n == 0
  {
    if n >= 10 {
      PrintValue(n / 10);
      assert Print(n)[..|Print(n)| - 1] == Print(n / 10);
    } else {
      assert Value(Print(n)[..0]) == 0;
    }
  }

  /** The digit strings that printing produces: no leading zero, except for zero itself. */
  predicate Canonical(s: string) { s != "" && AllDigits(s) && (s[0] == '0' ==> s == "0") }

  /** Printing the value of a digit string gives it back exactly if it has no leading zero. */
  lemma {:induction false} PrintOfValue(s: string)
    requires s != "" && AllDigits(s)
    ensures Print(Value(s)) == s <==> Canonical(s)
  {
    PrintValue(Value(s));
    if Canonical(s) { CanonicalPrints(s); }
  }

  lemma PrintTenfold(high: nat, low: nat)
    requires high > 0 && low < 10
    ensures Print(high * 10 + low) == Print(high) + [CharOf(low)]
  {
  }

  lemma {:induction false} CanonicalPrints(s: string)
    requires Canonical(s)
    ensures Print(Value(s)) == s && (s != "0" ==> Value(s) > 0)
  {
    var n := |s| - 1;
    if n == 0 {
      assert Value(s[..0]) == 0;
    } else {
      assert s[..n][0] == s[0];
      CanonicalPrints(s[..n]);
      hide Print;
      PrintTenfold(Value(s[..n]), DigitOf(s[n]));
      assert s == s[..n] + [s[n]];
    }
  }

  function Zeros(n: nat): string { seq(n, i => '0') }

  /** `format!("{:0width$}", n)`. */
  function Padded(n: nat, width: nat): string {
    if |Print(n)| >= width then Print(n) else Zeros(width - |Print(n)|) + Print(n)
  }

  lemma {:induction false} LeadingZeros(n: nat, s: string)
    requires AllDigits(s)
    ensures AllDigits(Zeros(n) + s) && Value(Zeros(n) + s) == Value(s)
  {
    if s == "" {
      if n > 0 {
        LeadingZeros(n - 1, "");
        assert (Zeros(n) + "")[..n - 1] == Zeros(n - 1) + "";
      }
    } else {
      LeadingZeros(n, s[..|s| - 1]);
      assert (Zeros(n) + s)[..n + |s| - 1] == Zeros(n) + s[..|s| - 1];
    }
  }

  /** Padding keeps the value, and puts as many zeros in front of the number as the width needs, if any. */
  lemma PaddedValue(n: nat, width: nat)
    ensures AllDigits(Padded(n, width)) && Value(Padded(n, width)) == n
    ensures var zeros := |Padded(n, width)| - |Print(n)|;
            zeros == (if |Print(n)| < width then width - |Print(n)| else 0) && Padded(n, width)[zeros..] == Print(n)
  {
    PrintValue(n);
    hide Print; hide Value; hide AllDigits;
    if |Print(n)| < width { LeadingZeros(width - |Print(n)|, Print(n)); }
  }
}
