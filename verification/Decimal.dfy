/** Unsigned decimal numerals. */
module Decimal {
  import opened Bits
  import opened Wrappers

  function Digit(n: nat): (c: char)
    requires n < 10
  {
    '0' + n as char
  }

  predicate IsDigit(c: char) {
    '0' <= c <= '9'
  }

  /** `{}` of an unsigned integer. */
  function Print(n: nat): (s: string)
    ensures s != ""
  {
    if n < 10 then [Digit(n)] else Print(n / 10) + [Digit(n % 10)]
  }

  /** The value of a string of digits. */
  function Value(s: string): (n: nat)
    requires AllDigits(s)
  {
    if s == "" then 0
    else
      assert IsDigit(s[|s| - 1]);
      10 * Value(s[..|s| - 1]) + (s[|s| - 1] - '0') as nat
  }

  predicate AllDigits(s: string) {
    forall i :: 0 <= i < |s| ==> IsDigit(s[i])
  }

  function DropPlus(s: string): (r: string) {
    if s != "" && s[0] == '+' then s[1..] else s
  }

  /** `str::parse::<u64>`: an optional plus sign, then one digit or more, below 2^64. */
  function ParseU64(s: string): (n: Option<U64>) {
    var digits := DropPlus(s);
    if digits == "" || !AllDigits(digits) then None
    else if Value(digits) >= U64_SIZE then None
    else Some(Value(digits))
  }

  lemma {:induction false} PrintValue(n: nat)
    ensures AllDigits(Print(n))
    ensures Value(Print(n)) == n
  {
    if n < 10 {
      assert [Digit(n)][..0] == "";
    } else {
      PrintValue(n / 10);
      assert Print(n)[..|Print(n)| - 1] == Print(n / 10);
    }
  }

  lemma ParsePrint(n: U64)
    ensures ParseU64(Print(n)) == Some(n)
  {
    PrintValue(n);
    assert IsDigit(Print(n)[0]);
  }

  function Pow10(k: nat): (p: nat)
    ensures p > 0
  {
    if k == 0 then 1 else 10 * Pow10(k - 1)
  }

  /** A number below `10^k` has at most `k` digits. */
  lemma {:induction false} PrintLength(n: nat, k: nat)
    requires k > 0 && n < Pow10(k)
    ensures |Print(n)| <= k
  {
    if n >= 10 {
      assert k > 1 by { assert Pow10(1) == 10 * Pow10(0); }
      PrintLength(n / 10, k - 1);
    }
  }

  lemma U64Length(n: U64)
    ensures |Print(n)| <= 20
  {
    assert Pow10(4) == 10_000;
    assert Pow10(8) == 1_0000_0000;
    assert Pow10(12) == 1_0000_0000_0000;
    assert Pow10(16) == 1_0000_0000_0000_0000;
    assert Pow10(20) == 1_0000_0000_0000_0000_0000;
    PrintLength(n, 20);
  }

  // ---- all numerals of a number -------------------------------------------------------------

  function ZeroDigits(n: nat): (s: string)
    ensures |s| == n && forall i :: 0 <= i < n ==> s[i] == '0'
  {
    seq(n, _ => '0')
  }

  lemma PrintedDigit(c: char)
    requires IsDigit(c)
    ensures Digit((c - '0') as nat) == c
  {
  }

  /** Digits are those of their value, after zeros; no digits are nothing at all. */
  lemma {:induction false} DigitsOfValue(s: string) returns (zeros: nat)
    requires AllDigits(s) && s != ""
    ensures s == ZeroDigits(zeros) + Print(Value(s))
  {
    var init, last := s[..|s| - 1], s[|s| - 1];
    assert s == init + [last] && IsDigit(last);
    PrintedDigit(last);
    var d := (last - '0') as nat;
    zeros := 0;
    if init == "" {
      assert Value(init) == 0;
      assert s == ZeroDigits(0) + [last];
    } else {
      zeros := DigitsOfValue(init);
      if Value(init) == 0 {
        zeros := zeros + 1;
        assert Print(0) == "0";
        assert init == ZeroDigits(zeros);
        assert Value(s) == d;
      } else {
        LastDigit(Value(init), d);
        assert s == ZeroDigits(zeros) + (Print(Value(init)) + [last]);
      }
    }
  }

  lemma LastDigit(n: nat, d: nat)
    requires n > 0 && d < 10
    ensures Print(10 * n + d) == Print(n) + [Digit(d)]
  {
  }

  lemma {:induction false} ZerosBefore(zeros: nat, s: string)
    requires AllDigits(s)
    ensures AllDigits(ZeroDigits(zeros) + s) && Value(ZeroDigits(zeros) + s) == Value(s)
    decreases |s|, zeros
  {
    var all := ZeroDigits(zeros) + s;
    assert forall i :: 0 <= i < |all| ==> IsDigit(all[i]);
    if s != "" {
      ZerosBefore(zeros, s[..|s| - 1]);
      assert all[..|all| - 1] == ZeroDigits(zeros) + s[..|s| - 1];
    } else if zeros > 0 {
      ZerosBefore(zeros - 1, "");
      assert all[..|all| - 1] == ZeroDigits(zeros - 1) + "";
    }
  }

  lemma NumeralStart(sign: string, zeros: nat, n: nat)
    requires sign == "" || sign == "+"
    ensures
      var s := sign + ZeroDigits(zeros) + Print(n);
      s != "" && (s[0] == '+' || IsDigit(s[0])) && (s[0] == '+' <==> sign == "+")
  {
    PrintValue(n);
    assert IsDigit(Print(n)[0]);
  }

  /** A sign, zeros and the digits of a word parse to the word. */
  lemma NumeralParsed(sign: string, zeros: nat, n: U64)
    requires sign == "" || sign == "+"
    ensures ParseU64(sign + ZeroDigits(zeros) + Print(n)) == Some(n)
  {
    hide Print, Value;
    var s := sign + ZeroDigits(zeros) + Print(n);
    var digits := ZeroDigits(zeros) + Print(n);
    NumeralStart(sign, zeros, n);
    PrintValue(n);
    ZerosBefore(zeros, Print(n));
    assert DropPlus(s) == digits;
  }

  /** Whatever parses to a word is a sign, zeros and the digits of the word. */
  lemma ParsedNumeral(s: string, n: U64) returns (sign: string, zeros: nat)
    requires ParseU64(s) == Some(n)
    ensures (sign == "" || sign == "+") && s == sign + ZeroDigits(zeros) + Print(n)
  {
    hide Print, Value;
    sign := if s != "" && s[0] == '+' then "+" else "";
    var digits := s[|sign|..];
    assert s == sign + digits;
    assert digits == DropPlus(s);
    zeros := DigitsOfValue(digits);
    assert sign + (ZeroDigits(zeros) + Print(n)) == sign + ZeroDigits(zeros) + Print(n);
  }
}
