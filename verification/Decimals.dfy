/**
 What the integer texts of the wire mean: decimal numerals, read by place value.  Printing gives the
 shortest numeral of a number; parsing gives the value of any numeral, cut to 64 bits, and 0 for
 what is none.
 */
module Decimals {
  import opened Wire

  predicate IsDigit(c: char) {
    '0' <= c <= '9'
  }

  predicate AllDigits(s: string) {
    forall i :: 0 <= i < |s| ==> IsDigit(s[i])
  }

  function Pow10(k: nat): nat {
    if k == 0 then 1 else 10 * Pow10(k - 1)
  }

  /** The value of a numeral: each digit by its place. */
  function Decimal(s: string): nat
    requires AllDigits(s)
  {
    if s == "" then 0 else (s[0] as int - '0' as int) * Pow10(|s| - 1) + Decimal(s[1..])
  }

  lemma {:induction false} DecimalSnoc(s: string, c: char)
    requires AllDigits(s) && IsDigit(c)
    ensures AllDigits(s + [c]) && Decimal(s + [c]) == 10 * Decimal(s) + (c as int - '0' as int)
    decreases |s|
  {
    if s == "" {
      assert s + [c] == [c] && [c][1..] == "";
    } else {
      DecimalSnoc(s[1..], c);
      assert (s + [c])[1..] == s[1..] + [c];
      Shift(s[0] as int - '0' as int, Pow10(|s| - 1));
    }
  }

  lemma Shift(d: int, p: int)
    ensures d * (10 * p) == 10 * (d * p)
  {
  }

  lemma PrefixSnoc(s: string, k: nat)
    requires 0 < k <= |s|
    ensures s[..k] == s[..k - 1] + [s[k - 1]]
  {
  }

  /** Parsing stops at the first char that is no digit, or when the digits before it exceed 64 bits. */
  lemma {:induction false} ParseUintMeans(s: string, k: nat)
    requires k <= |s|
    ensures match ParseUint(s, k)
            case Value(n) => AllDigits(s[..k]) && Decimal(s[..k]) == n <= MAX_UINT64
            case BadSyntax => exists j :: 0 <= j < k && Stops(s, j) && Decimal(s[..j]) <= MAX_UINT64
            case OutOfRange => exists j :: 0 <= j <= k && Exceeds(s, j)
  {
    if k > 0 {
      ParseUintMeans(s, k - 1);
      PrefixSnoc(s, k);
      if ParseUint(s, k - 1).Value? {
        if IsDigit(s[k - 1]) {
          DecimalSnoc(s[..k - 1], s[k - 1]);
          assert ParseUint(s, k).OutOfRange? ==> Exceeds(s, k);
        } else {
          assert Stops(s, k - 1);
        }
      }
    }
  }

  /** Are there only digits before position `j`, and none at it? */
  predicate Stops(s: string, j: nat) {
    j < |s| && AllDigits(s[..j]) && !IsDigit(s[j])
  }

  /** Do the digits before position `j` exceed 64 bits? */
  predicate Exceeds(s: string, j: nat) {
    j <= |s| && AllDigits(s[..j]) && Decimal(s[..j]) > MAX_UINT64
  }

  lemma {:induction false} PrefixIsLess(s: string, j: nat, k: nat)
    requires j <= k <= |s| && AllDigits(s[..k])
    ensures AllDigits(s[..j]) && Decimal(s[..j]) <= Decimal(s[..k])
    decreases k
  {
    if j < k {
      PrefixSnoc(s, k);
      assert AllDigits(s[..k - 1]) by { assert forall i :: 0 <= i < k - 1 ==> s[..k - 1][i] == s[..k][i]; }
      PrefixIsLess(s, j, k - 1);
      DecimalSnoc(s[..k - 1], s[k - 1]);
    }
  }

  /** The number nearest to `x` that 64 bits hold. */
  function Nearest(x: int): int64 {
    if x < -0x8000_0000_0000_0000 then -0x8000_0000_0000_0000
    else if x > 0x7FFF_FFFF_FFFF_FFFF then 0x7FFF_FFFF_FFFF_FFFF else x
  }

  /** A numeral with a sign or none. */
  predicate IsNumeral(sign: string, digits: string) {
    sign in {"", "+", "-"} && digits != "" && AllDigits(digits)
  }

  function Meaning(sign: string, digits: string): int
    requires IsNumeral(sign, digits)
  {
    var n: int := Decimal(digits);
    if sign == "-" then -n else n
  }

  /** Every numeral, however long, is read as the number it means, or the nearest that 64 bits hold. */
  lemma NumeralParses(sign: string, digits: string)
    requires IsNumeral(sign, digits)
    ensures ParseInt(sign + digits) == Nearest(Meaning(sign, digits))
    ensures IsInt(sign + digits) <==> Nearest(Meaning(sign, digits)) == Meaning(sign, digits)
  {
    var s := sign + digits;
    assert digits[..|digits|] == digits;
    ParseUintMeans(digits, |digits|);
    if sign == "" {
      assert s == digits && IsDigit(s[0]);
    } else {
      assert s[1..] == digits;
    }
    hide Decimal, ParseUint;
    if ParseUint(digits, |digits|).OutOfRange? {
      var j :| 0 <= j <= |digits| && Exceeds(digits, j);
      PrefixIsLess(digits, j, |digits|);
    }
  }

  /** Sign and rest of a text. */
  function SignOf(s: string): string {
    if s != "" && s[0] in {'+', '-'} then [s[0]] else ""
  }

  function RestOf(s: string): string {
    s[|SignOf(s)|..]
  }

  /** Any other text reads as 0, unless digits beyond 64 bits come before what spoils it; either way it is no integer. */
  lemma OtherTextParses(s: string)
    requires !IsNumeral(SignOf(s), RestOf(s))
    ensures !IsInt(s)
    ensures ParseInt(s)
            == if exists j :: 0 <= j <= |RestOf(s)| && Exceeds(RestOf(s), j)
               then (if SignOf(s) == "-" then -0x8000_0000_0000_0000 else 0x7FFF_FFFF_FFFF_FFFF) else 0
  {
    var digits := RestOf(s);
    assert digits[..|digits|] == digits;
    ParseUintMeans(digits, |digits|);
    hide Decimal, ParseUint;
    if ParseUint(digits, |digits|).BadSyntax? {
      var i :| 0 <= i < |digits| && Stops(digits, i) && Decimal(digits[..i]) <= MAX_UINT64;
      forall j | 0 <= j <= |digits| ensures !Exceeds(digits, j) {
        StopsBefore(digits, i, j);
      }
    }
  }

  lemma StopsBefore(s: string, i: nat, j: nat)
    requires i < |s| && j <= |s| && Stops(s, i) && Decimal(s[..i]) <= MAX_UINT64
    ensures !Exceeds(s, j)
  {
    if j <= i {
      PrefixIsLess(s, j, i);
    } else {
      assert s[..j][i] == s[i];
    }
  }

  /** Printing gives the numeral of the number, with no leading zero. */
  lemma {:induction false} DigitsMean(n: nat)
    ensures AllDigits(Digits(n)) && Digits(n) != "" && Decimal(Digits(n)) == n
    ensures Digits(n)[0] == '0' ==> n == 0
  {
    if n < 10 {
      assert Digits(n) == "" + [Digit(n)];
      DecimalSnoc("", Digit(n));
    } else {
      DigitsMean(n / 10);
      DecimalSnoc(Digits(n / 10), Digit(n % 10));
    }
  }

  lemma PrintedIsShortest(n: int64)
    ensures var sign, digits := SignOf(Itoa(n)), RestOf(Itoa(n));
            IsNumeral(sign, digits) && Meaning(sign, digits) == n && sign != "+" && (digits[0] == '0' ==> Itoa(n) == "0")
  {
    var k: int := n;
    var m: nat := if k < 0 then -k else k;
    DigitsMean(m);
    if n < 0 {
      assert ("-" + Digits(m))[1..] == Digits(m);
    } else {
      assert IsDigit(Digits(m)[0]);
      assert Digits(m)[0..] == Digits(m);
    }
  }
}
