/** Decimal text: what `fmt` prints for an integer and what `strconv` reads back. */
module Decimals {
  import opened Prelude

  const MAX_INT64: int := 0x7fff_ffff_ffff_ffff
  const MIN_INT64: int := -0x8000_0000_0000_0000

  function DigitChar(d: nat): char
    requires d < 10
  {
    "0123456789"[d]
  }

  predicate IsDigit(c: char) {
    '0' <= c <= '9'
  }

  function DigitValue(c: char): nat
    requires IsDigit(c)
  {
    c as int - '0' as int
  }

  /** The last `width` decimal digits of `n`, zero padded. */
  function Digits(n: nat, width: nat): (s: string)
    ensures |s| == width
  {
    if width == 0 then "" else Digits(n / 10, width - 1) + [DigitChar(n % 10)]
  }

  /** The shortest decimal text of `n`. */
  function Decimal(n: nat): (s: string)
    ensures |s| > 0 && forall i | 0 <= i < |s| :: IsDigit(s[i])
  {
    if n < 10 then [DigitChar(n)] else Decimal(n / 10) + [DigitChar(n % 10)]
  }

  function DigitsValue(s: string): Option<nat> {
    if s == "" || !IsDigit(s[|s| - 1]) then None
    else if |s| == 1 then Some(DigitValue(s[0]))
    else match DigitsValue(s[..|s| - 1])
      case None => None
      case Some(high) => Some(high * 10 + DigitValue(s[|s| - 1]))
  }

  /** Base-10 parsing into an int64: an optional sign, then digits, within range. */
  function ParseInt64(s: string): Option<int> {
    if s == "" then None
    else
      var signed := s[0] == '+' || s[0] == '-';
      match DigitsValue(if signed then s[1..] else s)
      case None => None
      case Some(n) =>
        var v := if s[0] == '-' then 0 - n else n as int;
        if MIN_INT64 <= v <= MAX_INT64 then Some(v) else None
  }

  lemma {:induction false} DecimalValue(n: nat)
    ensures DigitsValue(Decimal(n)) == Some(n)
  {
    if n >= 10 {
      var s := Decimal(n);
      DecimalValue(n / 10);
      assert s[..|s| - 1] == Decimal(n / 10) && s[|s| - 1] == DigitChar(n % 10);
    }
  }

  /** A row ID printed by `Consume` is read back by `Ack` as the same row. */
  lemma ParsePrinted(n: nat)
    ensures ParseInt64(Decimal(n)) == if n <= MAX_INT64 then Some(n) else None
  {
    DecimalValue(n);
    assert IsDigit(Decimal(n)[0]);
  }

  /** A sign before the digits counts, and so does the range of an int64 on its side of zero. */
  lemma ParseSigned(n: nat)
    ensures ParseInt64("-" + Decimal(n)) == if n <= MAX_INT64 + 1 then Some(0 - n) else None
    ensures ParseInt64("+" + Decimal(n)) == if n <= MAX_INT64 then Some(n) else None
  {
    DecimalValue(n);
    assert ("-" + Decimal(n))[1..] == Decimal(n) && ("+" + Decimal(n))[1..] == Decimal(n);
  }

  /** Text that holds anything but digits after the sign, or no digit, is refused. */
  lemma NotANumber(s: string)
    requires s in ["", "+", "-"] || (exists i | 0 < i < |s| :: !IsDigit(s[i])) || (!IsDigit(s[0]) && s[0] != '+' && s[0] != '-')
    ensures ParseInt64(s) == None
  {
    if s != "" {
      var digits := if s[0] == '+' || s[0] == '-' then s[1..] else s;
      if digits != "" {
        if !(exists i | 0 < i < |s| :: !IsDigit(s[i])) {
          assert digits == s;
          OnlyDigits(digits, 0);
        } else {
          var i :| 0 < i < |s| && !IsDigit(s[i]);
          OnlyDigits(digits, if digits == s then i else i - 1);
        }
      }
    }
  }

  lemma {:induction false} OnlyDigits(s: string, i: nat)
    requires i < |s| && !IsDigit(s[i])
    ensures DigitsValue(s) == None
  {
    if i < |s| - 1 { OnlyDigits(s[..|s| - 1], i); }
  }

  /** Zeros in front change nothing. */
  lemma {:induction false} LeadingZero(s: string)
    requires s != ""
    ensures DigitsValue("0" + s) == DigitsValue(s)
  {
    var t := "0" + s;
    assert t[..|t| - 1] == "0" + s[..|s| - 1];
    if |s| == 1 {
      assert t[..1] == "0";
    } else {
      LeadingZero(s[..|s| - 1]);
    }
  }
}
