/**
 * The scalar conversions behind `setField` and `fmt.Sprintf("%v", …)`:
 * base-10 64-bit integers and booleans, with the conventions of Go's
 * `strconv` package (ParseInt(s, 10, 64), Itoa, ParseBool, FormatBool).
 */
module Strconv {
  import opened Wrappers

  /** The `Err` field of a strconv.NumError. */
  datatype NumError = ErrSyntax | ErrRange

  const MinInt64: int := -0x8000_0000_0000_0000
  const MaxInt64: int := 0x7FFF_FFFF_FFFF_FFFF

  predicate InInt64(i: int) {
    MinInt64 <= i <= MaxInt64
  }

  predicate IsDigit(c: char) {
    '0' <= c <= '9'
  }

  predicate AllDigits(s: string) {
    forall k | 0 <= k < |s| :: IsDigit(s[k])
  }

  function DigitValue(c: char): (d: nat)
    requires IsDigit(c)
    ensures d < 10
  {
    (c as int) - ('0' as int)
  }

  function DigitChar(d: nat): (c: char)
    requires d < 10
    ensures IsDigit(c) && DigitValue(c) == d
  {
    ('0' as int + d) as char
  }

  /** The number a run of decimal digits denotes (most significant first). */
  function DigitsValue(s: string): nat
    requires AllDigits(s)
  {
    if s == [] then 0 else DigitsValue(s[..|s| - 1]) * 10 + DigitValue(s[|s| - 1])
  }

  const MaxUint64: int := 0xFFFF_FFFF_FFFF_FFFF

  /** The value of `acc` followed by the digits of `s`, read left to right. */
  function Accumulate(acc: nat, s: string): nat
    requires AllDigits(s)
    decreases |s|
  {
    if s == [] then acc else Accumulate(acc * 10 + DigitValue(s[0]), s[1..])
  }

  /**
   * The digit loop of strconv.ParseUint(s, 10, 64), from accumulated value
   * `acc`: left to right, a character that is not a decimal digit is a
   * syntax error, and a digit that takes the value past 2^64 - 1 is a range
   * error, whichever comes first.
   */
  function ScanUint(s: string, acc: nat): (r: Result<nat, NumError>)
    requires acc <= MaxUint64
    ensures r.Success? ==> AllDigits(s) && r.value == Accumulate(acc, s) && r.value <= MaxUint64
  {
    if s == [] then Success(acc)
    else if !IsDigit(s[0]) then Failure(ErrSyntax)
    else
      var next := acc * 10 + DigitValue(s[0]);
      if next > MaxUint64 then Failure(ErrRange) else ScanUint(s[1..], next)
  }

  /** strconv.ParseUint(s, 10, 64): no digits at all is a syntax error. */
  function ParseUint(s: string): (r: Result<nat, NumError>)
    ensures r.Success? ==> s != [] && AllDigits(s) && r.value == DigitsValue(s) && r.value <= MaxUint64
  {
    if s == [] then Failure(ErrSyntax)
    else
      var r := ScanUint(s, 0);
      assert r.Success? ==> r.value == DigitsValue(s) by {
        if r.Success? {
          AccumulateDigits(s);
        }
      }
      r
  }

  /** strconv.ParseInt(s, 10, 64): an optional sign, then ParseUint of the
      rest, then a range error when the signed value does not fit in 64
      bits. */
  function ParseInt(s: string): (r: Result<int, NumError>)
    ensures r.Success? ==> InInt64(r.value)
    ensures r.Success? ==> s != [] && (IsDigit(s[0]) || ((s[0] == '+' || s[0] == '-') && |s| >= 2)) && AllDigits(s[1..])
    ensures s == [] ==> r == Failure(ErrSyntax)
  {
    if s == [] then Failure(ErrSyntax)
    else
      var neg := s[0] == '-';
      var digits := if s[0] == '+' || s[0] == '-' then s[1..] else s;
      match ParseUint(digits)
      case Failure(e) => Failure(e)
      case Success(u) =>
        if !neg && u > MaxInt64 then Failure(ErrRange)
        else if neg && u > -MinInt64 then Failure(ErrRange)
        else
          assert AllDigits(s[1..]) by {
            if digits == s {
              assert s[1..] == digits[1..];
            }
          }
          Success(if neg then 0 - u else u)
  }

  lemma {:induction false} AccumulateGrows(acc: nat, s: string)
    requires AllDigits(s)
    ensures Accumulate(acc, s) >= acc
    decreases |s|
  {
    if s != [] {
      AccumulateGrows(acc * 10 + DigitValue(s[0]), s[1..]);
    }
  }

  lemma {:induction false} AccumulateSnoc(acc: nat, s: string, c: char)
    requires AllDigits(s) && IsDigit(c)
    ensures AllDigits(s + [c])
    ensures Accumulate(acc, s + [c]) == Accumulate(acc, s) * 10 + DigitValue(c)
    decreases |s|
  {
    assert AllDigits(s + [c]) by {
      forall k | 0 <= k < |s + [c]| ensures IsDigit((s + [c])[k]) {
        if k < |s| {
          assert (s + [c])[k] == s[k];
        }
      }
    }
    if s != [] {
      assert (s + [c])[1..] == s[1..] + [c];
      AccumulateSnoc(acc * 10 + DigitValue(s[0]), s[1..], c);
    }
  }

  /** Reading left to right gives the value of the digits. */
  lemma {:induction false} AccumulateDigits(s: string)
    requires AllDigits(s)
    ensures Accumulate(0, s) == DigitsValue(s)
    decreases |s|
  {
    if s != [] {
      var init := s[..|s| - 1];
      assert s == init + [s[|s| - 1]];
      assert AllDigits(init) by {
        forall k | 0 <= k < |init| ensures IsDigit(init[k]) {
          assert init[k] == s[k];
        }
      }
      AccumulateDigits(init);
      AccumulateSnoc(0, init, s[|s| - 1]);
    }
  }

  /** On digits alone the scan fails only by overflow, exactly when the
      value passes 2^64 - 1. */
  lemma {:induction false} ScanDigits(s: string, acc: nat)
    requires acc <= MaxUint64 && AllDigits(s)
    ensures ScanUint(s, acc) == if Accumulate(acc, s) > MaxUint64 then Failure(ErrRange) else Success(Accumulate(acc, s))
  {
    if s != [] {
      var next := acc * 10 + DigitValue(s[0]);
      if next > MaxUint64 {
        AccumulateGrows(next, s[1..]);
      } else {
        ScanDigits(s[1..], next);
      }
    }
  }

  /** A run of digits that overflows makes a range error, whatever follows
      it. */
  lemma {:induction false} ScanOverflowFirst(s: string, rest: string, acc: nat)
    requires acc <= MaxUint64 && AllDigits(s) && Accumulate(acc, s) > MaxUint64
    ensures ScanUint(s + rest, acc) == Failure(ErrRange)
  {
    assert s != [];
    assert (s + rest)[0] == s[0];
    var next := acc * 10 + DigitValue(s[0]);
    if next <= MaxUint64 {
      assert (s + rest)[1..] == s[1..] + rest;
      ScanOverflowFirst(s[1..], rest, next);
    }
  }

  /** A character that is not a digit, after a run that does not overflow,
      makes a syntax error. */
  lemma {:induction false} ScanSyntax(s: string, c: char, rest: string, acc: nat)
    requires acc <= MaxUint64 && AllDigits(s) && Accumulate(acc, s) <= MaxUint64 && !IsDigit(c)
    ensures ScanUint(s + [c] + rest, acc) == Failure(ErrSyntax)
  {
    if s == [] {
      assert (s + [c] + rest)[0] == c;
    } else {
      assert (s + [c] + rest)[0] == s[0];
      var next := acc * 10 + DigitValue(s[0]);
      AccumulateGrows(next, s[1..]);
      assert (s + [c] + rest)[1..] == s[1..] + [c] + rest;
      ScanSyntax(s[1..], c, rest, next);
    }
  }

  /** ParseInt of a sign and digits: their signed value when it fits in 64
      bits, a range error otherwise. */
  lemma ParseIntDigits(sign: string, digits: string)
    requires sign == "" || sign == "+" || sign == "-"
    requires digits != [] && AllDigits(digits)
    ensures var v := if sign == "-" then 0 - DigitsValue(digits) as int else DigitsValue(digits) as int;
      ParseInt(sign + digits) == if InInt64(v) then Success(v) else Failure(ErrRange)
  {
    var s := sign + digits;
    if sign == "" {
      assert s == digits && IsDigit(s[0]);
    } else {
      assert s[0] == sign[0] && s[1..] == digits;
    }
    ScanDigits(digits, 0);
    AccumulateDigits(digits);
  }

  /** Go reports the overflow before a later bad character: an optional
      sign, then a too-large run of digits followed by anything, is a range
      error. */
  lemma ParseIntOverflowFirst(sign: string, digits: string, rest: string)
    requires sign == "" || sign == "+" || sign == "-"
    requires digits != [] && AllDigits(digits) && DigitsValue(digits) > MaxUint64
    ensures ParseInt(sign + digits + rest) == Failure(ErrRange)
  {
    var s := sign + digits + rest;
    if sign == "" {
      assert s == digits + rest && s[0] == digits[0];
    } else {
      assert s[0] == sign[0] && s[1..] == digits + rest;
    }
    AccumulateDigits(digits);
    ScanOverflowFirst(digits, rest, 0);
  }

  /** After an optional sign, a character that is not a digit, following a
      run of digits that fits, is a syntax error. */
  lemma ParseIntSyntax(sign: string, digits: string, c: char, rest: string)
    requires sign == "" || sign == "+" || sign == "-"
    requires AllDigits(digits) && DigitsValue(digits) <= MaxUint64 && !IsDigit(c)
    requires sign != "" || digits != [] || (c != '+' && c != '-')
    ensures ParseInt(sign + digits + [c] + rest) == Failure(ErrSyntax)
  {
    var s := sign + digits + [c] + rest;
    var tail := digits + [c] + rest;
    if sign == "" {
      assert s == tail;
      if digits == [] {
        assert s[0] == c;
      } else {
        assert s[0] == digits[0];
      }
    } else {
      assert s[0] == sign[0] && s[1..] == tail;
    }
    AccumulateDigits(digits);
    ScanSyntax(digits, c, rest, 0);
  }

  /** A sign with nothing after it is a syntax error. */
  lemma ParseIntSignAlone(sign: string)
    requires sign == "+" || sign == "-"
    ensures ParseInt(sign) == Failure(ErrSyntax)
  {
    assert sign[1..] == [];
  }

  /** The decimal digits of a natural number, without leading zeros. */
  function Decimal(n: nat): (s: string)
    ensures s != [] && AllDigits(s)
    ensures |s| > 1 ==> s[0] != '0'
  {
    if n < 10 then [DigitChar(n)]
    else Decimal(n / 10) + [DigitChar(n % 10)]
  }

  /** strconv.Itoa, which is what %v prints for an int. */
  function FormatInt(i: int): string
  {
    if i < 0 then "-" + Decimal(-i) else Decimal(i)
  }

  lemma {:induction false} DecimalValue(n: nat)
    ensures DigitsValue(Decimal(n)) == n
  {
    if n >= 10 {
      var s := Decimal(n);
      assert s[..|s| - 1] == Decimal(n / 10);
      DecimalValue(n / 10);
    }
  }

  /** ParseInt reads back every 64-bit integer that FormatInt prints. */
  lemma ParseFormatInt(i: int)
    requires InInt64(i)
    ensures ParseInt(FormatInt(i)) == Success(i)
  {
    if i < 0 {
      DecimalValue(-i);
      ParseIntDigits("-", Decimal(-i));
    } else {
      DecimalValue(i);
      ParseIntDigits("", Decimal(i));
      assert "" + Decimal(i) == Decimal(i);
    }
  }

  /** strconv.ParseBool. */
  function ParseBool(s: string): (r: Result<bool, NumError>)
    ensures r.Success? ==> 1 <= |s| <= 5
    ensures r == Success(true) <==> s in {"1", "t", "T", "TRUE", "true", "True"}
    ensures r == Success(false) <==> s in {"0", "f", "F", "FALSE", "false", "False"}
  {
    if s in {"1", "t", "T", "TRUE", "true", "True"} then Success(true)
    else if s in {"0", "f", "F", "FALSE", "false", "False"} then Success(false)
    else Failure(ErrSyntax)
  }

  /** strconv.FormatBool, which is what %v prints for a bool. */
  function FormatBool(b: bool): string
  {
    if b then "true" else "false"
  }

  lemma ParseFormatBool(b: bool)
    ensures ParseBool(FormatBool(b)) == Success(b)
  {
  }
}
