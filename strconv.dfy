/** Go's strconv.Atoi, which the handlers use to read the id segment of a
    path, on a 64-bit platform: an optional sign, one or more decimal digits,
    and a value that fits in a 64-bit int. FormatInt is its inverse, used to
    state which paths name a given id. */
module Strconv {

  const MaxInt: int := 0x7FFF_FFFF_FFFF_FFFF
  const MinInt: int := -0x8000_0000_0000_0000

  /** Atoi's outcome. Go reports a syntax error or a range error; the handlers
      treat both alike (`err != nil`), so the model keeps one error. */
  datatype Parsed = Int(value: int) | NumError

  predicate IsDigit(c: char) {
    '0' <= c <= '9'
  }

  predicate AllDigits(s: string) {
    forall i :: 0 <= i < |s| ==> IsDigit(s[i])
  }

  /** The value of a string of decimal digits, most significant first. */
  function DigitsValue(s: string): nat
    requires AllDigits(s)
  {
    if |s| == 0 then 0 else DigitsValue(s[..|s| - 1]) * 10 + (s[|s| - 1] as int - '0' as int)
  }

  /** The sign character, if any, and the digits after it. */
  function SignOf(s: string): string {
    if |s| > 0 && (s[0] == '+' || s[0] == '-') then s[..1] else ""
  }

  /** The value of a sign ("", "+" or "-") followed by decimal digits. */
  function SignedValue(sign: string, d: string): int
    requires AllDigits(d)
  {
    if sign == "-" then 0 - DigitsValue(d) as int else DigitsValue(d)
  }

  /** strconv.Atoi. */
  function Atoi(s: string): (r: Parsed)
    ensures r.Int? ==> MinInt <= r.value <= MaxInt
    ensures r.Int? ==> exists d :: |d| > 0 && AllDigits(d) &&
                        (s == d || s == "+" + d || s == "-" + d)
    ensures (exists i :: 0 <= i < |s| && !IsDigit(s[i]) && s[i] != '+' && s[i] != '-') ==> r == NumError
  {
    var sign := SignOf(s);
    var digits := s[|sign|..];
    if |digits| == 0 || !AllDigits(digits) then
      NumError
    else
      var n := SignedValue(sign, digits);
      assert s == sign + digits;
      if n < MinInt || n > MaxInt then NumError else Int(n)
  }

  /** Every optional sign followed by one or more digits, leading zeros
      included, parses to its value when that fits in a 64-bit int and is an
      error otherwise. With the shape Atoi's contract gives to every success,
      this pins Atoi's result on every input. */
  lemma AtoiSignedDigits(sign: string, d: string)
    requires sign == "" || sign == "+" || sign == "-"
    requires |d| > 0 && AllDigits(d)
    ensures var v := SignedValue(sign, d);
            Atoi(sign + d) == if MinInt <= v <= MaxInt then Int(v) else NumError
  {
    var s := sign + d;
    if sign == "" {
      assert s == d;
      assert SignOf(s) == "" by { assert IsDigit(d[0]); }
    } else {
      assert SignOf(s) == sign;
    }
    assert s[|sign|..] == d;
  }

  /** A path segment that the handlers accept as an id: Atoi succeeds and the value is positive. */
  predicate IsPositiveId(s: string) {
    Atoi(s).Int? && Atoi(s).value > 0
  }

  /** Sample id segments: "abc" is rejected, "0" and "-1" parse but are not
      positive, and a plus sign or leading zeros are accepted. */
  lemma SampleIds()
    ensures Atoi("abc") == NumError && Atoi("") == NumError && Atoi("+") == NumError
    ensures Atoi("0") == Int(0) && Atoi("-1") == Int(-1) && Atoi("+7") == Int(7) && Atoi("007") == Int(7)
    ensures !IsPositiveId("abc") && !IsPositiveId("0") && !IsPositiveId("-1")
  {
    assert "-1"[1..] == "1";
    assert "+7"[1..] == "7";
    assert "007"[..2] == "00" && "00"[..1] == "0";
    assert !AllDigits("abc") by { assert !IsDigit("abc"[0]); }
  }

  /** The decimal digits of n, without leading zeros. */
  function NatDigits(n: nat): (s: string)
    ensures |s| > 0 && AllDigits(s)
  {
    var d := [('0' as int + n % 10) as char];
    if n < 10 then d else NatDigits(n / 10) + d
  }

  /** strconv.Itoa: a minus sign for negative values, then the digits of the magnitude. */
  function FormatInt(n: int): string {
    if n < 0 then "-" + NatDigits(-n) else NatDigits(n)
  }

  lemma {:induction false} NatDigitsValue(n: nat)
    ensures DigitsValue(NatDigits(n)) == n
  {
    var s := NatDigits(n);
    if n >= 10 {
      NatDigitsValue(n / 10);
      assert s[..|s| - 1] == NatDigits(n / 10);
    }
  }

  /** Round trip: every 64-bit int formatted in decimal parses back to itself. */
  lemma AtoiFormatInt(n: int)
    requires MinInt <= n <= MaxInt
    ensures Atoi(FormatInt(n)) == Int(n)
  {
    var s := FormatInt(n);
    if n < 0 {
      var d := NatDigits(-n);
      NatDigitsValue(-n);
      assert SignOf(s) == "-" && s[1..] == d;
    } else {
      var d := NatDigits(n);
      NatDigitsValue(n);
      assert SignOf(s) == "" by { assert IsDigit(d[0]); }
      assert s[0..] == d;
    }
  }

  /** A formatted number is never empty and never holds a slash, so it is one path segment. */
  lemma FormatIntIsSegment(n: int)
    ensures |FormatInt(n)| > 0 && '/' !in FormatInt(n)
  {
    var d := NatDigits(if n < 0 then -n else n);
    assert forall i :: 0 <= i < |d| ==> d[i] != '/';
    if n < 0 {
      assert forall i :: 1 <= i < |FormatInt(n)| ==> FormatInt(n)[i] == d[i - 1];
    }
  }
}
