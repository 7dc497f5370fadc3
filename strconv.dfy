/**
 * The part of Go's strconv.Atoi that the CSV loader relies on: an optional
 * sign followed by decimal digits parses, anything else is a syntax error,
 * and the loader keeps 0 for a cell that does not parse.
 */
module Strconv {
  import opened Wrappers

  predicate IsDigit(c: char) {
    '0' <= c <= '9'
  }

  predicate AllDigits(s: string) {
    forall i :: 0 <= i < |s| ==> IsDigit(s[i])
  }

  /** The value of a run of decimal digits, most significant digit first. */
  function DigitsValue(s: string): nat
    requires AllDigits(s)
  {
    if s == [] then 0
    else 10 * DigitsValue(s[..|s| - 1]) + (s[|s| - 1] as int - '0' as int)
  }

  /** Atoi's syntax: an optional '+' or '-' and at least one decimal digit. */
  function ParseInt(s: string): Option<int> {
    if s == [] then None
    else if s[0] == '+' || s[0] == '-' then
      if |s| > 1 && AllDigits(s[1..]) then
        var magnitude: int := DigitsValue(s[1..]);
        Some(if s[0] == '-' then -magnitude else magnitude)
      else None
    else if AllDigits(s) then Some(DigitsValue(s))
    else None
  }

  /** `n, _ := strconv.Atoi(cell)`: the parsed value, or 0 when the cell is malformed. */
  function Atoi(s: string): int {
    match ParseInt(s)
    case Some(n) => n
    case None => 0
  }

  function Digit(d: nat): char
    requires d < 10
  {
    ('0' as int + d) as char
  }

  /** The decimal text of a number (strconv.Itoa), the reference Atoi is checked against. */
  function FormatNat(n: nat): string {
    if n < 10 then [Digit(n)] else FormatNat(n / 10) + [Digit(n % 10)]
  }

  function FormatInt(n: int): string {
    if n < 0 then "-" + FormatNat(-n) else FormatNat(n)
  }

  lemma {:induction false} FormatNatParses(n: nat)
    ensures FormatNat(n) != [] && AllDigits(FormatNat(n))
    ensures DigitsValue(FormatNat(n)) == n
  {
    if n >= 10 {
      FormatNatParses(n / 10);
      var s := FormatNat(n);
      assert s[..|s| - 1] == FormatNat(n / 10);
    }
  }

  /** Every number's decimal text parses back to that number. */
  lemma {:induction false} AtoiRoundTrip(n: int)
    ensures ParseInt(FormatInt(n)) == Some(n)
    ensures Atoi(FormatInt(n)) == n
  {
    if n < 0 {
      FormatNatParses(-n);
      assert FormatInt(n)[1..] == FormatNat(-n);
    } else {
      FormatNatParses(n);
    }
  }

  /** A cell holding no digit at all, such as an empty year, loads as 0. */
  lemma {:induction false} AtoiWithoutDigits(s: string)
    requires forall i :: 0 <= i < |s| ==> !IsDigit(s[i])
    ensures ParseInt(s) == None && Atoi(s) == 0
  {
    if |s| > 1 && (s[0] == '+' || s[0] == '-') {
      assert !IsDigit(s[1..][0]);
    } else if s != [] {
      assert !IsDigit(s[0]);
    }
  }
}
