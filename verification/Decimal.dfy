/** Decimal numerals: Go's `%d` verb and `strconv.Atoi`, and why each undoes the other. */
module Decimal {
  import opened Wrappers

  const MAX_UINT64: int := 0xFFFF_FFFF_FFFF_FFFF
  const MAX_INT64: int := 0x7FFF_FFFF_FFFF_FFFF
  const MIN_INT64: int := -0x8000_0000_0000_0000

  predicate IsDigit(c: char) { '0' <= c <= '9' }

  predicate AllDigits(s: string) { forall i :: 0 <= i < |s| ==> IsDigit(s[i]) }

  function DigitOf(d: nat): (c: char)
    requires d < 10
    ensures IsDigit(c) && c as int - '0' as int == d
  {
    ('0' as int + d) as char
  }

  /** The shortest decimal numeral of a natural number. */
  function ItoaNat(n: nat): (s: string)
    ensures s != [] && AllDigits(s)
    ensures n > 0 ==> s[0] != '0'
  {
    if n < 10 then [DigitOf(n)] else ItoaNat(n / 10) + [DigitOf(n % 10)]
  }

  /** The `%d` verb. */
  function Itoa(n: int): (s: string)
    ensures s != [] && forall i :: 0 <= i < |s| ==> IsDigit(s[i]) || s[i] == '-'
  {
    if n < 0 then "-" + ItoaNat(-n) else ItoaNat(n)
  }

  /** The number a string of digits stands for, leading zeros included. */
  function Value(s: string): nat
    requires AllDigits(s)
  {
    if s == [] then 0
    else 10 * Value(s[..|s| - 1]) + (s[|s| - 1] as int - '0' as int)
  }

  lemma {:induction false} ValueOfItoa(n: nat)
    ensures Value(ItoaNat(n)) == n
  {
    if n < 10 {
      assert Value([]) == 0;
      assert ItoaNat(n)[..0] == [];
    } else {
      ValueOfItoa(n / 10);
      assert ItoaNat(n)[..|ItoaNat(n)| - 1] == ItoaNat(n / 10);
    }
  }

  /** Different numbers print differently. */
  lemma ItoaInjective(m: nat, n: nat)
    requires ItoaNat(m) == ItoaNat(n)
    ensures m == n
  {
    ValueOfItoa(m);
    ValueOfItoa(n);
  }

  /** The digits, spelled out. */
  lemma {:induction false} ItoaDigits(n: nat)
    ensures ItoaNat(n) == (if n < 10 then "" else ItoaNat(n / 10)) + ["0123456789"[n % 10]]
  {
    assert forall d: nat :: d < 10 ==> DigitOf(d) == "0123456789"[d];
  }

  datatype ParseError = Syntax | Range

  /** `strconv.ParseUint(s, 10, 64)` on a prefix: digits from the left until one does not fit. */
  function ParseUint(s: string): Result<nat, ParseError> {
    if s == [] then Ok(0)
    else
      match ParseUint(s[..|s| - 1])
      case Err(e) => Err(e)
      case Ok(v) =>
        var c := s[|s| - 1];
        if !IsDigit(c) then Err(Syntax)
        else if 10 * v + (c as int - '0' as int) > MAX_UINT64 then Err(Range)
        else Ok(10 * v + (c as int - '0' as int))
  }

  lemma {:induction false} ParseUintOfDigits(s: string)
    requires AllDigits(s) && Value(s) <= MAX_UINT64
    ensures ParseUint(s) == Ok(Value(s))
  {
    if s != [] {
      ParseUintOfDigits(s[..|s| - 1]);
    }
  }

  /** What `strconv.Atoi` returns: a number, and beside it perhaps an error. */
  datatype AtoiResult = AtoiResult(value: int, error: Option<ParseError>)

  /** `strconv.Atoi` for 64-bit int: a numeral out of range is reported with the nearest bound. */
  function Atoi(s: string): AtoiResult {
    var neg := s != [] && s[0] == '-';
    var digits := if s != [] && (s[0] == '-' || s[0] == '+') then s[1..] else s;
    if digits == [] then AtoiResult(0, Some(Syntax))
    else
      match ParseUint(digits)
      case Err(Syntax) => AtoiResult(0, Some(Syntax))
      case Err(Range) => AtoiResult(if neg then MIN_INT64 else MAX_INT64, Some(Range))
      case Ok(v) =>
        if !neg && v > MAX_INT64 then AtoiResult(MAX_INT64, Some(Range))
        else if neg && v > MAX_INT64 + 1 then AtoiResult(MIN_INT64, Some(Range))
        else AtoiResult(if neg then 0 - v else v, None)
  }

  lemma {:induction false} ParsedUint(s: string)
    ensures ParseUint(s).Ok? <==> AllDigits(s) && Value(s) <= MAX_UINT64
    ensures ParseUint(s).Ok? ==> ParseUint(s).value == Value(s)
    ensures AllDigits(s) && Value(s) > MAX_UINT64 ==> ParseUint(s) == Err(Range)
  {
    if s != [] {
      var n := |s| - 1;
      ParsedUint(s[..n]);
      assert AllDigits(s) <==> AllDigits(s[..n]) && IsDigit(s[n]);
    }
  }

  /** The text behind an optional sign. */
  function Unsigned(s: string): string { if s != "" && (s[0] == '-' || s[0] == '+') then s[1..] else s }

  function Signed(s: string): int
    requires AllDigits(Unsigned(s))
  {
    if s != "" && s[0] == '-' then 0 - Value(Unsigned(s)) else Value(Unsigned(s))
  }

  /**
   A text is read without error iff it is digits behind an optional sign and its number fits 64
   bits; a number that does not fit becomes the nearest one that does.
   */
  lemma AtoiExactly(s: string)
    ensures Atoi(s).error == None <==>
      Unsigned(s) != "" && AllDigits(Unsigned(s)) && -0x8000_0000_0000_0000 <= Signed(s) <= 0x7FFF_FFFF_FFFF_FFFF
    ensures Atoi(s).error == None ==> Atoi(s).value == Signed(s)
    ensures Unsigned(s) != "" && AllDigits(Unsigned(s)) ==>
      (Signed(s) > 0x7FFF_FFFF_FFFF_FFFF ==> Atoi(s) == AtoiResult(0x7FFF_FFFF_FFFF_FFFF, Some(Range))) &&
      (Signed(s) < -0x8000_0000_0000_0000 ==> Atoi(s) == AtoiResult(-0x8000_0000_0000_0000, Some(Range)))
    ensures Atoi(s).error == Some(Syntax) ==> Atoi(s).value == 0
  {
    ParsedUint(Unsigned(s));
  }

  /** Printing a 64-bit integer and reading it back is the identity. */
  lemma AtoiOfItoa(n: int)
    requires MIN_INT64 <= n <= MAX_INT64
    ensures Atoi(Itoa(n)) == AtoiResult(n, None)
  {
    var m := if n < 0 then -n else n;
    ValueOfItoa(m);
    ParseUintOfDigits(ItoaNat(m));
    if n < 0 {
      assert Itoa(n)[1..] == ItoaNat(m);
    } else {
      assert IsDigit(ItoaNat(m)[0]);
    }
  }
}
