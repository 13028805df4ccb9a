/**
 * strconv.ParseInt(s, 10, 64) and strconv.FormatInt(i, 10). Go scans the
 * digits left to right and reports the first problem it meets: a non-digit
 * is a syntax error, an accumulated value above 2^64 - 1 a range error.
 */
module GoStrconv {
  import opened Wrappers
  import opened Documents

  const MaxUint64: nat := 0xFFFF_FFFF_FFFF_FFFF
  const MaxInt64: int := 0x7FFF_FFFF_FFFF_FFFF
  const MinInt64: int := -0x8000_0000_0000_0000

  predicate IsInt64(i: int) { MinInt64 <= i <= MaxInt64 }

  predicate IsDigit(c: char) { '0' <= c <= '9' }

  predicate AllDigits(s: string) { forall k :: 0 <= k < |s| ==> IsDigit(s[k]) }

  function DigitValue(c: char): nat
    requires IsDigit(c)
  {
    c as int - '0' as int
  }

  /** The decimal value of a digit string, with no bound. */
  function DecimalValue(s: string): nat
    requires AllDigits(s)
  {
    if s == [] then 0 else DecimalValue(s[..|s| - 1]) * 10 + DigitValue(s[|s| - 1])
  }

  /** The digit loop of strconv.ParseUint, one character at a time from the left. */
  function ScanUint(s: string): Result<nat, Error>
    decreases |s|
  {
    if s == [] then Ok(0)
    else
      match ScanUint(s[..|s| - 1])
      case Err(e) => Err(e)
      case Ok(n) =>
        var c := s[|s| - 1];
        if !IsDigit(c) then Err(NumSyntax)
        else if n * 10 + DigitValue(c) > MaxUint64 then Err(NumRange)
        else Ok(n * 10 + DigitValue(c))
  }

  /** strconv.ParseUint(s, 10, 64) */
  function ParseUint(s: string): Result<nat, Error>
  {
    if s == [] then Err(NumSyntax) else ScanUint(s)
  }

  /** strconv.ParseInt(s, 10, 64): an optional sign, then ParseUint, then the int64 bound. */
  function ParseInt(s: string): Result<int, Error>
  {
    if s == [] then Err(NumSyntax)
    else
      var neg := s[0] == '-';
      var digits := if s[0] == '+' || s[0] == '-' then s[1..] else s;
      match ParseUint(digits)
      case Err(e) => Err(e)
      case Ok(un) =>
        if !neg && un >= 0x8000_0000_0000_0000 then Err(NumRange)
        else if neg && un > 0x8000_0000_0000_0000 then Err(NumRange)
        else Ok(if neg then -(un as int) else un as int)
  }

  /** The scan succeeds exactly on digit strings whose value fits 64 bits, with that value. */
  lemma {:induction false} ScanUintSpec(s: string)
    ensures ScanUint(s).Ok? <==> AllDigits(s) && DecimalValue(s) <= MaxUint64
    ensures ScanUint(s).Ok? ==> ScanUint(s).value == DecimalValue(s)
    ensures ScanUint(s).Err? ==> ScanUint(s).error in {NumSyntax, NumRange}
    ensures ScanUint(s).Err? && AllDigits(s) ==> ScanUint(s).error == NumRange
    decreases |s|
  {
    if s != [] {
      var init := s[..|s| - 1];
      ScanUintSpec(init);
      assert AllDigits(s) ==> AllDigits(init);
    }
  }

  /** The sign and digits part of a string ParseInt accepts. */
  predicate SignedDigits(s: string)
  {
    var digits := if s != [] && (s[0] == '+' || s[0] == '-') then s[1..] else s;
    digits != [] && AllDigits(digits)
  }

  /** The signed value of a SignedDigits string. */
  function SignedValue(s: string): int
    requires SignedDigits(s)
  {
    if s[0] == '-' then -(DecimalValue(s[1..]) as int)
    else if s[0] == '+' then DecimalValue(s[1..])
    else DecimalValue(s)
  }

  /**
   * ParseInt accepts exactly an optional sign followed by one or more
   * decimal digits whose value is an int64, and then yields that value;
   * everything else (empty input, a non-digit, overflow) is an error.
   */
  lemma ParseIntSpec(s: string)
    ensures ParseInt(s).Ok? <==> SignedDigits(s) && IsInt64(SignedValue(s))
    ensures ParseInt(s).Ok? ==> ParseInt(s).value == SignedValue(s)
    ensures ParseInt(s).Err? ==> ParseInt(s).error in {NumSyntax, NumRange}
  {
    if s != [] {
      var digits := if s[0] == '+' || s[0] == '-' then s[1..] else s;
      ScanUintSpec(digits);
    }
  }

  function DigitChar(d: nat): (c: char)
    requires d < 10
    ensures IsDigit(c) && DigitValue(c) == d
  {
    ('0' as int + d) as char
  }

  /** strconv.FormatUint(n, 10) */
  function FormatUint(n: nat): (r: string)
    decreases n
  {
    if n < 10 then [DigitChar(n)] else FormatUint(n / 10) + [DigitChar(n % 10)]
  }

  /** strconv.FormatInt(i, 10) */
  function FormatInt(i: int): string
  {
    if i < 0 then "-" + FormatUint(-i) else FormatUint(i)
  }

  /** The rendering is a non-empty digit string whose value is the number. */
  lemma {:induction false} FormatUintDigits(n: nat)
    ensures FormatUint(n) != [] && AllDigits(FormatUint(n)) && DecimalValue(FormatUint(n)) == n
    decreases n
  {
    if n >= 10 {
      FormatUintDigits(n / 10);
      var s := FormatUint(n);
      assert s[..|s| - 1] == FormatUint(n / 10);
    }
  }

  /** Round trip: every int64 parses back from its decimal rendering. */
  lemma ParseFormatInt(i: int)
    requires IsInt64(i)
    ensures ParseInt(FormatInt(i)) == Ok(i)
  {
    var s := FormatInt(i);
    if i < 0 {
      var u := FormatUint(-i);
      FormatUintDigits(-i);
      ScanUintSpec(u);
      assert s[0] == '-' && s[1..] == u;
      assert ParseUint(u) == Ok(-i);
    } else {
      FormatUintDigits(i);
      ScanUintSpec(s);
      assert IsDigit(s[0]);
      assert ParseUint(s) == Ok(i);
    }
  }
}
