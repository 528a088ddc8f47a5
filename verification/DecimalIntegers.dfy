/** Strict parsing of decimal integers (core/validation.py). */
module DecimalIntegers {
  import opened Wrappers

  /** The accepted input types; every other object is Other. */
  datatype Input = IntValue(number: int) | BoolValue(flag: bool) | TextValue(text: string) | Other

  datatype ParseError = InvalidMaximum | NotAnInteger | OutOfBounds

  const MAX_POSITIVE_DECIMAL_DIGITS: nat := 64
  const MAX_BOUNDED_DECIMAL_DIGITS: nat := 16
  const MIN_CLI_PRIORITY: int := -2_147_483_648
  const MAX_CLI_PRIORITY: int := 2_147_483_647

  predicate IsDigit(c: char) {
    '0' <= c <= '9'
  }

  predicate AllDigits(s: string) {
    forall i :: 0 <= i < |s| ==> IsDigit(s[i])
  }

  /** [1-9][0-9]* */
  predicate PositivePattern(s: string) {
    s != [] && AllDigits(s) && s[0] != '0'
  }

  /** 0|-?[1-9][0-9]* */
  predicate BoundedPattern(s: string) {
    s == "0" || PositivePattern(s) || (s != [] && s[0] == '-' && PositivePattern(s[1..]))
  }

  /** int(s, 10) on a digit string */
  function DigitsValue(s: string): (n: int)
    requires AllDigits(s)
    ensures n >= 0
  {
    if s == [] then 0 else 10 * DigitsValue(s[..|s| - 1]) + ((s[|s| - 1] as int) - ('0' as int))
  }

  function SignedValue(s: string): int
    requires BoundedPattern(s)
  {
    if s[0] == '-' then -DigitsValue(s[1..]) else DigitsValue(s)
  }

  /** str(n) */
  function Decimal(n: nat): (r: string)
    ensures r != [] && AllDigits(r)
  {
    var last := ((n % 10) + ('0' as int)) as char;
    if n < 10 then [last] else Decimal(n / 10) + [last]
  }

  function SignedDecimal(n: int): string {
    if n < 0 then "-" + Decimal(-n) else Decimal(n)
  }

  function Pow10(k: nat): (p: int)
    ensures p >= 1
  {
    if k == 0 then 1 else 10 * Pow10(k - 1)
  }

  /** parse_positive_decimal_int */
  function ParsePositive(value: Input, maximum: Option<int>): Result<int, ParseError> {
    if maximum.Some? && maximum.value < 1 then Err(InvalidMaximum)
    else
      match value
      case BoolValue(_) => Err(NotAnInteger)
      case IntValue(n) =>
        if n < 1 then Err(NotAnInteger)
        else if maximum.Some? && n > maximum.value then Err(OutOfBounds)
        else Ok(n)
      case TextValue(s) =>
        if !PositivePattern(s) then Err(NotAnInteger)
        else if |s| > (if maximum.Some? then |Decimal(maximum.value)|
                       else MAX_POSITIVE_DECIMAL_DIGITS) then Err(NotAnInteger)
        else if maximum.Some? && DigitsValue(s) > maximum.value then Err(OutOfBounds)
        else Ok(DigitsValue(s))
      case Other => Err(NotAnInteger)
  }

  /** parse_cli_bounded_int */
  function ParseBounded(value: Input, minimum: int, maximum: int): Result<int, ParseError> {
    match value
    case BoolValue(_) => Err(NotAnInteger)
    case IntValue(n) => if n < minimum || n > maximum then Err(OutOfBounds) else Ok(n)
    case TextValue(s) =>
      if !BoundedPattern(s) then Err(NotAnInteger)
      else if |Unsigned(s)| > MAX_BOUNDED_DECIMAL_DIGITS then Err(NotAnInteger)
      else if SignedValue(s) < minimum || SignedValue(s) > maximum then Err(OutOfBounds)
      else Ok(SignedValue(s))
    case Other => Err(NotAnInteger)
  }

  /* ---------- Printing and reading undo each other ---------- */

  lemma {:induction false} ReadPrinted(n: nat)
    ensures DigitsValue(Decimal(n)) == n
    ensures n > 0 ==> PositivePattern(Decimal(n))
    decreases n
  {
    var s := Decimal(n);
    if n >= 10 {
      ReadPrinted(n / 10);
      assert s[..|s| - 1] == Decimal(n / 10);
      assert s[0] == Decimal(n / 10)[0];
    } else {
      assert s[..|s| - 1] == [];
    }
  }

  lemma {:induction false} PrintRead(s: string)
    requires PositivePattern(s)
    ensures DigitsValue(s) > 0 && Decimal(DigitsValue(s)) == s
  {
    hide Decimal, DigitsValue;
    var front, last := s[..|s| - 1], s[|s| - 1];
    ReadAppends(front, last);
    PrintAppends(DigitsValue(front), last);
    assert s == front + [last];
    if front == [] {
      ReadEmpty();
    } else {
      assert front[0] == s[0];
      PrintRead(front);
    }
  }

  lemma ReadEmpty()
    ensures DigitsValue([]) == 0
  {
  }

  lemma ReadAppends(front: string, last: char)
    requires AllDigits(front) && IsDigit(last)
    ensures AllDigits(front + [last])
    ensures DigitsValue(front + [last]) == 10 * DigitsValue(front) + ((last as int) - ('0' as int))
  {
    assert (front + [last])[..|front|] == front;
  }

  /** Printing 10 m + d writes m, unless it is zero, and then the digit d. */
  lemma PrintAppends(m: nat, last: char)
    requires IsDigit(last)
    ensures Decimal(10 * m + ((last as int) - ('0' as int))) == (if m == 0 then [] else Decimal(m)) + [last]
  {
    var digit := (last as int) - ('0' as int);
    var n := 10 * m + digit;
    assert n % 10 == digit && n / 10 == m;
    assert ((n % 10) + ('0' as int)) as char == last;
  }

  /** k digits print exactly the numbers from 10^(k-1) to 10^k - 1. */
  lemma {:induction false} DigitCount(n: nat)
    ensures n < Pow10(|Decimal(n)|)
    ensures |Decimal(n)| > 1 ==> Pow10(|Decimal(n)| - 1) <= n
    decreases n
  {
    if n >= 10 {
      DigitCount(n / 10);
      var k := |Decimal(n / 10)|;
      assert |Decimal(n)| == k + 1;
      assert Pow10(k + 1) == 10 * Pow10(k);
      assert n / 10 + 1 <= Pow10(k);
      if k > 1 { assert Pow10(k) == 10 * Pow10(k - 1); } else { assert Pow10(1) == 10 * Pow10(0); }
    } else {
      assert Pow10(1) == 10 * Pow10(0);
    }
  }

  lemma {:induction false} Pow10Grows(a: nat, b: nat)
    requires a <= b
    ensures Pow10(a) <= Pow10(b)
  {
    if a < b {
      Pow10Grows(a, b - 1);
    }
  }

  /** A number has at most k digits exactly when it is below 10^k. */
  lemma FewDigits(n: nat, k: nat)
    requires k >= 1
    ensures |Decimal(n)| <= k <==> n < Pow10(k)
  {
    DigitCount(n);
    if |Decimal(n)| <= k {
      Pow10Grows(|Decimal(n)|, k);
    } else {
      Pow10Grows(k, |Decimal(n)| - 1);
    }
  }

  /** The digit-length check never rejects an in-range value. */
  lemma {:induction false} LengthIsMonotone(m: nat, n: nat)
    requires m <= n
    ensures |Decimal(m)| <= |Decimal(n)|
    decreases n
  {
    if n >= 10 && m >= 10 {
      LengthIsMonotone(m / 10, n / 10);
    }
  }

  /** Text is accepted exactly when it is the canonical print of an integer in range. */
  lemma ParsePositiveExact(s: string, maximum: int, n: int)
    requires maximum >= 1
    ensures ParsePositive(TextValue(s), Some(maximum)) == Ok(n) <==> 1 <= n <= maximum && s == Decimal(n)
  {
    if 1 <= n <= maximum && s == Decimal(n) {
      ReadPrinted(n);
      LengthIsMonotone(n, maximum);
    }
    if PositivePattern(s) {
      PrintRead(s);
    }
  }

  /** Without a maximum the accepted integers are those of at most 64 digits. */
  lemma ParseUnboundedExact(s: string, n: int)
    ensures ParsePositive(TextValue(s), None) == Ok(n) <==>
            1 <= n < Pow10(MAX_POSITIVE_DECIMAL_DIGITS) && s == Decimal(n)
  {
    hide Pow10;
    if n >= 1 {
      ReadPrinted(n);
      FewDigits(n, MAX_POSITIVE_DECIMAL_DIGITS);
    }
    if PositivePattern(s) {
      PrintRead(s);
    }
  }

  function Magnitude(n: int): nat {
    if n < 0 then -n else n
  }

  /** Signed text is accepted exactly when it is the canonical print of an in-range integer of at most 16 digits. */
  lemma ParseBoundedExact(s: string, minimum: int, maximum: int, n: int)
    ensures ParseBounded(TextValue(s), minimum, maximum) == Ok(n) <==>
            minimum <= n <= maximum && s == SignedDecimal(n) && Magnitude(n) < Pow10(MAX_BOUNDED_DECIMAL_DIGITS)
  {
    hide Pow10, BoundedPattern, Decimal, SignedDecimal, SignedValue;
    FewDigits(Magnitude(n), MAX_BOUNDED_DECIMAL_DIGITS);
    if s == SignedDecimal(n) {
      SignedReadPrinted(n);
    }
    if BoundedPattern(s) {
      SignedPrintRead(s);
    }
  }

  function Unsigned(s: string): string
    requires s != []
  {
    if s[0] == '-' then s[1..] else s
  }

  lemma SignedReadPrinted(n: int)
    ensures BoundedPattern(SignedDecimal(n)) && SignedValue(SignedDecimal(n)) == n
    ensures Unsigned(SignedDecimal(n)) == Decimal(Magnitude(n))
  {
    ReadPrinted(Magnitude(n));
    if n < 0 { assert SignedDecimal(n)[1..] == Decimal(-n); }
  }

  lemma SignedPrintRead(s: string)
    requires BoundedPattern(s)
    ensures SignedDecimal(SignedValue(s)) == s
    ensures Unsigned(s) == Decimal(Magnitude(SignedValue(s)))
  {
    if s == "0" {
      assert s[..0] == [];
      assert DigitsValue(s) == 0;
    } else if s[0] == '-' {
      PrintRead(s[1..]);
      assert s == "-" + s[1..];
    } else {
      PrintRead(s);
    }
  }

  /** Printing then parsing returns the number, for every number in range. */
  lemma ParseUndoesPrint(n: int, minimum: int, maximum: int)
    requires minimum <= n <= maximum
    ensures 1 <= n ==> ParsePositive(TextValue(Decimal(n)), Some(maximum)) == Ok(n)
    ensures MIN_CLI_PRIORITY <= minimum && maximum <= MAX_CLI_PRIORITY ==>
              ParseBounded(TextValue(SignedDecimal(n)), minimum, maximum) == Ok(n)
  {
    if 1 <= n {
      ParsePositiveExact(Decimal(n), maximum, n);
    }
    ParseBoundedExact(SignedDecimal(n), minimum, maximum, n);
    SixteenDigits();
  }

  lemma SixteenDigits()
    ensures Pow10(MAX_BOUNDED_DECIMAL_DIGITS) == 10_000_000_000_000_000
  {
    assert Pow10(4) == 10_000;
    assert Pow10(8) == 10_000 * Pow10(4);
    assert Pow10(12) == 10_000 * Pow10(8);
    assert Pow10(16) == 10_000 * Pow10(12);
  }

  /* ---------- What is refused, and how ---------- */

  /**
   * A real integer is taken as it is, within its bounds; a flag or any other object is no integer. Text is out of
   * bounds when it prints an integer above the maximum with no more digits than it, and otherwise no integer.
   */
  lemma PositiveErrors(value: Input, maximum: Option<int>)
    ensures var r := ParsePositive(value, maximum);
            if maximum.Some? && maximum.value < 1 then r == Err(InvalidMaximum)
            else if value.IntValue? then
              r == if value.number < 1 then Err(NotAnInteger)
                   else if maximum.Some? && maximum.value < value.number then Err(OutOfBounds)
                   else Ok(value.number)
            else if value.TextValue? then
              && (r == Err(OutOfBounds) <==>
                  maximum.Some? && exists n: nat ::
                    n > maximum.value && value.text == Decimal(n) && |Decimal(n)| <= |Decimal(maximum.value)|)
              && (r.Err? ==> r.error == NotAnInteger || r.error == OutOfBounds)
            else r == Err(NotAnInteger)
  {
    if value.TextValue? && maximum.Some? && maximum.value >= 1 {
      var s := value.text;
      if PositivePattern(s) {
        PrintRead(s);
      }
      forall n: nat | n > maximum.value && s == Decimal(n) ensures PositivePattern(s) && DigitsValue(s) == n {
        ReadPrinted(n);
      }
    }
  }

  lemma NeverEmpty(s: string)
    requires BoundedPattern(s)
    ensures s != []
  {
  }

  /** Bounded text is out of bounds when it prints an integer of at most 16 digits outside them. */
  lemma BoundedErrors(value: Input, minimum: int, maximum: int)
    ensures var r := ParseBounded(value, minimum, maximum);
            if value.IntValue? then
              r == if minimum <= value.number <= maximum then Ok(value.number) else Err(OutOfBounds)
            else if value.TextValue? then
              && (r == Err(OutOfBounds) <==>
                  exists n :: value.text == SignedDecimal(n) && |Decimal(Magnitude(n))| <= 16 &&
                    (n < minimum || maximum < n))
              && (r.Err? ==> r.error == NotAnInteger || r.error == OutOfBounds)
            else r == Err(NotAnInteger)
  {
    hide BoundedPattern, Decimal, SignedDecimal, SignedValue;
    if value.TextValue? {
      var s := value.text;
      if BoundedPattern(s) {
        SignedPrintRead(s);
      }
      forall n | s == SignedDecimal(n)
        ensures BoundedPattern(s) && SignedValue(s) == n && s != [] && |Unsigned(s)| == |Decimal(Magnitude(n))|
      {
        SignedReadPrinted(n);
        NeverEmpty(s);
      }
    }
  }
}
