/**
 * The cells of the app's data frames and the one value coercion the
 * pipeline performs: `df_final["Valor"].replace("-", 0).astype(int)`
 * (app.py:75-76).
 */
module Cells {
  import opened Wrappers

  /** A data-frame cell: absent (None/NaN), a text, or an integer. */
  datatype Cell = Missing | Str(text: string) | Num(n: int)

  /** What the startup script raises, one constructor per failure mode. */
  datatype Error =
    | EmptyPayload                  // df.iloc[0] on a frame with no rows
    | MissingColumn(name: string)   // KeyError on a column label
    | DuplicateColumn(name: string) // a label the script names occurs twice
    | EmptyFeatureTable             // merge on "Nome" of a frame with no columns
    | NotAnInteger(token: string)   // astype(int) of a non-integer text
    | NotANumber                    // astype(int) of a missing value
    | IntOverflow(value: int)       // astype(int) outside the int64 range

  const MinInt64: int := -0x8000_0000_0000_0000
  const MaxInt64: int := 0x7fff_ffff_ffff_ffff

  predicate InInt64(n: int) {
    MinInt64 <= n <= MaxInt64
  }

  predicate IsDigit(c: char) {
    '0' <= c <= '9'
  }

  predicate AllDigits(s: string) {
    forall i :: 0 <= i < |s| ==> IsDigit(s[i])
  }

  function DigitValue(c: char): nat
    requires IsDigit(c)
  {
    c as int - '0' as int
  }

  function DigitChar(d: nat): (c: char)
    requires d < 10
    ensures IsDigit(c) && DigitValue(c) == d
  {
    ('0' as int + d) as char
  }

  /** The value of a run of decimal digits, most significant first. */
  function DigitsValue(s: string): nat
    requires AllDigits(s)
  {
    if s == [] then 0 else 10 * DigitsValue(s[..|s| - 1]) + DigitValue(s[|s| - 1])
  }

  /** An integer literal as int() reads it: an optional sign, then one or more digits. */
  predicate IsIntLiteral(s: string) {
    if |s| > 0 && (s[0] == '+' || s[0] == '-') then |s| > 1 && AllDigits(s[1..])
    else |s| > 0 && AllDigits(s)
  }

  function LiteralValue(s: string): int
    requires IsIntLiteral(s)
  {
    if s[0] == '-' then -(DigitsValue(s[1..]) as int)
    else if s[0] == '+' then DigitsValue(s[1..])
    else DigitsValue(s)
  }

  /** int64(int(s)): the literal's value, or the error astype(int) raises. */
  function ParseInt(s: string): Result<int, Error> {
    if !IsIntLiteral(s) then Err(NotAnInteger(s))
    else if !InInt64(LiteralValue(s)) then Err(IntOverflow(LiteralValue(s)))
    else Ok(LiteralValue(s))
  }

  /** Decimal rendering of a natural number, as str() writes it. */
  function NatToString(n: nat): string {
    if n < 10 then [DigitChar(n)] else NatToString(n / 10) + [DigitChar(n % 10)]
  }

  /** Decimal rendering of an integer, as str() writes it. */
  function IntToString(n: int): string {
    if n < 0 then "-" + NatToString(-n) else NatToString(n)
  }

  lemma {:induction false} NatToStringValue(n: nat)
    ensures |NatToString(n)| > 0 && AllDigits(NatToString(n))
    ensures DigitsValue(NatToString(n)) == n
  {
    if n >= 10 {
      NatToStringValue(n / 10);
      var s := NatToString(n);
      assert s[..|s| - 1] == NatToString(n / 10);
    }
  }

  /** Every int64 written out in decimal reads back as itself. */
  lemma ParseIntToString(n: int)
    requires InInt64(n)
    ensures IsIntLiteral(IntToString(n))
    ensures ParseInt(IntToString(n)) == Ok(n)
  {
    if n < 0 {
      NatToStringValue(-n);
      assert IntToString(n)[1..] == NatToString(-n);
    } else {
      NatToStringValue(n);
    }
  }

  /** Step 1 of the coercion: the placeholder "-" becomes the integer 0. */
  function ReplaceDash(c: Cell): (r: Cell)
    ensures c == Str("-") ==> r == Num(0)
    ensures c != Str("-") ==> r == c
  {
    if c == Str("-") then Num(0) else c
  }

  /** Step 2 of the coercion: astype(int) of one cell. */
  function AsInt(c: Cell): Result<int, Error> {
    match c
    case Missing => Err(NotANumber)
    case Num(n) => if InInt64(n) then Ok(n) else Err(IntOverflow(n))
    case Str(s) => ParseInt(s)
  }

  /**
   * The coercion of one "Valor" cell: "-" is 0, an integer literal in the
   * int64 range is its value, anything else is an error.
   */
  function Coerce(c: Cell): (r: Result<int, Error>)
    ensures c == Str("-") ==> r == Ok(0)
    ensures c.Str? && IsIntLiteral(c.text) && InInt64(LiteralValue(c.text))
            ==> r == Ok(LiteralValue(c.text))
    ensures c.Num? && InInt64(c.n) ==> r == Ok(c.n)
    ensures r.Ok? <==> c == Str("-")
                       || (c.Str? && IsIntLiteral(c.text) && InInt64(LiteralValue(c.text)))
                       || (c.Num? && InInt64(c.n))
    ensures r.Ok? ==> InInt64(r.value)
    ensures c.Missing? ==> r == Err(NotANumber)
    ensures c.Str? && c != Str("-") && !IsIntLiteral(c.text) ==> r == Err(NotAnInteger(c.text))
  {
    AsInt(ReplaceDash(c))
  }
}
