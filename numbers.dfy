/** The token syntax accepted by Rust's `str::parse::<usize>()` (on a 64-bit
    target) and `str::parse::<f64>()`, and the decimal reading of a `usize`.
    A token outside this syntax makes the source's `unwrap()` panic, so the
    loaders demand these predicates of their inputs. */
module Numbers {

  /** `usize::MAX` on a 64-bit target. */
  const UsizeMax: nat := 0xFFFF_FFFF_FFFF_FFFF

  predicate IsDigit(c: char)
  {
    '0' <= c <= '9'
  }

  predicate AllDigits(s: string)
  {
    forall i :: 0 <= i < |s| ==> IsDigit(s[i])
  }

  /** The number a run of decimal digits denotes (most significant first). */
  function DigitsValue(s: string): nat
    requires AllDigits(s)
  {
    if s == [] then 0
    else DigitsValue(s[..|s| - 1]) * 10 + (s[|s| - 1] as int - '0' as int)
  }

  /** An unsigned integer token may carry one leading `+`. */
  function Magnitude(s: string): string
  {
    if |s| > 0 && s[0] == '+' then s[1..] else s
  }

  /** `s.parse::<usize>()` succeeds: an optional `+`, at least one digit, and a
      value that fits in 64 bits. */
  predicate IsUsizeToken(s: string)
  {
    var digits := Magnitude(s);
    |digits| > 0 && AllDigits(digits) && DigitsValue(digits) <= UsizeMax
  }

  function ParseUsize(s: string): (n: nat)
    requires IsUsizeToken(s)
    ensures n <= UsizeMax
  {
    DigitsValue(Magnitude(s))
  }

  /** `format!("{}", n)`: the shortest decimal spelling of `n`. */
  function Decimal(n: nat): (s: string)
    ensures |s| > 0 && AllDigits(s)
    ensures s[0] == '0' ==> n == 0
  {
    var last := ['0' + ((n % 10) as char)];
    if n < 10 then last else Decimal(n / 10) + last
  }

  /** Reading back a printed `usize` gives the same number. */
  lemma {:induction false} ParseDecimal(n: nat)
    requires n <= UsizeMax
    ensures IsUsizeToken(Decimal(n)) && ParseUsize(Decimal(n)) == n
  {
    DecimalValue(n);
    assert Magnitude(Decimal(n)) == Decimal(n);
  }

  lemma {:induction false} DecimalValue(n: nat)
    ensures DigitsValue(Decimal(n)) == n
  {
    var s := Decimal(n);
    if n >= 10 {
      DecimalValue(n / 10);
      assert s[..|s| - 1] == Decimal(n / 10);
    }
  }

  /** ASCII case-insensitive equality with a lower-case word (`inf`, `nan`, ...). */
  predicate EqualsIgnoringCase(s: string, lower: string)
  {
    |s| == |lower| &&
    forall i :: 0 <= i < |s| ==> s[i] == lower[i] || s[i] as int == lower[i] as int - 32
  }

  /** Index of the first `e` or `E`, or |s|. */
  function ExponentStart(s: string): (k: nat)
    ensures k <= |s|
    ensures k < |s| ==> s[k] == 'e' || s[k] == 'E'
    ensures forall j :: 0 <= j < k ==> s[j] != 'e' && s[j] != 'E'
  {
    if s == [] then 0
    else if s[0] == 'e' || s[0] == 'E' then 0
    else 1 + ExponentStart(s[1..])
  }

  /** Index of the first `.`, or |s|. */
  function PointAt(s: string): (k: nat)
    ensures k <= |s|
    ensures k < |s| ==> s[k] == '.'
    ensures forall j :: 0 <= j < k ==> s[j] != '.'
  {
    if s == [] then 0
    else if s[0] == '.' then 0
    else 1 + PointAt(s[1..])
  }

  /** `Digit+ | Digit+ '.' Digit* | Digit* '.' Digit+` */
  predicate IsMantissa(s: string)
  {
    var k := PointAt(s);
    if k == |s| then |s| > 0 && AllDigits(s)
    else AllDigits(s[..k]) && AllDigits(s[k + 1..]) && |s| > 1
  }

  /** `'e' Sign? Digit+`, with either case of `e`. */
  predicate IsExponent(s: string)
  {
    |s| >= 2 && (s[0] == 'e' || s[0] == 'E') &&
    var digits := if s[1] == '+' || s[1] == '-' then s[2..] else s[1..];
    |digits| > 0 && AllDigits(digits)
  }

  /** `s.parse::<f64>()` succeeds: `Sign? ('inf' | 'infinity' | 'nan' | Mantissa Exponent?)`,
      the words in any case. Only the syntax is modelled, not the value. */
  predicate IsFloatToken(s: string)
  {
    var body := if |s| > 0 && (s[0] == '+' || s[0] == '-') then s[1..] else s;
    || EqualsIgnoringCase(body, "inf")
    || EqualsIgnoringCase(body, "infinity")
    || EqualsIgnoringCase(body, "nan")
    || (var e := ExponentStart(body);
        IsMantissa(body[..e]) && (e == |body| || IsExponent(body[e..])))
  }
}
