/**
 * Python's int() as the integer-valued settings use it: on a string it
 * accepts surrounding whitespace, an optional sign and decimal digits; on a
 * boolean or an integer it returns the number; on anything else it raises
 * TypeError. Also str() of an integer, so that parsing can be checked
 * against printing.
 */
module Numbers {
  import opened Values
  import opened Text

  predicate IsDigit(c: char) {
    '0' <= c <= '9'
  }

  predicate AllDigits(s: string) {
    forall i :: 0 <= i < |s| ==> IsDigit(s[i])
  }

  function DigitValue(c: char): nat
    requires IsDigit(c)
  {
    c as int - '0' as int
  }

  function DigitChar(d: nat): (c: char)
    requires d < 10
    ensures IsDigit(c) && DigitValue(c) == d
  {
    ('0' as int + d) as char
  }

  /** The number a run of decimal digits denotes, most significant digit first. */
  function DigitsValue(ds: string): nat
    requires AllDigits(ds)
  {
    if ds == [] then 0 else DigitsValue(ds[..|ds| - 1]) * 10 + DigitValue(ds[|ds| - 1])
  }

  /** The decimal digits of n, without leading zeros. */
  function NatDigits(n: nat): (ds: string)
    ensures ds != [] && AllDigits(ds)
  {
    if n < 10 then [DigitChar(n)] else NatDigits(n / 10) + [DigitChar(n % 10)]
  }

  /** str(n) for an integer n. */
  function DecimalString(n: int): (s: string)
    ensures s != [] && IsDigit(s[|s| - 1]) && (IsDigit(s[0]) || s[0] == '-')
  {
    if n < 0 then "-" + NatDigits(-n) else NatDigits(n)
  }

  /**
   * int(s) for a string s: after stripping whitespace, an optional '+' or
   * '-' followed by one or more decimal digits; None where Python raises
   * ValueError.
   */
  function ParseInt(s: string): (r: Option<int>)
    ensures r.Some? ==> Strip(s) != []
  {
    var t := Strip(s);
    if t == [] then None
    else
      var body := if t[0] == '-' || t[0] == '+' then t[1..] else t;
      if body != [] && AllDigits(body) then
        Some(if t[0] == '-' then 0 - DigitsValue(body) as int else DigitsValue(body) as int)
      else None
  }

  /** Reading back the digits of n gives n. */
  lemma {:induction false} NatDigitsValue(n: nat)
    ensures DigitsValue(NatDigits(n)) == n
    decreases n
  {
    if n >= 10 {
      var ds := NatDigits(n);
      var d := NatDigits(n / 10);
      assert ds == d + [DigitChar(n % 10)];
      assert ds[..|ds| - 1] == d;
      NatDigitsValue(n / 10);
    }
  }

  /** The text of a non-negative n reads back as n. */
  lemma ParseNatDigits(n: nat)
    ensures ParseInt(DecimalString(n)) == Some(n)
  {
    var ds := NatDigits(n);
    assert DecimalString(n) == ds;
    assert !IsSpace(ds[0]) && !IsSpace(ds[|ds| - 1]);
    StripNoOp(ds);
    NatDigitsValue(n);
  }

  /** The text of a negative number, a minus sign and its digits, reads back as that number. */
  lemma ParseNegatedDigits(n: int)
    requires n < 0
    ensures ParseInt(DecimalString(n)) == Some(n)
  {
    var ds := NatDigits(-n);
    var s := "-" + ds;
    assert DecimalString(n) == s;
    assert s[0] == '-' && s[1..] == ds;
    assert !IsSpace(s[|s| - 1]);
    StripNoOp(s);
    NatDigitsValue(-n);
  }

  /** int(str(n)) == n. */
  lemma ParseDecimalString(n: int)
    ensures ParseInt(DecimalString(n)) == Some(n)
  {
    if n < 0 {
      ParseNegatedDigits(n);
    } else {
      ParseNatDigits(n);
    }
  }

  /** What Python's int(v) does with a document value. */
  datatype IntConversion = Converted(n: int) | ValueErr | TypeErr

  /**
   * int(v): integers convert to themselves, booleans to 0 and 1, strings are
   * parsed (ValueError when they are not a decimal literal); None, lists,
   * objects and ObjectIds raise TypeError.
   */
  function IntOf(v: Value): (r: IntConversion)
    ensures v.Int? ==> r == Converted(v.i)
    ensures r.TypeErr? <==> !(v.Int? || v.Bool? || v.Str?)
    ensures v.Str? ==> (r.Converted? <==> ParseInt(v.s).Some?) && (r.Converted? ==> ParseInt(v.s) == Some(r.n))
  {
    match v
    case Int(i) => Converted(i)
    case Bool(b) => Converted(if b then 1 else 0)
    case Str(s) => (match ParseInt(s) case Some(n) => Converted(n) case None => ValueErr)
    case _ => TypeErr
  }

  /** Converting the decimal text of n gives n. */
  lemma IntOfDecimal(n: int)
    ensures IntOf(Str(DecimalString(n))) == Converted(n)
  {
    ParseDecimalString(n);
  }
}
