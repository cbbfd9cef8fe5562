/**
 * The parts of Go's `strconv` package that decide how option values are
 * rendered: `ParseBool`, `ParseInt(s, 10, 16)`, `FormatInt(n, 10)` and
 * `FormatBool`.
 */
module GoStrconv {
  import opened Wrappers

  const MinInt16: int := -0x8000
  const MaxInt16: int := 0x7FFF

  /**
   * `strconv.ParseBool`: exactly twelve spellings are accepted, and the
   * first character of an accepted one tells true from false.
   */
  function ParseBool(s: string): (r: Option<bool>)
    ensures r.Some? <==> s in {"1", "t", "T", "TRUE", "true", "True", "0", "f", "F", "FALSE", "false", "False"}
    ensures r.Some? ==> (r.value <==> s[0] in {'1', 't', 'T'})
  {
    if s in {"1", "t", "T", "TRUE", "true", "True"} then Some(true)
    else if s in {"0", "f", "F", "FALSE", "false", "False"} then Some(false)
    else None
  }

  /** `strconv.FormatBool`: a word, never a digit, that `ParseBool` reads back. */
  function FormatBool(b: bool): (r: string)
    ensures ParseBool(r) == Some(b)
    ensures |r| > 1
  {
    if b then "true" else "false"
  }

  predicate IsDigit(c: char)
  {
    '0' <= c <= '9'
  }

  /** One or more ASCII decimal digits. */
  predicate IsDigits(s: string)
  {
    |s| > 0 && forall i :: 0 <= i < |s| ==> IsDigit(s[i])
  }

  /** The value of a digit string, most significant digit first. */
  function DigitsValue(s: string): nat
    requires forall i :: 0 <= i < |s| ==> IsDigit(s[i])
  {
    if s == [] then 0
    else
      assert IsDigit(s[|s| - 1]);
      DigitsValue(s[..|s| - 1]) * 10 + (s[|s| - 1] as int - '0' as int)
  }

  /** The shortest decimal spelling of a natural number. */
  function Decimal(n: nat): (r: string)
    ensures IsDigits(r)
  {
    if n < 10 then [('0' as int + n) as char]
    else Decimal(n / 10) + [('0' as int + n % 10) as char]
  }

  /** `strconv.FormatInt(n, 10)`, also what `%d` prints. */
  function FormatInt(n: int): (r: string)
    ensures |r| > 0
    ensures r[0] == '-' <==> n < 0
  {
    if n < 0 then "-" + Decimal(-n) else Decimal(n)
  }

  /**
   * `strconv.ParseInt(s, 10, 16)`: an optional sign followed by one or more
   * decimal digits, whose value lies in the 16-bit signed range; anything
   * else is an error.
   */
  function ParseInt16(s: string): (r: Option<int>)
    ensures r.Some? ==> MinInt16 <= r.value <= MaxInt16
  {
    if s == [] then None
    else
      var body := if s[0] == '+' || s[0] == '-' then s[1..] else s;
      if !IsDigits(body) then None
      else
        var v: int := DigitsValue(body);
        var n := if s[0] == '-' then -v else v;
        if MinInt16 <= n <= MaxInt16 then Some(n) else None
  }

  /** Reading back the decimal spelling of a number gives the number. */
  lemma {:induction false} DecimalValue(n: nat)
    ensures DigitsValue(Decimal(n)) == n
  {
    if n >= 10 {
      var d := Decimal(n / 10) + [('0' as int + n % 10) as char];
      assert d[..|d| - 1] == Decimal(n / 10);
      DecimalValue(n / 10);
    }
  }

  /** Every 16-bit value survives `FormatInt` followed by `ParseInt`. */
  lemma ParseFormatInt16(n: int)
    requires MinInt16 <= n <= MaxInt16
    ensures ParseInt16(FormatInt(n)) == Some(n)
  {
    var s := FormatInt(n);
    if n < 0 {
      assert s[1..] == Decimal(-n);
      DecimalValue(-n);
    } else {
      DecimalValue(n);
    }
  }

  /**
   * `ParseInt` normalises: formatting what it returns and parsing again gives
   * the same number (so `"+007"` and `"7"` render the same).
   */
  lemma ParseIntNormalises(s: string)
    requires ParseInt16(s).Some?
    ensures ParseInt16(FormatInt(ParseInt16(s).value)) == ParseInt16(s)
  {
    ParseFormatInt16(ParseInt16(s).value);
  }

  /** The decimal text of an integer is a boolean to `ParseBool` only for 0 and 1. */
  lemma FormatIntAsBool(n: int)
    ensures ParseBool(FormatInt(n)).Some? <==> n == 0 || n == 1
    ensures n == 0 ==> ParseBool(FormatInt(n)) == Some(false)
    ensures n == 1 ==> ParseBool(FormatInt(n)) == Some(true)
  {
    var s := FormatInt(n);
    if n >= 0 {
      DecimalValue(n);
      if s == "1" {
        assert DigitsValue("1") == 1;
      } else if s == "0" {
        assert DigitsValue("0") == 0;
      }
      assert IsDigit(s[0]);
    }
  }
}
