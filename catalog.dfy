/** The records the catalog API delivers, and the error the statistics
    pipeline can raise once the records are in hand. */
module Catalog {

  /** One product of a category listing. `soldCount` and `countryOfOrigin`
      are the two fields the statistics read; every other field of the
      record travels in `otherFields`, untouched, as name/JSON-text pairs. */
  datatype Product = Product(
    id: int,
    soldCount: int,
    countryOfOrigin: string,
    otherFields: map<string, string>)

  /** A node of the category tree. Only the root's direct `subCategories`
      are ever visited. */
  datatype Category = Category(
    id: int,
    name: string,
    count: int,
    subCategories: seq<Category>)

  /** The failures of the statistics themselves; transport and decoding
      failures of the fetches are outside the model. */
  datatype Error = DivisionByZero

  datatype Result<T> = Ok(value: T) | Err(error: Error)

  /** The decimal digit for `d`. */
  function DigitChar(d: nat): (c: char)
    requires d < 10
    ensures '0' <= c <= '9'
  {
    "0123456789"[d]
  }

  /** Decimal digits of a natural number, most significant first. */
  function Digits(n: nat): (s: string)
    ensures |s| > 0
    ensures forall i :: 0 <= i < |s| ==> '0' <= s[i] <= '9'
    decreases n
  {
    if n < 10 then [DigitChar(n)] else Digits(n / 10) + [DigitChar(n % 10)]
  }

  /** The text Python's `str` gives an integer: an optional minus sign and
      its decimal digits. */
  function DecimalString(n: int): (s: string)
    ensures |s| > 0
    ensures s[0] == '-' <==> n < 0
  {
    if n < 0 then "-" + Digits(-n) else Digits(n)
  }

  /** The value of a decimal digit character. */
  function DigitValue(c: char): int
  {
    c as int - '0' as int
  }

  /** The number a string of decimal digits denotes, most significant
      first. */
  function DigitsValue(s: string): int
  {
    if s == [] then 0 else DigitsValue(s[..|s| - 1]) * 10 + DigitValue(s[|s| - 1])
  }

  /** Reading decimal text back, as Python's `int` does: an optional minus
      sign, then digits. */
  function ReadDecimal(s: string): int
  {
    if |s| > 0 && s[0] == '-' then -DigitsValue(s[1..]) else DigitsValue(s)
  }

  lemma DigitCharValue(d: nat)
    requires d < 10
    ensures DigitValue(DigitChar(d)) == d
  {
    assert "0123456789"[d] as int == '0' as int + d by {
      if d == 0 {} else if d == 1 {} else if d == 2 {} else if d == 3 {} else if d == 4 {}
      else if d == 5 {} else if d == 6 {} else if d == 7 {} else if d == 8 {} else {}
    }
  }

  /** The digits of `n` denote `n`. */
  lemma {:induction false} DigitsRoundTrip(n: nat)
    ensures DigitsValue(Digits(n)) == n
  {
    if n < 10 {
      DigitCharValue(n);
      assert Digits(n)[..0] == [];
    } else {
      var s := Digits(n);
      DigitsRoundTrip(n / 10);
      DigitCharValue(n % 10);
      assert s[..|s| - 1] == Digits(n / 10);
      assert s[|s| - 1] == DigitChar(n % 10);
    }
  }

  /** Reading text that starts with a minus sign negates the digits after
      it. */
  lemma ReadNegative(d: string, v: int)
    requires DigitsValue(d) == v
    ensures ReadDecimal("-" + d) == -v
  {
    var text := "-" + d;
    assert text[0] == '-' && text[1..] == d;
  }

  /** Reading text that starts with a digit reads its digits. */
  lemma ReadDigits(d: string, v: int)
    requires |d| > 0 && '0' <= d[0] <= '9'
    requires DigitsValue(d) == v
    ensures ReadDecimal(d) == v
  {
  }

  /** `str(id)` loses nothing: reading the text back gives the id. */
  lemma DecimalStringRoundTrip(n: int)
    ensures ReadDecimal(DecimalString(n)) == n
  {
    var m: nat := if n < 0 then -n else n;
    var d := Digits(m);
    DigitsRoundTrip(m);
    if n < 0 {
      assert DecimalString(n) == "-" + d;
      ReadNegative(d, m);
    } else {
      assert DecimalString(n) == d;
      ReadDigits(d, m);
    }
  }

  /** Distinct ids give distinct texts, so distinct categories are fetched
      under distinct keys. */
  lemma DecimalStringInjective(a: int, b: int)
    ensures DecimalString(a) == DecimalString(b) <==> a == b
  {
    DecimalStringRoundTrip(a);
    DecimalStringRoundTrip(b);
  }
}
