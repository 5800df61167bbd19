/** How a non-negative integer JavaScript number below 2^53, and so every
    32-bit id, is turned into text inside a template literal (`${id}`): its
    decimal numeral, without sign and without leading zeros. Larger numbers
    print in other forms (rounded digits, exponent notation), which this
    module does not describe. A parser for such numerals is the partner that
    shows the rendering loses nothing. */
module NumberText {
  import opened Wrappers

  predicate IsDigit(c: char) {
    '0' <= c <= '9'
  }

  predicate AllDigits(s: string) {
    forall i :: 0 <= i < |s| ==> IsDigit(s[i])
  }

  function DigitChar(d: nat): (c: char)
    requires d < 10
    ensures IsDigit(c)
  {
    ('0' as int + d) as char
  }

  function DigitValue(c: char): (d: nat)
    requires IsDigit(c)
    ensures d < 10
  {
    c as int - '0' as int
  }

  /** A numeral in the form JavaScript prints: at least one digit, and a
      leading zero only in "0" itself. */
  predicate Canonical(s: string) {
    |s| >= 1 && AllDigits(s) && (s[0] == '0' ==> |s| == 1)
  }

  /** The decimal numeral of `n`, as String(n) gives it for an integer n below 2^53. */
  function Decimal(n: nat): (s: string)
    ensures |s| >= 1 && AllDigits(s)
    ensures s[0] == '0' ==> n == 0
    decreases n
  {
    if n < 10 then [DigitChar(n)] else Decimal(n / 10) + [DigitChar(n % 10)]
  }

  /** The value a string of digits denotes, read most significant digit first. */
  function ValueOf(s: string): (v: nat)
    requires AllDigits(s)
    decreases |s|
  {
    if s == [] then 0 else ValueOf(s[..|s| - 1]) * 10 + DigitValue(s[|s| - 1])
  }

  /** Reads back a numeral that Decimal could have produced; anything else is None. */
  function ParseDecimal(s: string): (r: Option<nat>) {
    if Canonical(s) then Some(ValueOf(s)) else None
  }

  lemma {:induction false} DecimalCanonicalValue(n: nat)
    ensures Canonical(Decimal(n)) && ValueOf(Decimal(n)) == n
    decreases n
  {
    if n >= 10 {
      DecimalCanonicalValue(n / 10);
      var s := Decimal(n);
      assert s[..|s| - 1] == Decimal(n / 10);
      assert DigitValue(DigitChar(n % 10)) == n % 10;
    } else {
      assert DigitValue(DigitChar(n)) == n;
      assert Decimal(n)[..0] == [];
    }
  }

  /** Parsing the printed numeral gives the number back. */
  lemma DecimalRoundTrip(n: nat)
    ensures ParseDecimal(Decimal(n)) == Some(n)
  {
    DecimalCanonicalValue(n);
  }

  lemma {:induction false} LeadingNonzeroIsPositive(s: string)
    requires |s| >= 1 && AllDigits(s) && s[0] != '0'
    ensures ValueOf(s) >= 1
    decreases |s|
  {
    if |s| > 1 {
      LeadingNonzeroIsPositive(s[..|s| - 1]);
    } else {
      assert s[..0] == [];
    }
  }

  /** Every canonical numeral is the printed form of the number it denotes. */
  lemma {:induction false} ParseRoundTrip(s: string)
    requires Canonical(s)
    ensures Decimal(ValueOf(s)) == s
    decreases |s|
  {
    var p := s[..|s| - 1];
    var v := DigitValue(s[|s| - 1]);
    if |s| == 1 {
      assert p == [];
      assert DigitChar(v) == s[0];
    } else {
      assert p[0] == s[0];
      LeadingNonzeroIsPositive(p);
      ParseRoundTrip(p);
      assert ValueOf(s) / 10 == ValueOf(p) && ValueOf(s) % 10 == v;
      assert DigitChar(v) == s[|s| - 1];
      assert p + [s[|s| - 1]] == s;
    }
  }

  /** ParseDecimal and Decimal are inverse: a string parses to n exactly when it is n's numeral. */
  lemma ParseDecimalIff(s: string, n: nat)
    ensures ParseDecimal(s) == Some(n) <==> s == Decimal(n)
  {
    DecimalRoundTrip(n);
    if ParseDecimal(s) == Some(n) {
      ParseRoundTrip(s);
    }
  }

  /** Different numbers print differently. */
  lemma DecimalInjective(m: nat, n: nat)
    requires m != n
    ensures Decimal(m) != Decimal(n)
  {
    DecimalRoundTrip(m);
    DecimalRoundTrip(n);
  }
}
