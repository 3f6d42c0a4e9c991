/**
 * Resource paths of the persons API: the `Location` header that a create
 * sets, `/persons/{id}`, and the way a path of that shape is read back into
 * an id (the router matching `/persons/{person_id}`, or a client taking the
 * last path segment and parsing it as an integer).
 */
module Paths {
  import opened Optional

  /** The collection prefix of every person resource. */
  const PersonsPrefix: string := "/persons/"

  predicate IsDigit(c: char) {
    '0' <= c <= '9'
  }

  predicate AllDigits(s: string) {
    forall i :: 0 <= i < |s| ==> IsDigit(s[i])
  }

  function DigitValue(c: char): nat
    requires IsDigit(c)
  {
    c as int - '0' as int
  }

  function DigitChar(d: nat): (c: char)
    requires d < 10
    ensures IsDigit(c) && DigitValue(c) == d
  {
    ('0' as int + d) as char
  }

  /** Decimal rendering of a non-negative integer, as Python's `str(int)`:
      no sign, no leading zeros, at least one digit. */
  function Decimal(n: nat): (s: string)
    ensures 1 <= |s| && AllDigits(s)
    ensures |s| > 1 ==> s[0] != '0'
    decreases n
  {
    if n < 10 then [DigitChar(n)] else Decimal(n / 10) + [DigitChar(n % 10)]
  }

  /** The value of a string of decimal digits, most significant first. */
  function DigitsValue(s: string): nat
    requires AllDigits(s)
  {
    if s == [] then 0 else DigitsValue(s[..|s| - 1]) * 10 + DigitValue(s[|s| - 1])
  }

  /** Parses a non-empty run of decimal digits; anything else is not an id. */
  function ParseDecimal(s: string): Option<nat> {
    if 1 <= |s| && AllDigits(s) then Some(DigitsValue(s)) else None
  }

  /** The `Location` header of a freshly created person: `/persons/{id}`. */
  function Location(id: nat): (loc: string)
    ensures |loc| > |PersonsPrefix| && loc[..|PersonsPrefix|] == PersonsPrefix
    ensures AllDigits(loc[|PersonsPrefix|..])
  {
    PersonsPrefix + Decimal(id)
  }

  /** The id named by a path `/persons/{id}`, or None for any other path. */
  function PathId(path: string): (r: Option<nat>)
    ensures r.Some? ==> |path| > |PersonsPrefix| && path[..|PersonsPrefix|] == PersonsPrefix
    ensures r.Some? ==> AllDigits(path[|PersonsPrefix|..])
  {
    if |PersonsPrefix| <= |path| && path[..|PersonsPrefix|] == PersonsPrefix
    then ParseDecimal(path[|PersonsPrefix|..])
    else None
  }

  /** Reading the digits back gives the number that was rendered. */
  lemma {:induction false} DecimalRoundTrip(n: nat)
    ensures DigitsValue(Decimal(n)) == n
    decreases n
  {
    var s := Decimal(n);
    if n >= 10 {
      DecimalRoundTrip(n / 10);
      assert s[..|s| - 1] == Decimal(n / 10);
    }
  }

  /** Following the `Location` of a create leads back to the created id. */
  lemma LocationRoundTrip(id: nat)
    ensures PathId(Location(id)) == Some(id)
  {
    var loc := Location(id);
    assert loc[|PersonsPrefix|..] == Decimal(id);
    DecimalRoundTrip(id);
  }

  /** A digit string without a superfluous leading zero is its value's rendering. */
  lemma {:induction false} CanonicalDigits(s: string)
    requires 1 <= |s| && AllDigits(s)
    requires |s| > 1 ==> s[0] != '0'
    ensures Decimal(DigitsValue(s)) == s
    decreases |s|
  {
    var last := s[|s| - 1];
    assert DigitChar(DigitValue(last)) == last;
    if |s| > 1 {
      var t := s[..|s| - 1];
      var d := DigitValue(last);
      var v := DigitsValue(t) * 10 + d;
      assert DigitsValue(s) == v;
      DigitsPositive(t);
      assert v / 10 == DigitsValue(t) && v % 10 == d;
      assert Decimal(v) == Decimal(DigitsValue(t)) + [DigitChar(d)];
      CanonicalDigits(t);
      assert s == t + [last];
    }
  }

  lemma {:induction false} DigitsPositive(t: string)
    requires 1 <= |t| && AllDigits(t) && t[0] != '0'
    ensures DigitsValue(t) >= 1
    decreases |t|
  {
    if |t| > 1 {
      DigitsPositive(t[..|t| - 1]);
    }
  }

  /** Every path that names an id without a leading zero is exactly the
      Location of that id. */
  lemma PathIdCanonical(path: string)
    requires PathId(path).Some?
    requires |path| > |PersonsPrefix| + 1 ==> path[|PersonsPrefix|] != '0'
    ensures Location(PathId(path).value) == path
  {
    var digits := path[|PersonsPrefix|..];
    CanonicalDigits(digits);
    assert path == PersonsPrefix + digits;
  }

  /** Distinct ids have distinct locations. */
  lemma LocationInjective(a: nat, b: nat)
    requires Location(a) == Location(b)
    ensures a == b
  {
    LocationRoundTrip(a);
    LocationRoundTrip(b);
  }
}
