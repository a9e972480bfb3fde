/** The product page path that product cards link to: `/product/` followed by
    the product id written in decimal, as a template literal renders a number. */
module Routes {

  const ProductPrefix: string := "/product/"

  predicate IsDigit(c: char) {
    '0' <= c <= '9'
  }

  function DigitChar(d: nat): (c: char)
    requires d < 10
    ensures IsDigit(c) && (c as int) - ('0' as int) == d
  {
    ('0' as int + d) as char
  }

  function DigitValue(c: char): (d: nat)
    requires IsDigit(c)
    ensures d < 10
  {
    (c as int) - ('0' as int)
  }

  /** The decimal rendering of `n`, without leading zeros. */
  function Decimal(n: nat): (s: string)
    ensures |s| >= 1
    ensures forall i :: 0 <= i < |s| ==> IsDigit(s[i])
    ensures |s| > 1 ==> s[0] != '0'
  {
    if n < 10 then [DigitChar(n)] else Decimal(n / 10) + [DigitChar(n % 10)]
  }

  /** The number a string of decimal digits denotes. */
  function DecimalValue(s: string): nat
    requires forall i :: 0 <= i < |s| ==> IsDigit(s[i])
  {
    if s == [] then 0
    else
      assert IsDigit(s[|s| - 1]);
      DecimalValue(s[..|s| - 1]) * 10 + DigitValue(s[|s| - 1])
  }

  /** Reading the rendered digits back gives the number again. */
  lemma {:induction false} DecimalRoundTrip(n: nat)
    ensures DecimalValue(Decimal(n)) == n
  {
    if n >= 10 {
      DecimalRoundTrip(n / 10);
      var s := Decimal(n);
      assert s[..|s| - 1] == Decimal(n / 10);
    }
  }

  /** `/product/${id}` */
  function ProductPath(id: nat): (path: string)
    ensures |path| > |ProductPrefix| && path[..|ProductPrefix|] == ProductPrefix
    ensures forall i :: |ProductPrefix| <= i < |path| ==> IsDigit(path[i])
  {
    ProductPrefix + Decimal(id)
  }

  /** The part after `/product/` denotes the product id again, so distinct
      ids give distinct paths. */
  lemma ProductPathNamesId(id: nat)
    ensures forall i :: |ProductPrefix| <= i < |ProductPath(id)| ==> IsDigit(ProductPath(id)[i])
    ensures DecimalValue(ProductPath(id)[|ProductPrefix|..]) == id
  {
    assert ProductPath(id)[|ProductPrefix|..] == Decimal(id);
    DecimalRoundTrip(id);
  }

  lemma ProductPathInjective(a: nat, b: nat)
    requires ProductPath(a) == ProductPath(b)
    ensures a == b
  {
    ProductPathNamesId(a);
    ProductPathNamesId(b);
  }
}
