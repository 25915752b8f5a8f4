/**
 * PHP's `(string)` cast on the scalar values a header may be given, and
 * PHP's truthiness test on a nullable string.
 */
module Coercion {
  import opened Wrappers

  /** The scalar values `add` accepts; floats and objects are not modelled. */
  datatype Scalar = Null | Bool(b: bool) | Int(i: int) | Str(s: string)

  predicate IsDigit(c: char) { '0' <= c <= '9' }

  function DigitChar(d: nat): (c: char)
    requires d < 10
    ensures IsDigit(c) && c as int - '0' as int == d
  {
    ('0' as int + d) as char
  }

  function DigitValue(c: char): (d: nat)
    requires IsDigit(c)
    ensures d < 10 && DigitChar(d) == c
  {
    c as int - '0' as int
  }

  /** Decimal digits of `n`, most significant first, without leading zeros. */
  function NatText(n: nat): (r: string)
    ensures |r| > 0
    ensures forall k :: 0 <= k < |r| ==> IsDigit(r[k])
    ensures r[0] == '0' ==> n == 0
    decreases n
  {
    if n < 10 then [DigitChar(n)] else NatText(n / 10) + [DigitChar(n % 10)]
  }

  /** The decimal value of a run of digits (the reading side of `NatText`). */
  function ParseNat(s: string): (n: nat)
    requires forall k :: 0 <= k < |s| ==> IsDigit(s[k])
  {
    if s == [] then 0 else ParseNat(s[..|s| - 1]) * 10 + DigitValue(s[|s| - 1])
  }

  /**
   * `(string)$i` for an integer: decimal, with a leading `-` exactly when
   * negative, no leading zero, and never `-0`.
   */
  function IntText(i: int): (r: string)
    ensures |r| > 0
    ensures r[0] == '-' <==> i < 0
    ensures r[0] == '0' ==> r == "0"
    ensures r[0] == '-' ==> |r| > 1 && r[1] != '0'
  {
    if i < 0 then
      var t := NatText(-i);
      assert ("-" + t)[1] == t[0];
      "-" + t
    else
      var t := NatText(i);
      assert t[0] != '-' by { assert IsDigit(t[0]); }
      assert i == 0 ==> t == "0";
      t
  }

  /** Reads back what `IntText` writes. */
  function ParseInt(s: string): Option<int>
  {
    if |s| > 0 && s[0] == '-' then
      if |s| > 1 && forall k :: 1 <= k < |s| ==> IsDigit(s[k]) then Some(0 - ParseNat(s[1..]) as int) else None
    else if |s| > 0 && forall k :: 0 <= k < |s| ==> IsDigit(s[k]) then Some(ParseNat(s))
    else None
  }

  lemma {:induction false} NatTextRoundTrip(n: nat)
    ensures ParseNat(NatText(n)) == n
    decreases n
  {
    if n >= 10 {
      var r := NatText(n);
      NatTextRoundTrip(n / 10);
      assert r[..|r| - 1] == NatText(n / 10);
    }
  }

  /** Writing an integer as text and reading it back gives the same integer. */
  lemma {:induction false} IntTextRoundTrip(i: int)
    ensures ParseInt(IntText(i)) == Some(i)
  {
    if i < 0 {
      var t := NatText(-i);
      var s := "-" + t;
      assert s[1..] == t;
      assert forall k :: 1 <= k < |s| ==> IsDigit(s[k]) by {
        forall k | 1 <= k < |s| ensures IsDigit(s[k]) {
          assert s[k] == t[k - 1];
        }
      }
      NatTextRoundTrip(-i);
      assert ParseInt(s) == Some(0 - ParseNat(t) as int);
    } else {
      var t := NatText(i);
      assert IsDigit(t[0]);
      NatTextRoundTrip(i);
    }
  }

  /**
   * PHP's `(string)` cast: null is "", true is "1", false is "", and an
   * integer is its canonical decimal text (no leading zero, no `-0`).
   */
  function ToText(v: Scalar): (r: string)
    ensures v.Str? ==> r == v.s
    ensures v.Null? ==> r == ""
    ensures v.Bool? ==> r == (if v.b then "1" else "")
    ensures v.Int? ==> ParseInt(r) == Some(v.i)
    ensures v.Int? ==> |r| > 0 && (r[0] == '0' ==> r == "0") && (r[0] == '-' ==> v.i < 0 && |r| > 1 && r[1] != '0')
  {
    match v
    case Null => ""
    case Bool(b) => if b then "1" else ""
    case Int(i) => IntTextRoundTrip(i); IntText(i)
    case Str(s) => s
  }

  /** PHP truthiness of a `?string`: null, "" and "0" are false, every other string is true. */
  predicate Truthy(o: Option<string>)
  {
    o.Some? && o.value != "" && o.value != "0"
  }
}
