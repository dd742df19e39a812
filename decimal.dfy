/** A decimal-number reader standing in for Python's `float(str)`: an optional sign, digits,
    and at most one decimal point, with at least one digit in all ("12", "-3.5", ".5", "7."). */
module Decimal {
  import opened Results
  import opened Text

  /** The value of a string of decimal digits, most significant first ("" reads as 0). */
  function DigitsValue(s: string): nat
    requires AllDigits(s)
    decreases |s|
  {
    if s == [] then 0 else DigitsValue(s[..|s| - 1]) * 10 + DigitValue(s[|s| - 1])
  }

  function Pow10(k: nat): (p: nat)
    ensures p >= 1
  {
    if k == 0 then 1 else 10 * Pow10(k - 1)
  }

  /** Digits with an optional single decimal point and no sign. */
  function ParseUnsigned(s: string): (r: Option<real>)
    ensures r.Some? ==> r.value >= 0.0
  {
    match Find(s, ".")
    case None =>
      if s != [] && AllDigits(s) then Some(DigitsValue(s) as real) else None
    case Some(i) =>
      var whole, frac := s[..i], s[i + 1..];
      if AllDigits(whole) && AllDigits(frac) && |whole| + |frac| > 0
      then Some(PointedValue(whole, frac))
      else None
  }

  /** The value of "whole.frac". */
  function PointedValue(whole: string, frac: string): real
    requires AllDigits(whole) && AllDigits(frac)
  {
    DigitsValue(whole) as real + DigitsValue(frac) as real / Pow10(|frac|) as real
  }

  /** `float(s)` on the decimal forms above; `None` where Python's `float` raises `ValueError`. */
  function ParseDecimal(s: string): (r: Option<real>)
    ensures s == [] ==> r == None
  {
    if |s| > 0 && s[0] == '-' then
      match ParseUnsigned(s[1..])
      case None => None
      case Some(x) => Some(-x)
    else if |s| > 0 && s[0] == '+' then ParseUnsigned(s[1..])
    else ParseUnsigned(s)
  }

  lemma NoPointInDigits(s: string)
    requires AllDigits(s)
    ensures Find(s, ".") == None
  {
    forall j: nat | j <= |s| ensures !OccursAt(s, ".", j) {
      if j + 1 <= |s| {
        assert s[j..j + 1][0] == s[j];
      }
    }
  }

  lemma {:induction false} DigitsOfNat(n: nat)
    ensures DigitsValue(NatToString(n)) == n
    decreases n
  {
    if n >= 10 {
      DigitsOfNat(n / 10);
      var s := NatToString(n);
      assert s[..|s| - 1] == NatToString(n / 10);
    }
  }

  /** Reading back `str(n)` gives `n`. */
  lemma ParseNat(n: nat)
    ensures ParseDecimal(NatToString(n)) == Some(n as real)
  {
    NoPointInDigits(NatToString(n));
    DigitsOfNat(n);
  }

  /** Reading back `str(i)` gives `i`, negative numbers included. */
  lemma ParseInt(i: int)
    ensures ParseDecimal(IntToString(i)) == Some(i as real)
  {
    if i < 0 {
      var s := IntToString(i);
      assert s[1..] == NatToString(-i);
      NoPointInDigits(NatToString(-i));
      DigitsOfNat(-i);
    } else {
      ParseNat(i);
    }
  }

  lemma FindPoint(whole: string, frac: string)
    requires AllDigits(whole)
    ensures Find(whole + "." + frac, ".") == Some(|whole|)
  {
    var s := whole + "." + frac;
    assert OccursAt(s, ".", |whole|) by { assert s[|whole|..|whole| + 1] == "."; }
    forall j: nat | j < |whole| ensures !OccursAt(s, ".", j) {
      assert s[j] == whole[j];
    }
  }

  /** Digits, a point and digits read as the whole part plus the scaled fraction. */
  lemma ParsePointed(whole: string, frac: string)
    requires AllDigits(whole) && AllDigits(frac) && |whole| + |frac| > 0
    ensures ParseDecimal(whole + "." + frac) == Some(PointedValue(whole, frac))
  {
    var s := whole + "." + frac;
    FindPoint(whole, frac);
    assert s[..|whole|] == whole;
    assert s[|whole| + 1..] == frac;
    assert s[0] != '-' && s[0] != '+' by {
      if |whole| > 0 { assert s[0] == whole[0]; } else { assert s[0] == '.'; }
    }
    Unsigned(s);
  }

  lemma Unsigned(s: string)
    requires s == [] || (s[0] != '-' && s[0] != '+')
    ensures ParseDecimal(s) == ParseUnsigned(s)
  {
  }

  /** A character that can open or close readable decimal text. */
  predicate NumberEdge(c: char) { IsDigit(c) || c == '.' || c == '-' || c == '+' }

  /** Readable text starts and ends with a digit, a point or (at the start) a sign, so a
      letter or '%' at either end is never part of a number. */
  lemma DecimalEdges(s: string)
    requires ParseDecimal(s).Some?
    ensures s != [] && NumberEdge(s[0]) && NumberEdge(s[|s| - 1])
  {
    if |s| > 0 && (s[0] == '-' || s[0] == '+') {
      UnsignedEdges(s[1..]);
      assert s[|s| - 1] == s[1..][|s[1..]| - 1];
    } else {
      UnsignedEdges(s);
    }
  }

  lemma UnsignedEdges(u: string)
    requires ParseUnsigned(u).Some?
    ensures u != [] && NumberEdge(u[0]) && NumberEdge(u[|u| - 1])
  {
    match Find(u, ".")
    case None =>
    case Some(i) =>
      assert u[i..i + 1] == ".";
      assert u[i] == '.' by { assert u[i..i + 1][0] == u[i]; }
      var whole, frac := u[..i], u[i + 1..];
      if i > 0 { assert u[0] == whole[0]; }
      if frac != [] { assert u[|u| - 1] == frac[|frac| - 1]; }
  }

  /** A thousands separator makes the text unreadable, which is why volumes drop commas first. */
  lemma CommaRejected(s: string)
    requires ',' in s
    ensures ParseDecimal(s) == None
  {
    var k :| 0 <= k < |s| && s[k] == ',';
    var body := if |s| > 0 && (s[0] == '-' || s[0] == '+') then s[1..] else s;
    assert ',' in body by {
      if body != s { assert k > 0 && body[k - 1] == ','; }
    }
    var j :| 0 <= j < |body| && body[j] == ',';
    match Find(body, ".")
    case None =>
    case Some(i) =>
      if j < i { assert body[..i][j] == ','; } else { assert j > i && body[i + 1..][j - i - 1] == ','; }
  }
}
