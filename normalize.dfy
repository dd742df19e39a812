/** The scalar converters of finviz_utils/finviz_utils.py: each turns one raw screener cell into
    a typed value. An `Err` result is the exception the Python function lets escape. */
module Normalize {
  import opened Results
  import opened Text
  import opened Decimal
  import opened Cells

  /** Scale the number left after stripping `suffix` from both ends (`float(value.strip(suffix)) * factor`). */
  function Scaled(s: string, suffix: char, factor: real): (r: Result<Cell>)
    ensures r.Ok? ==> r.value.Num?
  {
    match ParseDecimal(Strip(s, suffix))
    case None => Err("ValueError: could not convert string to float")
    case Some(x) => Ok(Num(x * factor))
  }

  predicate EndsWith(s: string, c: char) { |s| > 0 && s[|s| - 1] == c }

  /** `_process_money_value`: suffixes B, M and K (tested in that order) scale by 1e9, 1e6 and 1e3,
      "-" is 0.0, floats pass through, ints become floats, any other string is returned as it is. */
  function MoneyValue(c: Cell): (r: Result<Cell>)
    ensures r.Ok? ==> r.value.IsFloat() || r.value == c
    ensures r.Err? ==> c.Null? || c.Str?
    ensures c.Num? || c.Missing? ==> r == Ok(c)
    ensures c.Int? ==> r == Ok(Num(c.i as real))
    ensures c.Null? ==> r.Err?
    ensures c == Str("-") ==> r == Ok(Num(0.0))
    ensures c.Str? && !EndsWith(c.s, 'B') && !EndsWith(c.s, 'M') && !EndsWith(c.s, 'K') && c.s != "-" ==> r == Ok(c)
    ensures c.Str? && EndsWith(c.s, 'B') ==>
      (r.Err? <==> ParseDecimal(Strip(c.s, 'B')).None?) && (r.Ok? ==> r.value.Num?)
    ensures c.Str? && !EndsWith(c.s, 'B') && EndsWith(c.s, 'M') ==>
      (r.Err? <==> ParseDecimal(Strip(c.s, 'M')).None?) && (r.Ok? ==> r.value.Num?)
    ensures c.Str? && !EndsWith(c.s, 'B') && !EndsWith(c.s, 'M') && EndsWith(c.s, 'K') ==>
      (r.Err? <==> ParseDecimal(Strip(c.s, 'K')).None?) && (r.Ok? ==> r.value.Num?)
  {
    match c
    case Num(_) => Ok(c)
    case Missing => Ok(c)
    case Int(i) => Ok(Num(i as real))
    case Null => Err("AttributeError: 'NoneType' object has no attribute 'endswith'")
    case Str(s) =>
      if EndsWith(s, 'B') then Scaled(s, 'B', 1000000000.0)
      else if EndsWith(s, 'M') then Scaled(s, 'M', 1000000.0)
      else if EndsWith(s, 'K') then Scaled(s, 'K', 1000.0)
      else if s == "-" then Ok(Num(0.0))
      else Ok(c)
  }

  /** Applying the money conversion to its own output changes nothing. */
  lemma MoneyValueIdempotent(c: Cell)
    requires MoneyValue(c).Ok?
    ensures MoneyValue(MoneyValue(c).value) == MoneyValue(c)
  {
  }

  /** A whole number of billions, millions or thousands reads as that many units. */
  lemma MoneyOfNat(n: nat)
    ensures MoneyValue(Str(NatToString(n) + "B")) == Ok(Num(n as real * 1000000000.0))
    ensures MoneyValue(Str(NatToString(n) + "M")) == Ok(Num(n as real * 1000000.0))
    ensures MoneyValue(Str(NatToString(n) + "K")) == Ok(Num(n as real * 1000.0))
  {
    var d := NatToString(n);
    StripDigitsSuffix(d, 'B');
    StripDigitsSuffix(d, 'M');
    StripDigitsSuffix(d, 'K');
    ParseNat(n);
  }

  lemma StripDigitsSuffix(d: string, c: char)
    requires |d| > 0 && AllDigits(d) && !IsDigit(c)
    ensures Strip(d + [c], c) == d
  {
    assert (d + [c])[..|d|] == d;
  }

  /** Any readable number followed by B, M or K reads as that many billions, millions or
      thousands. */
  lemma MoneyOfDecimal(s: string, x: real)
    requires ParseDecimal(s) == Some(x)
    ensures MoneyValue(Str(s + "B")) == Ok(Num(x * 1000000000.0))
    ensures MoneyValue(Str(s + "M")) == Ok(Num(x * 1000000.0))
    ensures MoneyValue(Str(s + "K")) == Ok(Num(x * 1000.0))
  {
    DecimalEdges(s);
    StripNumberSuffix(s, 'B');
    StripNumberSuffix(s, 'M');
    StripNumberSuffix(s, 'K');
  }

  /** Stripping a character that cannot end a number removes exactly the one appended. */
  lemma StripNumberSuffix(s: string, c: char)
    requires s != [] && NumberEdge(s[0]) && NumberEdge(s[|s| - 1]) && !NumberEdge(c)
    ensures Strip(s + [c], c) == s
    ensures (s + [c])[|s + [c]| - 1] == c
  {
    assert (s + [c])[..|s|] == s;
  }

  /** The screener's "1.5B" is 1.5 billion. (Examples take their text as a parameter so that the
      verifier reasons with the lemmas instead of evaluating the parser symbol by symbol.) */
  lemma MoneyBillionsExample(s: string)
    requires s == "1.5B"
    ensures MoneyValue(Str(s)) == Ok(Num(1500000000.0))
  {
    assert s[..3] == "1.5";
    assert Strip(s, 'B') == "1.5";
    assert "1.5" == "1" + "." + "5";
    ParsePointed("1", "5");
  }

  /** "-" is 0.0 and unrecognised text is returned as it is ("250M" is an instance of `MoneyOfNat`). */
  lemma MoneyExamples()
    ensures MoneyValue(Str("-")) == Ok(Num(0.0))
    ensures MoneyValue(Str("n/a")) == Ok(Str("n/a"))
  {
  }

  /** `format_percent`: strip '%' from both ends and read the number (unreadable text, "-" among it,
      reads as 0.0); ints and floats convert directly; the result is divided by 100. Any other
      type raises. */
  function FormatPercent(c: Cell): (r: Result<Cell>)
    ensures r.Err? <==> c.Null?
    ensures r.Ok? ==> r.value.IsFloat()
    ensures r.Ok? && r.value.Missing? <==> c.Missing?
    ensures c.Num? ==> r == Ok(Num(c.x / 100.0))
    ensures c.Int? ==> r == Ok(Num(c.i as real / 100.0))
  {
    match c
    case Str(s) =>
      var x := match ParseDecimal(Strip(s, '%')) case Some(v) => v case None => 0.0;
      Ok(Num(x / 100.0))
    case Int(i) => Ok(Num(i as real / 100.0))
    case Num(x) => Ok(Num(x / 100.0))
    case Missing => Ok(Missing)
    case Null => Err("Exception: WARNING: Receiving weird type on percentaje")
  }

  /** A number written with a trailing '%' is read as that fraction; the bare number reads the same. */
  lemma PercentOfInt(i: int)
    ensures FormatPercent(Str(IntToString(i) + "%")) == Ok(Num(i as real / 100.0))
    ensures FormatPercent(Str(IntToString(i))) == Ok(Num(i as real / 100.0))
    ensures FormatPercent(Int(i)) == Ok(Num(i as real / 100.0))
  {
    var d := IntToString(i);
    assert (d + "%")[..|d|] == d;
    assert Strip(d + "%", '%') == d by {
      if d[0] == '%' { assert false; }
    }
    ParseInt(i);
  }

  /** Readable text, with or without a trailing '%', is read as that number divided by 100. */
  lemma PercentOfDecimal(s: string, x: real)
    requires ParseDecimal(s) == Some(x)
    ensures FormatPercent(Str(s + "%")) == Ok(Num(x / 100.0))
    ensures FormatPercent(Str(s)) == Ok(Num(x / 100.0))
  {
    DecimalEdges(s);
    StripNumberSuffix(s, '%');
    assert Strip(s, '%') == s;
  }

  /** Text that does not read as a number, "-" included, becomes 0. */
  lemma PercentUnreadable(s: string)
    requires ParseDecimal(Strip(s, '%')) == None
    ensures FormatPercent(Str(s)) == Ok(Num(0.0))
  {
  }

  /** "12.5%" is 0.125, the integer 5 is 0.05 and "-" is 0.0. */
  lemma PercentExamples(s: string)
    requires s == "12.5%"
    ensures FormatPercent(Str(s)) == Ok(Num(0.125))
    ensures FormatPercent(Int(5)) == Ok(Num(0.05))
    ensures FormatPercent(Str("-")) == Ok(Num(0.0))
  {
    assert s[..4] == "12.5";
    assert Strip(s, '%') == "12.5";
    assert "12.5" == "12" + "." + "5";
    ParsePointed("12", "5");
  }

  const RangeSep: string := " - "

  /** One side of a "LOW - HIGH" range: "-" is 0.0, anything else must read as a number. */
  function RangeSide(part: string): (r: Result<Cell>)
    ensures r.Ok? ==> r.value.Num?
    ensures part == "-" ==> r == Ok(Num(0.0))
  {
    if part == "-" then Ok(Num(0.0))
    else match ParseDecimal(part)
      case None => Err("ValueError: could not convert string to float")
      case Some(x) => Ok(Num(x))
  }

  /** `_process_52_low`: part 0 of the split on " - ". Non-text values have no `split` and raise. */
  function Low52(c: Cell): (r: Result<Cell>)
    ensures r.Ok? ==> c.Str? && r.value.Num?
  {
    match c
    case Str(s) => RangeSide(SplitOn(s, RangeSep)[0])
    case _ => Err("AttributeError: object has no attribute 'split'")
  }

  /** `_process_52_high`: part 1 of the split on " - "; text without the separator raises `IndexError`. */
  function High52(c: Cell): (r: Result<Cell>)
    ensures r.Ok? ==> c.Str? && r.value.Num?
  {
    match c
    case Str(s) =>
      var parts := SplitOn(s, RangeSep);
      if |parts| < 2 then Err("IndexError: list index out of range") else RangeSide(parts[1])
    case _ => Err("AttributeError: object has no attribute 'split'")
  }

  /** Text that does not contain the separator's first character splits around one separator. */
  lemma {:induction false} SplitPair(a: string, b: string, sep: string)
    requires |sep| > 0 && sep[0] !in a && sep[0] !in b
    ensures SplitOn(a + sep + b, sep) == [a, b]
  {
    var s := a + sep + b;
    assert OccursAt(s, sep, |a|) by { assert s[|a|..|a| + |sep|] == sep; }
    forall j: nat | j < |a| ensures !OccursAt(s, sep, j) {
      assert s[j] == a[j];
    }
    assert Find(s, sep) == Some(|a|);
    assert s[..|a|] == a;
    assert s[|a| + |sep|..] == b;
    forall j: nat | j <= |b| ensures !OccursAt(b, sep, j) {
      assert j < |b| ==> b[j] != sep[0];
    }
    assert Find(b, sep) == None;
  }

  /** "LOW - HIGH": Low is the part before the separator and High the part after, each "-" being 0.0. */
  lemma RangeParts(low: string, high: string)
    requires ' ' !in low && ' ' !in high
    ensures Low52(Str(low + RangeSep + high)) == RangeSide(low)
    ensures High52(Str(low + RangeSep + high)) == RangeSide(high)
  {
    SplitPair(low, high, RangeSep);
  }

  /** A side written "whole.frac" reads as that number. */
  lemma RangeSidePointed(part: string, whole: string, frac: string)
    requires AllDigits(whole) && AllDigits(frac) && |whole| + |frac| > 0
    requires part == whole + "." + frac
    ensures RangeSide(part) == Ok(Num(PointedValue(whole, frac)))
  {
    ParsePointed(whole, frac);
    assert part != "-" by { assert part[|whole|] == '.'; }
  }

  /** "10.5 - 20.25" is Low 10.5 and High 20.25. */
  lemma RangeExample(s: string, low: string, high: string)
    requires low == "10.5" && high == "20.25" && s == low + RangeSep + high
    ensures Low52(Str(s)) == Ok(Num(10.5))
    ensures High52(Str(s)) == Ok(Num(20.25))
  {
    RangeParts(low, high);
    ReadTenPointFive(low);
    ReadTwentyPointTwentyFive(high);
  }

  /** "- - 20.25" is Low 0.0 and High 20.25. */
  lemma RangeDashExample(s: string, high: string)
    requires high == "20.25" && s == "-" + RangeSep + high
    ensures Low52(Str(s)) == Ok(Num(0.0))
    ensures High52(Str(s)) == Ok(Num(20.25))
  {
    RangeParts("-", high);
    ReadTwentyPointTwentyFive(high);
  }

  lemma ReadTenPointFive(part: string)
    requires part == "10.5"
    ensures RangeSide(part) == Ok(Num(10.5))
  {
    RangeSidePointed(part, "10", "5");
    assert DigitsValue("10") == 10 && DigitsValue("5") == 5 && Pow10(1) == 10;
  }

  lemma ReadTwentyPointTwentyFive(part: string)
    requires part == "20.25"
    ensures RangeSide(part) == Ok(Num(20.25))
  {
    RangeSidePointed(part, "20", "25");
    assert DigitsValue("20") == 20 && DigitsValue("25") == 25 && Pow10(2) == 100;
  }

  /** `process_volume`: text loses every comma and is read as a number; every other value is
      returned unchanged. */
  function Volume(c: Cell): (r: Result<Cell>)
    ensures r.Ok? ==> r.value.Num? || (!c.Str? && r.value == c)
    ensures r.Err? ==> c.Str?
    ensures !c.Str? ==> r == Ok(c)
  {
    match c
    case Str(s) =>
      (match ParseDecimal(Remove(s, ','))
       case None => Err("ValueError: could not convert string to float")
       case Some(x) => Ok(Num(x)))
    case _ => Ok(c)
  }

  /** Thousands separators do not change a volume, and text still holding one could not be read. */
  lemma VolumeIgnoresCommas(s: string)
    ensures Volume(Str(s)) == Volume(Str(Remove(s, ',')))
    ensures ',' in s ==> ParseDecimal(s) == None
  {
    RemoveTwice(s, ',');
    if ',' in s { CommaRejected(s); }
  }

  /** A volume is the number its text reads as once the commas are gone, and raises exactly
      when that text is not a number. */
  lemma VolumeOfDecimal(s: string)
    ensures Volume(Str(s)).Err? <==> ParseDecimal(Remove(s, ',')).None?
    ensures ParseDecimal(Remove(s, ',')).Some? ==> Volume(Str(s)) == Ok(Num(ParseDecimal(Remove(s, ',')).value))
  {
  }

  /** Three comma-separated groups read as the number their digits spell. */
  lemma VolumeOfGroups(a: string, b: string, c: string, x: real)
    requires ',' !in a && ',' !in b && ',' !in c
    requires ParseDecimal(a + b + c) == Some(x)
    ensures Volume(Str(a + [','] + b + [','] + c)) == Ok(Num(x))
  {
    GroupsJoined(a, b, c);
  }

  lemma RemoveTwice(s: string, c: char)
    ensures Remove(Remove(s, c), c) == Remove(s, c)
  {
    RemoveAbsent(Remove(s, c), c);
  }

  /** "1,234,567" is 1234567.0. */
  lemma VolumeExample(s: string)
    requires s == "1,234,567"
    ensures Volume(Str(s)) == Ok(Num(1234567.0))
  {
    CommasDropped(s);
    ReadSevenDigits(Remove(s, ','));
  }

  lemma CommasDropped(s: string)
    requires s == "1,234,567"
    ensures Remove(s, ',') == "1234567"
  {
    var one, mid, low := "1", "234", "567";
    assert s == one + [','] + mid + [','] + low;
    GroupsJoined(one, mid, low);
    assert one + mid + low == "1234567";
  }

  /** Thousands groups separated by commas lose exactly the commas. */
  lemma GroupsJoined(a: string, b: string, c: string)
    requires ',' !in a && ',' !in b && ',' !in c
    ensures Remove(a + [','] + b + [','] + c, ',') == a + b + c
  {
    var rest := b + [','] + c;
    assert a + [','] + b + [','] + c == a + [','] + rest;
    GroupDropped(a, rest);
    GroupDropped(b, c);
    RemoveAbsent(c, ',');
  }

  /** A comma-free group followed by a comma keeps the group and drops the comma. */
  lemma GroupDropped(a: string, rest: string)
    requires ',' !in a
    ensures Remove(a + [','] + rest, ',') == a + Remove(rest, ',')
  {
    var t := [','] + rest;
    assert a + [','] + rest == a + t;
    RemoveAppend(a, t, ',');
    RemoveAbsent(a, ',');
    assert t[0] == ',' && t[1..] == rest;
  }

  lemma ReadSevenDigits(d: string)
    requires d == "1234567"
    ensures ParseDecimal(d) == Some(1234567.0)
  {
    assert NatToString(1234567) == "1234567";
    ParseNat(1234567);
  }

  /** Python's `float(v)` on a cell: text must read as a number, `None` raises `TypeError`. */
  function ToFloat(c: Cell): (r: Result<Cell>)
    ensures r.Ok? ==> r.value.IsFloat()
    ensures r.Err? <==> c.Null? || (c.Str? && ParseDecimal(c.s).None?)
    ensures c.Num? || c.Missing? ==> r == Ok(c)
    ensures c.Int? ==> r == Ok(Num(c.i as real))
    ensures c.Str? && ParseDecimal(c.s).Some? ==> r == Ok(Num(ParseDecimal(c.s).value))
  {
    match c
    case Str(s) =>
      (match ParseDecimal(s)
       case None => Err("ValueError: could not convert string to float")
       case Some(x) => Ok(Num(x)))
    case Int(i) => Ok(Num(i as real))
    case Num(_) => Ok(c)
    case Missing => Ok(c)
    case Null => Err("TypeError: float() argument must be a string or a number")
  }

  /** `transform_booleans`: exactly "Yes" is 1, exactly "No" is 0, everything else is missing. */
  function TransformBoolean(c: Cell): (r: Cell)
    ensures r == Int(1) <==> c == Str("Yes")
    ensures r == Int(0) <==> c == Str("No")
    ensures r == Missing <==> c != Str("Yes") && c != Str("No")
  {
    match c
    case Str(s) => if s == "Yes" then Int(1) else if s == "No" then Int(0) else Missing
    case _ => Missing
  }

  /** `_parse_earnings_time`: "-" is missing; otherwise the third whitespace-separated token when there
      are exactly three, else missing. A non-text value has no `split` and raises. */
  function EarningsTime(c: Cell): (r: Result<Cell>)
    ensures r.Err? <==> !c.Str?
    ensures r.Ok? ==> r.value.Missing? || r.value.Str?
    ensures r.Ok? && r.value.Str? <==> c.Str? && c.s != "-" && |Words(c.s)| == 3
    ensures r.Ok? && r.value.Str? ==> r.value.s == Words(c.s)[2]
  {
    match c
    case Str(s) =>
      if s == "-" then Ok(Missing)
      else
        var ws := Words(s);
        if |ws| == 3 then Ok(Str(ws[2])) else Ok(Missing)
    case _ => Err("AttributeError: object has no attribute 'split'")
  }

  /** "<date> <date> <time>" yields the time token. */
  lemma EarningsTimeOfThree(a: string, b: string, t: string)
    requires IsWord(a) && IsWord(b) && IsWord(t)
    ensures EarningsTime(Str(a + " " + b + " " + t)) == Ok(Str(t))
  {
    var s := a + " " + b + " " + t;
    assert Join([a, b, t], " ") == s by {
      assert Join([a, b, t][1..], " ") == b + " " + t by {
        assert [a, b, t][1..][1..] == [t];
      }
    }
    WordsOfJoin([a, b, t]);
  }

  /** The explicit "-" test never changes the outcome: "-" is a single token anyway. */
  lemma EarningsTimeDashIsOneToken()
    ensures |Words("-")| == 1
  {
    assert WordEnd("-") == 1;
    assert "-"[..1] == "-";
    assert "-"[1..] == [];
    assert Words("-") == ["-"] + Words([]);
  }

  lemma EarningsTimeExamples()
    ensures EarningsTime(Str("Feb 23 AMC")) == Ok(Str("AMC"))
    ensures EarningsTime(Str("-")) == Ok(Missing)
    ensures EarningsTime(Missing).Err?
  {
    assert "Feb 23 AMC" == "Feb" + " " + "23" + " " + "AMC";
    EarningsTimeOfThree("Feb", "23", "AMC");
  }
}
