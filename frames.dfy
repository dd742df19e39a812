/** The column passes of finviz_utils/finviz_utils.py. The screener frame is indexed by field name
    and has one column per ticker, so `data.loc[field]` is the row of one field across all tickers;
    here a frame is a map from field name to that row of cells. */
module FramePasses {
  import opened Results
  import opened Cells
  import opened Normalize

  type Fields = map<string, seq<Cell>>

  /** The field lists PERCENTAJE_COLUMNS, MONEY_COLUMNS, NUMERIC_COLUMNS and BOOLEAN_COLUMNS. */
  datatype ColumnLists = ColumnLists(percent: seq<string>, money: seq<string>, numeric: seq<string>, boolean: seq<string>)

  /** The state a pass leaves the frame in, and the exception that escaped it, if any. */
  datatype Applied = Applied(fields: Fields, error: Option<string>)

  /** Every field row spans the same tickers. */
  ghost predicate Rectangular(f: Fields, width: nat)
  {
    forall c :: c in f ==> |f[c]| == width
  }

  /** `series.apply(conv)`: convert every cell, or raise the first cell's exception. */
  function MapCells(cells: seq<Cell>, conv: Cell -> Result<Cell>): (r: Result<seq<Cell>>)
    ensures r.Ok? <==> forall i :: 0 <= i < |cells| ==> conv(cells[i]).Ok?
    ensures r.Ok? ==> |r.value| == |cells| && forall i :: 0 <= i < |cells| ==> Ok(r.value[i]) == conv(cells[i])
  {
    if cells == [] then Ok([])
    else match conv(cells[0])
      case Err(e) => Err(e)
      case Ok(v) =>
        match MapCells(cells[1..], conv)
        case Err(e) => Err(e)
        case Ok(vs) => Ok([v] + vs)
  }

  /** `series.replace('-', 0.0)`. */
  function ReplaceDash(cells: seq<Cell>): (r: seq<Cell>)
    ensures |r| == |cells|
    ensures Str("-") !in r
    ensures forall i :: 0 <= i < |cells| && cells[i] != Str("-") ==> r[i] == cells[i]
    ensures forall i :: 0 <= i < |cells| && cells[i] == Str("-") ==> r[i] == Num(0.0)
  {
    seq(|cells|, i requires 0 <= i < |cells| => if cells[i] == Str("-") then Num(0.0) else cells[i])
  }

  /** Replacing the dashes a second time changes nothing. */
  lemma ReplaceDashIdempotent(cells: seq<Cell>)
    ensures ReplaceDash(ReplaceDash(cells)) == ReplaceDash(cells)
  {
  }

  /** The field a converted percentage is stored under. */
  function PercentName(c: string): string { c + " (%)" }

  lemma PercentNameInjective(a: string, b: string)
    requires PercentName(a) == PercentName(b)
    ensures a == b
  {
    assert a == PercentName(a)[..|a|] && b == PercentName(b)[..|b|];
  }

  // ----- convert_percent_columns -----

  /** One iteration of `convert_percent_columns`: a missing field raises KeyError, which is reported
      and skipped; a cell `format_percent` rejects leaves the field with only its "-" cells replaced;
      otherwise the converted row moves to "<field> (%)" and the field is dropped. */
  function PercentColumn(f: Fields, c: string): Fields
  {
    if c !in f then f
    else
      var cells := ReplaceDash(f[c]);
      match MapCells(cells, FormatPercent)
      case Err(_) => f[c := cells]
      case Ok(conv) => f[PercentName(c) := conv] - {c}
  }

  /** A percent step keeps every field row as wide as the frame. */
  lemma PercentColumnRectangular(f: Fields, c: string, width: nat)
    requires Rectangular(f, width)
    ensures Rectangular(PercentColumn(f, c), width)
  {
  }

  /** The frame after `convert_percent_columns` has visited every field of `cols` in order. */
  function PercentPass(f: Fields, cols: seq<string>): (r: Fields)
    ensures f.Keys - r.Keys <= set c | c in cols
    ensures r.Keys - f.Keys <= set c | c in cols :: PercentName(c)
    decreases |cols|
  {
    if cols == [] then f
    else
      var pre, c := cols[..|cols| - 1], cols[|cols| - 1];
      assert (set x | x in pre) + {c} == set x | x in cols;
      assert (set x | x in pre :: PercentName(x)) + {PercentName(c)} == set x | x in cols :: PercentName(x);
      PercentColumn(PercentPass(f, pre), c)
  }

  /** No field is listed twice. */
  ghost predicate Distinct(cols: seq<string>)
  {
    forall i, j :: 0 <= i < j < |cols| ==> cols[i] != cols[j]
  }

  /** No field is listed twice, and no listed field is another's "(%)" name. */
  ghost predicate DistinctPercentList(cols: seq<string>)
  {
    && Distinct(cols)
    && (forall a, b :: a in cols && b in cols ==> a != PercentName(b))
  }

  ghost predicate PercentConverts(f: Fields, c: string)
  {
    c in f && MapCells(ReplaceDash(f[c]), FormatPercent).Ok?
  }

  /** A step of `convert_percent_columns` on `c` touches only `c` and its "(%)" name. */
  lemma PercentColumnFrame(g: Fields, c: string, k: string)
    requires k != c && k != PercentName(c)
    ensures (k in PercentColumn(g, c) <==> k in g) && (k in g ==> PercentColumn(g, c)[k] == g[k])
  {
  }

  lemma PercentListSplit(cols: seq<string>)
    requires DistinctPercentList(cols) && cols != []
    ensures var pre, last := cols[..|cols| - 1], cols[|cols| - 1];
      && DistinctPercentList(pre)
      && last !in pre
      && forall x :: x in pre ==> last != PercentName(x) && x != PercentName(last) && PercentName(x) != PercentName(last)
  {
    var pre, last := cols[..|cols| - 1], cols[|cols| - 1];
    forall k | 0 <= k < |pre| ensures pre[k] != last { assert pre[k] == cols[k]; }
    forall x | x in pre ensures x in cols { }
    assert last in cols;
    forall x | x in pre ensures PercentName(x) != PercentName(last) {
      if PercentName(x) == PercentName(last) { PercentNameInjective(x, last); }
    }
  }

  /** A field that is neither listed nor the "(%)" name of a listed field comes through
      `convert_percent_columns` untouched. */
  lemma {:induction false} PercentPassUntouched(f: Fields, cols: seq<string>, k: string)
    requires k !in cols && forall c :: c in cols ==> k != PercentName(c)
    ensures var r := PercentPass(f, cols); (k in r <==> k in f) && (k in f ==> r[k] == f[k])
    decreases |cols|
  {
    if cols != [] {
      var pre, last := cols[..|cols| - 1], cols[|cols| - 1];
      PercentPassUntouched(f, pre, k);
      PercentColumnFrame(PercentPass(f, pre), last, k);
    }
  }

  /** A listed field whose every cell converts is replaced by "<field> (%)" holding the
      converted values. */
  lemma {:induction false} PercentPassConverted(f: Fields, cols: seq<string>, c: string)
    requires DistinctPercentList(cols) && c in cols && PercentConverts(f, c)
    ensures var r := PercentPass(f, cols);
      c !in r && PercentName(c) in r && r[PercentName(c)] == MapCells(ReplaceDash(f[c]), FormatPercent).value
    decreases |cols|
  {
    var pre, last := cols[..|cols| - 1], cols[|cols| - 1];
    PercentListSplit(cols);
    if c == last {
      PercentPassUntouched(f, pre, c);
    } else {
      assert c in pre;
      PercentPassConverted(f, pre, c);
      PercentColumnFrame(PercentPass(f, pre), last, c);
      PercentColumnFrame(PercentPass(f, pre), last, PercentName(c));
    }
  }

  /** A listed field holding a cell `format_percent` rejects keeps its row, with only its "-"
      cells replaced, and its "(%)" name is left as it was. */
  lemma {:induction false} PercentPassKept(f: Fields, cols: seq<string>, c: string)
    requires DistinctPercentList(cols) && c in cols && c in f && !PercentConverts(f, c)
    ensures var r := PercentPass(f, cols);
      && c in r && r[c] == ReplaceDash(f[c])
      && (PercentName(c) in r <==> PercentName(c) in f)
      && (PercentName(c) in f ==> r[PercentName(c)] == f[PercentName(c)])
    decreases |cols|
  {
    var pre, last := cols[..|cols| - 1], cols[|cols| - 1];
    PercentListSplit(cols);
    if c == last {
      PercentPassUntouched(f, pre, c);
      PercentPassUntouched(f, pre, PercentName(c));
    } else {
      assert c in pre;
      PercentPassKept(f, pre, c);
      PercentColumnFrame(PercentPass(f, pre), last, c);
      PercentColumnFrame(PercentPass(f, pre), last, PercentName(c));
    }
  }

  /** A listed field that is missing (the KeyError the loop reports) stays missing, and its
      "(%)" name is left as it was. */
  lemma {:induction false} PercentPassAbsent(f: Fields, cols: seq<string>, c: string)
    requires DistinctPercentList(cols) && c in cols && c !in f
    ensures var r := PercentPass(f, cols);
      && c !in r
      && (PercentName(c) in r <==> PercentName(c) in f)
      && (PercentName(c) in f ==> r[PercentName(c)] == f[PercentName(c)])
    decreases |cols|
  {
    var pre, last := cols[..|cols| - 1], cols[|cols| - 1];
    PercentListSplit(cols);
    if c == last {
      PercentPassUntouched(f, pre, c);
      PercentPassUntouched(f, pre, PercentName(c));
    } else {
      assert c in pre;
      PercentPassAbsent(f, pre, c);
      PercentColumnFrame(PercentPass(f, pre), last, c);
      PercentColumnFrame(PercentPass(f, pre), last, PercentName(c));
    }
  }

  /** Distinct entries: the last one does not occur before. */
  lemma DistinctSplit(cols: seq<string>)
    requires cols != [] && Distinct(cols)
    ensures cols[|cols| - 1] !in cols[..|cols| - 1]
    ensures Distinct(cols[..|cols| - 1])
    ensures forall c :: c in cols <==> c in cols[..|cols| - 1] || c == cols[|cols| - 1]
  {
    var pre := cols[..|cols| - 1];
    forall k | 0 <= k < |pre| ensures pre[k] != cols[|cols| - 1] { assert pre[k] == cols[k]; }
    assert cols == pre + [cols[|cols| - 1]];
  }

  // ----- process_money_columns -----

  /** One iteration of `process_money_columns`: a listed field that is present is converted cell by
      cell; an exception is not caught and ends the pass. */
  function MoneyColumn(f: Fields, c: string): Applied
  {
    if c !in f then Applied(f, None)
    else match MapCells(f[c], MoneyValue)
      case Err(e) => Applied(f, Some(e))
      case Ok(conv) => Applied(f[c := conv], None)
  }

  function MoneyPass(f: Fields, cols: seq<string>): (r: Applied)
    ensures r.fields.Keys == f.Keys
    ensures forall k :: k in f ==> |r.fields[k]| == |f[k]|
    ensures forall k :: k in f && k !in cols ==> r.fields[k] == f[k]
    decreases |cols|
  {
    if cols == [] then Applied(f, None)
    else
      var before := MoneyPass(f, cols[..|cols| - 1]);
      if before.error.Some? then before else MoneyColumn(before.fields, cols[|cols| - 1])
  }

  ghost predicate MoneyConverts(f: Fields, c: string)
  {
    c in f ==> MapCells(f[c], MoneyValue).Ok?
  }

  /** `process_money_columns` raises exactly when some listed field holds a cell that cannot be
      converted; when it does not, every listed field holds its converted row and nothing else changed. */
  lemma {:induction false} MoneyPassEffect(f: Fields, cols: seq<string>)
    requires Distinct(cols)
    ensures var r := MoneyPass(f, cols);
      && (r.error.None? <==> forall c :: c in cols ==> MoneyConverts(f, c))
      && (r.error.None? ==> r.fields.Keys == f.Keys)
      && (r.error.None? ==> forall c :: c in cols && c in f ==> r.fields[c] == MapCells(f[c], MoneyValue).value)
      && (forall k :: k in f && k !in cols ==> k in r.fields && r.fields[k] == f[k])
    decreases |cols|
  {
    if cols != [] {
      var pre, last := cols[..|cols| - 1], cols[|cols| - 1];
      MoneyPassEffect(f, pre);
      DistinctSplit(cols);
      var before := MoneyPass(f, pre);
      if before.error.None? {
        assert before.fields.Keys == f.Keys;
        assert last in f ==> before.fields[last] == f[last];
        var r := MoneyColumn(before.fields, last);
        assert r.error.None? <==> MoneyConverts(f, last);
        if r.error.None? {
          forall c | c in cols && c in f ensures r.fields[c] == MapCells(f[c], MoneyValue).value {
            if c != last { assert c in pre; }
          }
        }
      } else {
        assert !forall c :: c in pre ==> MoneyConverts(f, c);
      }
    }
  }

  // ----- process_numeric_columns -----

  /** One iteration of `process_numeric_columns`: "-" cells become 0.0, then "Volume" goes through
      `process_volume` and every other field through `float`; a missing field or a failing cell is
      reported and the loop moves on. */
  function NumericColumn(f: Fields, c: string): Fields
  {
    if c !in f then f
    else
      var cells := ReplaceDash(f[c]);
      var conv := if c == "Volume" then MapCells(cells, Volume) else MapCells(cells, ToFloat);
      match conv
      case Err(_) => f[c := cells]
      case Ok(v) => f[c := v]
  }

  function NumericPass(f: Fields, cols: seq<string>): (r: Fields)
    ensures r.Keys == f.Keys
    ensures forall k :: k in f ==> |r[k]| == |f[k]|
    decreases |cols|
  {
    if cols == [] then f else NumericColumn(NumericPass(f, cols[..|cols| - 1]), cols[|cols| - 1])
  }

  function NumericConversion(cells: seq<Cell>, c: string): Result<seq<Cell>>
  {
    if c == "Volume" then MapCells(ReplaceDash(cells), Volume) else MapCells(ReplaceDash(cells), ToFloat)
  }

  /** `process_numeric_columns` never adds or removes a field and leaves unlisted fields untouched. */
  lemma {:induction false} NumericPassUntouched(f: Fields, cols: seq<string>, k: string)
    ensures NumericPass(f, cols).Keys == f.Keys
    ensures k in f && k !in cols ==> NumericPass(f, cols)[k] == f[k]
    decreases |cols|
  {
    if cols != [] {
      NumericPassUntouched(f, cols[..|cols| - 1], k);
      assert k in cols[..|cols| - 1] ==> k in cols;
    }
  }

  /** A field listed once holds its converted row when every cell converts, and its row with "-"
      replaced by 0.0 when some cell does not. */
  lemma {:induction false} NumericPassConverted(f: Fields, cols: seq<string>, c: string)
    requires Distinct(cols)
    requires c in cols && c in f
    ensures var r := NumericPass(f, cols);
      && c in r
      && (NumericConversion(f[c], c).Ok? ==> r[c] == NumericConversion(f[c], c).value)
      && (NumericConversion(f[c], c).Err? ==> r[c] == ReplaceDash(f[c]))
    decreases |cols|
  {
    var pre, last := cols[..|cols| - 1], cols[|cols| - 1];
    DistinctSplit(cols);
    NumericPassUntouched(f, pre, c);
    NumericPassUntouched(f, cols, c);
    if c != last {
      NumericPassConverted(f, pre, c);
    }
  }

  // ----- process_boolean_columns -----

  function BooleanColumn(f: Fields, c: string): Fields
  {
    if c !in f then f else f[c := seq(|f[c]|, i requires 0 <= i < |f[c]| => TransformBoolean(f[c][i]))]
  }

  function BooleanPass(f: Fields, cols: seq<string>): (r: Fields)
    ensures r.Keys == f.Keys
    ensures forall k :: k in f ==> |r[k]| == |f[k]|
    decreases |cols|
  {
    if cols == [] then f else BooleanColumn(BooleanPass(f, cols[..|cols| - 1]), cols[|cols| - 1])
  }

  /** `process_boolean_columns` never adds or removes a field and leaves unlisted fields untouched. */
  lemma {:induction false} BooleanPassUntouched(f: Fields, cols: seq<string>, k: string)
    ensures BooleanPass(f, cols).Keys == f.Keys
    ensures k in f && k !in cols ==> BooleanPass(f, cols)[k] == f[k]
    decreases |cols|
  {
    if cols != [] {
      BooleanPassUntouched(f, cols[..|cols| - 1], k);
      assert k in cols[..|cols| - 1] ==> k in cols;
    }
  }

  /** After `process_boolean_columns` every cell of a field listed once is 1, 0 or missing, with 1
      exactly where the cell was "Yes" and 0 exactly where it was "No". */
  lemma {:induction false} BooleanPassConverted(f: Fields, cols: seq<string>, c: string)
    requires Distinct(cols)
    requires c in cols && c in f
    ensures var r := BooleanPass(f, cols);
      && c in r && |r[c]| == |f[c]|
      && forall i :: 0 <= i < |f[c]| ==>
        && (r[c][i] == Int(1) || r[c][i] == Int(0) || r[c][i] == Missing)
        && (r[c][i] == Int(1) <==> f[c][i] == Str("Yes"))
        && (r[c][i] == Int(0) <==> f[c][i] == Str("No"))
    decreases |cols|
  {
    var pre, last := cols[..|cols| - 1], cols[|cols| - 1];
    DistinctSplit(cols);
    BooleanPassUntouched(f, pre, c);
    BooleanPassUntouched(f, cols, c);
    if c != last {
      BooleanPassConverted(f, pre, c);
    }
  }

  /** A field listed twice loses every value: the second visit sees 1 and 0, which are not text. */
  lemma BooleanTwiceClears(f: Fields, c: string)
    requires c in f
    ensures var r := BooleanPass(f, [c, c]); c in r && forall i :: 0 <= i < |r[c]| ==> r[c][i] == Missing
  {
    assert [c, c][..1] == [c];
    assert [c][..0] == [];
    var once := BooleanColumn(f, c);
    assert BooleanPass(f, [c]) == once;
    assert BooleanPass(f, [c, c]) == BooleanColumn(once, c);
    assert forall i :: 0 <= i < |once[c]| ==> !once[c][i].Str?;
  }

  // ----- process_52_high_low -----

  const RangeField: string := "52W Range"
  const LowField: string := "52W Low"
  const HighField: string := "52W High"

  /** `process_52_high_low`: with no "52W Range" field the frame is returned as it is; otherwise
      "52W Low" and then "52W High" are filled from it (an exception escapes), and the range field is
      dropped only when `drop` is set. */
  function Range52(f: Fields, drop: bool): (r: Applied)
    ensures RangeField !in f ==> r == Applied(f, None)
    ensures r.error.None? && RangeField in f ==> LowField in r.fields && HighField in r.fields
    ensures r.error.None? && RangeField in f ==> (RangeField in r.fields <==> !drop)
    ensures forall k :: k in f && k != LowField && k != HighField && k != RangeField ==> k in r.fields && r.fields[k] == f[k]
    ensures RangeField in f ==>
      (r.error.None? <==> forall i :: 0 <= i < |f[RangeField]| ==> Low52(f[RangeField][i]).Ok? && High52(f[RangeField][i]).Ok?)
    ensures RangeField in f && (forall i :: 0 <= i < |f[RangeField]| ==> Low52(f[RangeField][i]).Ok?) ==>
      LowField in r.fields && |r.fields[LowField]| == |f[RangeField]|
      && forall i :: 0 <= i < |f[RangeField]| ==> Ok(r.fields[LowField][i]) == Low52(f[RangeField][i])
    ensures r.error.None? && RangeField in f ==>
      |r.fields[LowField]| == |f[RangeField]| == |r.fields[HighField]| && forall i :: 0 <= i < |f[RangeField]| ==>
      Ok(r.fields[LowField][i]) == Low52(f[RangeField][i]) && Ok(r.fields[HighField][i]) == High52(f[RangeField][i])
  {
    if RangeField !in f then Applied(f, None)
    else match MapCells(f[RangeField], Low52)
      case Err(e) => Applied(f, Some(e))
      case Ok(low) =>
        var withLow := f[LowField := low];
        match MapCells(f[RangeField], High52)
        case Err(e) => Applied(withLow, Some(e))
        case Ok(high) =>
          var both := withLow[HighField := high];
          Applied(if drop then both - {RangeField} else both, None)
  }

  // ----- process_report_date -----

  const EarningsField: string := "Earnings"
  const EarningsTimeField: string := "Earnings Time"

  /** `process_report_date`: "Earnings Time" is added, from the time token of "Earnings", only when
      "Earnings" exists; a cell that is not text raises. */
  function ReportDate(f: Fields): (r: Applied)
    ensures EarningsField !in f ==> r == Applied(f, None)
    ensures r.error.Some? ==> r.fields == f && exists i :: 0 <= i < |f[EarningsField]| && !f[EarningsField][i].Str?
    ensures r.error.None? && EarningsField in f ==>
      (EarningsTimeField in r.fields && |r.fields[EarningsTimeField]| == |f[EarningsField]|
       && forall i :: 0 <= i < |f[EarningsField]| ==> Ok(r.fields[EarningsTimeField][i]) == EarningsTime(f[EarningsField][i]))
    ensures forall k :: k in f && k != EarningsTimeField ==> k in r.fields && r.fields[k] == f[k]
  {
    if EarningsField !in f then Applied(f, None)
    else match MapCells(f[EarningsField], EarningsTime)
      case Err(e) => Applied(f, Some(e))
      case Ok(times) => Applied(f[EarningsTimeField := times], None)
  }

  // ----- _process_dataframe -----

  /** `_process_dataframe`: percent, money, numeric, 52-week range, report date, in that order
      (the boolean pass is commented out in the source). */
  function Pipeline(f: Fields, lists: ColumnLists): (r: Applied)
    ensures forall k :: k in f && Unlisted(k, lists) ==> k in r.fields && r.fields[k] == f[k]
  {
    var afterPercent := PercentPass(f, lists.percent);
    PercentPassKeeps(f, lists.percent);
    var afterMoney := MoneyPass(afterPercent, lists.money);
    NumericPassKeeps(afterMoney.fields, lists.numeric);
    if afterMoney.error.Some? then afterMoney
    else
      var afterRange := Range52(NumericPass(afterMoney.fields, lists.numeric), false);
      if afterRange.error.Some? then afterRange
      else ReportDate(afterRange.fields)
  }

  /** A field no pass of `_process_dataframe` names, reads or adds. */
  predicate Unlisted(k: string, lists: ColumnLists)
  {
    && k !in lists.percent && k !in lists.money && k !in lists.numeric
    && k != RangeField && k != LowField && k != HighField && k != EarningsTimeField
    && forall c :: c in lists.percent ==> k != PercentName(c)
  }

  lemma PercentPassKeeps(f: Fields, cols: seq<string>)
    ensures forall k :: k in f && k !in cols && (forall c :: c in cols ==> k != PercentName(c)) ==>
      k in PercentPass(f, cols) && PercentPass(f, cols)[k] == f[k]
  {
    forall k | k in f && k !in cols && (forall c :: c in cols ==> k != PercentName(c)) {
      PercentPassUntouched(f, cols, k);
    }
  }

  lemma NumericPassKeeps(f: Fields, cols: seq<string>)
    ensures forall k :: k in f && k !in cols ==> NumericPass(f, cols)[k] == f[k]
  {
    forall k | k in f && k !in cols {
      NumericPassUntouched(f, cols, k);
    }
  }

  /** The frame: its width (number of tickers) and its field rows, updated in place by the passes. */
  class Frame {
    var width: nat
    var fields: Fields

    /** The DataFrame shape: every field row has one cell per ticker column. Every pass keeps
        it, and keeps the width, since none adds or removes a ticker. */
    ghost predicate Valid()
      reads this
    {
      Rectangular(fields, width)
    }

    constructor (width: nat, fields: Fields)
      requires Rectangular(fields, width)
      ensures Valid() && this.width == width && this.fields == fields
    {
      this.width := width;
      this.fields := fields;
    }

    /** `convert_percent_columns`. */
    method ConvertPercentColumns(cols: seq<string>)
      requires Valid()
      modifies this
      ensures Valid() && width == old(width)
      ensures fields == PercentPass(old(fields), cols)
    {
      for i := 0 to |cols|
        invariant Valid() && width == old(width)
        invariant fields == PercentPass(old(fields), cols[..i])
      {
        assert cols[..i + 1][..i] == cols[..i];
        var c := cols[i];
        ghost var before := fields;
        if c in fields {
          var cells := ReplaceDash(fields[c]);
          fields := fields[c := cells];
          var converted := MapCells(cells, FormatPercent);
          if converted.Ok? {
            fields := fields[c := converted.value];
            fields := fields[PercentName(c) := fields[c]];
            fields := fields - {c};
          }
        }
        assert fields == PercentColumn(before, c);
        PercentColumnRectangular(before, c, width);
      }
      assert cols[..|cols|] == cols;
    }

    /** `process_money_columns`; `error` is the exception that escapes it. */
    method ProcessMoneyColumns(cols: seq<string>) returns (error: Option<string>)
      requires Valid()
      modifies this
      ensures Valid() && width == old(width)
      ensures Applied(fields, error) == MoneyPass(old(fields), cols)
    {
      error := None;
      var i := 0;
      while i < |cols| && error.None?
        invariant 0 <= i <= |cols|
        invariant Valid() && width == old(width)
        invariant Applied(fields, error) == MoneyPass(old(fields), cols[..i])
      {
        assert cols[..i + 1][..i] == cols[..i];
        var c := cols[i];
        ghost var before := fields;
        assert MoneyPass(old(fields), cols[..i + 1]) == MoneyColumn(before, c);
        if c in fields {
          var converted := MapCells(fields[c], MoneyValue);
          if converted.Ok? {
            fields := fields[c := converted.value];
          } else {
            error := Some(converted.msg);
          }
        }
        assert Applied(fields, error) == MoneyColumn(before, c);
        i := i + 1;
      }
      MoneyPassStops(old(fields), cols, i);
    }

    /** `process_numeric_columns`. */
    method ProcessNumericColumns(cols: seq<string>)
      requires Valid()
      modifies this
      ensures Valid() && width == old(width)
      ensures fields == NumericPass(old(fields), cols)
    {
      for i := 0 to |cols|
        invariant Valid() && width == old(width)
        invariant fields == NumericPass(old(fields), cols[..i])
      {
        assert cols[..i + 1][..i] == cols[..i];
        var c := cols[i];
        ghost var before := fields;
        if c in fields {
          fields := fields[c := ReplaceDash(fields[c])];
          var converted := if c == "Volume" then MapCells(fields[c], Volume) else MapCells(fields[c], ToFloat);
          if converted.Ok? {
            fields := fields[c := converted.value];
          }
        }
        assert fields == NumericColumn(before, c);
        assert NumericPass(old(fields), cols[..i + 1]) == NumericColumn(NumericPass(old(fields), cols[..i]), c);
      }
      assert cols[..|cols|] == cols;
    }

    /** `process_boolean_columns`. */
    method ProcessBooleanColumns(cols: seq<string>)
      requires Valid()
      modifies this
      ensures Valid() && width == old(width)
      ensures fields == BooleanPass(old(fields), cols)
    {
      for i := 0 to |cols|
        invariant Valid() && width == old(width)
        invariant fields == BooleanPass(old(fields), cols[..i])
      {
        assert cols[..i + 1][..i] == cols[..i];
        var c := cols[i];
        if c in fields {
          var row := fields[c];
          fields := fields[c := seq(|row|, j requires 0 <= j < |row| => TransformBoolean(row[j]))];
        }
      }
      assert cols[..|cols|] == cols;
    }

    /** `process_52_high_low`. */
    method Process52HighLow(drop: bool) returns (error: Option<string>)
      requires Valid()
      modifies this
      ensures Valid() && width == old(width)
      ensures Applied(fields, error) == Range52(old(fields), drop)
    {
      error := None;
      if RangeField in fields {
        var low := MapCells(fields[RangeField], Low52);
        if low.Err? {
          error := Some(low.msg);
          return;
        }
        fields := fields[LowField := low.value];
        var high := MapCells(fields[RangeField], High52);
        if high.Err? {
          error := Some(high.msg);
          return;
        }
        fields := fields[HighField := high.value];
        if drop {
          fields := fields - {RangeField};
        }
      }
    }

    /** `process_report_date`. */
    method ProcessReportDate() returns (error: Option<string>)
      requires Valid()
      modifies this
      ensures Valid() && width == old(width)
      ensures Applied(fields, error) == ReportDate(old(fields))
    {
      error := None;
      if EarningsField in fields {
        var times := MapCells(fields[EarningsField], EarningsTime);
        if times.Err? {
          error := Some(times.msg);
        } else {
          fields := fields[EarningsTimeField := times.value];
        }
      }
    }

    /** `_process_dataframe`: the passes in the source's order; the first exception ends it. */
    method ProcessDataframe(lists: ColumnLists) returns (error: Option<string>)
      requires Valid()
      modifies this
      ensures Valid() && width == old(width)
      ensures Applied(fields, error) == Pipeline(old(fields), lists)
    {
      ConvertPercentColumns(lists.percent);
      error := ProcessMoneyColumns(lists.money);
      if error.Some? { return; }
      ProcessNumericColumns(lists.numeric);
      error := Process52HighLow(false);
      if error.Some? { return; }
      error := ProcessReportDate();
    }
  }

  /** Once the money pass has raised, the remaining fields are not visited. */
  lemma {:induction false} MoneyPassStops(f: Fields, cols: seq<string>, i: nat)
    requires i <= |cols|
    requires i == |cols| || MoneyPass(f, cols[..i]).error.Some?
    ensures MoneyPass(f, cols[..i]) == MoneyPass(f, cols)
    decreases |cols| - i
  {
    if i < |cols| {
      assert cols[..i + 1][..i] == cols[..i];
      MoneyPassStops(f, cols, i + 1);
    } else {
      assert cols[..i] == cols;
    }
  }
}
