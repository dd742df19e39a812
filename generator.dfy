/** `FinvizDataCalendarGenerator` of finviz_utils/earnings_calendar/earnings_calendar.py: which
    group a request names, where its results are saved, and how the fundamentals table is joined
    onto the earnings calendar. */
module CalendarGenerator {
  import opened Results
  import opened Cells
  import opened Tables
  import opened CalendarRows
  import opened CalendarPaths
  import opened MasterCalendar

  /** A Python argument that is given and non-empty. */
  predicate Given(a: Option<string>)
  {
    a.Some? && a.value != ""
  }

  /** The sub-folder and the tag a request for one sector, industry or index is filed under. */
  datatype Group = Group(subFolder: string, tag: string)

  const SeveralGroupsMessage: string := "You can only pass sector, industry, or index not several of them"

  /** The argument check of `get_finviz_data_by`: exactly one of sector, industry and index. */
  function SelectGroup(sector: Option<string>, industry: Option<string>, index: Option<string>): (r: Result<Group>)
    ensures r.Ok? <==> (if Given(sector) then 1 else 0) + (if Given(industry) then 1 else 0) + (if Given(index) then 1 else 0) == 1
    ensures r.Ok? ==> r.value.subFolder in SubFolders
    ensures r.Ok? && Given(sector) ==> r.value == Group("sectors", sector.value)
    ensures r.Ok? && Given(industry) ==> r.value == Group("industries", industry.value)
    ensures r.Ok? && Given(index) ==> r.value == Group("indexes", index.value)
    ensures r.Err? ==> r.msg == SeveralGroupsMessage
  {
    if Given(industry) && !Given(index) && !Given(sector) then Ok(Group("industries", industry.value))
    else if Given(sector) && !Given(index) && !Given(industry) then Ok(Group("sectors", sector.value))
    else if Given(index) && !Given(sector) && !Given(industry) then Ok(Group("indexes", index.value))
    else Err(SeveralGroupsMessage)
  }

  /** `store_data`: the file a table is written to. The sub-folder must be one of the three
      groups and only local storage exists; raw tables go under `FINVIZ_RAW_DATA_FOLDER`, joined
      calendars under `FINVIZ_DATA_CALENDAR_FOLDER`, both appended to `DATA_FOLDER` as is. */
  function StoreData(cfg: Config, local: bool, subFolder: string, raw: bool, tag: string, today: CivilDate): (r: Result<string>)
    ensures r.Err? <==> subFolder !in SubFolders || !local
    ensures r.Ok? && raw ==> r.value == BuildPath(cfg.dataFolder + cfg.rawDataFolder, subFolder, tag, today)
    ensures r.Ok? && !raw ==> r.value == BuildPath(cfg.dataFolder + cfg.calendarDataFolder, subFolder, tag, today)
  {
    if subFolder !in SubFolders then Err("Invalid subfolder " + subFolder)
    else if !local then Err("Not local storage not implemented yet")
    else
      var folder := if raw then cfg.dataFolder + cfg.rawDataFolder else cfg.dataFolder + cfg.calendarDataFolder;
      Ok(BuildPath(folder, subFolder, tag, today))
  }

  /** Every group `get_finviz_data_by` accepts can be saved: its own call to `store_data` never
      raises. */
  lemma SelectedGroupSaves(cfg: Config, sector: Option<string>, industry: Option<string>, index: Option<string>,
                           raw: bool, today: CivilDate)
    requires SelectGroup(sector, industry, index).Ok?
    ensures StoreData(cfg, true, SelectGroup(sector, industry, index).value.subFolder, raw,
                      SelectGroup(sector, industry, index).value.tag, today).Ok?
  {
  }

  /** One ticker's row of the transposed fundamentals table `finviz_data.T`. */
  datatype TickerRow = TickerRow(ticker: string, cells: map<string, Cell>)

  /** The fundamentals table: its column labels and its rows. */
  datatype Fundamentals = Fundamentals(fields: seq<string>, rows: seq<TickerRow>)

  /** The columns `prepare_finviz_calendar` keeps: the custom table's fields or the usual ones,
      plus `Industry` for an industry request or else `Index` for an index request, when missing. */
  function ChooseColumns(cfg: Config, table: string, industry: Option<string>, index: Option<string>): (r: seq<string>)
    ensures var base := if table == "Custom" then cfg.customTableFields else cfg.includeColumns;
      && base <= r && |r| <= |base| + 1
      && (Given(industry) ==> "Industry" in r)
      && (!(Given(industry) && "Industry" !in base) && Given(index) && "Index" !in base ==> r == base + ["Index"])
      && (|r| == |base| + 1 ==> r[|base|] in {"Industry", "Index"})
      && ((!Given(industry) || "Industry" in base) && (!Given(index) || "Index" in base) ==> r == base)
      && (|r| == |base| + 1 ==> (r[|base|] == "Industry" <==> Given(industry) && "Industry" !in base))
      && (|r| == |base| + 1 ==> r[|base|] !in base)
  {
    var base := if table == "Custom" then cfg.customTableFields else cfg.includeColumns;
    if Given(industry) && "Industry" !in base then base + ["Industry"]
    else if Given(index) && "Index" !in base then base + ["Index"]
    else base
  }

  function Tickers(rows: seq<TickerRow>): (ts: set<string>)
    ensures forall i :: 0 <= i < |rows| ==> rows[i].ticker in ts
    ensures forall t :: t in ts ==> exists i :: 0 <= i < |rows| && rows[i].ticker == t
    decreases |rows|
  {
    if rows == [] then {}
    else
      var rest := Tickers(rows[1..]);
      forall t | t in rest ensures exists i :: 0 <= i < |rows| && rows[i].ticker == t {
        var j :| 0 <= j < |rows[1..]| && rows[1..][j].ticker == t;
        assert rows[j + 1].ticker == t;
      }
      {rows[0].ticker} + rest
  }

  /** `validate='many_to_one'`: no ticker occurs twice in the fundamentals. */
  predicate UniqueTickers(rows: seq<TickerRow>)
  {
    forall i, j :: 0 <= i < j < |rows| ==> rows[i].ticker != rows[j].ticker
  }

  /** The fundamentals row of a ticker. */
  function RowOf(rows: seq<TickerRow>, t: string): (r: TickerRow)
    requires t in Tickers(rows)
    ensures r in rows && r.ticker == t
    decreases |rows|
  {
    if rows[0].ticker == t then rows[0] else RowOf(rows[1..], t)
  }

  /** The cells of the chosen columns a merged row gains. "Ticker" is the merge key, which
      `set_index('Ticker')` then moves into the index, so it is not among them. */
  function Selected(cells: map<string, Cell>, columns: seq<string>): (m: map<string, Cell>)
    ensures forall c :: c in m <==> c in columns && c in cells && c != "Ticker"
    ensures forall c :: c in m ==> m[c] == cells[c]
  {
    map c | c in cells && c in columns && c != "Ticker" :: cells[c]
  }

  /** The column `prepare_finviz_calendar` appends adds exactly that column's cell, when the
      ticker has one, to what the base list selects. */
  lemma SelectedExtend(cells: map<string, Cell>, base: seq<string>, extra: string)
    requires extra != "Ticker"
    ensures extra in cells ==> Selected(cells, base + [extra]) == Selected(cells, base)[extra := cells[extra]]
    ensures extra !in cells ==> Selected(cells, base + [extra]) == Selected(cells, base)
  {
  }

  /** A calendar row merged with its ticker's chosen fundamentals. */
  function Merged(x: CalRow, fund: TickerRow, columns: seq<string>): CalRow
  {
    x.(fields := x.fields + Selected(fund.cells, columns))
  }

  /** The calendar rows whose ticker has fundamentals, in calendar order. */
  function WithFundamentals(calendar: seq<CalRow>, fund: seq<TickerRow>): (r: seq<CalRow>)
    ensures forall i :: 0 <= i < |r| ==> r[i].ticker in Tickers(fund)
  {
    var r := Filter(calendar, (x: CalRow) => x.ticker in Tickers(fund));
    FilterMembers(calendar, (x: CalRow) => x.ticker in Tickers(fund));
    assert forall i :: 0 <= i < |r| ==> r[i] in r;
    r
  }

  /** `merge(filtered_data, on='Ticker')` (an inner join, in the order of the left table): the
      selected calendar rows one for one, each merged with its ticker's chosen columns. */
  function Join(calendar: seq<CalRow>, fund: seq<TickerRow>, columns: seq<string>): (r: seq<CalRow>)
    ensures var kept := WithFundamentals(calendar, fund);
      && |r| == |kept|
      && forall i :: 0 <= i < |r| ==>
           && r[i].reportDate == kept[i].reportDate && r[i].ticker == kept[i].ticker && r[i].daysLeft == kept[i].daysLeft
           && r[i].fields.Keys == kept[i].fields.Keys + (set c | c in columns && c in RowOf(fund, kept[i].ticker).cells && c != "Ticker")
  {
    var kept := WithFundamentals(calendar, fund);
    seq(|kept|, i requires 0 <= i < |kept| => Merged(kept[i], RowOf(fund, kept[i].ticker), columns))
  }

  /** A calendar row whose ticker has no fundamentals is not joined; one whose ticker has is. */
  lemma JoinIsInner(calendar: seq<CalRow>, fund: seq<TickerRow>, columns: seq<string>, x: CalRow)
    requires x in calendar
    ensures x.ticker in Tickers(fund) ==> Merged(x, RowOf(fund, x.ticker), columns) in Join(calendar, fund, columns)
    ensures x.ticker !in Tickers(fund) ==> forall y :: y in Join(calendar, fund, columns) ==> y.ticker != x.ticker
  {
    if x.ticker in Tickers(fund) {
      JoinContains(calendar, fund, columns, x);
    }
  }

  lemma JoinContains(calendar: seq<CalRow>, fund: seq<TickerRow>, columns: seq<string>, x: CalRow)
    requires x in calendar && x.ticker in Tickers(fund)
    ensures Merged(x, RowOf(fund, x.ticker), columns) in Join(calendar, fund, columns)
  {
    var kept := WithFundamentals(calendar, fund);
    FilterMembers(calendar, (x: CalRow) => x.ticker in Tickers(fund));
    var i :| 0 <= i < |kept| && kept[i] == x;
    assert Join(calendar, fund, columns)[i] == Merged(x, RowOf(fund, x.ticker), columns);
  }

  const DataDateField: string := "dataDate"

  /** `prepare_finviz_calendar` with `sort_value='days_left'`. It fails when a chosen column is
      not in the fundamentals (`KeyError`), when "Ticker" is not chosen so the merge has no key
      on the right (`KeyError`), or when a ticker has two fundamentals rows (`MergeError`);
      otherwise the joined rows are sorted by `days_left` and stamped `dataDate` = today. */
  method PrepareFinvizCalendar(calendar: seq<CalRow>, fund: Fundamentals, cfg: Config, table: string,
                               industry: Option<string>, index: Option<string>, today: CivilDate)
    returns (r: Result<seq<CalRow>>)
    ensures var columns := ChooseColumns(cfg, table, industry, index);
      r.Err? <==> (exists c :: c in columns && c !in fund.fields) || "Ticker" !in columns || !UniqueTickers(fund.rows)
    ensures r.Ok? ==> SortedBy(r.value, DaysLeftOf)
    ensures r.Ok? ==>
      var columns := ChooseColumns(cfg, table, industry, index);
      multiset(r.value) == multiset(StampColumn(Join(calendar, fund.rows, columns), DataDateField, Str(IsoDate(today))))
  {
    var columns := ChooseColumns(cfg, table, industry, index);
    if exists c | c in columns :: c !in fund.fields {
      var c :| c in columns && c !in fund.fields;
      return Err("KeyError: " + c);
    }
    if "Ticker" !in columns {
      return Err("KeyError: 'Ticker'");
    }
    if !UniqueTickers(fund.rows) {
      return Err("MergeError: Merge keys are not unique in right dataset; not a many-to-one merge");
    }
    var merged := Join(calendar, fund.rows, columns);
    merged := SortBy(merged, DaysLeftOf);
    merged := StampColumn(merged, DataDateField, Str(IsoDate(today)));
    StampKeepsOrder(SortBy(Join(calendar, fund.rows, columns), DaysLeftOf), DataDateField, Str(IsoDate(today)));
    StampSortCommute(Join(calendar, fund.rows, columns), DataDateField, Str(IsoDate(today)));
    r := Ok(merged);
  }

  /** `get_earning_calendar_for(symbols)`: the local calendar's rows of the given tickers,
      sorted by report date. */
  function EarningCalendarFor(localFile: seq<CalRow>, symbols: set<string>, now: Clock): (r: seq<CalRow>)
    requires now.Valid()
    ensures SortedBy(r, ReportDateOf)
    ensures forall x :: multiset(r)[x] == if x.ticker in symbols then multiset(WholeCalendar(true, localFile, [], now))[x] else 0
  {
    SortBy(Filter(WholeCalendar(true, localFile, [], now), (x: CalRow) => x.ticker in symbols), ReportDateOf)
  }

  /** What `get_finviz_data_by` returns: the fundamentals as fetched (`raw=True`) or joined onto
      the earnings calendar. */
  datatype Fetched = RawTable(fund: Fundamentals) | JoinedCalendar(rows: seq<CalRow>)

  /** The returned table and, when `save=True`, the file it was written to. */
  datatype Outcome = Outcome(result: Fetched, savedTo: Option<string>)

  /** `get_finviz_data_by`. The screener download (`get_dataframe_by_*`) is not part of this
      model: `fetched` is its result. The local earnings calendar file is `localFile`. */
  method GetFinvizDataBy(sector: Option<string>, industry: Option<string>, index: Option<string>,
                         table: string, raw: bool, save: bool, fetched: Fundamentals,
                         localFile: seq<CalRow>, cfg: Config, now: Clock)
    returns (r: Result<Outcome>)
    requires now.Valid()
    ensures SelectGroup(sector, industry, index).Err? ==> r == Err(SeveralGroupsMessage)
    ensures r.Ok? ==> SelectGroup(sector, industry, index).Ok?
    ensures r.Ok? ==> (r.value.savedTo.Some? <==> save)
    ensures r.Ok? && save ==>
      var g := SelectGroup(sector, industry, index).value;
      r.value.savedTo.value == BuildPath(cfg.dataFolder + (if raw then cfg.rawDataFolder else cfg.calendarDataFolder), g.subFolder, g.tag, now.date)
    ensures raw && SelectGroup(sector, industry, index).Ok? ==> r.Ok? && r.value.result == RawTable(fetched)
    ensures r.Ok? && !raw ==>
      && r.value.result.JoinedCalendar?
      && SortedBy(r.value.result.rows, DaysLeftOf)
      && forall y :: y in r.value.result.rows ==> y.ticker in Tickers(fetched.rows)
    ensures !raw && SelectGroup(sector, industry, index).Ok? ==>
      (r.Err? <==> (exists c :: c in ChooseColumns(cfg, table, industry, index) && c !in fetched.fields)
                   || "Ticker" !in ChooseColumns(cfg, table, industry, index) || !UniqueTickers(fetched.rows))
    ensures r.Ok? && !raw ==>
      multiset(r.value.result.rows) == multiset(StampColumn(
        Join(EarningCalendarFor(localFile, Tickers(fetched.rows), now), fetched.rows, ChooseColumns(cfg, table, industry, index)),
        DataDateField, Str(IsoDate(now.date))))
  {
    var group := SelectGroup(sector, industry, index);
    if group.Err? {
      return Err(group.msg);
    }
    var g := group.value;
    var result: Fetched;
    if raw {
      result := RawTable(fetched);
    } else {
      var calendar := EarningCalendarFor(localFile, Tickers(fetched.rows), now);
      var prepared := PrepareFinvizCalendar(calendar, fetched, cfg, table, industry, index, now.date);
      if prepared.Err? {
        return Err(prepared.msg);
      }
      JoinedTickers(calendar, fetched.rows, ChooseColumns(cfg, table, industry, index), now.date, prepared.value);
      result := JoinedCalendar(prepared.value);
    }
    var savedTo := None;
    if save {
      var path := StoreData(cfg, true, g.subFolder, raw, g.tag, now.date);
      savedTo := Some(path.value);
    }
    r := Ok(Outcome(result, savedTo));
  }

  /** Every row of a prepared calendar belongs to a ticker with fundamentals. */
  lemma JoinedTickers(calendar: seq<CalRow>, fund: seq<TickerRow>, columns: seq<string>, today: CivilDate, rows: seq<CalRow>)
    requires multiset(rows) == multiset(StampColumn(Join(calendar, fund, columns), DataDateField, Str(IsoDate(today))))
    ensures forall y :: y in rows ==> y.ticker in Tickers(fund)
  {
    var joined := Join(calendar, fund, columns);
    var stamped := StampColumn(joined, DataDateField, Str(IsoDate(today)));
    forall y | y in rows ensures y.ticker in Tickers(fund) {
      assert y in multiset(stamped);
      var i :| 0 <= i < |stamped| && stamped[i] == y;
      assert joined[i].ticker == WithFundamentals(calendar, fund)[i].ticker;
    }
  }
}
