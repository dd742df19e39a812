/** `FinvizCalendarLoader` of finviz_utils/earnings_calendar/earnings_calendar.py: where a loader
    gets its calendar from, the `days_left` windows it answers, and the incremental `_store`. */
module CalendarLoading {
  import opened Results
  import opened Text
  import opened Cells
  import opened Tables
  import opened CalendarRows
  import opened CalendarPaths

  /** A Python argument that is given and non-empty (`if name:`). */
  predicate TruthyText(a: Option<string>)
  {
    a.Some? && a.value != ""
  }

  /** A Python integer argument that is given and non-zero. */
  predicate TruthyInt(a: Option<int>)
  {
    a.Some? && a.value != 0
  }

  /** The keyword arguments of `FinvizCalendarLoader.__init__`. `data` is `Some` when a DataFrame
      is passed; any other value behaves like `None`. */
  datatype LoaderArgs = LoaderArgs(
    source: Option<string>, name: Option<string>,
    year: Option<int>, month: Option<int>, week: Option<int>,
    data: Option<seq<CalRow>>, path: Option<string>)

  /** `source and name and year and month and week`. */
  predicate StoredArgsGiven(a: LoaderArgs)
  {
    TruthyText(a.source) && TruthyText(a.name) && TruthyInt(a.year) && TruthyInt(a.month) && TruthyInt(a.week)
  }

  const NoSourceMessage: string := "No raw data or stored data information provided"

  /** `_load_stored_data`: the group is lower-cased and must be one of the three groups; the file
      `DATA_FOLDER/FINVIZ_DATA_CALENDAR_FOLDER/<group>/<name>/y<year>/m<MM>/w<WW>/calendar.csv`
      is read from `files` (a missing file fails), its `days_left` refreshed and its rows sorted
      by `days_left`. */
  function LoadStored(cfg: Config, files: map<string, seq<CalRow>>, source: string, name: string,
                      year: int, month: int, week: int, now: Clock): (r: Result<seq<CalRow>>)
    requires now.Valid()
    ensures r.Err? <==> Lower(source) !in SubFolders || StoredPath(cfg, Lower(source), name, year, month, week) !in files
    ensures r.Ok? ==>
      var file := files[StoredPath(cfg, Lower(source), name, year, month, week)];
      SortedBy(r.value, DaysLeftOf) && multiset(r.value) == multiset(UpdateDaysLeft(file, now))
    ensures r.Ok? ==> Fresh(r.value, now)
  {
    var group := Lower(source);
    if group !in SubFolders then Err("Source is not valid " + group)
    else
      var path := StoredPath(cfg, group, name, year, month, week);
      if path !in files then Err("No such file: " + path)
      else
        var rows := UpdateDaysLeft(files[path], now);
        SortKeepsFresh(rows, SortBy(rows, DaysLeftOf), now);
        Ok(SortBy(rows, DaysLeftOf))
  }

  /** `_load_from_path`: the file at `path`, its `days_left` refreshed, in file order. */
  function LoadFromPath(files: map<string, seq<CalRow>>, path: string, now: Clock): (r: Result<seq<CalRow>>)
    requires now.Valid()
    ensures r.Err? <==> path !in files
    ensures r.Ok? ==> r.value == UpdateDaysLeft(files[path], now) && Fresh(r.value, now)
  {
    if path !in files then Err("No such file: " + path)
    else Ok(UpdateDaysLeft(files[path], now))
  }

  /** `FinvizCalendarLoader.__init__`: a DataFrame wins over stored-file coordinates, which win
      over a path; with none of them the loader refuses to start. */
  function LoadRows(args: LoaderArgs, cfg: Config, files: map<string, seq<CalRow>>, now: Clock): (r: Result<seq<CalRow>>)
    requires now.Valid()
    ensures r.Ok? ==> Fresh(r.value, now)
    ensures args.data.Some? ==> r.Ok? && r.value == UpdateDaysLeft(args.data.value, now)
    ensures args.data.None? && StoredArgsGiven(args) ==>
      r == LoadStored(cfg, files, args.source.value, args.name.value, args.year.value, args.month.value, args.week.value, now)
    ensures args.data.None? && !StoredArgsGiven(args) && TruthyText(args.path) ==> r == LoadFromPath(files, args.path.value, now)
    ensures args.data.None? && !StoredArgsGiven(args) && !TruthyText(args.path) ==> r == Err(NoSourceMessage)
  {
    if args.data.Some? then Ok(UpdateDaysLeft(args.data.value, now))
    else if StoredArgsGiven(args) then
      LoadStored(cfg, files, args.source.value, args.name.value, args.year.value, args.month.value, args.week.value, now)
    else if TruthyText(args.path) then LoadFromPath(files, args.path.value, now)
    else Err(NoSourceMessage)
  }

  /** Reordering rows keeps every `days_left` fresh. */
  lemma SortKeepsFresh(rows: seq<CalRow>, sorted: seq<CalRow>, now: Clock)
    requires now.Valid() && Fresh(rows, now) && multiset(sorted) == multiset(rows)
    ensures Fresh(sorted, now)
  {
    forall i | 0 <= i < |sorted| ensures sorted[i].daysLeft == DaysLeft(sorted[i].reportDate, now) {
      assert sorted[i] in multiset(rows);
      var j :| 0 <= j < |rows| && rows[j] == sorted[i];
    }
  }

  /** A refreshed row carries the `days_left` of its report date. */
  function Refreshed(x: CalRow, now: Clock): (r: CalRow)
    requires now.Valid()
  {
    x.(daysLeft := DaysLeft(x.reportDate, now))
  }

  const UpdatedAtField: string := "updatedAt"

  /** `_store`: old rows then new rows, `drop_duplicates(['reportDate', 'Ticker'], keep=keep)`,
      `days_left` refreshed, sorted by `days_left`, and every row stamped `updatedAt` = today. */
  function Store(stored: seq<CalRow>, incoming: seq<CalRow>, keep: Keep, now: Clock): (r: seq<CalRow>)
    requires now.Valid()
    ensures SortedBy(r, DaysLeftOf)
  {
    var sorted := SortBy(UpdateDaysLeft(Dedup(stored + incoming, keep), now), DaysLeftOf);
    StampKeepsOrder(sorted, UpdatedAtField, Str(IsoDate(now.date)));
    StampColumn(sorted, UpdatedAtField, Str(IsoDate(now.date)))
  }

  /** After `_store` no two rows share (reportDate, Ticker), every key of the old and new rows
      is there, and the row of each key is the one `drop_duplicates` kept, refreshed and
      stamped with today's date. */
  lemma StoreRows(stored: seq<CalRow>, incoming: seq<CalRow>, keep: Keep, now: Clock)
    requires now.Valid()
    ensures var r := Store(stored, incoming, keep, now);
      && UniqueKeys(r)
      && KeysOf(r) == KeysOf(stored + incoming)
      && forall x :: x in r ==>
           Key(x) in KeysOf(stored + incoming)
           && x == Stamped(Refreshed(Chosen(stored + incoming, keep, Key(x)), now), UpdatedAtField, Str(IsoDate(now.date)))
  {
    var kept := Dedup(stored + incoming, keep);
    StoreReorders(kept, now);
    StampedRows(kept, now);
    StoredRowsOf(stored + incoming, keep, kept, Store(stored, incoming, keep, now), now);
  }

  lemma StoredRowsOf(all: seq<CalRow>, keep: Keep, kept: seq<CalRow>, r: seq<CalRow>, now: Clock)
    requires now.Valid()
    requires UniqueKeys(kept) && KeysOf(kept) == KeysOf(all)
    requires forall x :: x in kept ==> Key(x) in KeysOf(all) && x == Chosen(all, keep, Key(x))
    requires var stamped := StampColumn(UpdateDaysLeft(kept, now), UpdatedAtField, Str(IsoDate(now.date)));
      && multiset(r) == multiset(stamped)
      && |stamped| == |kept|
      && KeysOf(stamped) == KeysOf(kept)
      && forall i :: 0 <= i < |kept| ==> stamped[i] == Stamped(Refreshed(kept[i], now), UpdatedAtField, Str(IsoDate(now.date)))
    ensures UniqueKeys(r) && KeysOf(r) == KeysOf(all)
    ensures forall x :: x in r ==>
      Key(x) in KeysOf(all) && x == Stamped(Refreshed(Chosen(all, keep, Key(x)), now), UpdatedAtField, Str(IsoDate(now.date)))
  {
    var today := Str(IsoDate(now.date));
    var stamped := StampColumn(UpdateDaysLeft(kept, now), UpdatedAtField, today);
    KeysOfPermutation(r, stamped);
    assert |r| == |stamped| by {
      assert |multiset(r)| == |multiset(stamped)|;
    }
    forall x | x in r
      ensures Key(x) in KeysOf(all) && x == Stamped(Refreshed(Chosen(all, keep, Key(x)), now), UpdatedAtField, today)
    {
      assert x in multiset(stamped);
      var i :| 0 <= i < |stamped| && stamped[i] == x;
      assert kept[i] in kept;
    }
  }

  /** The stored rows are the refreshed, stamped rows `drop_duplicates` kept, in another order. */
  lemma StoreReorders(kept: seq<CalRow>, now: Clock)
    requires now.Valid()
    ensures var stamped := StampColumn(UpdateDaysLeft(kept, now), UpdatedAtField, Str(IsoDate(now.date)));
      multiset(StampColumn(SortBy(UpdateDaysLeft(kept, now), DaysLeftOf), UpdatedAtField, Str(IsoDate(now.date))))
        == multiset(stamped)
      && |stamped| == |kept|
  {
    StampSortCommute(UpdateDaysLeft(kept, now), UpdatedAtField, Str(IsoDate(now.date)));
  }

  /** Refreshing and stamping keeps each row's key and changes nothing else of it. */
  lemma StampedRows(kept: seq<CalRow>, now: Clock)
    requires now.Valid()
    ensures var stamped := StampColumn(UpdateDaysLeft(kept, now), UpdatedAtField, Str(IsoDate(now.date)));
      && |stamped| == |kept|
      && KeysOf(stamped) == KeysOf(kept)
      && forall i :: 0 <= i < |kept| ==> stamped[i] == Stamped(Refreshed(kept[i], now), UpdatedAtField, Str(IsoDate(now.date)))
  {
    var stamped := StampColumn(UpdateDaysLeft(kept, now), UpdatedAtField, Str(IsoDate(now.date)));
    assert forall i :: 0 <= i < |kept| ==> Key(stamped[i]) == Key(kept[i]);
    KeysOfPointwise(stamped, kept);
  }

  /** With `keep='first'` a key the stored table already has keeps its stored row. */
  lemma StoreKeepsOld(stored: seq<CalRow>, incoming: seq<CalRow>, now: Clock, x: CalRow)
    requires now.Valid()
    requires x in Store(stored, incoming, KeepFirst, now) && Key(x) in KeysOf(stored)
    ensures x == Stamped(Refreshed(FirstWithKey(stored, Key(x)), now), UpdatedAtField, Str(IsoDate(now.date)))
  {
    StoreRows(stored, incoming, KeepFirst, now);
    FirstWithKeyPrefix(stored, incoming, Key(x));
  }

  /** With `keep='last'` a key the new rows have takes its newest new row. */
  lemma StoreTakesNew(stored: seq<CalRow>, incoming: seq<CalRow>, now: Clock, x: CalRow)
    requires now.Valid()
    requires x in Store(stored, incoming, KeepLast, now) && Key(x) in KeysOf(incoming)
    ensures x == Stamped(Refreshed(LastWithKey(incoming, Key(x)), now), UpdatedAtField, Str(IsoDate(now.date)))
  {
    StoreRows(stored, incoming, KeepLast, now);
    LastWithKeySuffix(stored, incoming, Key(x));
  }

  /** A loader holds the calendar it was opened with. */
  class CalendarLoader {
    var data: seq<CalRow>
    /** The reading of the clock the rows' `days_left` were computed at. */
    ghost var loadedAt: Clock

    ghost predicate Valid()
      reads this
    {
      loadedAt.Valid() && Fresh(data, loadedAt)
    }

    constructor FromRows(rows: seq<CalRow>, ghost now: Clock)
      requires now.Valid() && Fresh(rows, now)
      ensures Valid() && data == rows && loadedAt == now
    {
      data := rows;
      loadedAt := now;
    }

    /** `FinvizCalendarLoader(...)`: a loader over `LoadRows`, or the exception it raises. */
    static method Open(args: LoaderArgs, cfg: Config, files: map<string, seq<CalRow>>, now: Clock)
      returns (r: Result<CalendarLoader>)
      requires now.Valid()
      ensures r.Err? <==> LoadRows(args, cfg, files, now).Err?
      ensures r.Ok? ==> fresh(r.value) && r.value.Valid() && r.value.data == LoadRows(args, cfg, files, now).value
    {
      var rows := LoadRows(args, cfg, files, now);
      if rows.Err? {
        return Err(rows.msg);
      }
      var loader := new CalendarLoader.FromRows(rows.value, now);
      r := Ok(loader);
    }

    /** `upcoming(days)`: the rows reporting between now and `days` days from now. */
    function Upcoming(days: int): (r: seq<CalRow>)
      reads this
      ensures IsSubsequence(r, data)
      ensures forall x :: multiset(r)[x] == if 0 <= x.daysLeft <= days then multiset(data)[x] else 0
    {
      Filter(data, (x: CalRow) => 0 <= x.daysLeft <= days)
    }

    /** `former(days)`: the rows reported within the last `days` days; 0 days is refused. */
    function Former(days: int): (r: Result<seq<CalRow>>)
      reads this
      ensures r.Err? <==> days == 0
      ensures r.Ok? ==> IsSubsequence(r.value, data)
      ensures r.Ok? ==> forall x :: multiset(r.value)[x] == if -days <= x.daysLeft < 0 then multiset(data)[x] else 0
    {
      if days == 0 then Err("0 is not allowed, that is the equivalent of less than 24 hours")
      else Ok(Filter(data, (x: CalRow) => x.daysLeft < 0 && x.daysLeft >= -days))
    }

    /** `get_reported_by_days(days)`: the rows reported strictly less than `days` days ago. */
    function ReportedByDays(days: int): (r: seq<CalRow>)
      reads this
      ensures IsSubsequence(r, data)
      ensures forall x :: multiset(r)[x] == if -days < x.daysLeft < 0 then multiset(data)[x] else 0
    {
      Filter(data, (x: CalRow) => x.daysLeft < 0 && x.daysLeft > -days)
    }

    /** `upcoming_from_days(days, batch_size)`: the first `batch_size` rows (Python slice
        semantics) of those reporting `days` or more days from now. */
    function UpcomingFromDays(days: int, batchSize: int): (r: seq<CalRow>)
      reads this
      ensures IsSubsequence(r, data)
      ensures forall x :: x in r ==> x in data && x.daysLeft >= days
      ensures r <= Filter(data, (x: CalRow) => x.daysLeft >= days)
      ensures batchSize >= 0 ==> |r| == Min(batchSize, |Filter(data, (x: CalRow) => x.daysLeft >= days)|)
    {
      var later := Filter(data, (x: CalRow) => x.daysLeft >= days);
      FilterMembers(data, (x: CalRow) => x.daysLeft >= days);
      PrefixIsSubsequence(later, TakePrefix(later, batchSize));
      SubsequenceTrans(TakePrefix(later, batchSize), later, data);
      TakePrefix(later, batchSize)
    }

    /** `get_reported_by_ticker(ticker)`: the rows of one ticker, in order. */
    function ReportedByTicker(ticker: string): (r: seq<CalRow>)
      reads this
      ensures IsSubsequence(r, data)
      ensures forall x :: multiset(r)[x] == if x.ticker == ticker then multiset(data)[x] else 0
    {
      Filter(data, (x: CalRow) => x.ticker == ticker)
    }

    /** `store_upcoming(days, keep=keep)` against the rows already stored (the file at `path`,
        read by the caller): every key of the stored and the upcoming rows once, each row the one
        `keep` picks, refreshed and stamped, sorted by `days_left`. */
    function StoreUpcoming(stored: seq<CalRow>, days: int, keep: Keep, now: Clock): (r: seq<CalRow>)
      reads this
      requires now.Valid()
      ensures SortedBy(r, DaysLeftOf)
      ensures UniqueKeys(r) && KeysOf(r) == KeysOf(stored + Upcoming(days))
      ensures forall x :: x in r ==>
        Key(x) in KeysOf(stored + Upcoming(days))
        && x == Stamped(Refreshed(Chosen(stored + Upcoming(days), keep, Key(x)), now), UpdatedAtField, Str(IsoDate(now.date)))
    {
      StoreRows(stored, Upcoming(days), keep, now);
      Store(stored, Upcoming(days), keep, now)
    }

    /** `store_former(days, keep=keep)` as written: it stores `upcoming(days)`, so its keys are
        those of the stored and the upcoming rows. */
    function StoreFormer(stored: seq<CalRow>, days: int, keep: Keep, now: Clock): (r: seq<CalRow>)
      reads this
      requires now.Valid()
      ensures SortedBy(r, DaysLeftOf)
      ensures UniqueKeys(r) && KeysOf(r) == KeysOf(stored) + KeysOf(Upcoming(days))
      ensures forall x :: x in r ==>
        Key(x) in KeysOf(stored + Upcoming(days))
        && x == Stamped(Refreshed(Chosen(stored + Upcoming(days), keep, Key(x)), now), UpdatedAtField, Str(IsoDate(now.date)))
    {
      var upcoming := Upcoming(days);
      StoreRows(stored, upcoming, keep, now);
      KeysOfAppend(stored, upcoming);
      Store(stored, upcoming, keep, now)
    }

    /** `store_former` as evidently intended: it stores `former(days)`, and so refuses 0 days. */
    function StoreFormerCorrected(stored: seq<CalRow>, days: int, keep: Keep, now: Clock): (r: Result<seq<CalRow>>)
      reads this
      requires now.Valid()
      ensures r.Err? <==> days == 0
      ensures r.Ok? ==> SortedBy(r.value, DaysLeftOf)
      ensures r.Ok? ==> UniqueKeys(r.value) && KeysOf(r.value) == KeysOf(stored) + KeysOf(Former(days).value)
      ensures r.Ok? ==> forall x :: x in r.value ==>
        Key(x) in KeysOf(stored + Former(days).value)
        && x == Stamped(Refreshed(Chosen(stored + Former(days).value, keep, Key(x)), now), UpdatedAtField, Str(IsoDate(now.date)))
    {
      var rows := Former(days);
      if rows.Err? then Err(rows.msg)
      else
        StoreRows(stored, rows.value, keep, now);
        KeysOfAppend(stored, rows.value);
        Ok(Store(stored, rows.value, keep, now))
    }
  }

  /** A row reporting within the next 24 hours (`days_left` 0) is upcoming for any horizon of
      0 days or more and is in neither window of reported rows. */
  lemma TodayIsNotPast(l: CalendarLoader, x: CalRow, days: int)
    requires x in l.data && x.daysLeft == 0
    ensures x in l.Upcoming(days) <==> days >= 0
    ensures x !in l.ReportedByDays(days)
    ensures days != 0 ==> x !in l.Former(days).value
  {
    assert x in multiset(l.data);
    assert x in l.Upcoming(days) <==> multiset(l.Upcoming(days))[x] > 0;
    assert multiset(l.ReportedByDays(days))[x] == 0;
    if days != 0 {
      assert multiset(l.Former(days).value)[x] == 0;
    }
  }

  /** No row is both upcoming and already reported. */
  lemma UpcomingFormerDisjoint(l: CalendarLoader, ahead: int, back: int, x: CalRow)
    requires back != 0
    ensures !(x in l.Upcoming(ahead) && x in l.Former(back).value)
    ensures !(x in l.Upcoming(ahead) && x in l.ReportedByDays(back))
  {
    if x in l.Upcoming(ahead) {
      assert multiset(l.Upcoming(ahead))[x] > 0;
      assert multiset(l.Former(back).value)[x] == 0;
      assert multiset(l.ReportedByDays(back))[x] == 0;
    }
  }

  /** `get_reported_by_days(days)` is `former(days - 1)`: a strict lower bound of `-days` is an
      inclusive one of `-(days - 1)`. */
  lemma ReportedByDaysIsFormer(l: CalendarLoader, days: int)
    requires days != 1
    ensures l.Former(days - 1).Ok? && l.ReportedByDays(days) == l.Former(days - 1).value
  {
    FilterAgrees(l.data, (x: CalRow) => x.daysLeft < 0 && x.daysLeft > -days,
                         (x: CalRow) => x.daysLeft < 0 && x.daysLeft >= -(days - 1));
  }

  /** `store_former` as written never stores a row reported within the window it is asked for
      (unless the stored table had its key already), while the intended version always does. */
  lemma StoreFormerDropsFormerRows(l: CalendarLoader, stored: seq<CalRow>, days: int, keep: Keep, now: Clock, x: CalRow)
    requires l.Valid() && now.Valid()
    requires x in l.data && -days <= x.daysLeft < 0 && Key(x) !in KeysOf(stored)
    ensures Key(x) !in KeysOf(l.StoreFormer(stored, days, keep, now))
    ensures l.StoreFormerCorrected(stored, days, keep, now).Ok?
    ensures Key(x) in KeysOf(l.StoreFormerCorrected(stored, days, keep, now).value)
  {
    var up := l.Upcoming(days);
    var past := l.Former(days).value;
    StoreRows(stored, up, keep, now);
    StoreRows(stored, past, keep, now);
    KeysOfAppend(stored, up);
    KeysOfAppend(stored, past);
    PastKeyNotUpcoming(l, days, x);
    assert x in multiset(past);
    assert x in past;
  }

  /** Rows of one key share a report date and so, in a loader, a `days_left`: a reported row's
      key is not among the upcoming rows' keys. */
  lemma PastKeyNotUpcoming(l: CalendarLoader, days: int, x: CalRow)
    requires l.Valid() && x in l.data && x.daysLeft < 0
    ensures Key(x) !in KeysOf(l.Upcoming(days))
  {
    var up := l.Upcoming(days);
    var i :| 0 <= i < |l.data| && l.data[i] == x;
    forall j | 0 <= j < |up| ensures Key(up[j]) != Key(x) {
      assert up[j] in multiset(up);
      var k :| 0 <= k < |l.data| && l.data[k] == up[j];
    }
    KeyWitness(up, Key(x));
  }

  function Min(a: int, b: int): int { if a <= b then a else b }

  lemma {:induction false} PrefixIsSubsequence<T>(s: seq<T>, p: seq<T>)
    requires p <= s
    ensures IsSubsequence(p, s)
    decreases |s|
  {
    if p != [] {
      PrefixIsSubsequence(s[1..], p[1..]);
    }
  }

  lemma {:induction false} SubsequenceTrans<T>(a: seq<T>, b: seq<T>, c: seq<T>)
    requires IsSubsequence(a, b) && IsSubsequence(b, c)
    ensures IsSubsequence(a, c)
    decreases |c|
  {
    if a != [] && c != [] {
      if b != [] && b[0] == c[0] && IsSubsequence(b[1..], c[1..]) {
        if a[0] == b[0] && IsSubsequence(a[1..], b[1..]) {
          SubsequenceTrans(a[1..], b[1..], c[1..]);
        } else {
          SubsequenceTrans(a, b[1..], c[1..]);
        }
      } else {
        SubsequenceTrans(a, b, c[1..]);
      }
    }
  }
}
