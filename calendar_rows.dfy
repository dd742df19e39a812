/** Rows of the earnings calendar, the `days_left` clock arithmetic, and the
    `drop_duplicates(['reportDate', 'Ticker'])` step, for finviz_utils/earnings_calendar. */
module CalendarRows {
  import opened Text
  import opened Cells
  import opened Tables

  /** `timedelta(days=1)` in microseconds, the resolution of `datetime`. */
  const MicrosPerDay: int := 86_400_000_000

  /** A calendar date as `datetime` reports it. */
  datatype CivilDate = CivilDate(year: int, month: int, day: int)

  /** A reading of `datetime.today()` / `datetime.now()`: the day number of today, the
      microseconds elapsed since midnight, and today's calendar date. */
  datatype Clock = Clock(day: int, micro: int, date: CivilDate)
  {
    ghost predicate Valid()
    {
      0 <= micro < MicrosPerDay && 1 <= date.month <= 12 && 1 <= date.day <= 31
    }
  }

  /** The signed time from `now` to midnight of day `reportDate`, in microseconds. */
  function Until(reportDate: int, now: Clock): int
  {
    (reportDate - now.day) * MicrosPerDay - now.micro
  }

  /** `_compute_days_left`: `(reportDate - now).days`. A `timedelta` keeps its days rounded
      down, so this is the floor of the difference in days, not its truncation. */
  function DaysLeft(reportDate: int, now: Clock): (d: int)
    requires now.Valid()
    ensures d == reportDate - now.day - (if now.micro > 0 then 1 else 0)
  {
    var e := reportDate - now.day - (if now.micro > 0 then 1 else 0);
    assert e * MicrosPerDay <= Until(reportDate, now) < (e + 1) * MicrosPerDay;
    Until(reportDate, now) / MicrosPerDay
  }

  /** `days_left` is the whole number of days `d` with `d` days <= time to the report < `d + 1` days. */
  lemma DaysLeftFloor(reportDate: int, now: Clock)
    requires now.Valid()
    ensures var d := DaysLeft(reportDate, now); d * MicrosPerDay <= Until(reportDate, now) < (d + 1) * MicrosPerDay
  {
  }

  /** `days_left == 0` exactly when the report is less than 24 hours away. */
  lemma DaysLeftZero(reportDate: int, now: Clock)
    requires now.Valid()
    ensures DaysLeft(reportDate, now) == 0 <==> 0 <= Until(reportDate, now) < MicrosPerDay
  {
  }

  /** A report dated today counts as already past (-1) once midnight has gone by. */
  lemma DaysLeftToday(now: Clock)
    requires now.Valid() && now.micro > 0
    ensures DaysLeft(now.day, now) == -1
  {
  }

  /** A later report never has fewer days left. */
  lemma DaysLeftMonotone(a: int, b: int, now: Clock)
    requires now.Valid() && a <= b
    ensures DaysLeft(a, now) <= DaysLeft(b, now)
  {
  }

  /** `strftime("%Y-%m-%d")`. */
  function IsoDate(d: CivilDate): (r: string)
    ensures IntToString(d.year) + "-" <= r
    ensures |r| >= |IntToString(d.year)| + 6
  {
    IntToString(d.year) + "-" + ZFill(IntToString(d.month), 2) + "-" + ZFill(IntToString(d.day), 2)
  }

  /** One earnings-calendar row: its report date (a day number), its ticker ("symbol" or
      "Ticker" in the source's frames), its `days_left`, and its other columns. */
  datatype CalRow = CalRow(reportDate: int, ticker: string, daysLeft: int, fields: map<string, Cell>)

  function ReportDateOf(r: CalRow): int { r.reportDate }

  function DaysLeftOf(r: CalRow): int { r.daysLeft }

  /** `_update_days_left`: every row's `days_left` recomputed from its report date; nothing
      else about the rows changes. */
  function UpdateDaysLeft(rows: seq<CalRow>, now: Clock): (r: seq<CalRow>)
    requires now.Valid()
    ensures |r| == |rows|
    ensures forall i :: 0 <= i < |rows| ==>
      && r[i].daysLeft == DaysLeft(rows[i].reportDate, now)
      && r[i].reportDate == rows[i].reportDate && r[i].ticker == rows[i].ticker && r[i].fields == rows[i].fields
  {
    seq(|rows|, i requires 0 <= i < |rows| => rows[i].(daysLeft := DaysLeft(rows[i].reportDate, now)))
  }

  /** Every row's `days_left` is the one computed from its report date at `now`. */
  ghost predicate Fresh(rows: seq<CalRow>, now: Clock)
    requires now.Valid()
  {
    forall i :: 0 <= i < |rows| ==> rows[i].daysLeft == DaysLeft(rows[i].reportDate, now)
  }

  /** `df[field] = value`: the same value written into every row. */
  function StampColumn(rows: seq<CalRow>, field: string, value: Cell): (r: seq<CalRow>)
    ensures |r| == |rows|
    ensures forall i :: 0 <= i < |rows| ==>
      && r[i].fields == rows[i].fields[field := value]
      && r[i].reportDate == rows[i].reportDate && r[i].ticker == rows[i].ticker && r[i].daysLeft == rows[i].daysLeft
  {
    seq(|rows|, i requires 0 <= i < |rows| => Stamped(rows[i], field, value))
  }

  /** The row `StampColumn` makes of `x`. */
  function Stamped(x: CalRow, field: string, value: Cell): CalRow
  {
    x.(fields := x.fields[field := value])
  }

  lemma StampKeepsOrder(rows: seq<CalRow>, field: string, value: Cell)
    requires SortedBy(rows, DaysLeftOf)
    ensures SortedBy(StampColumn(rows, field, value), DaysLeftOf)
  {
    var stamped := StampColumn(rows, field, value);
    forall i, j | 0 <= i < j < |stamped| ensures DaysLeftOf(stamped[i]) <= DaysLeftOf(stamped[j]) {
      assert stamped[i].daysLeft == rows[i].daysLeft && stamped[j].daysLeft == rows[j].daysLeft;
    }
  }

  lemma {:induction false} StampInsert(x: CalRow, rows: seq<CalRow>, field: string, value: Cell)
    requires SortedBy(rows, DaysLeftOf)
    ensures SortedBy(StampColumn(rows, field, value), DaysLeftOf)
    ensures StampColumn(InsertBy(x, rows, DaysLeftOf), field, value)
         == InsertBy(Stamped(x, field, value), StampColumn(rows, field, value), DaysLeftOf)
    decreases |rows|
  {
    StampKeepsOrder(rows, field, value);
    var stamped := StampColumn(rows, field, value);
    var sx := Stamped(x, field, value);
    if rows == [] || DaysLeftOf(x) <= DaysLeftOf(rows[0]) {
      InsertByFront(x, rows, DaysLeftOf);
      InsertByFront(sx, stamped, DaysLeftOf);
      StampCons(x, rows, field, value);
    } else {
      assert SortedBy(rows[1..], DaysLeftOf);
      StampInsert(x, rows[1..], field, value);
      StampTail(rows, field, value);
      var tail := InsertBy(x, rows[1..], DaysLeftOf);
      InsertByBehind(x, rows, DaysLeftOf);
      InsertByBehind(sx, stamped, DaysLeftOf);
      StampCons(rows[0], tail, field, value);
    }
  }

  lemma StampCons(x: CalRow, rows: seq<CalRow>, field: string, value: Cell)
    ensures StampColumn([x] + rows, field, value) == [Stamped(x, field, value)] + StampColumn(rows, field, value)
  {
  }

  lemma InsertByFront<T>(x: T, s: seq<T>, key: T -> int)
    requires SortedBy(s, key) && (s == [] || key(x) <= key(s[0]))
    ensures InsertBy(x, s, key) == [x] + s
  {
  }

  lemma InsertByBehind<T>(x: T, s: seq<T>, key: T -> int)
    requires SortedBy(s, key) && s != [] && key(x) > key(s[0])
    ensures SortedBy(s[1..], key)
    ensures InsertBy(x, s, key) == [s[0]] + InsertBy(x, s[1..], key)
  {
  }

  lemma StampTail(rows: seq<CalRow>, field: string, value: Cell)
    requires rows != []
    ensures StampColumn(rows, field, value)[0] == Stamped(rows[0], field, value)
    ensures StampColumn(rows, field, value)[1..] == StampColumn(rows[1..], field, value)
  {
  }

  lemma SortByUnfold<T>(s: seq<T>, key: T -> int)
    requires s != []
    ensures SortBy(s, key) == InsertBy(s[0], SortBy(s[1..], key), key)
  {
  }

  /** Stamping a column and sorting by `days_left` can be done in either order: the stamp does
      not touch `days_left`. */
  lemma {:induction false} StampSortCommute(rows: seq<CalRow>, field: string, value: Cell)
    ensures StampColumn(SortBy(rows, DaysLeftOf), field, value) == SortBy(StampColumn(rows, field, value), DaysLeftOf)
    decreases |rows|
  {
    if rows != [] {
      var stamped := StampColumn(rows, field, value);
      var sortedTail := SortBy(rows[1..], DaysLeftOf);
      StampSortCommute(rows[1..], field, value);
      StampInsert(rows[0], sortedTail, field, value);
      StampTail(rows, field, value);
      SortByUnfold(rows, DaysLeftOf);
      SortByUnfold(stamped, DaysLeftOf);
      var a := StampColumn(SortBy(rows, DaysLeftOf), field, value);
      assert a == StampColumn(InsertBy(rows[0], sortedTail, DaysLeftOf), field, value);
      assert a == InsertBy(stamped[0], StampColumn(sortedTail, field, value), DaysLeftOf);
    }
  }

  // ----- duplicate keys -----

  /** The key `drop_duplicates` compares: (reportDate, Ticker). */
  type RowKey = (int, string)

  function Key(r: CalRow): RowKey { (r.reportDate, r.ticker) }

  function KeysOf(rows: seq<CalRow>): (ks: set<RowKey>)
    ensures forall x :: x in rows ==> Key(x) in ks
    ensures |ks| <= |rows|
    decreases |rows|
  {
    if rows == [] then {}
    else
      assert rows == [rows[0]] + rows[1..];
      {Key(rows[0])} + KeysOf(rows[1..])
  }

  /** The keys are exactly the keys of the rows. */
  lemma {:induction false} KeyWitness(rows: seq<CalRow>, k: RowKey)
    ensures k in KeysOf(rows) <==> exists i :: 0 <= i < |rows| && Key(rows[i]) == k
    decreases |rows|
  {
    if rows != [] {
      KeyWitness(rows[1..], k);
      if k in KeysOf(rows[1..]) {
        var i :| 0 <= i < |rows[1..]| && Key(rows[1..][i]) == k;
        assert Key(rows[i + 1]) == k;
      }
      if exists i :: 0 <= i < |rows| && Key(rows[i]) == k {
        var i :| 0 <= i < |rows| && Key(rows[i]) == k;
        if i > 0 { assert Key(rows[1..][i - 1]) == k; }
      }
    }
  }

  /** No two rows share a key: as many keys as rows. */
  ghost predicate UniqueKeys(rows: seq<CalRow>)
  {
    |KeysOf(rows)| == |rows|
  }

  /** Unique keys in the plain sense: rows at different positions have different keys. */
  lemma {:induction false} UniqueKeysDistinct(rows: seq<CalRow>)
    ensures UniqueKeys(rows) <==> forall i, j :: 0 <= i < j < |rows| ==> Key(rows[i]) != Key(rows[j])
    decreases |rows|
  {
    if rows != [] {
      var rest := rows[1..];
      UniqueKeysDistinct(rest);
      if Key(rows[0]) in KeysOf(rest) {
        KeyWitness(rest, Key(rows[0]));
        var j :| 0 <= j < |rest| && Key(rest[j]) == Key(rows[0]);
        assert Key(rows[0]) == Key(rows[j + 1]);
        assert KeysOf(rows) == KeysOf(rest);
      } else {
        assert |KeysOf(rows)| == |KeysOf(rest)| + 1;
        DistinctFreshHead(rows);
      }
    }
  }

  /** A head whose key the tail lacks keeps the keys distinct exactly when the tail's are. */
  lemma DistinctFreshHead(rows: seq<CalRow>)
    requires rows != [] && Key(rows[0]) !in KeysOf(rows[1..])
    ensures (forall i, j :: 0 <= i < j < |rows[1..]| ==> Key(rows[1..][i]) != Key(rows[1..][j]))
        <==> (forall i, j :: 0 <= i < j < |rows| ==> Key(rows[i]) != Key(rows[j]))
  {
    var rest := rows[1..];
    if forall i, j :: 0 <= i < j < |rest| ==> Key(rest[i]) != Key(rest[j]) {
      forall i, j | 0 <= i < j < |rows| ensures Key(rows[i]) != Key(rows[j]) {
        if i > 0 { assert Key(rows[i]) == Key(rest[i - 1]) && Key(rows[j]) == Key(rest[j - 1]); }
        else { assert rest[j - 1] in rest; }
      }
    } else {
      var i, j :| 0 <= i < j < |rest| && Key(rest[i]) == Key(rest[j]);
      assert Key(rows[i + 1]) == Key(rows[j + 1]);
    }
  }

  /** Two tables whose rows have the same keys position by position have the same key set. */
  lemma {:induction false} KeysOfPointwise(a: seq<CalRow>, b: seq<CalRow>)
    requires |a| == |b| && forall i :: 0 <= i < |a| ==> Key(a[i]) == Key(b[i])
    ensures KeysOf(a) == KeysOf(b)
    decreases |a|
  {
    if a != [] {
      KeysOfPointwise(a[1..], b[1..]);
    }
  }

  /** The same rows in another order have the same key set. */
  lemma KeysOfPermutation(a: seq<CalRow>, b: seq<CalRow>)
    requires multiset(a) == multiset(b)
    ensures KeysOf(a) == KeysOf(b)
  {
    forall k | k in KeysOf(a) ensures k in KeysOf(b) {
      KeyWitness(a, k);
      var i :| 0 <= i < |a| && Key(a[i]) == k;
      assert a[i] in multiset(b);
    }
    forall k | k in KeysOf(b) ensures k in KeysOf(a) {
      KeyWitness(b, k);
      var i :| 0 <= i < |b| && Key(b[i]) == k;
      assert b[i] in multiset(a);
    }
  }

  lemma {:induction false} KeysOfAppend(a: seq<CalRow>, b: seq<CalRow>)
    ensures KeysOf(a + b) == KeysOf(a) + KeysOf(b)
    decreases |a|
  {
    if a == [] {
      assert a + b == b;
    } else {
      assert (a + b)[1..] == a[1..] + b;
      KeysOfAppend(a[1..], b);
    }
  }

  /** The first row carrying key `k`. */
  function FirstWithKey(rows: seq<CalRow>, k: RowKey): (r: CalRow)
    requires k in KeysOf(rows)
    ensures r in rows && Key(r) == k
    ensures exists i :: 0 <= i < |rows| && rows[i] == r && forall j :: 0 <= j < i ==> Key(rows[j]) != k
    decreases |rows|
  {
    if Key(rows[0]) == k then rows[0]
    else
      var r := FirstWithKey(rows[1..], k);
      var i :| 0 <= i < |rows[1..]| && rows[1..][i] == r && forall j :: 0 <= j < i ==> Key(rows[1..][j]) != k;
      assert rows[i + 1] == r;
      assert forall j :: 0 <= j < i + 1 ==> Key(rows[j]) != k by {
        forall j | 0 <= j < i + 1 ensures Key(rows[j]) != k {
          if j > 0 { assert rows[j] == rows[1..][j - 1]; }
        }
      }
      r
  }

  /** The last row carrying key `k`. */
  function LastWithKey(rows: seq<CalRow>, k: RowKey): (r: CalRow)
    requires k in KeysOf(rows)
    ensures r in rows && Key(r) == k
    ensures exists i :: 0 <= i < |rows| && rows[i] == r && forall j :: i < j < |rows| ==> Key(rows[j]) != k
    decreases |rows|
  {
    if k in KeysOf(rows[1..]) then
      var r := LastWithKey(rows[1..], k);
      var i :| 0 <= i < |rows[1..]| && rows[1..][i] == r && forall j :: i < j < |rows[1..]| ==> Key(rows[1..][j]) != k;
      assert rows[i + 1] == r;
      assert forall j :: i + 1 < j < |rows| ==> Key(rows[j]) != k by {
        forall j | i + 1 < j < |rows| ensures Key(rows[j]) != k {
          assert rows[j] == rows[1..][j - 1];
        }
      }
      r
    else
      assert forall j :: 0 < j < |rows| ==> Key(rows[j]) != k by {
        forall j | 0 < j < |rows| ensures Key(rows[j]) != k {
          assert rows[j] == rows[1..][j - 1];
          assert rows[1..][j - 1] in rows[1..];
        }
      }
      KeyWitness(rows, k);
      rows[0]
  }

  /** `keep='first'` or `keep='last'`. */
  datatype Keep = KeepFirst | KeepLast

  /** The row `drop_duplicates` keeps for key `k`. */
  function Chosen(rows: seq<CalRow>, keep: Keep, k: RowKey): CalRow
    requires k in KeysOf(rows)
  {
    match keep
    case KeepFirst => FirstWithKey(rows, k)
    case KeepLast => LastWithKey(rows, k)
  }

  /** `drop_duplicates(keep='first')` on the rows that follow a set of keys already taken. */
  function DedupFirstFrom(rows: seq<CalRow>, seen: set<RowKey>): (r: seq<CalRow>)
    ensures IsSubsequence(r, rows)
    ensures UniqueKeys(r)
    ensures KeysOf(r) == KeysOf(rows) - seen
    ensures forall x :: x in r ==> Key(x) in KeysOf(rows) && x == FirstWithKey(rows, Key(x))
    decreases |rows|
  {
    if rows == [] then []
    else if Key(rows[0]) in seen then
      var r := DedupFirstFrom(rows[1..], seen);
      assert KeysOf(rows) == {Key(rows[0])} + KeysOf(rows[1..]);
      r
    else
      var rest := DedupFirstFrom(rows[1..], seen + {Key(rows[0])});
      var r := [rows[0]] + rest;
      assert r[1..] == rest;
      assert KeysOf(rows) == {Key(rows[0])} + KeysOf(rows[1..]);
      assert KeysOf(r) == {Key(rows[0])} + KeysOf(rest);
      assert Key(rows[0]) !in KeysOf(rest);
      r
  }

  /** `drop_duplicates(['reportDate', 'Ticker'], keep='last')`. */
  function DedupLast(rows: seq<CalRow>): (r: seq<CalRow>)
    ensures IsSubsequence(r, rows)
    ensures UniqueKeys(r)
    ensures KeysOf(r) == KeysOf(rows)
    ensures forall x :: x in r ==> Key(x) in KeysOf(rows) && x == LastWithKey(rows, Key(x))
    decreases |rows|
  {
    if rows == [] then []
    else
      var rest := DedupLast(rows[1..]);
      assert KeysOf(rows) == {Key(rows[0])} + KeysOf(rows[1..]);
      if Key(rows[0]) in KeysOf(rows[1..]) then rest
      else
        var r := [rows[0]] + rest;
        assert r[1..] == rest;
        assert KeysOf(r) == {Key(rows[0])} + KeysOf(rest);
        r
  }

  /** `drop_duplicates(['reportDate', 'Ticker'], keep=keep)`: no key repeats, every key of the
      input survives, and the survivor of a key is its first or last row, in input order. */
  function Dedup(rows: seq<CalRow>, keep: Keep): (r: seq<CalRow>)
    ensures IsSubsequence(r, rows)
    ensures UniqueKeys(r)
    ensures KeysOf(r) == KeysOf(rows)
    ensures forall x :: x in r ==> Key(x) in KeysOf(rows) && x == Chosen(rows, keep, Key(x))
  {
    match keep
    case KeepFirst => DedupFirstFrom(rows, {})
    case KeepLast => DedupLast(rows)
  }

  /** A table whose keys are already unique comes through unchanged. */
  lemma {:induction false} DedupOfUnique(rows: seq<CalRow>, keep: Keep)
    requires UniqueKeys(rows)
    ensures Dedup(rows, keep) == rows
  {
    UniqueKeysDistinct(rows);
    DedupFirstOfUnique(rows, {});
    DedupLastOfUnique(rows);
  }

  lemma {:induction false} DedupFirstOfUnique(rows: seq<CalRow>, seen: set<RowKey>)
    requires forall i, j :: 0 <= i < j < |rows| ==> Key(rows[i]) != Key(rows[j])
    requires KeysOf(rows) !! seen
    ensures DedupFirstFrom(rows, seen) == rows
    decreases |rows|
  {
    if rows != [] {
      assert KeysOf(rows) == {Key(rows[0])} + KeysOf(rows[1..]);
      forall j | 0 <= j < |rows[1..]| ensures Key(rows[1..][j]) != Key(rows[0]) {
        assert rows[1..][j] == rows[j + 1];
      }
      KeyWitness(rows[1..], Key(rows[0]));
      DedupFirstOfUnique(rows[1..], seen + {Key(rows[0])});
    }
  }

  lemma {:induction false} DedupLastOfUnique(rows: seq<CalRow>)
    requires forall i, j :: 0 <= i < j < |rows| ==> Key(rows[i]) != Key(rows[j])
    ensures DedupLast(rows) == rows
    decreases |rows|
  {
    if rows != [] {
      forall j | 0 <= j < |rows[1..]| ensures Key(rows[1..][j]) != Key(rows[0]) {
        assert rows[1..][j] == rows[j + 1];
      }
      KeyWitness(rows[1..], Key(rows[0]));
      DedupLastOfUnique(rows[1..]);
    }
  }

  /** Old rows come first in `concat([old, new])`, so under `keep='first'` a key the old table
      has keeps its old row. */
  lemma {:induction false} FirstWithKeyPrefix(a: seq<CalRow>, b: seq<CalRow>, k: RowKey)
    requires k in KeysOf(a)
    ensures k in KeysOf(a + b) && FirstWithKey(a + b, k) == FirstWithKey(a, k)
    decreases |a|
  {
    KeysOfAppend(a, b);
    if Key(a[0]) != k {
      assert (a + b)[1..] == a[1..] + b;
      assert KeysOf(a) == {Key(a[0])} + KeysOf(a[1..]);
      FirstWithKeyPrefix(a[1..], b, k);
    }
  }

  /** Under `keep='last'` a key the new table has keeps its newest row. */
  lemma {:induction false} LastWithKeySuffix(a: seq<CalRow>, b: seq<CalRow>, k: RowKey)
    requires k in KeysOf(b)
    ensures k in KeysOf(a + b) && LastWithKey(a + b, k) == LastWithKey(b, k)
    decreases |a|
  {
    KeysOfAppend(a, b);
    if a != [] {
      assert (a + b)[1..] == a[1..] + b;
      KeysOfAppend(a[1..], b);
      LastWithKeySuffix(a[1..], b, k);
    } else {
      assert a + b == b;
    }
  }
}
