/** The folder layout the calendar code writes to and reads from: `build_path_from_date` in
    finviz_utils/earnings_calendar/earnings_calendar.py and the path `_load_stored_data` opens. */
module CalendarPaths {
  import opened Text
  import opened Decimal
  import opened CalendarRows

  /** The constants of earnings_calendar/constants.py and finviz_utils/constants.py the core
      reads. Those modules are not part of this model, so their values are parameters. */
  datatype Config = Config(
    dataFolder: string,            // DATA_FOLDER
    rawDataFolder: string,         // FINVIZ_RAW_DATA_FOLDER
    calendarDataFolder: string,    // FINVIZ_DATA_CALENDAR_FOLDER
    includeColumns: seq<string>,   // INCLUDE_COLUMNS
    customTableFields: seq<string> // CUSTOM_TABLE_ALL_FIELDS
  )

  /** The groups data is stored under. */
  const SubFolders: seq<string> := ["industries", "sectors", "indexes"]

  const CalendarFileName: string := "calendar.csv"

  /** The week-of-month bucket: days 1-7, 8-14, 15-21, and everything after the 21st. */
  function Week(day: int): (w: int)
    ensures 1 <= w <= 4
  {
    if day <= 7 then 1
    else if day > 7 && day <= 14 then 2
    else if day > 14 && day <= 21 then 3
    else 4
  }

  /** The bucket of a day of the month is its week number counted in sevens, with the days
      past the 28th folded into week 4. */
  lemma WeekBuckets(day: int)
    requires 1 <= day <= 31
    ensures Week(day) == if (day + 6) / 7 <= 4 then (day + 6) / 7 else 4
    ensures Week(day) < 4 ==> 7 * (Week(day) - 1) < day <= 7 * Week(day)
    ensures Week(day) == 4 <==> day > 21
  {
  }

  /** `tag.replace('-', '').replace(' ', '_')`. */
  function CleanTag(tag: string): (r: string)
    ensures '-' !in r && ' ' !in r
  {
    Replace(Remove(tag, '-'), ' ', '_')
  }

  /** A tag already free of '-' and ' ' is used as it is. */
  lemma {:induction false} CleanTagKeepsClean(tag: string)
    requires '-' !in tag && ' ' !in tag
    ensures CleanTag(tag) == tag
    decreases |tag|
  {
    RemoveAbsent(tag, '-');
  }

  /** `str(n).zfill(2)`. */
  function TwoDigits(n: int): string
  {
    ZFill(IntToString(n), 2)
  }

  /** A month or week number is written as exactly two digits that read back as the number. */
  lemma TwoDigitsRoundTrip(n: int)
    requires 0 <= n < 100
    ensures |TwoDigits(n)| == 2 && AllDigits(TwoDigits(n)) && DigitsValue(TwoDigits(n)) == n
  {
    var s := TwoDigits(n);
    if n < 10 {
      assert IntToString(n) == [DigitChar(n)];
      assert s == "0" + [DigitChar(n)];
      assert s[..1] == "0";
      assert DigitsValue(s[..1]) == 0 by { assert s[..1][..0] == []; }
    } else {
      assert NatToString(n) == NatToString(n / 10) + [DigitChar(n % 10)];
      assert NatToString(n / 10) == [DigitChar(n / 10)];
      assert s == [DigitChar(n / 10), DigitChar(n % 10)];
      assert s[..1] == [DigitChar(n / 10)];
      assert DigitsValue(s[..1]) == n / 10 by { assert s[..1][..0] == []; }
    }
  }

  /** `strftime("%Y-%m-%d")` reads back: a dash after the year, the two-digit month, a dash,
      and the two-digit day. */
  lemma IsoDateParts(d: CivilDate)
    requires 1 <= d.month <= 12 && 1 <= d.day <= 31
    ensures var y := IntToString(d.year); var r := IsoDate(d);
      |r| == |y| + 6 && r[|y|] == '-' && r[|y| + 3] == '-'
      && DigitsValue(r[|y| + 1..|y| + 3]) == d.month && DigitsValue(r[|y| + 4..]) == d.day
  {
    var y := IntToString(d.year);
    TwoDigitsRoundTrip(d.month);
    TwoDigitsRoundTrip(d.day);
    var m := TwoDigits(d.month);
    var dd := TwoDigits(d.day);
    var r := IsoDate(d);
    assert r == y + "-" + m + "-" + dd;
    assert r[|y| + 1..|y| + 3] == m;
    assert r[|y| + 4..] == dd;
  }

  /** `build_path_from_date`: `<folder>/<sub>/<tag>/y<year>/m<MM>/w<WW>/calendar.csv` for the
      date of today. */
  function BuildPath(dataFolder: string, subFolder: string, tag: string, today: CivilDate): (r: string)
    ensures dataFolder + "/" + subFolder + "/" <= r
    ensures |r| >= 13 && r[|r| - 13..] == "/calendar.csv"
  {
    PathShape(dataFolder, subFolder, CleanTag(tag), IntToString(today.year), TwoDigits(today.month), TwoDigits(Week(today.day)));
    dataFolder + "/" + subFolder + "/" + CleanTag(tag) + "/y" + IntToString(today.year)
      + "/m" + TwoDigits(today.month) + "/w" + TwoDigits(Week(today.day)) + "/" + CalendarFileName
  }

  /** A built path starts with its folder and sub-folder and ends in the file name. */
  lemma PathShape(folder: string, sub: string, tag: string, y: string, m: string, w: string)
    ensures var r := folder + "/" + sub + "/" + tag + "/y" + y + "/m" + m + "/w" + w + "/" + CalendarFileName;
      folder + "/" + sub + "/" <= r && |r| >= 13 && r[|r| - 13..] == "/calendar.csv"
  {
    var head := folder + "/" + sub + "/";
    var mid := tag + "/y" + y + "/m" + m + "/w" + w;
    var tail := "/" + CalendarFileName;
    assert tail == "/calendar.csv";
    var r := folder + "/" + sub + "/" + tag + "/y" + y + "/m" + m + "/w" + w + "/" + CalendarFileName;
    assert r == head + mid + tail;
    assert r[|r| - 13..] == tail;
  }

  /** The file `_load_stored_data` opens for an already lower-cased source. */
  function StoredPath(cfg: Config, source: string, name: string, year: int, month: int, week: int): (r: string)
    ensures cfg.dataFolder + "/" + cfg.calendarDataFolder + "/" + source + "/" + name + "/" <= r
    ensures |r| >= 13 && r[|r| - 13..] == "/calendar.csv"
  {
    cfg.dataFolder + "/" + cfg.calendarDataFolder + "/" + source + "/" + name + "/" + ("y" + IntToString(year))
      + "/" + ("m" + TwoDigits(month)) + "/" + ("w" + TwoDigits(week)) + "/calendar.csv"
  }

  /** The loader, asked for the group, cleaned tag and date parts a save used, opens the file
      `build_path_from_date` produced for the folder `DATA_FOLDER/FINVIZ_DATA_CALENDAR_FOLDER`. */
  lemma LoadFindsBuiltPath(cfg: Config, subFolder: string, tag: string, today: CivilDate)
    ensures StoredPath(cfg, subFolder, CleanTag(tag), today.year, today.month, Week(today.day))
         == BuildPath(cfg.dataFolder + "/" + cfg.calendarDataFolder, subFolder, tag, today)
  {
    var head := cfg.dataFolder + "/" + cfg.calendarDataFolder + "/" + subFolder + "/" + CleanTag(tag);
    var y, m, w := IntToString(today.year), TwoDigits(today.month), TwoDigits(Week(today.day));
    Regroup(head, y, m, w);
  }

  lemma Regroup(head: string, y: string, m: string, w: string)
    ensures head + "/" + ("y" + y) + "/" + ("m" + m) + "/" + ("w" + w) + "/calendar.csv"
         == head + "/y" + y + "/m" + m + "/w" + w + "/" + CalendarFileName
  {
    assert "/" + CalendarFileName == "/calendar.csv";
    assert head + "/" + ("y" + y) == head + "/y" + y;
    assert head + "/y" + y + "/" + ("m" + m) == head + "/y" + y + "/m" + m;
    assert head + "/y" + y + "/m" + m + "/" + ("w" + w) == head + "/y" + y + "/m" + m + "/w" + w;
  }
}
