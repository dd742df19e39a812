/** `MasterEarningsCalendar` of finviz_utils/earnings_calendar/earnings_calendar.py: reading the
    whole earnings calendar and extending the local copy with newer rows from the remote one. */
module MasterCalendar {
  import opened Results
  import opened Tables
  import opened CalendarRows

  /** `get_whole_earnings_calendar`: the rows of the local CSV file (`csv=True`) or of the remote
      response, each with `days_left` recomputed. Only the remote branch is sorted by report date;
      the local branch returns before `sort_index` and keeps file order. */
  function WholeCalendar(csv: bool, localFile: seq<CalRow>, remote: seq<CalRow>, now: Clock): (r: seq<CalRow>)
    requires now.Valid()
    ensures csv ==> r == UpdateDaysLeft(localFile, now)
    ensures !csv ==> SortedBy(r, ReportDateOf) && multiset(r) == multiset(UpdateDaysLeft(remote, now))
    ensures Fresh(r, now)
  {
    if csv then UpdateDaysLeft(localFile, now)
    else
      var rows := UpdateDaysLeft(remote, now);
      assert Fresh(rows, now);
      SortKeepsDaysLeft(rows, now);
      SortBy(rows, ReportDateOf)
  }

  lemma SortKeepsDaysLeft(rows: seq<CalRow>, now: Clock)
    requires now.Valid() && Fresh(rows, now)
    ensures Fresh(SortBy(rows, ReportDateOf), now)
  {
    var sorted := SortBy(rows, ReportDateOf);
    forall i | 0 <= i < |sorted| ensures sorted[i].daysLeft == DaysLeft(sorted[i].reportDate, now) {
      assert sorted[i] in multiset(rows);
    }
  }

  /** `web.loc[str(day):]` on the date-sorted remote calendar: the rows dated `day` or later,
      in calendar order. */
  function FromDate(web: seq<CalRow>, day: int): (r: seq<CalRow>)
    ensures |r| <= |web|
    ensures forall i :: 0 <= i < |r| ==> r[i].reportDate >= day
    decreases |web|
  {
    if web == [] then []
    else (if web[0].reportDate >= day then [web[0]] else []) + FromDate(web[1..], day)
  }

  /** The rows dated exactly `day`. */
  function OnDate(web: seq<CalRow>, day: int): (r: seq<CalRow>)
    decreases |web|
  {
    if web == [] then []
    else (if web[0].reportDate == day then [web[0]] else []) + OnDate(web[1..], day)
  }

  /** `FromDate` keeps exactly the rows dated `day` or later, each as often as it occurs, in
      their original order. */
  lemma {:induction false} FromDateRows(web: seq<CalRow>, day: int)
    ensures IsSubsequence(FromDate(web, day), web)
    ensures forall x :: multiset(FromDate(web, day))[x] == if x.reportDate >= day then multiset(web)[x] else 0
    decreases |web|
  {
    if web != [] {
      FromDateRows(web[1..], day);
      assert web == [web[0]] + web[1..];
      var rest := FromDate(web[1..], day);
      if web[0].reportDate >= day {
        var r := [web[0]] + rest;
        assert r[0] == web[0] && r[1..] == rest;
        assert multiset(r) == multiset{web[0]} + multiset(rest);
      } else {
        assert FromDate(web, day) == rest;
      }
      assert multiset(web) == multiset{web[0]} + multiset(web[1..]);
    }
  }

  /** When no row is dated `a` or later, none is dated at any later `b`. */
  lemma {:induction false} FromDateEmptyLater(web: seq<CalRow>, a: int, b: int)
    requires a <= b && FromDate(web, a) == []
    ensures FromDate(web, b) == []
    decreases |web|
  {
    if web != [] {
      FromDateEmptyLater(web[1..], a, b);
    }
  }

  /** The rows dated the day after `last` are in the probe that starts there and not in the one
      that starts a day later. */
  lemma ProbeSkipsNextDay(web: seq<CalRow>, last: int, x: CalRow)
    requires x in web && x.reportDate == last + 1
    ensures x in FromDate(web, last + 1) && x !in FromDate(web, last + 2)
  {
    FromDateRows(web, last + 1);
    FromDateRows(web, last + 2);
    assert x in multiset(web);
    assert multiset(FromDate(web, last + 1))[x] > 0;
  }

  /** The probe loop of `update_local_earnings_calendar` as written: the day counter is advanced
      before each query, so the first probe looks at `last` plus two; later probes start later
      and so find nothing the first one missed. */
  method ProbeAfter(web: seq<CalRow>, last: int) returns (added: seq<CalRow>)
    ensures added == FromDate(web, last + 2)
  {
    var nextDay := last + 1;
    added := [];
    var i := 0;
    while i < 5
      invariant 0 <= i <= 5
      invariant nextDay == last + 1 + i
      invariant i == 0 ==> added == []
      invariant i > 0 ==> added == FromDate(web, last + 2)
    {
      if |added| == 0 {
        nextDay := nextDay + 1;
        if i > 0 {
          FromDateEmptyLater(web, last + 2, nextDay);
        }
        added := FromDate(web, nextDay);
      } else {
        break;
      }
      i := i + 1;
    }
  }

  /** `update_local_earnings_calendar`: the local calendar followed by the remote rows the probe
      loop finds, without removing duplicates; an empty local file has no last row and raises. */
  method UpdateLocal(localFile: seq<CalRow>, remote: seq<CalRow>, now: Clock) returns (merged: Result<seq<CalRow>>)
    requires now.Valid()
    ensures merged.Err? <==> localFile == []
    ensures merged.Ok? ==> (localFile != [] && merged.value ==
      WholeCalendar(true, localFile, remote, now)
      + FromDate(WholeCalendar(false, localFile, remote, now), localFile[|localFile| - 1].reportDate + 2))
  {
    var local := WholeCalendar(true, localFile, remote, now);
    var web := WholeCalendar(false, localFile, remote, now);
    if |localFile| == 0 {
      return Err("IndexError: index -1 is out of bounds for axis 0 with size 0");
    }
    var added := ProbeAfter(web, localFile[|localFile| - 1].reportDate);
    merged := Ok(local + added);
  }

  /** The evidently intended probe loop: query from the day after `last`, then advance. */
  method ProbeFromNextDay(web: seq<CalRow>, last: int) returns (added: seq<CalRow>)
    ensures added == FromDate(web, last + 1)
  {
    var nextDay := last + 1;
    added := [];
    var i := 0;
    while i < 5
      invariant 0 <= i <= 5
      invariant nextDay == last + 1 + i
      invariant i == 0 ==> added == []
      invariant i > 0 ==> added == FromDate(web, last + 1)
    {
      if |added| == 0 {
        if i > 0 {
          FromDateEmptyLater(web, last + 1, nextDay);
        }
        added := FromDate(web, nextDay);
        nextDay := nextDay + 1;
      } else {
        break;
      }
      i := i + 1;
    }
  }

  /** `update_local_earnings_calendar` with the intended probe loop: the local calendar followed
      by every remote row dated after its last row. */
  method UpdateLocalFromNextDay(localFile: seq<CalRow>, remote: seq<CalRow>, now: Clock) returns (merged: Result<seq<CalRow>>)
    requires now.Valid()
    ensures merged.Err? <==> localFile == []
    ensures merged.Ok? ==> (localFile != [] && merged.value ==
      WholeCalendar(true, localFile, remote, now)
      + FromDate(WholeCalendar(false, localFile, remote, now), localFile[|localFile| - 1].reportDate + 1))
  {
    var local := WholeCalendar(true, localFile, remote, now);
    var web := WholeCalendar(false, localFile, remote, now);
    if |localFile| == 0 {
      return Err("IndexError: index -1 is out of bounds for axis 0 with size 0");
    }
    var added := ProbeFromNextDay(web, localFile[|localFile| - 1].reportDate);
    merged := Ok(local + added);
  }

  /** The two loops differ exactly by the remote rows dated the day after the last local row:
      the rows from the next day on are those of that day followed by the rest, in the sorted
      remote calendar. */
  lemma {:induction false} NextDaySplit(web: seq<CalRow>, day: int)
    requires SortedBy(web, ReportDateOf)
    ensures FromDate(web, day) == OnDate(web, day) + FromDate(web, day + 1)
    decreases |web|
  {
    if web != [] {
      var rest := web[1..];
      assert SortedBy(rest, ReportDateOf);
      NextDaySplit(rest, day);
      if web[0].reportDate > day {
        LaterHead(web, day);
      } else if web[0].reportDate == day {
        assert FromDate(web, day) == [web[0]] + (OnDate(rest, day) + FromDate(rest, day + 1));
      }
    }
  }

  /** The step of `NextDaySplit` where the first row is already past `day`. */
  lemma LaterHead(web: seq<CalRow>, day: int)
    requires SortedBy(web, ReportDateOf) && web != [] && web[0].reportDate > day
    requires FromDate(web[1..], day) == OnDate(web[1..], day) + FromDate(web[1..], day + 1)
    ensures FromDate(web, day) == OnDate(web, day) + FromDate(web, day + 1)
  {
    var rest := web[1..];
    forall i | 0 <= i < |rest| ensures rest[i].reportDate > day {
      assert ReportDateOf(web[0]) <= ReportDateOf(web[i + 1]);
    }
    OnDateNone(rest, day);
  }

  lemma {:induction false} OnDateNone(web: seq<CalRow>, day: int)
    requires forall i :: 0 <= i < |web| ==> web[i].reportDate > day
    ensures OnDate(web, day) == []
    decreases |web|
  {
    if web != [] {
      OnDateNone(web[1..], day);
    }
  }

  /** A local calendar whose last row is dated day 10 and a remote one holding a single row
      dated day 11: the loop as written adds nothing, the intended one adds that row. */
  lemma NextDayRowLost()
    ensures var web := [CalRow(11, "AAPL", 0, map[])];
      FromDate(web, 10 + 2) == [] && FromDate(web, 10 + 1) == web
  {
    var web := [CalRow(11, "AAPL", 0, map[])];
    assert web[1..] == [];
  }
}
