/** The plant trend report: plants created in each of the last six months, the current month
    included, with months that have no plants shown as 0.

    A month is an integer key, year * 12 + month index, which stands for the page's
    "Month YYYY" labels: two instants get the same label exactly when they get the same key. */
module TrendReport {

  /** Seconds in one day. */
  const DaySeconds: nat := 86400

  /** A point in time: the key of its month and the seconds elapsed since that month began. */
  datatype Instant = Instant(month: int, offset: nat)

  /** `a >= b` as the `gte` filter compares timestamps. */
  predicate NotBefore(a: Instant, b: Instant) {
    a.month > b.month || (a.month == b.month && a.offset >= b.offset)
  }

  /** One chart entry: a month and the number of plants created in it. */
  datatype Bar = Bar(month: int, plants: nat)

  /** How many records fall in month `month`. */
  function CountMonth(data: seq<Instant>, month: int): nat {
    if |data| == 0 then 0 else (if data[0].month == month then 1 else 0) + CountMonth(data[1..], month)
  }

  lemma {:induction false} CountMonthSnoc(data: seq<Instant>, x: Instant, month: int)
    ensures CountMonth(data + [x], month) == CountMonth(data, month) + (if x.month == month then 1 else 0)
    decreases |data|
  {
    if |data| == 0 {
      assert data + [x] == [x];
    } else {
      assert (data + [x])[1..] == data[1..] + [x];
      CountMonthSnoc(data[1..], x, month);
    }
  }

  /** How many records fall in `start`'s month at or after `start`: never more than the whole
      month's count, and all of it when `start` is the month's first instant. */
  function CountFrom(data: seq<Instant>, start: Instant): (n: nat)
    ensures n <= CountMonth(data, start.month)
    ensures start.offset == 0 ==> n == CountMonth(data, start.month)
    decreases |data|
  {
    if |data| == 0 then 0
    else (if data[0].month == start.month && NotBefore(data[0], start) then 1 else 0) + CountFrom(data[1..], start)
  }

  /** The rows the query returns, `data ?? []`: a failed query is logged and read as no rows;
      otherwise every record created at or after the window start. */
  function Fetch(records: seq<Instant>, start: Instant, failed: bool): (data: seq<Instant>)
    ensures failed ==> data == []
    ensures |data| <= |records|
    ensures !failed ==> forall x :: x in data <==> x in records && NotBefore(x, start)
    ensures !failed ==> forall m | m >= start.month + 1 || (m == start.month && start.offset == 0) ::
      CountMonth(data, m) == CountMonth(records, m)
    ensures !failed ==> CountMonth(data, start.month) == CountFrom(records, start)
    decreases |records|
  {
    if failed || |records| == 0 then []
    else
      var rest := Fetch(records[1..], start, false);
      assert records == [records[0]] + records[1..];
      if NotBefore(records[0], start) then [records[0]] + rest else rest
  }

  /** The reduce that counts rows per month: each row, in order, adds one to its month's entry,
      creating the entry at 1 when the month has none yet. */
  function Tally(data: seq<Instant>): (counts: map<int, nat>)
    ensures forall m :: m in counts <==> CountMonth(data, m) > 0
    ensures forall m | m in counts :: counts[m] == CountMonth(data, m)
    decreases |data|
  {
    if |data| == 0 then map[]
    else
      var init := data[..|data| - 1];
      var last := data[|data| - 1];
      var acc := Tally(init);
      assert data == init + [last];
      forall m
        ensures CountMonth(data, m) == CountMonth(init, m) + (if last.month == m then 1 else 0)
      {
        CountMonthSnoc(init, last, m);
      }
      acc[last.month := (if last.month in acc then acc[last.month] else 0) + 1]
  }

  /** The six month keys starting at `first`, as the `last6Months` loop builds them. */
  function Months(first: int): seq<int> {
    seq(6, i requires 0 <= i < 6 => first + i)
  }

  /** `chartData`: one bar per month, in the same order, 0 for a month with no entry. */
  function ChartData(months: seq<int>, counts: map<int, nat>): seq<Bar> {
    seq(|months|, i requires 0 <= i < |months| => Bar(months[i], if months[i] in counts then counts[months[i]] else 0))
  }

  /** Filling the tally in month by month gives each month its exact count, 0 included. */
  lemma ZeroFilledCounts(data: seq<Instant>, months: seq<int>)
    ensures |ChartData(months, Tally(data))| == |months|
    ensures forall i | 0 <= i < |months| ::
      ChartData(months, Tally(data))[i] == Bar(months[i], CountMonth(data, months[i]))
  {
  }

  /** The sum of the chart's counts. */
  function Total(chart: seq<Bar>): nat {
    if |chart| == 0 then 0 else chart[0].plants + Total(chart[1..])
  }

  /** How many records fall in any of the months `months`. */
  function CountIn(data: seq<Instant>, months: seq<int>): (n: nat)
    ensures n <= |data|
  {
    if |data| == 0 then 0 else (if data[0].month in months then 1 else 0) + CountIn(data[1..], months)
  }

  lemma {:induction false} CountInNothing(data: seq<Instant>)
    ensures CountIn(data, []) == 0
    decreases |data|
  {
    if |data| > 0 {
      CountInNothing(data[1..]);
    }
  }

  lemma {:induction false} CountInCons(data: seq<Instant>, m: int, months: seq<int>)
    requires m !in months
    ensures CountIn(data, [m] + months) == CountMonth(data, m) + CountIn(data, months)
    decreases |data|
  {
    if |data| > 0 {
      CountInCons(data[1..], m, months);
    }
  }

  /** Counting month by month over distinct months counts every record at most once, so the
      chart total never exceeds the number of rows. */
  lemma {:induction false} TotalCountsEachRecordOnce(chart: seq<Bar>, data: seq<Instant>, months: seq<int>)
    requires |chart| == |months|
    requires forall i, j | 0 <= i < j < |months| :: months[i] != months[j]
    requires forall i | 0 <= i < |chart| :: chart[i].plants == CountMonth(data, months[i])
    ensures Total(chart) == CountIn(data, months)
    ensures Total(chart) <= |data|
    decreases |months|
  {
    if |months| > 0 {
      var rest, ms := chart[1..], months[1..];
      assert forall i | 0 <= i < |rest| :: rest[i].plants == CountMonth(data, ms[i]) by {
        forall i | 0 <= i < |rest|
          ensures rest[i].plants == CountMonth(data, ms[i])
        {
          assert rest[i] == chart[i + 1] && ms[i] == months[i + 1];
        }
      }
      assert forall i, j | 0 <= i < j < |ms| :: ms[i] != ms[j] by {
        forall i, j | 0 <= i < j < |ms|
          ensures ms[i] != ms[j]
        {
          assert ms[i] == months[i + 1] && ms[j] == months[j + 1];
        }
      }
      TotalCountsEachRecordOnce(rest, data, ms);
      assert months[0] !in ms by {
        forall j | 0 <= j < |ms|
          ensures ms[j] != months[0]
        {
          assert ms[j] == months[j + 1];
        }
      }
      CountInCons(data, months[0], ms);
      assert [months[0]] + ms == months;
    } else {
      CountInNothing(data);
    }
  }

  /** The report for a window starting at `start`: one bar per month from `start`'s month on. */
  function ReportFrom(records: seq<Instant>, start: Instant, queryFailed: bool): (chart: seq<Bar>)
    ensures |chart| == 6
    ensures forall i | 0 <= i < 6 :: chart[i].month == start.month + i
    ensures forall i | 0 <= i < 6 :: chart[i].plants == CountMonth(Fetch(records, start, queryFailed), start.month + i)
    ensures Total(chart) <= |Fetch(records, start, queryFailed)|
  {
    var data := Fetch(records, start, queryFailed);
    var months := Months(start.month);
    var chart := ChartData(months, Tally(data));
    ZeroFilledCounts(data, months);
    assert forall i | 0 <= i < 6 :: chart[i] == Bar(start.month + i, CountMonth(data, start.month + i)) by {
      forall i | 0 <= i < 6
        ensures chart[i] == Bar(start.month + i, CountMonth(data, start.month + i))
      {
        assert months[i] == start.month + i;
      }
    }
    assert forall i, j | 0 <= i < j < 6 :: months[i] != months[j];
    TotalCountsEachRecordOnce(chart, data, months);
    chart
  }

  /** The window start the page computes: five months back, first day of the month, but still
      at the current time of day (only the day is reset). */
  function WindowStartAsWritten(now: Instant): (start: Instant)
    ensures start.month == now.month - 5
    ensures start.offset < DaySeconds
    ensures start.offset % DaySeconds == now.offset % DaySeconds
  {
    Instant(now.month - 5, now.offset % DaySeconds)
  }

  /** The window start the page means: midnight on the first day of the month five months back. */
  function WindowStart(now: Instant): Instant {
    Instant(now.month - 5, 0)
  }

  /** The report as the page computes it: six bars for the current month and the five before
      it; the five newer bars are exact, but the oldest counts only the records from the current
      time of day on its first day onwards, so it may fall short of its month's count. */
  function ReportAsWritten(records: seq<Instant>, now: Instant, queryFailed: bool): (chart: seq<Bar>)
    ensures |chart| == 6
    ensures forall i | 0 <= i < 6 :: chart[i].month == now.month - 5 + i
    ensures forall i | 1 <= i < 6 :: chart[i].plants == if queryFailed then 0 else CountMonth(records, now.month - 5 + i)
    ensures chart[0].plants == if queryFailed then 0 else CountFrom(records, WindowStartAsWritten(now))
    ensures chart[0].plants <= CountMonth(records, now.month - 5)
  {
    ReportFrom(records, WindowStartAsWritten(now), queryFailed)
  }

  /** The report with the window starting at midnight: six bars, for the current month and the
      five before it, each counting exactly the records created in that month; all zero when the
      query failed; the counts sum to at most the number of records. */
  function Report(records: seq<Instant>, now: Instant, queryFailed: bool): (chart: seq<Bar>)
    ensures |chart| == 6
    ensures forall i | 0 <= i < 6 :: chart[i].month == now.month - 5 + i
    ensures forall i | 0 <= i < 6 :: chart[i].plants == if queryFailed then 0 else CountMonth(records, now.month - 5 + i)
    ensures Total(chart) <= |records|
  {
    ReportFrom(records, WindowStart(now), queryFailed)
  }

  /** The page as written misses a plant created early on the first day of the oldest month:
      at 14:00 on the fifteenth, a plant created at 08:00 on the first day of the month five
      months back is filtered out, so that month shows 0 instead of 1. */
  lemma AsWrittenMissesFirstMorning()
    ensures
      var now := Instant(100, 14 * DaySeconds + 14 * 3600);
      var records := [Instant(95, 8 * 3600)];
      && ReportAsWritten(records, now, false)[0] == Bar(95, 0)
      && Report(records, now, false)[0] == Bar(95, 1)
  {
    var now := Instant(100, 14 * DaySeconds + 14 * 3600);
    var records := [Instant(95, 8 * 3600)];
    assert WindowStartAsWritten(now) == Instant(95, 14 * 3600);
    assert Fetch(records, WindowStartAsWritten(now), false) == [];
    assert CountMonth(records, 95) == 1;
  }
}
