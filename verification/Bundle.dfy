/**
 The two ways the analytics page reads a series, one metric at a time and all
 metrics at once, and the engagement card (apps/analytics/services.py).
 */
module Bundle {
  import opened Wrappers
  import opened Sums
  import opened Metrics
  import opened PostSeries
  import opened PeriodCards

  datatype Snapshot = Snapshot(value: real, captured: int)

  /** An account snapshot as a query returns it. */
  datatype AccountRow = AccountRow(metric: Metric, day: int, value: real, captured: int)

  /**
   The snapshot tables of one account.  Account rows are unique per (metric,
   day); post rows are held per metric in (post, day) order.
   */
  datatype Tables = Tables(account: map<(Metric, int), Snapshot>, posts: map<Metric, seq<PostRow>>)

  ghost predicate WellFormed(t: Tables) {
    forall m :: m in t.posts ==> Ordered(t.posts[m])
  }

  function StartDay(end: int, days: nat): int {
    end - (2 * days - 1)
  }

  // ----- Queries -----

  function Window(rows: seq<PostRow>, start: int, end: int): (kept: seq<PostRow>)
    ensures forall r :: r in kept <==> r in rows && start <= r.day <= end
  {
    if rows == [] then [] else
      var last := rows[|rows| - 1];
      Window(rows[..|rows| - 1], start, end) + if start <= last.day <= end then [last] else []
  }

  function PostQuery(t: Tables, metric: Metric, start: int, end: int): seq<PostRow> {
    if metric in t.posts then Window(t.posts[metric], start, end) else []
  }

  lemma {:induction false} WindowIsOrdered(rows: seq<PostRow>, start: int, end: int)
    requires Ordered(rows)
    ensures Ordered(Window(rows, start, end)) && InWindow(Window(rows, start, end), start, end)
  {
    if rows != [] {
      var init, last := rows[..|rows| - 1], rows[|rows| - 1];
      WindowIsOrdered(init, start, end);
      var kept := Window(init, start, end);
      forall i | 0 <= i < |kept|
        ensures kept[i].post < last.post || (kept[i].post == last.post && kept[i].day < last.day)
      {
        assert kept[i] in init;
        var j :| 0 <= j < |init| && init[j] == kept[i];
        assert rows[j] == kept[i];
      }
    }
  }

  ghost predicate Stored(t: Tables, r: AccountRow) {
    (r.metric, r.day) in t.account && t.account[(r.metric, r.day)] == Snapshot(r.value, r.captured)
  }

  /** The rows of a query over account snapshots, in whatever order the database returns them. */
  ghost predicate Fetched(rows: seq<AccountRow>, t: Tables, metrics: seq<Metric>, start: int, end: int) {
    && (forall r :: r in rows ==> r.metric in metrics && start <= r.day <= end)
    && (forall r :: r in rows ==> Stored(t, r))
    && (forall m, d :: m in metrics && start <= d <= end && (m, d) in t.account ==>
          exists r :: r in rows && r.metric == m && r.day == d)
  }

  /** Whatever holds exactly the stored rows of the metrics in the window is a result of the query. */
  lemma QueryResult(rows: seq<AccountRow>, t: Tables, metrics: seq<Metric>, start: int, end: int)
    requires forall r :: r in rows <==>
      r.metric in metrics && start <= r.day <= end && (r.metric, r.day) in t.account
      && t.account[(r.metric, r.day)] == Snapshot(r.value, r.captured)
    ensures Fetched(rows, t, metrics, start, end)
  {
    forall m, d | m in metrics && start <= d <= end && (m, d) in t.account
      ensures exists r :: r in rows && r.metric == m && r.day == d
    {
      var stored := t.account[(m, d)];
      assert AccountRow(m, d, stored.value, stored.captured) in rows;
    }
  }

  // ----- What a series is -----

  ghost predicate HasAccountRows(t: Tables, metric: Metric, start: int, end: int) {
    exists d :: start <= d <= end && (metric, d) in t.account
  }

  /** One day of a metric's series: the account's own row, else the credited posts, else zero. */
  ghost function DayValue(t: Tables, metric: Metric, start: int, end: int, d: int): real {
    if HasAccountRows(t, metric, start, end) then
      if (metric, d) in t.account then t.account[(metric, d)].value else 0.0
    else if SupportsPostFallback(metric) then DayTotal(PostQuery(t, metric, start, end), start, d)
    else 0.0
  }

  ghost predicate IsSeries(values: seq<real>, t: Tables, metric: Metric, end: int, days: nat) {
    |values| == 2 * days
    && forall i :: 0 <= i < 2 * days ==>
         values[i] == DayValue(t, metric, StartDay(end, days), end, StartDay(end, days) + i)
  }

  // ----- One metric at a time -----

  /** A day map filled from the fetched rows of one metric. */
  ghost predicate Holds(byDay: map<int, real>, t: Tables, metric: Metric, start: int, end: int) {
    forall d :: start <= d <= end ==> Get(byDay, d) == DayValue(t, metric, start, end, d)
  }

  method ReadOut(byDay: map<int, real>, start: int, n: nat) returns (out: seq<real>)
    ensures |out| == n && forall i :: 0 <= i < n ==> out[i] == Get(byDay, start + i)
  {
    out := [];
    for i := 0 to n
      invariant |out| == i && forall j :: 0 <= j < i ==> out[j] == Get(byDay, start + j)
    {
      out := out + [Get(byDay, start + i)];
    }
  }

  /** The day map a read builds for one metric; a later row for the same day would overwrite. */
  ghost function DayMap(rows: seq<AccountRow>, metric: Metric): map<int, real> {
    if rows == [] then map[] else
      var before, last := DayMap(rows[..|rows| - 1], metric), rows[|rows| - 1];
      if last.metric == metric then before[last.day := last.value] else before
  }

  lemma {:induction false} DayMapReadsRows(rows: seq<AccountRow>, metric: Metric)
    ensures forall r :: r in rows && r.metric == metric ==> r.day in DayMap(rows, metric)
    ensures forall d :: d in DayMap(rows, metric) ==>
      exists r :: r in rows && r.metric == metric && r.day == d && r.value == DayMap(rows, metric)[d]
  {
    if rows != [] {
      var init, last := rows[..|rows| - 1], rows[|rows| - 1];
      DayMapReadsRows(init, metric);
      assert forall r :: r in rows <==> r in init || r == last;
    }
  }

  lemma DayMapEntry(t: Tables, fetched: seq<AccountRow>, metrics: seq<Metric>, start: int, end: int, metric: Metric,
                    d: int)
    requires Fetched(fetched, t, metrics, start, end) && metric in metrics
    ensures d in DayMap(fetched, metric) <==> start <= d <= end && (metric, d) in t.account
    ensures d in DayMap(fetched, metric) ==> DayMap(fetched, metric)[d] == t.account[(metric, d)].value
  {
    DayMapReadsRows(fetched, metric);
    var byDay := DayMap(fetched, metric);
    hide DayMap;
    if start <= d <= end && (metric, d) in t.account {
      var r :| r in fetched && r.metric == metric && r.day == d;
    }
    if d in byDay {
      var r :| r in fetched && r.metric == metric && r.day == d && r.value == byDay[d];
      assert Stored(t, r);
    }
  }

  /** Because stored rows are unique per day, the day map is the table, in whatever order the rows arrived. */
  lemma DayMapIsTable(t: Tables, fetched: seq<AccountRow>, metrics: seq<Metric>, start: int, end: int, metric: Metric)
    requires Fetched(fetched, t, metrics, start, end) && metric in metrics
    ensures DayMap(fetched, metric) == map[] <==> !HasAccountRows(t, metric, start, end)
    ensures HasAccountRows(t, metric, start, end) ==> Holds(DayMap(fetched, metric), t, metric, start, end)
  {
    hide DayMap, Fetched;
    var byDay := DayMap(fetched, metric);
    forall d
      ensures d in byDay <==> start <= d <= end && (metric, d) in t.account
      ensures d in byDay ==> byDay[d] == t.account[(metric, d)].value
    {
      DayMapEntry(t, fetched, metrics, start, end, metric, d);
    }
    if byDay == map[] {
      assert forall d :: start <= d <= end ==> d !in byDay;
    } else {
      var d :| d in byDay;
      assert (metric, d) in t.account;
    }
  }

  /** The fallback read of one metric, with the query's rows. */
  method FallbackSeries(t: Tables, metric: Metric, start: int, end: int)
    returns (daily: map<int, real>, maxCaptured: Option<int>)
    requires WellFormed(t) && SupportsPostFallback(metric) && !HasAccountRows(t, metric, start, end)
    ensures Holds(daily, t, metric, start, end)
    ensures IsLatest(maxCaptured, Captures(PostQuery(t, metric, start, end)))
  {
    QueryIsOrdered(t, metric, start, end);
    daily, maxCaptured := PostSummedSeries(PostQuery(t, metric, start, end), start, end);
  }

  method SeriesFor(t: Tables, fetched: seq<AccountRow>, metric: Metric, end: int, days: nat) returns (out: seq<real>)
    requires WellFormed(t) && Fetched(fetched, t, [metric], StartDay(end, days), end)
    ensures IsSeries(out, t, metric, end, days)
  {
    var start := StartDay(end, days);
    var byDay: map<int, real> := map[];
    for i := 0 to |fetched|
      invariant byDay == DayMap(fetched[..i], metric)
    {
      assert fetched[i] in fetched && fetched[..i + 1][..i] == fetched[..i];
      byDay := byDay[fetched[i].day := fetched[i].value];
    }
    assert fetched[..|fetched|] == fetched;
    DayMapIsTable(t, fetched, [metric], start, end, metric);
    if byDay == map[] && SupportsPostFallback(metric) {
      var daily, _ := FallbackSeries(t, metric, start, end);
      byDay := daily;
    }
    out := ReadOut(byDay, start, 2 * days);
  }

  // ----- All metrics at once -----

  /** The capture times behind a bundle: the account rows, and the post rows of every metric that fell back. */
  ghost function CaptureTimes(t: Tables, metrics: seq<Metric>, start: int, end: int): set<int> {
    AccountTimes(t, metrics, start, end) + FallbackTimes(t, metrics, start, end)
  }

  ghost function AccountTimes(t: Tables, metrics: seq<Metric>, start: int, end: int): set<int> {
    set k | k in t.account && k.0 in metrics && start <= k.1 <= end :: t.account[k].captured
  }

  ghost function FallbackTimes(t: Tables, metrics: seq<Metric>, start: int, end: int): set<int> {
    if metrics == [] then {} else
      var m := metrics[|metrics| - 1];
      FallbackTimes(t, metrics[..|metrics| - 1], start, end)
      + if HasAccountRows(t, m, start, end) || !SupportsPostFallback(m) then {}
        else Captures(PostQuery(t, m, start, end))
  }

  /** The bulk read of the account rows: a day map per metric and the latest capture. */
  method CollectAccountRows(fetched: seq<AccountRow>)
    returns (byMetric: map<Metric, map<int, real>>, maxCaptured: Option<int>)
    ensures forall m :: m in byMetric <==> DayMap(fetched, m) != map[]
    ensures forall m :: m in byMetric ==> byMetric[m] == DayMap(fetched, m)
    ensures IsLatest(maxCaptured, set k | 0 <= k < |fetched| :: fetched[k].captured)
  {
    byMetric, maxCaptured := map[], None;
    for i := 0 to |fetched|
      invariant forall m :: m in byMetric <==> DayMap(fetched[..i], m) != map[]
      invariant forall m :: m in byMetric ==> byMetric[m] == DayMap(fetched[..i], m)
      invariant IsLatest(maxCaptured, set k | 0 <= k < i :: fetched[k].captured)
    {
      var r := fetched[i];
      assert fetched[..i + 1][..i] == fetched[..i];
      var days := if r.metric in byMetric then byMetric[r.metric] else map[];
      assert r.day in days[r.day := r.value];
      byMetric := byMetric[r.metric := days[r.day := r.value]];
      if maxCaptured.None? || r.captured > maxCaptured.value {
        maxCaptured := Some(r.captured);
      }
      assert (set k | 0 <= k < i + 1 :: fetched[k].captured)
          == (set k | 0 <= k < i :: fetched[k].captured) + {r.captured};
    }
    assert fetched[..|fetched|] == fetched;
  }

  lemma CollectedTimes(t: Tables, fetched: seq<AccountRow>, metrics: seq<Metric>, start: int, end: int)
    requires Fetched(fetched, t, metrics, start, end)
    ensures (set k | 0 <= k < |fetched| :: fetched[k].captured)
      == AccountTimes(t, metrics, start, end)
  {
    var read := set k | 0 <= k < |fetched| :: fetched[k].captured;
    var stored := AccountTimes(t, metrics, start, end);
    forall x | x in read ensures x in stored {
      var k :| 0 <= k < |fetched| && fetched[k].captured == x;
      var r := fetched[k];
      assert r in fetched;
      assert (r.metric, r.day) in t.account;
    }
    forall x | x in stored ensures x in read {
      var k :| k in t.account && k.0 in metrics && start <= k.1 <= end && t.account[k].captured == x;
      assert (k.0, k.1) in t.account;
      var r :| r in fetched && r.metric == k.0 && r.day == k.1;
      var j :| 0 <= j < |fetched| && fetched[j] == r;
      assert fetched[j].captured == x;
    }
  }

  /** The capture times known once the first n metrics have been considered. */
  ghost function TimesUpTo(t: Tables, metrics: seq<Metric>, n: nat, start: int, end: int): set<int>
    requires n <= |metrics|
  {
    AccountTimes(t, metrics, start, end) + FallbackTimes(t, metrics[..n], start, end)
  }

  lemma TimesAtEnds(t: Tables, metrics: seq<Metric>, start: int, end: int)
    ensures TimesUpTo(t, metrics, 0, start, end) == AccountTimes(t, metrics, start, end)
    ensures TimesUpTo(t, metrics, |metrics|, start, end) == CaptureTimes(t, metrics, start, end)
  {
    assert metrics[..|metrics|] == metrics;
  }

  lemma TimesStep(t: Tables, metrics: seq<Metric>, n: nat, start: int, end: int)
    requires n < |metrics|
    ensures HasAccountRows(t, metrics[n], start, end) || !SupportsPostFallback(metrics[n]) ==>
      TimesUpTo(t, metrics, n + 1, start, end) == TimesUpTo(t, metrics, n, start, end)
    ensures !HasAccountRows(t, metrics[n], start, end) && SupportsPostFallback(metrics[n]) ==>
      TimesUpTo(t, metrics, n + 1, start, end) ==
        TimesUpTo(t, metrics, n, start, end) + Captures(PostQuery(t, metrics[n], start, end))
  {
    assert metrics[..n + 1][..n] == metrics[..n];
    hide Captures, AccountTimes;
  }

  /** A metric with neither account rows nor a fallback has a series of zeros. */
  lemma NothingHolds(t: Tables, m: Metric, start: int, end: int)
    requires !HasAccountRows(t, m, start, end) && !SupportsPostFallback(m)
    ensures Holds(map[], t, m, start, end)
  {
  }

  method FillFallback(t: Tables, m: Metric, start: int, end: int, byMetric: map<Metric, map<int, real>>,
                      captured: Option<int>, ghost times: set<int>)
    returns (filled: map<Metric, map<int, real>>, maxCaptured: Option<int>)
    requires WellFormed(t) && SupportsPostFallback(m) && !HasAccountRows(t, m, start, end) && IsLatest(captured, times)
    ensures m in filled && Holds(filled[m], t, m, start, end)
    ensures forall k :: k in filled <==> k in byMetric || k == m
    ensures forall k :: k in byMetric && k != m ==> filled[k] == byMetric[k]
    ensures IsLatest(maxCaptured, times + Captures(PostQuery(t, m, start, end)))
  {
    var daily, fallbackCaptured := FallbackSeries(t, m, start, end);
    filled := byMetric[m := daily];
    maxCaptured := LaterOf(captured, fallbackCaptured, times, Captures(PostQuery(t, m, start, end)));
  }

  /** The fallback loop: every metric without account rows that may be rebuilt from posts is. */
  method FillFallbacks(t: Tables, metrics: seq<Metric>, start: int, end: int, accountDays: map<Metric, map<int, real>>,
                       accountCaptured: Option<int>)
    returns (byMetric: map<Metric, map<int, real>>, maxCaptured: Option<int>)
    requires WellFormed(t)
    requires forall m :: m in metrics ==> (m in accountDays <==> HasAccountRows(t, m, start, end))
    requires forall m :: m in metrics && m in accountDays ==> Holds(accountDays[m], t, m, start, end)
    requires IsLatest(accountCaptured, AccountTimes(t, metrics, start, end))
    ensures forall m :: m in metrics ==> Holds(DaysOf(byMetric, m), t, m, start, end)
    ensures IsLatest(maxCaptured, CaptureTimes(t, metrics, start, end))
  {
    byMetric, maxCaptured := accountDays, accountCaptured;
    TimesAtEnds(t, metrics, start, end);
    hide Holds, HasAccountRows, TimesUpTo, CaptureTimes, AccountTimes, Captures, IsLatest, WellFormed;
    hide SupportsPostFallback;
    for i := 0 to |metrics|
      invariant forall m :: m in metrics && m in byMetric ==> Holds(byMetric[m], t, m, start, end)
      invariant forall m :: m in metrics && m in accountDays ==> m in byMetric
      invariant forall k :: 0 <= k < i && metrics[k] !in byMetric ==> !SupportsPostFallback(metrics[k])
      invariant IsLatest(maxCaptured, TimesUpTo(t, metrics, i, start, end))
    {
      var m := metrics[i];
      TimesStep(t, metrics, i, start, end);
      if m in accountDays || !SupportsPostFallback(m) {
        continue;
      }
      byMetric, maxCaptured :=
        FillFallback(t, m, start, end, byMetric, maxCaptured, TimesUpTo(t, metrics, i, start, end));
    }
    forall m | m in metrics ensures Holds(DaysOf(byMetric, m), t, m, start, end) {
      if m !in byMetric {
        NothingHolds(t, m, start, end);
      }
    }
  }

  function LaterOf(a: Option<int>, b: Option<int>, ghost aTimes: set<int>, ghost bTimes: set<int>): (later: Option<int>)
    requires IsLatest(a, aTimes) && IsLatest(b, bTimes)
    ensures IsLatest(later, aTimes + bTimes)
  {
    if b.Some? && (a.None? || b.value > a.value) then b else a
  }

  /**
   The bulk bundle refines the per-metric read: for every platform metric its
   series is the one `SeriesFor` returns, whichever rows it came from.
   */
  method AccountAnalyticsBundle(t: Tables, fetched: seq<AccountRow>, metrics: seq<Metric>, end: int, days: nat)
    returns (seriesMap: map<Metric, seq<real>>, maxCaptured: Option<int>)
    requires WellFormed(t) && Fetched(fetched, t, metrics, StartDay(end, days), end)
    ensures forall m :: m in seriesMap <==> m in metrics
    ensures forall m :: m in seriesMap ==> IsSeries(seriesMap[m], t, m, end, days)
    ensures IsLatest(maxCaptured, CaptureTimes(t, metrics, StartDay(end, days), end))
  {
    hide IsSeries, Holds, IsLatest, Fetched, HasAccountRows, CaptureTimes, WellFormed;
    var start := StartDay(end, days);
    var accountDays, captured := CollectAccountRows(fetched);
    forall m | m in metrics
      ensures (m in accountDays <==> HasAccountRows(t, m, start, end))
        && (m in accountDays ==> Holds(accountDays[m], t, m, start, end))
    {
      DayMapIsTable(t, fetched, metrics, start, end, m);
    }
    CollectedTimes(t, fetched, metrics, start, end);
    var byMetric, latest := FillFallbacks(t, metrics, start, end, accountDays, captured);
    maxCaptured := latest;
    seriesMap := ReadOutAll(byMetric, metrics, start, 2 * days);
    forall m | m in seriesMap ensures IsSeries(seriesMap[m], t, m, end, days) {
      ReadOutIsSeries(seriesMap[m], DaysOf(byMetric, m), t, m, end, days);
    }
  }

  lemma ReadOutIsSeries(values: seq<real>, byDay: map<int, real>, t: Tables, metric: Metric, end: int, days: nat)
    requires Holds(byDay, t, metric, StartDay(end, days), end) && |values| == 2 * days
    requires forall i :: 0 <= i < 2 * days ==> values[i] == Get(byDay, StartDay(end, days) + i)
    ensures IsSeries(values, t, metric, end, days)
  {
    hide DayValue;
  }

  method ReadOutAll(byMetric: map<Metric, map<int, real>>, metrics: seq<Metric>, start: int, n: nat)
    returns (seriesMap: map<Metric, seq<real>>)
    ensures forall m :: m in seriesMap <==> m in metrics
    ensures forall m :: m in seriesMap ==> |seriesMap[m]| == n
    ensures forall m, i :: m in seriesMap && 0 <= i < n ==> seriesMap[m][i] == Get(DaysOf(byMetric, m), start + i)
  {
    seriesMap := map[];
    for i := 0 to |metrics|
      invariant forall m :: m in seriesMap <==> m in metrics[..i]
      invariant forall m :: m in seriesMap ==> |seriesMap[m]| == n
      invariant forall m, k :: m in seriesMap && 0 <= k < n ==>
        seriesMap[m][k] == Get(DaysOf(byMetric, m), start + k)
    {
      var values := ReadOut(DaysOf(byMetric, metrics[i]), start, n);
      seriesMap := seriesMap[metrics[i] := values];
    }
  }

  /** Reading a metric without entries from the default dictionary. */
  function DaysOf(byMetric: map<Metric, map<int, real>>, metric: Metric): map<int, real> {
    if metric in byMetric then byMetric[metric] else map[]
  }

  /** A series is determined by the tables, so the bulk read and the single read agree on every day. */
  lemma SeriesAreUnique(a: seq<real>, b: seq<real>, t: Tables, metric: Metric, end: int, days: nat)
    requires IsSeries(a, t, metric, end, days) && IsSeries(b, t, metric, end, days)
    ensures a == b
  {
  }

  /** Day i of a series, read off the tables. */
  lemma SeriesInTables(values: seq<real>, t: Tables, metric: Metric, end: int, days: nat, i: nat)
    requires IsSeries(values, t, metric, end, days) && i < 2 * days
    ensures var start := end - 2 * days + 1;
      if exists x :: start <= x <= end && (metric, x) in t.account
      then values[i] == if (metric, start + i) in t.account then t.account[(metric, start + i)].value else 0.0
      else if SupportsPostFallback(metric) && metric in t.posts
      then values[i] == DayTotal(Window(t.posts[metric], start, end), start, start + i)
      else values[i] == 0.0
  {
    DayValueInTables(t, metric, StartDay(end, days), end, StartDay(end, days) + i);
    hide DayValue, DayTotal, Window, SupportsPostFallback;
  }

  lemma DayValueInTables(t: Tables, metric: Metric, start: int, end: int, d: int)
    ensures var value := DayValue(t, metric, start, end, d);
      if exists x :: start <= x <= end && (metric, x) in t.account
      then value == if (metric, d) in t.account then t.account[(metric, d)].value else 0.0
      else if SupportsPostFallback(metric) && metric in t.posts
      then value == DayTotal(Window(t.posts[metric], start, end), start, d)
      else value == 0.0
  {
    NothingRead(start);
    hide DayTotal, Window, SupportsPostFallback;
  }

  /** The capture times behind a bundle, read off the tables. */
  lemma {:induction false} CaptureTimesInTables(t: Tables, metrics: seq<Metric>, start: int, end: int, x: int)
    ensures x in CaptureTimes(t, metrics, start, end) <==>
      (exists k :: k in t.account && k.0 in metrics && start <= k.1 <= end && t.account[k].captured == x)
      || (exists m, r :: m in metrics && !(exists d :: start <= d <= end && (m, d) in t.account)
            && SupportsPostFallback(m) && m in t.posts && r in t.posts[m] && start <= r.day <= end
            && r.captured == Some(x))
  {
    FallbackTimesInTables(t, metrics, start, end, x);
    hide SupportsPostFallback, FallbackTimes;
  }

  lemma {:induction false} FallbackTimesInTables(t: Tables, metrics: seq<Metric>, start: int, end: int, x: int)
    ensures x in FallbackTimes(t, metrics, start, end) <==>
      exists m, r :: m in metrics && !(exists d :: start <= d <= end && (m, d) in t.account)
        && SupportsPostFallback(m) && m in t.posts && r in t.posts[m] && start <= r.day <= end && r.captured == Some(x)
    decreases |metrics|
  {
    hide SupportsPostFallback, Captures, PostQuery;
    if metrics != [] {
      var n := |metrics| - 1;
      FallbackTimesInTables(t, metrics[..n], start, end, x);
      CapturesOfQuery(t, metrics[n], start, end, x);
      assert forall m :: m in metrics <==> m in metrics[..n] || m == metrics[n];
    }
  }

  lemma CapturesOfQuery(t: Tables, metric: Metric, start: int, end: int, x: int)
    ensures x in Captures(PostQuery(t, metric, start, end)) <==>
      metric in t.posts && exists r :: r in t.posts[metric] && start <= r.day <= end && r.captured == Some(x)
  {
    var kept := PostQuery(t, metric, start, end);
    if r :| r in kept && r.captured == Some(x) {
      var i :| 0 <= i < |kept| && kept[i] == r;
      assert kept[i].captured.Some?;
    }
    hide Window;
  }

  lemma QueryIsOrdered(t: Tables, metric: Metric, start: int, end: int)
    requires WellFormed(t)
    ensures Ordered(PostQuery(t, metric, start, end)) && InWindow(PostQuery(t, metric, start, end), start, end)
  {
    if metric in t.posts {
      WindowIsOrdered(t.posts[metric], start, end);
    }
  }

  /**
   Nothing is lost or counted twice on the way from the posts to the card: for
   a metric rebuilt from posts, the current and previous windows together hold
   exactly the posts' high-water gains (times the window length when the card
   shows an average).
   */
  lemma FallbackConserves(values: seq<real>, t: Tables, metric: Metric, end: int, days: nat, posts: seq<int>)
    requires WellFormed(t) && IsSeries(values, t, metric, end, days)
    requires SupportsPostFallback(metric) && !HasAccountRows(t, metric, StartDay(end, days), end)
    requires Distinct(posts)
    requires var rows := PostQuery(t, metric, StartDay(end, days), end);
      forall i :: 0 <= i < |rows| ==> rows[i].post in posts
    ensures var start, kind := StartDay(end, days), KindOf(metric);
      var rows, value, base := PostQuery(t, metric, start, end), Derive(values, days, kind).value,
                               Baseline(values, days, kind);
      Held(value, days, kind) + Held(base, days, kind) == SumPosts(posts, p => GainThrough(rows, start, p, end))
  {
    hide IsSeries, HasAccountRows, SupportsPostFallback, KindOf, WellFormed, PostQuery, Derive, Baseline;
    hide Held, DayTotal, SumPosts, GainThrough, Ordered, InWindow, Distinct, Window;
    var start := StartDay(end, days);
    var rows := PostQuery(t, metric, start, end);
    QueryIsOrdered(t, metric, start, end);
    SeriesIsCredited(values, t, metric, end, days);
    CreditsConserve(values, rows, start, end, days, KindOf(metric), posts);
  }

  lemma SeriesIsCredited(values: seq<real>, t: Tables, metric: Metric, end: int, days: nat)
    requires IsSeries(values, t, metric, end, days) && SupportsPostFallback(metric)
    requires !HasAccountRows(t, metric, StartDay(end, days), end)
    ensures |values| == 2 * days && KindOf(metric) in {Count, Minutes}
    ensures var start := StartDay(end, days);
      forall i :: 0 <= i < 2 * days ==> values[i] == DayTotal(PostQuery(t, metric, start, end), start, start + i)
  {
    hide DayTotal, HasAccountRows, PostQuery;
  }

  lemma CreditsConserve(values: seq<real>, rows: seq<PostRow>, start: int, end: int, days: nat, kind: Kind,
                        posts: seq<int>)
    requires |values| == 2 * days && end == start + (2 * days - 1) && kind in {Count, Minutes}
    requires forall i :: 0 <= i < 2 * days ==> values[i] == DayTotal(rows, start, start + i)
    requires Ordered(rows) && InWindow(rows, start, end)
    requires Distinct(posts) && forall i :: 0 <= i < |rows| ==> rows[i].post in posts
    ensures var value, base := Derive(values, days, kind).value, Baseline(values, days, kind);
      Held(value, days, kind) + Held(base, days, kind) == SumPosts(posts, p => GainThrough(rows, start, p, end))
  {
    hide Held, Derive, Baseline;
    WindowsHoldSeries(values, days, kind);
    SumSeqIsSumDays(values, d => DayTotal(rows, start, d), start);
    TotalIsSumOfGains(rows, start, end, posts, end);
  }

  // ----- The engagement card -----

  datatype EngagementCard = EngagementCard(rate: Derived, parts: seq<Derived>)

  predicate HasEngagementCard(metrics: seq<Metric>) {
    (exists m :: m in metrics && IsEngagementPart(m)) && (exists m :: m in metrics && m in DENOMINATORS)
  }

  function MakeEngagementCard(metrics: seq<Metric>, seriesMap: map<Metric, seq<real>>, days: nat, followers: int)
    : Option<EngagementCard>
    requires forall m :: m in metrics <==> m in seriesMap
  {
    PartKeysAreKeys(metrics);
    if !HasEngagementCard(metrics) then None
    else Some(EngagementCard(EngagementRate(metrics, seriesMap, days, followers),
                             Cards(PartKeys(metrics), seriesMap, days)))
  }

  /**
   On the bundle's own series, the headline of the card is 100 times the total
   of the parts shown beneath it over the denominator's card (over one when that
   is zero): the followers fallback is never used when a card is shown.
   */
  lemma CardHeadlineMatchesParts(metrics: seq<Metric>, seriesMap: map<Metric, seq<real>>, t: Tables, end: int,
                                 days: nat, followers: int)
    requires forall m :: m in metrics <==> m in seriesMap
    requires forall m :: m in seriesMap ==> IsSeries(seriesMap[m], t, m, end, days)
    requires HasEngagementCard(metrics)
    ensures var card, d := MakeEngagementCard(metrics, seriesMap, days, followers),
                           FirstPresent(DENOMINATORS, seriesMap);
      card.Some? && card.value.parts != [] && d.Some? && d.value in seriesMap
      && var rate, parts := card.value.rate.value, SumCards(card.value.parts);
         var denom := Derive(seriesMap[d.value], days, KindOf(d.value)).value;
         if denom != 0.0 then rate * denom == 100.0 * parts else rate == 100.0 * parts
  {
    hide EngagementRate, Derive, Cards, PartKeys, FirstPresent, SumCards, KindOf, MakeEngagementCard;
    CardIsMade(metrics, seriesMap, days, followers);
    HasDenominator(metrics, seriesMap);
    SeriesHaveFullLength(seriesMap, t, end, days);
    hide IsSeries, FullLength, HasEngagementCard;
    RateIsRatioOfCards(metrics, seriesMap, days, followers);
  }

  lemma CardIsMade(metrics: seq<Metric>, seriesMap: map<Metric, seq<real>>, days: nat, followers: int)
    requires (forall m :: m in metrics <==> m in seriesMap) && HasEngagementCard(metrics)
    ensures (forall m :: m in PartKeys(metrics) ==> m in seriesMap) && PartKeys(metrics) != []
    ensures MakeEngagementCard(metrics, seriesMap, days, followers) ==
      Some(EngagementCard(EngagementRate(metrics, seriesMap, days, followers),
                          Cards(PartKeys(metrics), seriesMap, days)))
  {
    PartKeysAreKeys(metrics);
    hide EngagementRate, PartKeys, Cards, IsEngagementPart;
    var m :| m in metrics && IsEngagementPart(m);
    assert m in PartKeys(metrics);
  }

  lemma HasDenominator(metrics: seq<Metric>, seriesMap: map<Metric, seq<real>>)
    requires (forall m :: m in metrics <==> m in seriesMap) && HasEngagementCard(metrics)
    ensures var d := FirstPresent(DENOMINATORS, seriesMap); d.Some? && d.value in seriesMap
  {
    FirstPresentIsPresent(DENOMINATORS, seriesMap);
  }

  lemma SeriesHaveFullLength(seriesMap: map<Metric, seq<real>>, t: Tables, end: int, days: nat)
    requires forall m :: m in seriesMap ==> IsSeries(seriesMap[m], t, m, end, days)
    ensures FullLength(seriesMap, days)
  {
  }

  /** A card is shown exactly for a platform with both a numerator and a denominator metric, part by part. */
  lemma CardIsShownIff(metrics: seq<Metric>, seriesMap: map<Metric, seq<real>>, days: nat, followers: int)
    requires forall m :: m in metrics <==> m in seriesMap
    ensures var card := MakeEngagementCard(metrics, seriesMap, days, followers);
      (card.Some? <==> (exists m :: m in metrics && IsEngagementPart(m))
                       && (Reach in metrics || Impressions in metrics || Views in metrics || Plays in metrics))
      && (card.Some? ==> |card.value.parts| == |PartKeys(metrics)|)
      && (card.Some? ==> forall i :: 0 <= i < |PartKeys(metrics)| ==>
            PartKeys(metrics)[i] in seriesMap
            && card.value.parts[i] == Derive(seriesMap[PartKeys(metrics)[i]], days, KindOf(PartKeys(metrics)[i])))
  {
    hide EngagementRate, Derive, PartKeys, Cards, IsEngagementPart, KindOf;
    HasCardIff(metrics);
    if HasEngagementCard(metrics) {
      CardIsMade(metrics, seriesMap, days, followers);
      hide HasEngagementCard, MakeEngagementCard;
      assert forall i :: 0 <= i < |PartKeys(metrics)| ==> PartKeys(metrics)[i] in PartKeys(metrics);
    }
  }

  lemma HasCardIff(metrics: seq<Metric>)
    ensures HasEngagementCard(metrics) <==>
      (exists m :: m in metrics && IsEngagementPart(m))
      && (Reach in metrics || Impressions in metrics || Views in metrics || Plays in metrics)
  {
    hide IsEngagementPart;
    assert forall m :: m in DENOMINATORS <==> m == Reach || m == Impressions || m == Views || m == Plays;
  }
}
