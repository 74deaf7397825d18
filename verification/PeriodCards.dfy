/**
 Card values, period deltas and the engagement rate, without rounding
 (apps/analytics/derive.py).
 */
module PeriodCards {
  import opened Wrappers
  import opened Sums
  import opened Metrics

  /** value and delta before `round`; series is the current window. */
  datatype Derived = Derived(value: real, delta: real, series: seq<real>, kind: Kind)

  // ----- Windows -----

  /** A slice bound as Python resolves it: negative counts from the end, then clipped. */
  function Bound(i: int, length: nat): (b: nat)
    ensures b <= length
  {
    if i < 0 then (if length + i < 0 then 0 else length + i) else if i > length then length else i
  }

  function Slice(s: seq<real>, from: int, to: int): seq<real> {
    var lo, hi := Bound(from, |s|), Bound(to, |s|);
    if lo <= hi then s[lo..hi] else []
  }

  /** `s[-n:]`; for n = 0 that is the whole list. */
  function Tail(s: seq<real>, n: nat): seq<real> {
    s[Bound(0 - n, |s|)..]
  }

  /** The (current, previous) windows, latest last. */
  function Split(values: seq<real>, days: nat): (seq<real>, seq<real>) {
    if values == [] then ([], []) else (Tail(values, days), Slice(values, 0 - 2 * days, 0 - days))
  }

  /** Two windows of equal length cover a 2*days series exactly. */
  lemma SplitPartitions(values: seq<real>, days: nat)
    requires |values| == 2 * days
    ensures Split(values, days) == (values[days..], values[..days])
    ensures Split(values, days).1 + Split(values, days).0 == values
  {
  }

  lemma WholeTail(values: seq<real>, days: nat)
    requires |values| == 2 * days
    ensures Tail(values, 2 * days) == values && Tail(values, days) == values[days..]
  {
  }

  // ----- Cards -----

  function WindowValue(window: seq<real>, kind: Kind): real {
    if window == [] then 0.0
    else if kind in {Percent, Minutes} then SumSeq(window) / |window| as real
    else if kind == Total then window[|window| - 1]
    else SumSeq(window)
  }

  function Change(current: real, previous: real): real {
    if previous != 0.0 then (current - previous) / previous * 100.0 else 0.0
  }

  function Derive(valuesByDay: seq<real>, days: nat, kind: Kind): Derived {
    var (cur, prev) := Split(valuesByDay, days);
    var curVal, prevVal := WindowValue(cur, kind), WindowValue(prev, kind);
    Derived(curVal, Change(curVal, prevVal), cur, kind)
  }

  /** The previous window's value, which the card shows only through its delta. */
  function Baseline(valuesByDay: seq<real>, days: nat, kind: Kind): real {
    WindowValue(Split(valuesByDay, days).1, kind)
  }

  /**
   The card loses nothing: value and delta determine the previous value whenever
   that is not zero; the delta of a zero previous value is zero.
   */
  lemma DeltaRecoversBaseline(valuesByDay: seq<real>, days: nat, kind: Kind)
    ensures var card, base := Derive(valuesByDay, days, kind), Baseline(valuesByDay, days, kind);
      if base == 0.0 then card.delta == 0.0
      else card.value == base * (1.0 + card.delta / 100.0) && card.delta * base == 100.0 * (card.value - base)
  {
    var card, base := Derive(valuesByDay, days, kind), Baseline(valuesByDay, days, kind);
    DeltaIsChange(valuesByDay, days, kind);
    hide Derive, Baseline;
    if base != 0.0 {
      ChangeTimesBase(card.value, base);
    }
  }

  /**
   A series of any length: the current window is its last days, the previous one
   the days before those; zero days mean the whole series and none.
   */
  lemma WindowsOfAnyLength(values: seq<real>, days: nat, kind: Kind)
    ensures days == 0 ==> Derive(values, days, kind).series == values && Split(values, days).1 == []
    ensures days > 0 ==>
      Derive(values, days, kind).series == values[if |values| <= days then 0 else |values| - days..]
    ensures var n := |values|;
      days > 0 ==>
        Split(values, days).1 == values[if n <= 2 * days then 0 else n - 2 * days..if n <= days then 0 else n - days]
  {
    hide WindowValue, Change;
  }

  /**
   What a card shows of a full series: the sum of its current window for a count,
   the average for minutes and percentages, the last value for a lifetime total;
   and of the previous window in the same way.
   */
  lemma CardShows(values: seq<real>, days: nat, kind: Kind)
    requires |values| == 2 * days && days > 0
    ensures var card, base := Derive(values, days, kind), Baseline(values, days, kind);
      match kind
      case Count => card.value == SumSeq(values[days..]) && base == SumSeq(values[..days])
      case Total => card.value == values[2 * days - 1] && base == values[days - 1]
      case _ =>
        card.value * days as real == SumSeq(values[days..]) && base * days as real == SumSeq(values[..days])
  {
    CardWindows(values, days, kind);
    hide Derive, Baseline, SumSeq;
    if !kind.Count? && !kind.Total? {
      var n := days as real;
      assert SumSeq(values[days..]) / n * n == SumSeq(values[days..]);
      assert SumSeq(values[..days]) / n * n == SumSeq(values[..days]);
    }
  }

  lemma CountCard(values: seq<real>, days: nat)
    requires |values| == 2 * days
    ensures Derive(values, days, Count).value == SumSeq(values[days..])
    ensures Baseline(values, days, Count) == SumSeq(values[..days])
  {
    SplitPartitions(values, days);
  }

  /** What a window of n days holds: its value for a count, n times its value for an average. */
  ghost function Held(value: real, n: nat, kind: Kind): real {
    if kind == Count then value else n as real * value
  }

  /** Together the two windows hold the whole series: as they are for a count, times their length for an average. */
  lemma WindowsConserve(values: seq<real>, days: nat, kind: Kind)
    requires |values| == 2 * days && kind != Total
    ensures var value, base := Derive(values, days, kind).value, Baseline(values, days, kind);
      SumSeq(values) == if kind == Count then value + base else days as real * value + days as real * base
  {
    hide Derive, Baseline, WindowValue, SumSeq;
    WindowsHoldSeries(values, days, kind);
  }

  lemma WindowsHoldSeries(values: seq<real>, days: nat, kind: Kind)
    requires |values| == 2 * days && kind != Total
    ensures Held(Derive(values, days, kind).value, days, kind) + Held(Baseline(values, days, kind), days, kind)
         == SumSeq(values)
  {
    hide Held, Derive, Baseline, WindowValue, SumSeq;
    CardWindows(values, days, kind);
    assert values[..days] + values[days..] == values;
    SumSeqAppend(values[..days], values[days..]);
    WindowHoldsItsSum(values[days..], kind);
    WindowHoldsItsSum(values[..days], kind);
  }

  lemma CardWindows(values: seq<real>, days: nat, kind: Kind)
    requires |values| == 2 * days
    ensures Derive(values, days, kind).value == WindowValue(values[days..], kind)
    ensures Baseline(values, days, kind) == WindowValue(values[..days], kind)
  {
    hide WindowValue, Change;
    SplitPartitions(values, days);
  }

  lemma WindowHoldsItsSum(window: seq<real>, kind: Kind)
    requires kind != Total
    ensures Held(WindowValue(window, kind), |window|, kind) == SumSeq(window)
  {
    if window != [] && kind != Count {
      var n, total := |window| as real, SumSeq(window);
      assert n * (total / n) == total;
    }
  }

  /** A lifetime total shows its latest snapshot, and its delta the growth since the end of the previous window. */
  lemma TotalIsLatest(values: seq<real>, days: nat)
    requires |values| == 2 * days && days > 0
    ensures var card, latest, earlier := Derive(values, days, Total), values[2 * days - 1], values[days - 1];
      card.value == latest && (earlier != 0.0 ==> card.delta * earlier == 100.0 * (latest - earlier))
  {
    var latest, earlier := values[2 * days - 1], values[days - 1];
    CardWindows(values, days, Total);
    DeltaIsChange(values, days, Total);
    hide Derive, Baseline, Change;
    if earlier != 0.0 {
      ChangeTimesBase(latest, earlier);
    }
  }

  lemma DeltaIsChange(values: seq<real>, days: nat, kind: Kind)
    ensures var card := Derive(values, days, kind);
      card.delta == Change(card.value, Baseline(values, days, kind))
  {
    hide Change, WindowValue, Split;
  }

  lemma ChangeTimesBase(current: real, previous: real)
    requires previous != 0.0
    ensures Change(current, previous) * previous == 100.0 * (current - previous)
  {
    assert (current - previous) / previous * previous == current - previous;
  }

  // ----- Engagement rate -----

  /** One day's value of a series, with the zero padding that aligns shorter ones. */
  function Cell(row: seq<real>, i: nat): real {
    if i < |row| then row[i] else 0.0
  }

  function Column(rows: seq<seq<real>>, i: nat): real {
    if rows == [] then 0.0 else Column(rows[..|rows| - 1], i) + Cell(rows[|rows| - 1], i)
  }

  function LongestLength(rows: seq<seq<real>>): nat {
    if rows == [] then 0 else
      var rest, n := LongestLength(rows[..|rows| - 1]), |rows[|rows| - 1]|;
      if n > rest then n else rest
  }

  function ColumnSums(rows: seq<seq<real>>): (sums: seq<real>)
    ensures |sums| == LongestLength(rows)
    ensures forall i :: 0 <= i < |sums| ==> sums[i] == Column(rows, i)
  {
    seq(LongestLength(rows), i requires 0 <= i => Column(rows, i))
  }

  function PartKeys(keys: seq<Metric>): seq<Metric> {
    if keys == [] then [] else
      PartKeys(keys[..|keys| - 1]) + if IsEngagementPart(keys[|keys| - 1]) then [keys[|keys| - 1]] else []
  }

  function FirstPresent(candidates: seq<Metric>, series: map<Metric, seq<real>>): Option<Metric> {
    if candidates == [] then None
    else if candidates[0] in series then Some(candidates[0])
    else FirstPresent(candidates[1..], series)
  }

  function OrOne(x: real): real {
    if x == 0.0 then 1.0 else x
  }

  function Rows(keys: seq<Metric>, series: map<Metric, seq<real>>, days: nat): seq<seq<real>>
    requires forall k :: k in keys ==> k in series
  {
    if keys == [] then [] else
      Rows(keys[..|keys| - 1], series, days) + [Tail(series[keys[|keys| - 1]], 2 * days)]
  }

  /** The rate from the daily numerators and, when the platform has one, the daily denominators. */
  function RateFrom(partsPerDay: seq<real>, denomPerDay: Option<seq<real>>, days: nat,
                    fallbackFollowers: int): Derived {
    var (partsCur, partsPrev) := Split(partsPerDay, days);
    var denomCur := if denomPerDay.Some? then SumSeq(Tail(denomPerDay.value, days)) else fallbackFollowers as real;
    var denomPrev := if denomPerDay.Some? then SumSeq(Slice(denomPerDay.value, 0 - 2 * days, 0 - days))
                     else fallbackFollowers as real;
    var rateCur := Rate(SumSeq(partsCur), denomCur);
    var ratePrev := Rate(SumSeq(partsPrev), denomPrev);
    var denomWindow := if denomPerDay.Some? then Tail(denomPerDay.value, days) else [];
    Derived(rateCur, Change(rateCur, ratePrev), Sparkline(Tail(partsPerDay, days), denomWindow), Percent)
  }

  function Rate(numerator: real, denominator: real): real {
    numerator / OrOne(denominator) * 100.0
  }

  /** The two windows of the numerator and of the denominator, whatever the lengths of the two. */
  lemma RateOfAnyLengths(parts: seq<real>, denom: seq<real>, days: nat, followers: int)
    requires days > 0
    ensures var n, m := |parts|, |denom|;
      var rate := RateFrom(parts, Some(denom), days, followers);
      rate.value == Rate(SumSeq(parts[if n <= days then 0 else n - days..]),
                         SumSeq(denom[if m <= days then 0 else m - days..]))
      && rate.delta == Change(rate.value,
           Rate(SumSeq(parts[if n <= 2 * days then 0 else n - 2 * days..if n <= days then 0 else n - days]),
                SumSeq(denom[if m <= 2 * days then 0 else m - 2 * days..if m <= days then 0 else m - days])))
  {
    hide Rate, Change, SumSeq, Sparkline;
  }

  /** The rate once the numerator keys and the denominator key are chosen. */
  function RateOf(partKeys: seq<Metric>, denomKey: Option<Metric>, series: map<Metric, seq<real>>, days: nat,
                  fallbackFollowers: int): Derived
    requires forall k :: k in partKeys ==> k in series
    requires denomKey.Some? ==> denomKey.value in series
  {
    RateFrom(ColumnSums(Rows(partKeys, series, days)),
             if denomKey.Some? then Some(Tail(series[denomKey.value], 2 * days)) else None, days, fallbackFollowers)
  }

  /** `keys` is the dictionary's own order. */
  function EngagementRate(keys: seq<Metric>, series: map<Metric, seq<real>>, days: nat, fallbackFollowers: int): Derived
    requires forall k :: k in keys <==> k in series
  {
    PartKeysAreKeys(keys);
    FirstPresentIsPresent(DENOMINATORS, series);
    RateOf(PartKeys(keys), FirstPresent(DENOMINATORS, series), series, days, fallbackFollowers)
  }

  function Sparkline(parts: seq<real>, denom: seq<real>): seq<real> {
    if denom != [] && |denom| == |parts| then
      seq(|parts|, i requires 0 <= i < |parts| => if denom[i] != 0.0 then parts[i] / denom[i] * 100.0 else 0.0)
    else parts
  }

  lemma {:induction false} PartKeysAreKeys(keys: seq<Metric>)
    ensures forall k :: k in PartKeys(keys) <==> k in keys && IsEngagementPart(k)
  {
    if keys != [] {
      PartKeysAreKeys(keys[..|keys| - 1]);
      assert keys == keys[..|keys| - 1] + [keys[|keys| - 1]];
    }
  }

  /** Each part comes as often as in the dictionary, and nothing else does. */
  lemma {:induction false} PartKeysKeepAll(keys: seq<Metric>)
    ensures forall k :: multiset(PartKeys(keys))[k] == if IsEngagementPart(k) then multiset(keys)[k] else 0
  {
    if keys != [] {
      PartKeysKeepAll(keys[..|keys| - 1]);
      assert keys == keys[..|keys| - 1] + [keys[|keys| - 1]];
    }
  }

  lemma FirstPresentStep(first: Metric, rest: seq<Metric>, series: map<Metric, seq<real>>)
    ensures FirstPresent([first] + rest, series) == if first in series then Some(first) else FirstPresent(rest, series)
    ensures FirstPresent([], series) == None
  {
    assert ([first] + rest)[1..] == rest;
  }

  /** Reach is preferred to impressions, those to views, and those to plays. */
  lemma DenominatorPreference(series: map<Metric, seq<real>>)
    ensures FirstPresent(DENOMINATORS, series) ==
      if Reach in series then Some(Reach) else if Impressions in series then Some(Impressions)
      else if Views in series then Some(Views) else if Plays in series then Some(Plays) else None
  {
    assert DENOMINATORS == [Reach] + ([Impressions] + ([Views] + ([Plays] + [])));
    hide FirstPresent;
    FirstPresentStep(Plays, [], series);
    FirstPresentStep(Views, [Plays] + [], series);
    FirstPresentStep(Impressions, [Views] + ([Plays] + []), series);
    FirstPresentStep(Reach, [Impressions] + ([Views] + ([Plays] + [])), series);
  }

  lemma {:induction false} FirstPresentIsPresent(candidates: seq<Metric>, series: map<Metric, seq<real>>)
    ensures var d := FirstPresent(candidates, series); d.Some? ==> d.value in series && d.value in candidates
    ensures FirstPresent(candidates, series).None? ==> forall c :: c in candidates ==> c !in series
  {
    if candidates != [] {
      FirstPresentIsPresent(candidates[1..], series);
      assert candidates == [candidates[0]] + candidates[1..];
    }
  }

  // ----- The rate against the cards beside it -----

  /** The cards of the given metrics, in order. */
  function Cards(keys: seq<Metric>, series: map<Metric, seq<real>>, days: nat): (cards: seq<Derived>)
    requires forall k :: k in keys ==> k in series
    ensures |cards| == |keys|
    ensures forall i :: 0 <= i < |keys| ==> cards[i] == Derive(series[keys[i]], days, KindOf(keys[i]))
  {
    if keys == [] then [] else
      var k := keys[|keys| - 1];
      Cards(keys[..|keys| - 1], series, days) + [Derive(series[k], days, KindOf(k))]
  }

  function SumCards(cards: seq<Derived>): real {
    if cards == [] then 0.0 else SumCards(cards[..|cards| - 1]) + cards[|cards| - 1].value
  }

  /** Every series covers the same 2*days, as the bundle guarantees. */
  ghost predicate FullLength(series: map<Metric, seq<real>>, days: nat) {
    forall k :: k in series ==> |series[k]| == 2 * days
  }

  lemma {:induction false} SumSeqPointwise(a: seq<real>, b: seq<real>, c: seq<real>)
    requires |a| == |b| == |c| && forall i :: 0 <= i < |a| ==> c[i] == a[i] + b[i]
    ensures SumSeq(c) == SumSeq(a) + SumSeq(b)
  {
    if a != [] {
      var n := |a| - 1;
      SumSeqPointwise(a[..n], b[..n], c[..n]);
    }
  }

  lemma {:induction false} RowsAreSeries(keys: seq<Metric>, series: map<Metric, seq<real>>, days: nat, i: nat)
    requires (forall k :: k in keys ==> k in series) && FullLength(series, days) && i < |keys|
    ensures |Rows(keys, series, days)| == |keys| && Rows(keys, series, days)[i] == series[keys[i]]
    decreases |keys|
  {
    var n := |keys| - 1;
    assert keys[n] in keys;
    WholeTail(series[keys[n]], days);
    hide Tail;
    if n > 0 {
      RowsAreSeries(keys[..n], series, days, if i < n then i else 0);
    }
  }

  lemma RowsHaveFullLength(keys: seq<Metric>, series: map<Metric, seq<real>>, days: nat)
    requires (forall k :: k in keys ==> k in series) && FullLength(series, days)
    ensures |Rows(keys, series, days)| == |keys|
    ensures forall i :: 0 <= i < |keys| ==> Rows(keys, series, days)[i] == series[keys[i]]
  {
    forall i | 0 <= i < |keys|
      ensures |Rows(keys, series, days)| == |keys| && Rows(keys, series, days)[i] == series[keys[i]]
    {
      RowsAreSeries(keys, series, days, i);
    }
  }

  lemma LongestOfRows(keys: seq<Metric>, series: map<Metric, seq<real>>, days: nat)
    requires (forall k :: k in keys ==> k in series) && FullLength(series, days)
    ensures LongestLength(Rows(keys, series, days)) == if keys == [] then 0 else 2 * days
  {
    hide Rows;
    RowsHaveFullLength(keys, series, days);
    assert forall i :: 0 <= i < |keys| ==> keys[i] in keys;
    LongestOfEqual(Rows(keys, series, days), 2 * days);
  }

  /** The padding that aligns series of different lengths adds nothing: the daily sums hold what the series hold. */
  lemma PaddingAddsNothing(rows: seq<seq<real>>)
    ensures SumSeq(ColumnSums(rows)) == SumRows(rows)
  {
    var n := LongestLength(rows);
    SumSeqIsSumDays(ColumnSums(rows), i => ColumnAt(rows, i), 0);
    ColumnsHoldRows(rows, n);
  }

  function SumRows(rows: seq<seq<real>>): real {
    if rows == [] then 0.0 else SumRows(rows[..|rows| - 1]) + SumSeq(rows[|rows| - 1])
  }

  function ColumnAt(rows: seq<seq<real>>, i: int): real {
    if i < 0 then 0.0 else Column(rows, i)
  }

  lemma {:induction false} ColumnsHoldRows(rows: seq<seq<real>>, n: nat)
    requires LongestLength(rows) <= n
    ensures SumDays(i => ColumnAt(rows, i), 0, n - 1) == SumRows(rows)
    decreases |rows|
  {
    if rows == [] {
      SumDaysOfBlock(i => ColumnAt(rows, i), 0.0, 0, 0, 0, n - 1);
    } else {
      var init, last := rows[..|rows| - 1], rows[|rows| - 1];
      ColumnsHoldRows(init, n);
      RowHoldsItself(last, n);
      SumDaysAdds(i => ColumnAt(init, i), i => if i < 0 then 0.0 else Cell(last, i), i => ColumnAt(rows, i), 0, n - 1);
    }
  }

  lemma {:induction false} RowHoldsItself(row: seq<real>, n: nat)
    requires |row| <= n
    ensures SumDays(i => if i < 0 then 0.0 else Cell(row, i), 0, n - 1) == SumSeq(row)
    decreases n
  {
    var f := i => if i < 0 then 0.0 else Cell(row, i);
    if |row| == n {
      SumSeqIsSumDays(row, f, 0);
    } else {
      RowHoldsItself(row, n - 1);
      assert f(n - 1) == 0.0;
    }
  }

  lemma {:induction false} ColumnSumsAdd(rows: seq<seq<real>>, row: seq<real>, n: nat, from: nat, to: nat)
    requires from <= to <= n && |row| == n && forall i :: 0 <= i < |rows| ==> |rows[i]| == n
    ensures LongestLength(rows + [row]) == n
    ensures rows != [] ==> LongestLength(rows) == n
    ensures var before := if rows == [] then 0.0 else SumSeq(ColumnSums(rows)[from..to]);
      SumSeq(ColumnSums(rows + [row])[from..to]) == before + SumSeq(row[from..to])
  {
    assert (rows + [row])[..|rows|] == rows;
    LongestOfEqual(rows, n);
    var sums := ColumnSums(rows + [row]);
    forall i | 0 <= i < n ensures sums[i] == Column(rows, i) + row[i] {
      assert sums[i] == Column(rows + [row], i);
    }
    if rows == [] {
      assert sums[from..to] == row[from..to];
    } else {
      SumSeqPointwise(ColumnSums(rows)[from..to], row[from..to], sums[from..to]);
    }
  }

  lemma {:induction false} LongestOfEqual(rows: seq<seq<real>>, n: nat)
    requires forall i :: 0 <= i < |rows| ==> |rows[i]| == n
    ensures LongestLength(rows) == if rows == [] then 0 else n
  {
    if rows != [] {
      LongestOfEqual(rows[..|rows| - 1], n);
    }
  }

  ghost function SumBaselines(rows: seq<seq<real>>, days: nat): real {
    if rows == [] then 0.0 else SumBaselines(rows[..|rows| - 1], days) + Baseline(rows[|rows| - 1], days, Count)
  }

  /** The two ways to add up the numerator, by day over metrics and by metric over days, in both windows. */
  lemma {:induction false} NumeratorIsCardTotal(rows: seq<seq<real>>, cards: seq<Derived>, days: nat)
    requires rows != [] && |cards| == |rows|
    requires forall i :: 0 <= i < |rows| ==> |rows[i]| == 2 * days && cards[i] == Derive(rows[i], days, Count)
    ensures LongestLength(rows) == 2 * days
    ensures SumSeq(ColumnSums(rows)[days..]) == SumCards(cards)
    ensures SumSeq(ColumnSums(rows)[..days]) == SumBaselines(rows, days)
  {
    var n := |rows| - 1;
    assert rows == rows[..n] + [rows[n]];
    ColumnSumsAdd(rows[..n], rows[n], 2 * days, days, 2 * days);
    ColumnSumsAdd(rows[..n], rows[n], 2 * days, 0, days);
    WindowsAsSlices(ColumnSums(rows), days);
    WindowsAsSlices(rows[n], days);
    CountCard(rows[n], days);
    if n > 0 {
      NumeratorIsCardTotal(rows[..n], cards[..n], days);
      WindowsAsSlices(ColumnSums(rows[..n]), days);
    }
  }

  lemma WindowsAsSlices(s: seq<real>, days: nat)
    requires |s| == 2 * days
    ensures s[days..] == s[days..2 * days] && s[..days] == s[0..days]
  {
  }

  lemma RateFromTotals(parts: seq<real>, denom: Option<seq<real>>, days: nat, followers: int)
    requires parts == [] || |parts| == 2 * days
    requires denom.Some? ==> |denom.value| == 2 * days
    ensures var cur := Rate(if parts == [] then 0.0 else SumSeq(parts[days..]),
                            if denom.Some? then SumSeq(denom.value[days..]) else followers as real);
      var prev := Rate(if parts == [] then 0.0 else SumSeq(parts[..days]),
                       if denom.Some? then SumSeq(denom.value[..days]) else followers as real);
      var rate := RateFrom(parts, denom, days, followers);
      rate.value == cur && rate.delta == Change(cur, prev)
  {
    if parts != [] {
      SplitPartitions(parts, days);
    }
    if denom.Some? && denom.value != [] {
      SplitPartitions(denom.value, days);
    }
  }

  lemma CardsOfRows(keys: seq<Metric>, series: map<Metric, seq<real>>, days: nat)
    requires (forall k :: k in keys ==> k in series && KindOf(k) == Count) && FullLength(series, days)
    ensures var rows, cards := Rows(keys, series, days), Cards(keys, series, days);
      |rows| == |keys|
      && forall i :: 0 <= i < |keys| ==> |rows[i]| == 2 * days && cards[i] == Derive(rows[i], days, Count)
  {
    RowsHaveFullLength(keys, series, days);
    hide KindOf, Derive, Rows, Cards, LongestLength;
    forall i | 0 <= i < |keys| ensures keys[i] in series && KindOf(keys[i]) == Count {
      assert keys[i] in keys;
    }
  }

  lemma PartTotals(keys: seq<Metric>, series: map<Metric, seq<real>>, days: nat)
    requires (forall k :: k in keys ==> k in series && KindOf(k) == Count) && FullLength(series, days)
    ensures var sums := ColumnSums(Rows(keys, series, days));
      (sums == [] || |sums| == 2 * days)
      && (if sums == [] then 0.0 else SumSeq(sums[days..])) == SumCards(Cards(keys, series, days))
      && (if sums == [] then 0.0 else SumSeq(sums[..days])) == SumBaselines(Rows(keys, series, days), days)
  {
    var rows, cards := Rows(keys, series, days), Cards(keys, series, days);
    CardsOfRows(keys, series, days);
    hide KindOf, Column, Rows, Cards, Derive, Baseline, SumSeq;
    if keys != [] {
      hide SumCards, SumBaselines, LongestLength;
      NumeratorIsCardTotal(rows, cards, days);
    }
  }

  lemma RateOfCards(partKeys: seq<Metric>, denomKey: Option<Metric>, series: map<Metric, seq<real>>, days: nat,
                    followers: int)
    requires forall k :: k in partKeys ==> k in series && KindOf(k) == Count
    requires denomKey.Some? ==> denomKey.value in series && KindOf(denomKey.value) == Count
    requires FullLength(series, days)
    ensures var rate := RateOf(partKeys, denomKey, series, days, followers);
      var cur := Rate(SumCards(Cards(partKeys, series, days)),
                      if denomKey.Some? then Derive(series[denomKey.value], days, Count).value else followers as real);
      var prev := Rate(SumBaselines(Rows(partKeys, series, days), days),
                       if denomKey.Some? then Baseline(series[denomKey.value], days, Count) else followers as real);
      rate.value == cur && rate.delta == Change(cur, prev)
  {
    hide LongestLength, Column, Rows, Cards, RateFrom, SumSeq, Derive, Baseline, SumCards, SumBaselines;
    hide Rate, Change, ColumnSums;
    PartTotals(partKeys, series, days);
    if denomKey.Some? {
      CountCard(series[denomKey.value], days);
      WholeTail(series[denomKey.value], days);
    }
    RateFromTotals(ColumnSums(Rows(partKeys, series, days)),
                   if denomKey.Some? then Some(series[denomKey.value]) else None, days, followers);
  }

  lemma RateTimesDenominator(rate: real, numerator: real, denominator: real)
    requires rate == Rate(numerator, denominator)
    ensures if denominator != 0.0 then rate * denominator == 100.0 * numerator else rate == 100.0 * numerator
  {
    if denominator != 0.0 {
      assert numerator / denominator * denominator == numerator;
    }
  }

  lemma RateOfChosenCards(keys: seq<Metric>, series: map<Metric, seq<real>>, days: nat, followers: int)
    requires (forall k :: k in keys <==> k in series) && FullLength(series, days)
    ensures (forall k :: k in PartKeys(keys) ==> k in series)
      && (FirstPresent(DENOMINATORS, series).Some? ==> FirstPresent(DENOMINATORS, series).value in series)
    ensures var d := FirstPresent(DENOMINATORS, series);
      var rate := EngagementRate(keys, series, days, followers);
      var cur := Rate(SumCards(Cards(PartKeys(keys), series, days)),
                      if d.Some? then Derive(series[d.value], days, KindOf(d.value)).value else followers as real);
      var prev := Rate(SumBaselines(Rows(PartKeys(keys), series, days), days),
                       if d.Some? then Baseline(series[d.value], days, KindOf(d.value)) else followers as real);
      rate.value == cur && rate.delta == Change(cur, prev)
  {
    PartKeysAreKeys(keys);
    FirstPresentIsPresent(DENOMINATORS, series);
    RateOfCards(PartKeys(keys), FirstPresent(DENOMINATORS, series), series, days, followers);
  }

  /**
   The engagement rate is 100 times the total of its parts' own cards over the
   denominator's own card (or over the follower count without a denominator);
   a zero denominator counts as one.
   */
  lemma RateIsRatioOfCards(keys: seq<Metric>, series: map<Metric, seq<real>>, days: nat, followers: int)
    requires (forall k :: k in keys <==> k in series) && FullLength(series, days)
    ensures (forall k :: k in PartKeys(keys) ==> k in series)
      && (FirstPresent(DENOMINATORS, series).Some? ==> FirstPresent(DENOMINATORS, series).value in series)
    ensures var d := FirstPresent(DENOMINATORS, series);
      var rate, parts := EngagementRate(keys, series, days, followers), SumCards(Cards(PartKeys(keys), series, days));
      var denom := if d.Some? then Derive(series[d.value], days, KindOf(d.value)).value else followers as real;
      if denom != 0.0 then rate.value * denom == 100.0 * parts else rate.value == 100.0 * parts
  {
    hide EngagementRate, Rate, Change, Cards, Rows, PartKeys, Derive, Baseline, FirstPresent, FullLength, SumCards;
    hide SumBaselines, KindOf;
    RateOfChosenCards(keys, series, days, followers);
    var d := FirstPresent(DENOMINATORS, series);
    var denom := if d.Some? then Derive(series[d.value], days, KindOf(d.value)).value else followers as real;
    RateTimesDenominator(EngagementRate(keys, series, days, followers).value,
                         SumCards(Cards(PartKeys(keys), series, days)), denom);
  }

  /** Its delta compares it with `previous`, the same ratio of the cards' previous windows; zero when that is zero. */
  lemma RateDeltaComparesWindows(keys: seq<Metric>, series: map<Metric, seq<real>>, days: nat, followers: int)
    returns (previous: real)
    requires (forall k :: k in keys <==> k in series) && FullLength(series, days)
    ensures (forall k :: k in PartKeys(keys) ==> k in series)
      && (FirstPresent(DENOMINATORS, series).Some? ==> FirstPresent(DENOMINATORS, series).value in series)
    ensures var d := FirstPresent(DENOMINATORS, series);
      var parts := SumBaselines(Rows(PartKeys(keys), series, days), days);
      var denom := if d.Some? then Baseline(series[d.value], days, KindOf(d.value)) else followers as real;
      if denom != 0.0 then previous * denom == 100.0 * parts else previous == 100.0 * parts
    ensures var rate := EngagementRate(keys, series, days, followers);
      if previous != 0.0 then rate.delta * previous == 100.0 * (rate.value - previous) else rate.delta == 0.0
  {
    hide EngagementRate, Rate, Change, Cards, Rows, PartKeys, Derive, Baseline, FirstPresent, FullLength, SumCards;
    hide SumBaselines, KindOf;
    RateOfChosenCards(keys, series, days, followers);
    var d, rate := FirstPresent(DENOMINATORS, series), EngagementRate(keys, series, days, followers);
    var parts := SumBaselines(Rows(PartKeys(keys), series, days), days);
    var denom := if d.Some? then Baseline(series[d.value], days, KindOf(d.value)) else followers as real;
    previous := Rate(parts, denom);
    RateTimesDenominator(previous, parts, denom);
    ChangeInProducts(rate.delta, rate.value, previous);
  }

  lemma ChangeInProducts(delta: real, current: real, previous: real)
    requires delta == Change(current, previous)
    ensures if previous != 0.0 then delta * previous == 100.0 * (current - previous) else delta == 0.0
  {
    if previous != 0.0 {
      ChangeTimesBase(current, previous);
    }
  }

  /** The plotted point gives the numerator back when weighted by a non-zero denominator; otherwise it is zero. */
  ghost predicate Recovers(point: real, numerator: real, denominator: real) {
    if denominator == 0.0 then point == 0.0 else point * denominator == 100.0 * numerator
  }

  lemma SparklineTimes(parts: seq<real>, denom: seq<real>)
    requires parts != [] && |parts| == |denom|
    ensures |Sparkline(parts, denom)| == |parts|
    ensures forall i :: 0 <= i < |parts| ==> Recovers(Sparkline(parts, denom)[i], parts[i], denom[i])
  {
    forall i | 0 <= i < |parts| ensures Recovers(Sparkline(parts, denom)[i], parts[i], denom[i]) {
      if denom[i] != 0.0 {
        assert parts[i] / denom[i] * denom[i] == parts[i];
      }
    }
  }

  lemma SparklineFrom(parts: seq<real>, denom: seq<real>, days: nat, followers: int)
    requires days > 0 && |parts| == |denom| == 2 * days
    ensures RateFrom(parts, Some(denom), days, followers).series == Sparkline(parts[days..], denom[days..])
  {
    WholeTail(parts, days);
    WholeTail(denom, days);
  }

  /**
   The sparkline weighted by the daily denominators gives the daily numerators
   back on every day whose denominator is not zero, and is zero on the others.
   */
  lemma SparklineRecoversNumerators(keys: seq<Metric>, series: map<Metric, seq<real>>, days: nat, followers: int,
                                    i: nat)
    requires (forall k :: k in keys <==> k in series) && FullLength(series, days)
    requires PartKeys(keys) != [] && FirstPresent(DENOMINATORS, series).Some? && i < days
    ensures (forall k :: k in PartKeys(keys) ==> k in series) && FirstPresent(DENOMINATORS, series).value in series
    ensures var line := EngagementRate(keys, series, days, followers).series;
      var parts := Column(Rows(PartKeys(keys), series, days), days + i);
      var denom := series[FirstPresent(DENOMINATORS, series).value][days + i];
      |line| == days && if denom == 0.0 then line[i] == 0.0 else line[i] * denom == 100.0 * parts
  {
    PartKeysAreKeys(keys);
    FirstPresentIsPresent(DENOMINATORS, series);
    hide RateOf, Column, Rows, PartKeys, FirstPresent, FullLength;
    SparklineOf(PartKeys(keys), FirstPresent(DENOMINATORS, series).value, series, days, followers, i);
  }

  lemma SparklineOf(partKeys: seq<Metric>, key: Metric, series: map<Metric, seq<real>>, days: nat, followers: int,
                    i: nat)
    requires partKeys != [] && (forall k :: k in partKeys ==> k in series) && key in series
    requires FullLength(series, days) && i < days
    ensures var line := RateOf(partKeys, Some(key), series, days, followers).series;
      |line| == days && Recovers(line[i], Column(Rows(partKeys, series, days), days + i), series[key][days + i])
  {
    LongestOfRows(partKeys, series, days);
    var perDay := ColumnSums(Rows(partKeys, series, days));
    assert |series[key]| == 2 * days;
    hide RateFrom, Sparkline, Rows, LongestLength, Column, Tail, FullLength, Recovers;
    WholeTail(series[key], days);
    SparklineRecovers(perDay, series[key], days, followers, i);
  }

  lemma SparklineRecovers(parts: seq<real>, denom: seq<real>, days: nat, followers: int, i: nat)
    requires |parts| == |denom| == 2 * days && i < days
    ensures var line := RateFrom(parts, Some(denom), days, followers).series;
      |line| == days && Recovers(line[i], parts[days + i], denom[days + i])
  {
    hide RateFrom, Sparkline, Recovers;
    SparklineFrom(parts, denom, days, followers);
    SparklineTimes(parts[days..], denom[days..]);
  }
}
