/**
 The walk that finds the next posting-slot datetimes of an account
 (apps/calendar/services.py).  A datetime is a number of microseconds whose
 quotient by DAY is the date's proleptic ordinal, with no time-zone shifts.
 */
module SlotFinder {
  const DAY := 24 * 60 * 60 * 1_000_000
  const HORIZON := 60

  datatype Slot = Slot(dayOfWeek: int, time: int, active: bool)

  /** The slots of one account in (day, time) order; that pair is unique. */
  ghost predicate WellFormed(table: seq<Slot>) {
    (forall s :: s in table ==> 0 <= s.dayOfWeek < 7 && 0 <= s.time < DAY)
    && forall i, j :: 0 <= i < j < |table| ==> Before(table[i], table[j])
  }

  predicate Before(a: Slot, b: Slot) {
    a.dayOfWeek < b.dayOfWeek || (a.dayOfWeek == b.dayOfWeek && a.time < b.time)
  }

  /** The query's order and the columns' ranges, in days and microseconds. */
  lemma TableInFields(table: seq<Slot>)
    ensures WellFormed(table) <==>
      (forall s :: s in table ==> 0 <= s.dayOfWeek <= 6 && 0 <= s.time < 86_400_000_000)
      && forall i, j :: 0 <= i < j < |table| ==>
           table[i].dayOfWeek < table[j].dayOfWeek
           || (table[i].dayOfWeek == table[j].dayOfWeek && table[i].time < table[j].time)
  {
  }

  function DateOf(dt: int): int {
    dt / DAY
  }

  /** Ordinal 1 is a Monday, and Monday is 0. */
  function Weekday(date: int): int {
    (date + 6) % 7
  }

  function Active(table: seq<Slot>): (kept: seq<Slot>)
    ensures forall s :: s in kept <==> s in table && s.active
  {
    if table == [] then [] else
      var last := table[|table| - 1];
      Active(table[..|table| - 1]) + if last.active then [last] else []
  }

  lemma {:induction false} ActiveIsWellFormed(table: seq<Slot>)
    requires WellFormed(table)
    ensures WellFormed(Active(table))
  {
    if table != [] {
      var init, last := table[..|table| - 1], table[|table| - 1];
      assert forall s :: s in init ==> s in table;
      ActiveIsWellFormed(init);
      var kept := Active(init);
      forall i | 0 <= i < |kept| ensures Before(kept[i], last) {
        assert kept[i] in init;
        var j :| 0 <= j < |init| && init[j] == kept[i];
        assert table[j] == kept[i];
      }
    }
  }

  // ----- Every slot time of the horizon, in order -----

  function DaySlots(slots: seq<Slot>, date: int, after: int): seq<int> {
    if slots == [] then [] else
      var last := slots[|slots| - 1];
      var dt := date * DAY + last.time;
      DaySlots(slots[..|slots| - 1], date, after)
      + if last.dayOfWeek == Weekday(date) && dt > after then [dt] else []
  }

  /** The slot times on the dates from `date` up to, not including, `until`. */
  function AllSlots(slots: seq<Slot>, date: int, until: int, after: int): seq<int>
    decreases until - date
  {
    if until <= date then [] else AllSlots(slots, date, until - 1, after) + DaySlots(slots, until - 1, after)
  }

  /** How many times the walk collects before it stops: it looks only after it has appended. */
  function Wanted(count: int): nat {
    if count < 1 then 1 else count
  }

  function Take(times: seq<int>, n: nat): seq<int> {
    if |times| <= n then times else times[..n]
  }

  function NextSlots(table: seq<Slot>, after: int, count: int): seq<int> {
    Take(AllSlots(Active(table), DateOf(after), DateOf(after) + HORIZON, after), Wanted(count))
  }

  /** One date of the walk: it stops at the slot that fills the list. */
  method CollectDay(slots: seq<Slot>, date: int, after: int, count: int, found: seq<int>)
    returns (results: seq<int>, full: bool)
    requires |found| < Wanted(count)
    ensures results <= found + DaySlots(slots, date, after)
    ensures full ==> |results| == Wanted(count)
    ensures !full ==> results == found + DaySlots(slots, date, after) && |results| < Wanted(count)
  {
    results, full := found, false;
    for k := 0 to |slots|
      invariant results == found + DaySlots(slots[..k], date, after)
      invariant |results| < Wanted(count)
    {
      assert slots[..k + 1][..k] == slots[..k];
      if slots[k].dayOfWeek != Weekday(date) {
        continue;
      }
      var dt := date * DAY + slots[k].time;
      if dt <= after {
        continue;
      }
      results := results + [dt];
      if |results| >= count {
        DayPrefix(slots, k + 1, date, after);
        return results, true;
      }
    }
    assert slots[..|slots|] == slots;
  }

  lemma FrontIsTaken(results: seq<int>, all: seq<int>, n: nat)
    requires results <= all && (|results| == n || (results == all && |results| < n))
    ensures results == Take(all, n)
  {
  }

  method WalkDays(slots: seq<Slot>, days: nat, after: int, count: int) returns (results: seq<int>)
    ensures results == Take(AllSlots(slots, DateOf(after), DateOf(after) + days, after), Wanted(count))
  {
    hide Take, DateOf, DaySlots, Wanted;
    results := [];
    NothingTaken(count);
    for offset := 0 to days
      invariant results == AllSlots(slots, DateOf(after), DateOf(after) + offset, after)
      invariant |results| < Wanted(count)
    {
      var full;
      results, full := CollectDay(slots, DateOf(after) + offset, after, count, results);
      if full {
        AllPrefix(slots, DateOf(after), DateOf(after) + offset + 1, DateOf(after) + days, after);
        FrontIsTaken(results, AllSlots(slots, DateOf(after), DateOf(after) + days, after), Wanted(count));
        return;
      }
    }
    FrontIsTaken(results, results, Wanted(count));
  }

  lemma NothingTaken(count: int)
    ensures Wanted(count) > 0
  {
  }

  method NextSlotDatetimes(table: seq<Slot>, after: int, count: int) returns (results: seq<int>)
    ensures results == NextSlots(table, after, count)
  {
    var slots := Active(table);
    if slots == [] {
      NoSlots(DateOf(after), DateOf(after) + HORIZON, after);
      return [];
    }
    results := WalkDays(slots, HORIZON, after, count);
  }

  lemma {:induction false} NoSlots(date: int, until: int, after: int)
    ensures AllSlots([], date, until, after) == []
    decreases until - date
  {
    if date < until {
      NoSlots(date, until - 1, after);
    }
  }

  lemma {:induction false} DayPrefix(slots: seq<Slot>, k: nat, date: int, after: int)
    requires k <= |slots|
    ensures DaySlots(slots[..k], date, after) <= DaySlots(slots, date, after)
  {
    if k < |slots| {
      DayPrefix(slots[..|slots| - 1], k, date, after);
      assert slots[..|slots| - 1][..k] == slots[..k];
    } else {
      assert slots[..k] == slots;
    }
  }

  lemma {:induction false} AllPrefix(slots: seq<Slot>, date: int, a: int, b: int, after: int)
    requires date <= a <= b
    ensures AllSlots(slots, date, a, after) <= AllSlots(slots, date, b, after)
    decreases b - date
  {
    hide DaySlots;
    if a < b {
      AllPrefix(slots, date, a, b - 1, after);
    }
  }

  // ----- What the walk finds -----

  /** dt is a time of one of the slots, after `after`, on a date from `date` up to, not including, `until`. */
  ghost predicate IsSlotTime(slots: seq<Slot>, date: int, until: int, after: int, dt: int) {
    dt > after && date <= DateOf(dt) < until
    && exists s :: s in slots && s.dayOfWeek == Weekday(DateOf(dt)) && s.time == dt % DAY
  }

  ghost predicate Increasing(times: seq<int>) {
    forall i, j :: 0 <= i < j < |times| ==> times[i] < times[j]
  }

  /** Days of the week run in a cycle from Monday, which is 0; day 719163, 1 January 1970, was a Thursday. */
  lemma WeekdaysCycle(date: int)
    ensures 0 <= Weekday(date) < 7 && Weekday(date + 1) == (Weekday(date) + 1) % 7 && Weekday(719163) == 3
  {
  }

  /** The slot times of the walk in the fields of the table, in microseconds: an active slot on its own weekday. */
  lemma SlotTimesInFields(table: seq<Slot>, after: int, dt: int)
    ensures IsSlotTime(Active(table), DateOf(after), DateOf(after) + 60, after, dt) <==>
      dt > after && dt / 86_400_000_000 < after / 86_400_000_000 + 60
      && exists s :: s in table && s.active && s.time == dt % 86_400_000_000
           && s.dayOfWeek == Weekday(dt / 86_400_000_000)
  {
  }

  /** A slot of the date, said without division. */
  ghost predicate OnDate(slots: seq<Slot>, date: int, after: int, dt: int) {
    dt > after && exists s :: s in slots && s.dayOfWeek == Weekday(date) && dt == date * DAY + s.time
  }

  lemma OnDateOfLast(slots: seq<Slot>, date: int, after: int, dt: int)
    requires slots != []
    ensures var last := slots[|slots| - 1];
      OnDate(slots, date, after, dt) <==>
        (OnDate(slots[..|slots| - 1], date, after, dt)
         || (dt > after && last.dayOfWeek == Weekday(date) && dt == date * DAY + last.time))
  {
    hide Weekday;
    var init, last := slots[..|slots| - 1], slots[|slots| - 1];
    assert slots == init + [last];
  }

  lemma LastSlotIsLatest(slots: seq<Slot>, date: int, after: int, dt: int)
    requires WellFormed(slots) && slots != [] && OnDate(slots[..|slots| - 1], date, after, dt)
    ensures slots[|slots| - 1].dayOfWeek == Weekday(date) ==> dt < date * DAY + slots[|slots| - 1].time
  {
    hide Weekday;
    var init := slots[..|slots| - 1];
    var s :| s in init && s.dayOfWeek == Weekday(date) && dt == date * DAY + s.time;
    var j :| 0 <= j < |init| && init[j] == s;
    assert Before(slots[j], slots[|slots| - 1]);
  }

  lemma {:induction false} IsDaySlotIff(slots: seq<Slot>, date: int, after: int, dt: int)
    ensures dt in DaySlots(slots, date, after) <==> OnDate(slots, date, after, dt)
    decreases |slots|
  {
    if slots != [] {
      IsDaySlotIff(slots[..|slots| - 1], date, after, dt);
      OnDateOfLast(slots, date, after, dt);
      hide OnDate, Weekday;
    }
  }

  lemma {:induction false} DaySlotsIncrease(slots: seq<Slot>, date: int, after: int)
    requires WellFormed(slots)
    ensures Increasing(DaySlots(slots, date, after))
    decreases |slots|
  {
    if slots != [] {
      var init, last := slots[..|slots| - 1], slots[|slots| - 1];
      DaySlotsIncrease(init, date, after);
      var before := DaySlots(init, date, after);
      forall i | 0 <= i < |before| ensures last.dayOfWeek == Weekday(date) ==> before[i] < date * DAY + last.time {
        assert before[i] in before;
        IsDaySlotIff(init, date, after, before[i]);
        LastSlotIsLatest(slots, date, after, before[i]);
      }
      hide OnDate, WellFormed, Weekday;
    }
  }

  lemma DaySlotsOnDate(slots: seq<Slot>, date: int, after: int)
    requires WellFormed(slots)
    ensures Increasing(DaySlots(slots, date, after))
    ensures forall dt :: dt in DaySlots(slots, date, after) <==> OnDate(slots, date, after, dt)
  {
    hide OnDate, WellFormed, DaySlots, Increasing;
    DaySlotsIncrease(slots, date, after);
    forall dt ensures dt in DaySlots(slots, date, after) <==> OnDate(slots, date, after, dt) {
      IsDaySlotIff(slots, date, after, dt);
    }
  }

  lemma TimeInDay(date: int, time: int, dt: int)
    requires 0 <= time < DAY
    ensures dt == date * DAY + time <==> DateOf(dt) == date && dt % DAY == time
  {
  }

  lemma OnDateIsSlotTime(slots: seq<Slot>, date: int, after: int, dt: int)
    requires WellFormed(slots)
    ensures OnDate(slots, date, after, dt) <==> IsSlotTime(slots, date, date + 1, after, dt)
  {
    if OnDate(slots, date, after, dt) {
      var s :| s in slots && s.dayOfWeek == Weekday(date) && dt == date * DAY + s.time;
      TimeInDay(date, s.time, dt);
    }
    if IsSlotTime(slots, date, date + 1, after, dt) {
      var s :| s in slots && s.dayOfWeek == Weekday(DateOf(dt)) && s.time == dt % DAY;
      TimeInDay(date, s.time, dt);
    }
  }

  lemma LaterDateIsLater(a: int, b: int)
    requires DateOf(a) < DateOf(b)
    ensures a < b
  {
  }

  lemma {:induction false} AllSlotsAreTheDays(slots: seq<Slot>, date: int, until: int, after: int)
    requires WellFormed(slots)
    ensures Increasing(AllSlots(slots, date, until, after))
    ensures forall dt :: dt in AllSlots(slots, date, until, after) <==> IsSlotTime(slots, date, until, after, dt)
    decreases until - date
  {
    if date < until {
      AllSlotsAreTheDays(slots, date, until - 1, after);
      DaySlotsOnDate(slots, until - 1, after);
      var before, today := AllSlots(slots, date, until - 1, after), DaySlots(slots, until - 1, after);
      forall dt ensures dt in today <==> IsSlotTime(slots, until - 1, until, after, dt) {
        OnDateIsSlotTime(slots, until - 1, after, dt);
      }
      forall i, j | 0 <= i < |before| && 0 <= j < |today| ensures before[i] < today[j] {
        assert before[i] in before && today[j] in today;
        LaterDateIsLater(before[i], today[j]);
      }
    }
  }

  // ----- How many there are -----

  ghost function OnWeekday(slots: seq<Slot>, weekday: int): nat {
    if slots == [] then 0 else
      OnWeekday(slots[..|slots| - 1], weekday) + if slots[|slots| - 1].dayOfWeek == weekday then 1 else 0
  }

  lemma {:induction false} LaterDayIsFull(slots: seq<Slot>, date: int, after: int)
    requires WellFormed(slots) && date > DateOf(after)
    ensures |DaySlots(slots, date, after)| == OnWeekday(slots, Weekday(date))
  {
    if slots != [] {
      assert slots[|slots| - 1] in slots;
      LaterDayIsFull(slots[..|slots| - 1], date, after);
    }
  }

  lemma DayAddsItsSlots(slots: seq<Slot>, after: int, until: int)
    requires WellFormed(slots) && until > DateOf(after)
    ensures |AllSlots(slots, DateOf(after), until + 1, after)| ==
      |AllSlots(slots, DateOf(after), until, after)| + OnWeekday(slots, Weekday(until))
  {
    LaterDayIsFull(slots, until, after);
  }

  ghost function DaysTotal(slots: seq<Slot>, date: int, n: nat): nat {
    if n == 0 then 0 else DaysTotal(slots, date, n - 1) + OnWeekday(slots, Weekday(date + n - 1))
  }

  lemma TotalStep(slots: seq<Slot>, date: int, n: nat)
    ensures DaysTotal(slots, date, 0) == 0
    ensures DaysTotal(slots, date, n + 1) == DaysTotal(slots, date, n) + OnWeekday(slots, Weekday(date + n))
  {
  }

  lemma {:induction false} DaysAddUp(slots: seq<Slot>, after: int, until: int, n: nat)
    requires WellFormed(slots) && until > DateOf(after)
    ensures |AllSlots(slots, DateOf(after), until + n, after)| ==
      |AllSlots(slots, DateOf(after), until, after)| + DaysTotal(slots, until, n)
    decreases n
  {
    hide AllSlots, OnWeekday, Weekday, WellFormed, DateOf, DaysTotal;
    TotalStep(slots, until, if n > 0 then n - 1 else 0);
    if n > 0 {
      DaysAddUp(slots, after, until, n - 1);
      DayAddsItsSlots(slots, after, until + (n - 1));
    }
  }

  /** The days, among the n from `date` on, that fall on a weekday. */
  ghost function Hits(weekday: int, date: int, n: nat): nat {
    if n == 0 then 0 else Hits(weekday, date, n - 1) + if Weekday(date + (n - 1)) == weekday then 1 else 0
  }

  lemma WeekdayRecurs(weekday: int, date: int, k: nat)
    requires 0 <= weekday < 7 && k < 7
    ensures Weekday(date + k) == weekday <==> k == (weekday - Weekday(date)) % 7
  {
  }

  lemma {:induction false} HitsOnceAWeek(weekday: int, date: int, n: nat)
    requires 0 <= weekday < 7 && n <= 7
    ensures Hits(weekday, date, n) == if n > (weekday - Weekday(date)) % 7 then 1 else 0
  {
    if n > 0 {
      HitsOnceAWeek(weekday, date, n - 1);
      WeekdayRecurs(weekday, date, n - 1);
    }
  }

  lemma {:induction false} LastSlotHits(slots: seq<Slot>, date: int, n: nat)
    requires slots != []
    ensures DaysTotal(slots, date, n) ==
      DaysTotal(slots[..|slots| - 1], date, n) + Hits(slots[|slots| - 1].dayOfWeek, date, n)
    decreases n
  {
    hide Weekday;
    if n > 0 {
      LastSlotHits(slots, date, n - 1);
      assert date + n - 1 == date + (n - 1);
    }
  }

  lemma {:induction false} NoSlotsNoTotal(date: int, n: nat)
    ensures DaysTotal([], date, n) == 0
  {
    if n > 0 {
      NoSlotsNoTotal(date, n - 1);
    }
  }

  /** Seven days in a row meet every slot once. */
  lemma {:induction false} WeekTotal(slots: seq<Slot>, date: int, week: nat)
    requires week == 7 && forall s :: s in slots ==> 0 <= s.dayOfWeek < 7
    ensures DaysTotal(slots, date, week) == |slots|
    decreases |slots|
  {
    hide DaysTotal, Hits, Weekday;
    if slots == [] {
      NoSlotsNoTotal(date, week);
    } else {
      var last := slots[|slots| - 1];
      assert last in slots;
      WeekTotal(slots[..|slots| - 1], date, week);
      LastSlotHits(slots, date, week);
      HitsOnceAWeek(last.dayOfWeek, date, week);
    }
  }

  /** Any seven dates after the first collect every slot once more. */
  lemma WeekAddsAll(slots: seq<Slot>, after: int, until: int)
    requires WellFormed(slots) && until > DateOf(after)
    ensures |AllSlots(slots, DateOf(after), until + 7, after)|
         == |AllSlots(slots, DateOf(after), until, after)| + |slots|
  {
    hide DaysTotal, AllSlots;
    DaysAddUp(slots, after, until, 7);
    WeekTotal(slots, until, 7);
  }

  lemma {:induction false} WholeWeeks(slots: seq<Slot>, after: int, weeks: nat)
    requires WellFormed(slots)
    ensures |AllSlots(slots, DateOf(after), DateOf(after) + 1 + 7 * weeks, after)| >= weeks * |slots|
  {
    if weeks > 0 {
      WholeWeeks(slots, after, weeks - 1);
      WeekAddsAll(slots, after, DateOf(after) + 1 + 7 * (weeks - 1));
      assert weeks * |slots| == (weeks - 1) * |slots| + |slots|;
    }
  }

  /** The 60-date horizon holds at least eight times of every slot. */
  lemma HorizonHoldsEightWeeks(slots: seq<Slot>, after: int)
    requires WellFormed(slots)
    ensures |AllSlots(slots, DateOf(after), DateOf(after) + HORIZON, after)| >= 8 * |slots|
  {
    WholeWeeks(slots, after, 8);
    AllPrefix(slots, DateOf(after), DateOf(after) + 57, DateOf(after) + HORIZON, after);
  }

  /** The front of an increasing list holds its earliest members. */
  lemma TakeIsEarliest(all: seq<int>, n: nat)
    requires Increasing(all)
    ensures var r := Take(all, n);
      Increasing(r) && |r| <= n && (|r| == n || r == all)
      && (forall dt :: dt in r ==> dt in all)
      && (forall dt :: dt in all && dt !in r ==> |r| == n && forall x :: x in r ==> x < dt)
  {
    var r := Take(all, n);
    forall dt, x | dt in all && dt !in r && x in r ensures |r| == n && x < dt {
      var j :| 0 <= j < |all| && all[j] == dt;
      var i :| 0 <= i < |r| && r[i] == x;
      assert j >= |r|;
    }
  }

  /**
   Main result, for every count: the walk returns the earliest active slot
   times after `after` within 60 dates, in order, none skipped, as many as
   wanted when there are so many, and never fewer than eight per active slot
   (or the wanted number).  A count below one asks for one.
   */
  lemma NextSlotsAreTheEarliest(table: seq<Slot>, after: int, count: int)
    requires WellFormed(table)
    ensures var r, slots := NextSlots(table, after, count), Active(table);
      var wanted := if count < 1 then 1 else count;
      (forall i, j :: 0 <= i < j < |r| ==> r[i] < r[j]) && |r| <= wanted
      && (forall dt :: dt in r ==> IsSlotTime(slots, DateOf(after), DateOf(after) + 60, after, dt))
      && (forall dt :: IsSlotTime(slots, DateOf(after), DateOf(after) + 60, after, dt) && dt !in r ==>
            |r| == wanted && forall x :: x in r ==> x < dt)
      && (|r| == wanted || |r| >= 8 * |slots|)
  {
    var slots := Active(table);
    ActiveIsWellFormed(table);
    AllSlotsAreTheDays(slots, DateOf(after), DateOf(after) + HORIZON, after);
    HorizonHoldsEightWeeks(slots, after);
    hide IsSlotTime, AllSlots, Take, WellFormed, Active;
    TakeIsEarliest(AllSlots(slots, DateOf(after), DateOf(after) + HORIZON, after), Wanted(count));
  }

  lemma NextSlotsIncrease(table: seq<Slot>, after: int, count: int)
    requires WellFormed(table)
    ensures Increasing(NextSlots(table, after, count))
  {
    NextSlotsAreTheEarliest(table, after, count);
  }
}
