/**
 Recurring posts: the dates of a rule and the daily generator that clones the
 source post onto them (apps/calendar/tasks.py).
 */
module Recurrence {
  import opened CivilDates
  import opened PostTimes
  import opened SlotFinder
  import opened Wrappers

  datatype Frequency = Daily | Weekly | Monthly | Unknown

  const LOOKAHEAD := 90

  // ----- The dates of a rule -----

  function StepDate(d: Date, f: Frequency, interval: nat): Date {
    match f
    case Daily => d + interval
    case Weekly => d + 7 * interval
    case Monthly => AddMonths(d, interval)
    case Unknown => d
  }

  /** The k-th recurrence counted from the base date. */
  function Iterate(base: Date, f: Frequency, interval: nat, k: nat): Date {
    if k == 0 then base else StepDate(Iterate(base, f, interval, k - 1), f, interval)
  }

  /** The leading recurrences up to `end`, at most `limit` of them. */
  ghost predicate AreRecurrences(dates: seq<Date>, base: Date, f: Frequency, interval: nat, end: int, limit: nat) {
    |dates| <= limit && Leading(dates, base, f, interval, end)
    && (f.Unknown? ==> dates == [])
    && (|dates| < limit && !f.Unknown? ==> Iterate(base, f, interval, |dates| + 1) > end)
  }

  /** The first recurrences, all up to `end`. */
  ghost predicate Leading(dates: seq<Date>, base: Date, f: Frequency, interval: nat, end: int) {
    forall i :: 0 <= i < |dates| ==> dates[i] == Iterate(base, f, interval, i + 1) && dates[i] <= end
  }

  method ComputeRecurrenceDates(base: Date, f: Frequency, interval: nat, end: int, limit: nat)
    returns (dates: seq<Date>)
    ensures AreRecurrences(dates, base, f, interval, end, limit)
    ensures dates == FirstRecurrences(base, f, interval, end, limit)
  {
    dates := [];
    var current := base;
    NoneYet(base, f, interval, end);
    hide Iterate, StepDate, Leading, FirstRecurrences;
    for i := 0 to limit
      invariant Leading(dates, base, f, interval, end) && |dates| == i && (i > 0 ==> !f.Unknown?)
      invariant current == Iterate(base, f, interval, i)
    {
      if f.Unknown? {
        break;
      }
      NextIterate(base, f, interval, i);
      current := StepDate(current, f, interval);
      if current > end {
        break;
      }
      OneMore(dates, base, f, interval, end);
      dates := dates + [current];
    }
    RecurrencesAreUnique(dates, FirstRecurrences(base, f, interval, end, limit), base, f, interval, end, limit);
  }

  lemma NextIterate(base: Date, f: Frequency, interval: nat, k: nat)
    ensures Iterate(base, f, interval, k + 1) == StepDate(Iterate(base, f, interval, k), f, interval)
  {
  }

  lemma NoneYet(base: Date, f: Frequency, interval: nat, end: int)
    ensures Leading([], base, f, interval, end) && Iterate(base, f, interval, 0) == base
  {
  }

  lemma OneMore(dates: seq<Date>, base: Date, f: Frequency, interval: nat, end: int)
    requires Leading(dates, base, f, interval, end) && Iterate(base, f, interval, |dates| + 1) <= end
    ensures Leading(dates + [Iterate(base, f, interval, |dates| + 1)], base, f, interval, end)
  {
    hide Iterate;
  }

  /** The recurrences are determined by the rule, so the generator may speak of them as a function. */
  lemma {:induction false} RecurrencesAreUnique(a: seq<Date>, b: seq<Date>, base: Date, f: Frequency, interval: nat,
                                                end: int, limit: nat)
    requires AreRecurrences(a, base, f, interval, end, limit) && AreRecurrences(b, base, f, interval, end, limit)
    ensures a == b
  {
    hide Iterate;
    if |a| < |b| {
      LeadingReaches(b, base, f, interval, end, |a|);
    } else if |b| < |a| {
      LeadingReaches(a, base, f, interval, end, |b|);
    }
  }

  lemma LeadingReaches(dates: seq<Date>, base: Date, f: Frequency, interval: nat, end: int, n: nat)
    requires Leading(dates, base, f, interval, end) && n < |dates|
    ensures dates[n] == Iterate(base, f, interval, n + 1) <= end
  {
    hide Iterate;
  }

  lemma {:induction false} RecurrencesExist(base: Date, f: Frequency, interval: nat, end: int, limit: nat)
    ensures exists dates: seq<Date> :: AreRecurrences(dates, base, f, interval, end, limit)
  {
    NoneYet(base, f, interval, end);
    hide Iterate, Leading;
    if limit == 0 || f.Unknown? {
      assert AreRecurrences([], base, f, interval, end, limit);
    } else {
      RecurrencesExist(base, f, interval, end, limit - 1);
      var before: seq<Date> :| AreRecurrences(before, base, f, interval, end, limit - 1);
      var next := Iterate(base, f, interval, |before| + 1);
      if |before| == limit - 1 && next <= end {
        OneMore(before, base, f, interval, end);
        assert AreRecurrences(before + [next], base, f, interval, end, limit);
      } else {
        assert AreRecurrences(before, base, f, interval, end, limit);
      }
    }
  }

  lemma StartsAtBase(base: Date, f: Frequency, interval: nat)
    ensures Iterate(base, f, interval, 0) == base
  {
  }

  lemma StepAdvances(d: Date, f: Frequency, interval: nat)
    requires interval > 0 && !f.Unknown?
    ensures StepDate(d, f, interval) > d
  {
    if f.Monthly? {
      AddMonthsAdvances(d, interval);
    }
  }

  lemma {:induction false} IteratesIncrease(base: Date, f: Frequency, interval: nat, j: nat, k: nat)
    requires interval > 0 && !f.Unknown? && j < k
    ensures Iterate(base, f, interval, j) < Iterate(base, f, interval, k)
    decreases k
  {
    StepAdvances(Iterate(base, f, interval, k - 1), f, interval);
    hide StepDate;
    if j < k - 1 {
      IteratesIncrease(base, f, interval, j, k - 1);
    }
  }

  /**
   For a positive interval the dates strictly increase inside (base, end], and
   every recurrence that falls on or before `end` within the step limit is there.
   */
  lemma DatesAreCompleteAndOrdered(dates: seq<Date>, base: Date, f: Frequency, interval: nat, end: int, limit: nat)
    requires AreRecurrences(dates, base, f, interval, end, limit) && interval > 0 && !f.Unknown?
    ensures forall i, j :: 0 <= i < j < |dates| ==> dates[i] < dates[j]
    ensures forall d :: d in dates ==> base < d <= end
    ensures forall k :: 1 <= k <= limit && Iterate(base, f, interval, k) <= end ==>
      Iterate(base, f, interval, k) in dates
  {
    hide Iterate;
    forall i, j | 0 <= i < j < |dates| ensures dates[i] < dates[j] {
      IteratesIncrease(base, f, interval, i + 1, j + 1);
    }
    StartsAtBase(base, f, interval);
    forall i | 0 <= i < |dates| ensures base < dates[i] {
      IteratesIncrease(base, f, interval, 0, i + 1);
    }
    forall k | 1 <= k <= limit && Iterate(base, f, interval, k) <= end
      ensures Iterate(base, f, interval, k) in dates
    {
      if k > |dates| {
        if k > |dates| + 1 {
          IteratesIncrease(base, f, interval, |dates| + 1, k);
        }
      } else {
        assert dates[k - 1] == Iterate(base, f, interval, k);
      }
    }
  }

  /** Days and weeks are counted from the base; nothing drifts. */
  lemma {:induction false} DayStepsAddUp(base: Date, f: Frequency, interval: nat, k: nat)
    requires f.Daily? || f.Weekly?
    ensures Iterate(base, f, interval, k) == base + k * (if f.Daily? then interval else 7 * interval)
  {
    if k > 0 {
      DayStepsAddUp(base, f, interval, k - 1);
    }
  }

  /** The month k steps after the base's. */
  function MonthAfter(base: Date, interval: nat, k: nat): nat {
    MonthOf(base) + MonthsIn(k, interval)
  }

  function MonthsIn(steps: nat, interval: nat): nat {
    steps * interval
  }

  /** The least of the base's day and the lengths of the months visited. */
  ghost function ClippedDay(base: Date, interval: nat, k: nat): nat {
    if k == 0 then DayOf(base) else
      var before, length := ClippedDay(base, interval, k - 1), DaysInMonth(MonthAfter(base, interval, k));
      if before <= length then before else length
  }

  lemma ClippedDayOfNext(base: Date, interval: nat, k: nat)
    ensures MonthAfter(base, interval, k + 1) == MonthAfter(base, interval, k) + interval
    ensures var before, length := ClippedDay(base, interval, k), DaysInMonth(MonthAfter(base, interval, k) + interval);
      ClippedDay(base, interval, k + 1) == if before <= length then before else length
  {
    hide MonthOf, DayOf, DaysInMonth;
    assert (k + 1) * interval == k * interval + interval;
  }

  lemma NothingClipped(base: Date, interval: nat)
    ensures MonthAfter(base, interval, 0) == MonthOf(base) && ClippedDay(base, interval, 0) == DayOf(base)
  {
    hide MonthOf, DayOf;
  }

  /** Months are counted from the base, but a day clipped by one short month stays clipped. */
  lemma {:induction false} MonthStepsClip(base: Date, interval: nat, k: nat)
    ensures MonthOf(Iterate(base, Monthly, interval, k)) == MonthAfter(base, interval, k)
    ensures DayOf(Iterate(base, Monthly, interval, k)) == ClippedDay(base, interval, k)
  {
    hide MonthOf, DayOf, AddMonths, DaysInMonth, ClippedDay, MonthAfter;
    if k == 0 {
      NothingClipped(base, interval);
    } else {
      MonthStepsClip(base, interval, k - 1);
      AddMonthsLands(Iterate(base, Monthly, interval, k - 1), interval);
      ClippedDayOfNext(base, interval, k - 1);
    }
  }

  // ----- The generator -----

  /** origin: the rule and date a clone was made for. */
  datatype Post = Post(id: nat, workspace: int, caption: string, scheduledAt: Option<int>, children: Times,
                       origin: Option<(nat, Date)>)

  datatype Rule = Rule(id: nat, source: Post, frequency: Frequency, interval: nat, endDate: Option<Date>, active: bool)

  function CutOff(rule: Rule, today: int): int {
    if rule.endDate.Some? && rule.endDate.value <= today + LOOKAHEAD then rule.endDate.value else today + LOOKAHEAD
  }

  predicate IsDue(rule: Rule) {
    rule.active && rule.source.scheduledAt.Some? && DateOf(rule.source.scheduledAt.value) >= 1
  }

  /** Dates that already carry a post of the workspace with the source's caption. */
  function TakenDates(posts: seq<Post>, source: Post): set<int> {
    set p | p in posts && p.workspace == source.workspace && p.caption == source.caption && p.id != source.id
      && p.scheduledAt.Some? :: DateOf(p.scheduledAt.value)
  }

  function Shifted(t: Option<int>, shift: int): Option<int> {
    if t.Some? then Some(t.value + shift) else None
  }

  function ShiftedChildren(children: Times, shift: int): Times {
    map a | a in children :: Shifted(children[a], shift)
  }

  /** The source's time of day on date d. */
  function OnDay(d: int, t: int): int {
    d * DAY + t % DAY
  }

  /** The clone for date d: every child keeps its offset, and with children the clone's time is their earliest. */
  ghost function Clone(rule: Rule, d: Date, id: nat): Post
    requires IsDue(rule)
  {
    var source := rule.source;
    var scheduled := OnDay(d, source.scheduledAt.value);
    var children := ShiftedChildren(source.children, scheduled - source.scheduledAt.value);
    Post(id, source.workspace, source.caption, if children == map[] then Some(scheduled) else EarliestOf(children),
         children, Some((rule.id, d)))
  }

  method MakeClone(rule: Rule, d: Date, id: nat) returns (post: Post)
    requires IsDue(rule)
    ensures post == Clone(rule, d, id)
  {
    var source := rule.source;
    var scheduled := OnDay(d, source.scheduledAt.value);
    var children := ShiftedChildren(source.children, scheduled - source.scheduledAt.value);
    post := Post(id, source.workspace, source.caption, Some(scheduled), children, Some((rule.id, d)));
    if children != map[] {
      var t := Earliest(children);
      EarliestIsUnique(t, EarliestOf(children), children);
      post := post.(scheduledAt := t);
    }
  }

  /** The clones of one rule over its dates; `taken` was read before the first of them. */
  ghost function WithClones(posts: seq<Post>, rule: Rule, dates: seq<Date>, taken: set<int>, today: int): seq<Post>
    requires IsDue(rule)
  {
    if dates == [] then posts else
      var before, d := WithClones(posts, rule, dates[..|dates| - 1], taken, today), dates[|dates| - 1];
      if d in taken || d <= today then before else before + [Clone(rule, d, |before|)]
  }

  ghost function DatesOf(rule: Rule, today: int): (dates: seq<Date>)
    requires IsDue(rule)
    ensures AreRecurrences(dates, DateOf(rule.source.scheduledAt.value), rule.frequency, rule.interval,
                           CutOff(rule, today), 2 * LOOKAHEAD)
  {
    FirstRecurrences(DateOf(rule.source.scheduledAt.value), rule.frequency, rule.interval, CutOff(rule, today),
                     2 * LOOKAHEAD)
  }

  ghost function FirstRecurrences(base: Date, f: Frequency, interval: nat, end: int, limit: nat): (dates: seq<Date>)
    ensures AreRecurrences(dates, base, f, interval, end, limit)
  {
    RecurrencesExist(base, f, interval, end, limit);
    var dates: seq<Date> :| AreRecurrences(dates, base, f, interval, end, limit);
    dates
  }

  ghost function AfterRule(posts: seq<Post>, rule: Rule, today: int): seq<Post> {
    if IsDue(rule) then WithClones(posts, rule, DatesOf(rule, today), TakenDates(posts, rule.source), today) else posts
  }

  ghost function AfterRun(posts: seq<Post>, rules: seq<Rule>, today: int): seq<Post> {
    if rules == [] then posts else
      AfterRule(AfterRun(posts, rules[..|rules| - 1], today), rules[|rules| - 1], today)
  }

  /** The post table and the rules, as the daily task changes them. */
  class Calendar {
    var posts: seq<Post>
    var rules: seq<Rule>
    var lastGenerated: map<nat, int>

    constructor (posts: seq<Post>, rules: seq<Rule>)
      ensures this.posts == posts && this.rules == rules && lastGenerated == map[]
    {
      this.posts, this.rules, lastGenerated := posts, rules, map[];
    }

    method CloneOnto(rule: Rule, dates: seq<Date>, taken: set<int>, today: int) returns (generated: nat)
      requires IsDue(rule)
      modifies this`posts
      ensures posts == WithClones(old(posts), rule, dates, taken, today)
      ensures generated == |posts| - |old(posts)|
    {
      generated := 0;
      for i := 0 to |dates|
        invariant posts == WithClones(old(posts), rule, dates[..i], taken, today)
        invariant generated == |posts| - |old(posts)|
      {
        assert dates[..i + 1][..i] == dates[..i];
        if dates[i] in taken || dates[i] <= today {
          continue;
        }
        var clone := MakeClone(rule, dates[i], |posts|);
        posts := posts + [clone];
        generated := generated + 1;
      }
      assert dates[..|dates|] == dates;
    }

    method GenerateForRule(rule: Rule, now: int) returns (generated: nat)
      requires IsDue(rule)
      modifies this`posts, this`lastGenerated
      ensures posts == AfterRule(old(posts), rule, DateOf(now))
      ensures generated == |posts| - |old(posts)|
      ensures lastGenerated == old(lastGenerated)[rule.id := now]
    {
      var today := DateOf(now);
      var dates := ComputeRecurrenceDates(DateOf(rule.source.scheduledAt.value), rule.frequency, rule.interval,
                                          CutOff(rule, today), 2 * LOOKAHEAD);
      generated := CloneOnto(rule, dates, TakenDates(posts, rule.source), today);
      lastGenerated := lastGenerated[rule.id := now];
    }

    method GenerateRecurringPosts(now: int) returns (total: nat)
      modifies this`posts, this`lastGenerated
      ensures posts == AfterRun(old(posts), rules, DateOf(now))
      ensures total == |posts| - |old(posts)|
      ensures forall r :: r in rules && IsDue(r) ==> r.id in lastGenerated && lastGenerated[r.id] == now
    {
      total := 0;
      for i := 0 to |rules|
        invariant posts == AfterRun(old(posts), rules[..i], DateOf(now))
        invariant total == |posts| - |old(posts)|
        invariant forall k :: 0 <= k < i && IsDue(rules[k]) ==>
          rules[k].id in lastGenerated && lastGenerated[rules[k].id] == now
      {
        assert rules[..i + 1][..i] == rules[..i];
        if IsDue(rules[i]) {
          var n := GenerateForRule(rules[i], now);
          total := total + n;
        }
      }
      assert rules[..|rules|] == rules;
    }
  }

  // ----- Where a clone lands -----

  /** Days from the source's own date to its earliest child's, none when it has only untimed children. */
  ghost function DaysOff(source: Post): Option<int>
    requires source.scheduledAt.Some?
  {
    if source.children == map[] then Some(0)
    else if EarliestOf(source.children).None? then None
    else Some(DateOf(EarliestOf(source.children).value) - DateOf(source.scheduledAt.value))
  }

  /** The source's own time falls on the date of its earliest child; a source without children passes. */
  ghost predicate Lands(source: Post)
    requires source.scheduledAt.Some?
  {
    DaysOff(source) == Some(0)
  }

  lemma EarliestShifts(children: Times, shift: int)
    ensures EarliestOf(ShiftedChildren(children, shift)) == Shifted(EarliestOf(children), shift)
    ensures ShiftedChildren(children, shift) == map[] <==> children == map[]
  {
    var t, shifted := EarliestOf(children), ShiftedChildren(children, shift);
    if t.Some? {
      var a :| a in children && children[a] == t;
      assert a in shifted && shifted[a] == Shifted(t, shift);
    } else {
      assert forall a :: a in shifted ==> a in children && shifted[a].None?;
    }
    EarliestIsUnique(EarliestOf(shifted), Shifted(t, shift), shifted);
    if children != map[] {
      var a :| a in children;
      assert a in shifted;
    }
  }

  lemma ShiftedDate(d: int, t: int, u: int)
    ensures DateOf(OnDay(d, t)) == d
    ensures DateOf(u + (OnDay(d, t) - t)) == d + DateOf(u) - DateOf(t)
  {
    assert t == DateOf(t) * DAY + t % DAY;
    assert u + (d * DAY + t % DAY - t) == u + (d - DateOf(t)) * DAY;
  }

  /** A clone lands as many days off its date as the source's earliest child is off the source, or nowhere. */
  lemma CloneDate(rule: Rule, d: Date, id: nat)
    requires IsDue(rule)
    ensures var at, off := Clone(rule, d, id).scheduledAt, DaysOff(rule.source);
      (at.Some? <==> off.Some?) && (at.Some? ==> DateOf(at.value) == d + off.value)
  {
    var t, e := rule.source.scheduledAt.value, EarliestOf(rule.source.children);
    EarliestShifts(rule.source.children, OnDay(d, t) - t);
    ShiftedDate(d, t, if e.Some? then e.value else t);
    hide ShiftedChildren, OnDay, DateOf, EarliestOf;
  }

  /**
   A clone is scheduled on its own recurrence date exactly when the source's
   time is on the date of its earliest child: in particular when it equals that
   child's time.
   */
  lemma CloneLandsIff(rule: Rule, d: Date, id: nat)
    requires IsDue(rule)
    ensures var at := Clone(rule, d, id).scheduledAt;
      at.Some? && DateOf(at.value) == d <==> Lands(rule.source)
  {
    CloneDate(rule, d, id);
  }

  /** When the source's time is its earliest child's, every clone keeps the source's time of day. */
  lemma CloneKeepsTimeOfDay(rule: Rule, d: Date, id: nat)
    requires IsDue(rule) && rule.source.scheduledAt == EarliestOf(rule.source.children)
    ensures Clone(rule, d, id).scheduledAt == Some(OnDay(d, rule.source.scheduledAt.value))
  {
    var t := rule.source.scheduledAt.value;
    EarliestShifts(rule.source.children, OnDay(d, t) - t);
    hide ShiftedChildren, OnDay, EarliestOf;
  }

  /** And each child keeps its distance from the post's time. */
  lemma CloneKeepsOffsets(rule: Rule, d: Date, id: nat, a: Account)
    requires IsDue(rule)
    ensures var children, t := Clone(rule, d, id).children, rule.source.scheduledAt.value;
      (a in children <==> a in rule.source.children)
      && (a in children ==> (children[a].Some? <==> rule.source.children[a].Some?))
      && (a in children && children[a].Some? ==>
            children[a].value - OnDay(d, t) == rule.source.children[a].value - t)
  {
  }

  // ----- What one rule adds -----

  /** A date the generator makes a clone for. */
  ghost predicate IsChosen(d: Date, dates: seq<Date>, taken: set<int>, today: int) {
    d in dates && d !in taken && d > today
  }

  lemma {:induction false} ClonesOnlyAppend(posts: seq<Post>, rule: Rule, dates: seq<Date>, taken: set<int>, today: int)
    requires IsDue(rule)
    ensures posts <= WithClones(posts, rule, dates, taken, today)
  {
    if dates != [] {
      ClonesOnlyAppend(posts, rule, dates[..|dates| - 1], taken, today);
    }
  }

  lemma ChosenOfLast(d: Date, dates: seq<Date>, taken: set<int>, today: int)
    requires dates != []
    ensures var init, last := dates[..|dates| - 1], dates[|dates| - 1];
      IsChosen(d, dates, taken, today) <==>
        (IsChosen(d, init, taken, today) || (d == last && last !in taken && last > today))
  {
    assert dates == dates[..|dates| - 1] + [dates[|dates| - 1]];
  }

  /** The clones added stand for exactly the chosen dates. */
  lemma {:induction false} OriginsAreChosen(posts: seq<Post>, rule: Rule, dates: seq<Date>, taken: set<int>, today: int)
    requires IsDue(rule)
    ensures var after := WithClones(posts, rule, dates, taken, today);
      (forall i :: |posts| <= i < |after| ==>
         after[i].origin.Some? && after[i].origin.value.0 == rule.id
         && IsChosen(after[i].origin.value.1, dates, taken, today))
      && (forall d: Date :: IsChosen(d, dates, taken, today) ==>
            exists i :: |posts| <= i < |after| && after[i].origin == Some((rule.id, d)))
    decreases |dates|
  {
    if dates != [] {
      var n := |dates| - 1;
      var before := WithClones(posts, rule, dates[..n], taken, today);
      var after := WithClones(posts, rule, dates, taken, today);
      ClonesOnlyAppend(posts, rule, dates[..n], taken, today);
      OriginsAreChosen(posts, rule, dates[..n], taken, today);
      assert before <= after && (after == before || after == before + [Clone(rule, dates[n], |before|)]);
      forall i | |posts| <= i < |after|
        ensures after[i].origin.Some? && after[i].origin.value.0 == rule.id
          && IsChosen(after[i].origin.value.1, dates, taken, today)
      {
        ChosenOfLast(after[i].origin.value.1, dates, taken, today);
      }
      forall d: Date | IsChosen(d, dates, taken, today)
        ensures exists i :: |posts| <= i < |after| && after[i].origin == Some((rule.id, d))
      {
        ChosenOfLast(d, dates, taken, today);
        if IsChosen(d, dates[..n], taken, today) {
          var i :| |posts| <= i < |before| && before[i].origin == Some((rule.id, d));
          assert after[i].origin == Some((rule.id, d));
        } else {
          assert after[|before|].origin == Some((rule.id, d));
        }
      }
    }
  }

  ghost predicate TakesDate(p: Post, source: Post, x: int) {
    p.workspace == source.workspace && p.caption == source.caption && p.id != source.id
    && p.scheduledAt.Some? && DateOf(p.scheduledAt.value) == x
  }

  lemma TakenIff(posts: seq<Post>, source: Post, x: int)
    ensures x in TakenDates(posts, source) <==> exists p :: p in posts && TakesDate(p, source, x)
  {
    if x in TakenDates(posts, source) {
      var p :| p in posts && p.workspace == source.workspace && p.caption == source.caption && p.id != source.id
        && p.scheduledAt.Some? && DateOf(p.scheduledAt.value) == x;
      assert TakesDate(p, source, x);
    }
  }

  lemma TakenOfAppended(posts: seq<Post>, p: Post, source: Post, x: int)
    ensures x in TakenDates(posts + [p], source) <==> x in TakenDates(posts, source) || TakesDate(p, source, x)
  {
    TakenIff(posts, source, x);
    TakenIff(posts + [p], source, x);
    assert forall q :: q in posts + [p] <==> q in posts || q == p;
    hide TakesDate, TakenDates;
  }

  /** Some chosen date's clone lands on x. */
  ghost predicate IsHit(source: Post, dates: seq<Date>, taken: set<int>, today: int, x: int)
    requires source.scheduledAt.Some?
  {
    DaysOff(source).Some? && exists d: Date :: IsChosen(d, dates, taken, today) && d + DaysOff(source).value == x
  }

  lemma HitOfLast(source: Post, dates: seq<Date>, taken: set<int>, today: int, x: int)
    requires source.scheduledAt.Some? && dates != []
    ensures var last, off := dates[|dates| - 1], DaysOff(source);
      IsHit(source, dates, taken, today, x) <==>
        (IsHit(source, dates[..|dates| - 1], taken, today, x)
         || (off.Some? && last !in taken && last > today && last + off.value == x))
  {
    var init, last, off := dates[..|dates| - 1], dates[|dates| - 1], DaysOff(source);
    ChosenOfLast(last, dates, taken, today);
    if IsHit(source, dates, taken, today, x) {
      var d: Date :| IsChosen(d, dates, taken, today) && d + off.value == x;
      ChosenOfLast(d, dates, taken, today);
    }
    if IsHit(source, init, taken, today, x) {
      var d: Date :| IsChosen(d, init, taken, today) && d + off.value == x;
      ChosenOfLast(d, dates, taken, today);
    }
    hide IsChosen, DaysOff;
  }

  /** A date is taken after the rule when it was before, or when a chosen date's clone lands on it. */
  lemma {:induction false} TakenAfterClones(posts: seq<Post>, rule: Rule, dates: seq<Date>, taken: set<int>, today: int,
                                            x: int)
    requires IsDue(rule) && rule.source.id < |posts|
    ensures x in TakenDates(WithClones(posts, rule, dates, taken, today), rule.source) <==>
      x in TakenDates(posts, rule.source) || IsHit(rule.source, dates, taken, today, x)
    decreases |dates|
  {
    if dates != [] {
      var n := |dates| - 1;
      var before, last := WithClones(posts, rule, dates[..n], taken, today), dates[n];
      TakenAfterClones(posts, rule, dates[..n], taken, today, x);
      ClonesOnlyAppend(posts, rule, dates[..n], taken, today);
      HitOfLast(rule.source, dates, taken, today, x);
      CloneDate(rule, last, |before|);
      TakenOfAppended(before, Clone(rule, last, |before|), rule.source, x);
      hide IsHit, TakenDates, DaysOff;
    }
  }

  ghost function ToDo(dates: seq<Date>, taken: set<int>, today: int): nat {
    if dates == [] then 0 else
      ToDo(dates[..|dates| - 1], taken, today)
      + if dates[|dates| - 1] in taken || dates[|dates| - 1] <= today then 0 else 1
  }

  lemma {:induction false} ClonesAreToDo(posts: seq<Post>, rule: Rule, dates: seq<Date>, taken: set<int>, today: int)
    requires IsDue(rule)
    ensures |WithClones(posts, rule, dates, taken, today)| == |posts| + ToDo(dates, taken, today)
  {
    if dates != [] {
      ClonesAreToDo(posts, rule, dates[..|dates| - 1], taken, today);
    }
  }

  lemma AddsIffChosen(posts: seq<Post>, rule: Rule, dates: seq<Date>, taken: set<int>, today: int)
    requires IsDue(rule)
    ensures |WithClones(posts, rule, dates, taken, today)| > |posts| <==>
      exists d: Date :: IsChosen(d, dates, taken, today)
    ensures posts <= WithClones(posts, rule, dates, taken, today)
  {
    var after := WithClones(posts, rule, dates, taken, today);
    ClonesOnlyAppend(posts, rule, dates, taken, today);
    OriginsAreChosen(posts, rule, dates, taken, today);
    if |after| > |posts| {
      assert IsChosen(after[|posts|].origin.value.1, dates, taken, today);
    }
    hide IsChosen, WithClones;
  }

  // ----- Exactly once: when a second run finds nothing to do -----

  lemma {:induction false} ExtremeOf(days: set<Date>, sign: int) returns (x: Date)
    requires days != {} && (sign == 1 || sign == -1)
    ensures x in days && forall y :: y in days ==> sign * x <= sign * y
    decreases |days|
  {
    x :| x in days;
    if days != {x} {
      assert forall y :: y in days ==> y == x || y in days - {x};
      var z := ExtremeOf(days - {x}, sign);
      if sign * z < sign * x {
        x := z;
      }
    }
  }

  /** Clones that miss their dates by a fixed number of days leave the first, or the last, of them free. */
  lemma SomeDateStaysFree(dates: seq<Date>, taken: set<int>, today: int, off: int) returns (d: Date)
    requires off != 0 && exists c: Date :: IsChosen(c, dates, taken, today)
    ensures IsChosen(d, dates, taken, today) && forall c: Date :: IsChosen(c, dates, taken, today) ==> c + off != d
  {
    var chosen := set c: Date | c in dates && IsChosen(c, dates, taken, today);
    var c: Date :| IsChosen(c, dates, taken, today);
    assert c in chosen;
    d := ExtremeOf(chosen, if off > 0 then 1 else -1);
    forall c: Date | IsChosen(c, dates, taken, today) ensures c + off != d {
      assert c in chosen;
    }
  }

  ghost predicate AllCovered(posts: seq<Post>, rule: Rule, today: int)
    requires IsDue(rule)
  {
    forall d :: d in DatesOf(rule, today) && d > today ==> d in TakenDates(posts, rule.source)
  }

  /** What the rule leaves taken, in terms of its chosen dates. */
  lemma LandedIsCovered(posts: seq<Post>, rule: Rule, today: int)
    requires IsDue(rule) && rule.source.id < |posts| && Lands(rule.source)
    ensures AllCovered(AfterRule(posts, rule, today), rule, today)
  {
    var dates, taken := DatesOf(rule, today), TakenDates(posts, rule.source);
    forall d: Date | d in dates && d > today
      ensures d in TakenDates(AfterRule(posts, rule, today), rule.source)
    {
      TakenAfterClones(posts, rule, dates, taken, today, d);
      assert d !in taken ==> IsChosen(d, dates, taken, today) && d + 0 == d;
    }
    hide DatesOf, TakenDates, DaysOff, WithClones;
  }

  lemma MissedIsUncovered(posts: seq<Post>, rule: Rule, today: int)
    requires IsDue(rule) && rule.source.id < |posts| && !Lands(rule.source)
    requires exists d: Date :: IsChosen(d, DatesOf(rule, today), TakenDates(posts, rule.source), today)
    ensures !AllCovered(AfterRule(posts, rule, today), rule, today)
  {
    var dates, taken, off := DatesOf(rule, today), TakenDates(posts, rule.source), DaysOff(rule.source);
    var free: Date :| IsChosen(free, dates, taken, today);
    if off.Some? {
      free := SomeDateStaysFree(dates, taken, today, off.value);
    }
    TakenAfterClones(posts, rule, dates, taken, today, free);
    hide DatesOf, TakenDates, DaysOff, WithClones;
    assert free in dates && free > today && free !in taken;
  }

  /**
   After a rule has run, every one of its dates still ahead carries a post with
   the source's caption if and only if the clones land, or none was made.
   */
  lemma EveryDateIsCoveredIff(posts: seq<Post>, rule: Rule, today: int)
    requires IsDue(rule) && rule.source.id < |posts|
    ensures var once := AfterRule(posts, rule, today);
      AllCovered(once, rule, today) <==> Lands(rule.source) || |once| == |posts|
  {
    AddsIffChosen(posts, rule, DatesOf(rule, today), TakenDates(posts, rule.source), today);
    AddsIffUncovered(posts, rule, today);
    if Lands(rule.source) {
      LandedIsCovered(posts, rule, today);
    } else if |AfterRule(posts, rule, today)| > |posts| {
      MissedIsUncovered(posts, rule, today);
    } else {
      assert AfterRule(posts, rule, today) == posts;
    }
    hide AllCovered, Lands, AfterRule;
  }

  lemma TakenStaysTaken(posts: seq<Post>, rule: Rule, today: int, d: Date)
    requires IsDue(rule) && rule.source.id < |posts|
    requires IsChosen(d, DatesOf(rule, today), TakenDates(AfterRule(posts, rule, today), rule.source), today)
    ensures IsChosen(d, DatesOf(rule, today), TakenDates(posts, rule.source), today)
  {
    TakenAfterClones(posts, rule, DatesOf(rule, today), TakenDates(posts, rule.source), today, d);
    hide DatesOf, TakenDates, WithClones, DaysOff;
  }

  /** A date is left to do for a rule on a table exactly when one is uncovered. */
  lemma AddsIffUncovered(posts: seq<Post>, rule: Rule, today: int)
    requires IsDue(rule)
    ensures |AfterRule(posts, rule, today)| > |posts| <==> !AllCovered(posts, rule, today)
    ensures posts <= AfterRule(posts, rule, today)
  {
    var dates, taken := DatesOf(rule, today), TakenDates(posts, rule.source);
    AddsIffChosen(posts, rule, dates, taken, today);
    hide DatesOf, TakenDates, WithClones;
    if d: Date :| IsChosen(d, dates, taken, today) {
      assert d in dates && d > today && d !in taken;
    } else {
      forall d: Date | d in dates && d > today ensures d in taken {
        assert !IsChosen(d, dates, taken, today);
      }
    }
  }

  /**
   Main result, for every source and interval: a second run on the same day adds
   clones again if and only if the first added some and they do not land.
   */
  lemma ClonedAgainIff(posts: seq<Post>, rule: Rule, today: int)
    requires IsDue(rule) && rule.source.id < |posts|
    ensures var once := AfterRule(posts, rule, today);
      |AfterRule(once, rule, today)| > |once| <==> |once| > |posts| && !Lands(rule.source)
  {
    EveryDateIsCoveredIff(posts, rule, today);
    AddsIffUncovered(posts, rule, today);
    AddsIffUncovered(AfterRule(posts, rule, today), rule, today);
    hide AfterRule, AllCovered, Lands;
  }

  /** And each clone of the second run repeats one of the first: same rule, same date. */
  lemma SecondRunRepeats(posts: seq<Post>, rule: Rule, today: int, i: nat) returns (j: nat)
    requires IsDue(rule) && rule.source.id < |posts|
    requires |AfterRule(posts, rule, today)| <= i < |AfterRule(AfterRule(posts, rule, today), rule, today)|
    ensures |posts| <= j < |AfterRule(posts, rule, today)|
    ensures AfterRule(posts, rule, today)[j].origin ==
      AfterRule(AfterRule(posts, rule, today), rule, today)[i].origin
  {
    var dates, once := DatesOf(rule, today), AfterRule(posts, rule, today);
    var twice := AfterRule(once, rule, today);
    OriginsAreChosen(posts, rule, dates, TakenDates(posts, rule.source), today);
    OriginsAreChosen(once, rule, dates, TakenDates(once, rule.source), today);
    var d := twice[i].origin.value.1;
    TakenStaysTaken(posts, rule, today, d);
    j :| |posts| <= j < |once| && once[j].origin == Some((rule.id, d));
  }

  // ----- At most one clone per rule and date, over any number of runs -----

  ghost predicate MadeFor(p: Post, rule: Rule) {
    p.origin.Some? && p.origin.value.0 == rule.id
  }

  /** Posts are numbered by insertion, the rule's clones take their dates, and no two of them have one origin. */
  ghost predicate Answers(posts: seq<Post>, rule: Rule) {
    (forall i :: 0 <= i < |posts| ==> posts[i].id == i)
    && (forall i :: 0 <= i < |posts| && MadeFor(posts[i], rule) ==>
          TakesDate(posts[i], rule.source, posts[i].origin.value.1))
    && (forall i, j :: 0 <= i < j < |posts| && MadeFor(posts[i], rule) ==> posts[i].origin != posts[j].origin)
  }

  /** The rule's clones land, its interval is positive, and its source is among the posts. */
  ghost predicate IsGood(posts: seq<Post>, rule: Rule) {
    IsDue(rule) && rule.interval > 0 && Lands(rule.source) && rule.source.id < |posts|
  }

  /** A table that the rule has not added to yet will do. */
  lemma NothingMadeYet(posts: seq<Post>, rule: Rule)
    requires IsDue(rule) && forall i :: 0 <= i < |posts| ==> posts[i].id == i && !MadeFor(posts[i], rule)
    ensures Answers(posts, rule)
  {
  }

  lemma AnswersAppended(posts: seq<Post>, rule: Rule, p: Post)
    requires Answers(posts, rule) && p.id == |posts|
    requires MadeFor(p, rule) ==> TakesDate(p, rule.source, p.origin.value.1)
    requires MadeFor(p, rule) ==> forall i :: 0 <= i < |posts| ==> posts[i].origin != p.origin
    ensures Answers(posts + [p], rule)
  {
    hide TakesDate;
  }

  lemma OriginIsTaken(posts: seq<Post>, rule: Rule, i: nat)
    requires Answers(posts, rule) && i < |posts| && MadeFor(posts[i], rule)
    ensures posts[i].origin.value.1 in TakenDates(posts, rule.source)
  {
    TakenIff(posts, rule.source, posts[i].origin.value.1);
    assert posts[i] in posts && TakesDate(posts[i], rule.source, posts[i].origin.value.1);
  }

  /** One of the rule's own clones, for a date not yet taken. */
  lemma OwnCloneAnswers(before: seq<Post>, posts: seq<Post>, rule: Rule, dates: seq<Date>, today: int, d: Date)
    requires IsGood(posts, rule) && Answers(posts, rule) && Answers(before, rule)
    requires before == WithClones(posts, rule, dates, TakenDates(posts, rule.source), today)
    requires d !in dates && d !in TakenDates(posts, rule.source)
    ensures Answers(before + [Clone(rule, d, |before|)], rule)
  {
    ClonesOnlyAppend(posts, rule, dates, TakenDates(posts, rule.source), today);
    OriginsAreChosen(posts, rule, dates, TakenDates(posts, rule.source), today);
    CloneLandsIff(rule, d, |before|);
    forall i | 0 <= i < |before| ensures before[i].origin != Some((rule.id, d)) {
      if i < |posts| && MadeFor(posts[i], rule) {
        OriginIsTaken(posts, rule, i);
      }
    }
    AnswersAppended(before, rule, Clone(rule, d, |before|));
  }

  lemma {:induction false} OwnClonesAnswer(posts: seq<Post>, rule: Rule, dates: seq<Date>, today: int)
    requires IsGood(posts, rule) && Answers(posts, rule)
    requires forall i, j :: 0 <= i < j < |dates| ==> dates[i] < dates[j]
    ensures Answers(WithClones(posts, rule, dates, TakenDates(posts, rule.source), today), rule)
    decreases |dates|
  {
    if dates != [] {
      var n := |dates| - 1;
      OwnClonesAnswer(posts, rule, dates[..n], today);
      if dates[n] !in TakenDates(posts, rule.source) {
        OwnCloneAnswers(WithClones(posts, rule, dates[..n], TakenDates(posts, rule.source), today), posts, rule,
                        dates[..n], today, dates[n]);
      }
    }
  }

  lemma {:induction false} OtherClonesAnswer(posts: seq<Post>, rule: Rule, other: Rule, dates: seq<Date>,
                                             taken: set<int>, today: int)
    requires Answers(posts, rule) && IsDue(other) && other.id != rule.id
    ensures Answers(WithClones(posts, other, dates, taken, today), rule)
    decreases |dates|
  {
    if dates != [] {
      var n := |dates| - 1;
      var before := WithClones(posts, other, dates[..n], taken, today);
      OtherClonesAnswer(posts, rule, other, dates[..n], taken, today);
      AnswersAppended(before, rule, Clone(other, dates[n], |before|));
    }
  }

  lemma RuleKeepsAnswers(posts: seq<Post>, rule: Rule, other: Rule, today: int)
    requires IsGood(posts, rule) && Answers(posts, rule) && (other == rule || other.id != rule.id)
    ensures Answers(AfterRule(posts, other, today), rule)
  {
    if other == rule {
      var dates := DatesOf(rule, today);
      if !rule.frequency.Unknown? {
        DatesAreCompleteAndOrdered(dates, DateOf(rule.source.scheduledAt.value), rule.frequency, rule.interval,
                                   CutOff(rule, today), 2 * LOOKAHEAD);
      }
      OwnClonesAnswer(posts, rule, dates, today);
    } else if IsDue(other) {
      OtherClonesAnswer(posts, rule, other, DatesOf(other, today), TakenDates(posts, other.source), today);
    }
  }

  lemma RuleOnlyAppends(posts: seq<Post>, rule: Rule, today: int)
    ensures posts <= AfterRule(posts, rule, today)
  {
    if IsDue(rule) {
      ClonesOnlyAppend(posts, rule, DatesOf(rule, today), TakenDates(posts, rule.source), today);
    }
  }

  lemma {:induction false} RunOnlyAppends(posts: seq<Post>, rules: seq<Rule>, today: int)
    ensures posts <= AfterRun(posts, rules, today)
    decreases |rules|
  {
    if rules != [] {
      var before := AfterRun(posts, rules[..|rules| - 1], today);
      RunOnlyAppends(posts, rules[..|rules| - 1], today);
      RuleOnlyAppends(before, rules[|rules| - 1], today);
    }
  }

  lemma {:induction false} RunKeepsAnswers(posts: seq<Post>, rules: seq<Rule>, rule: Rule, today: int)
    requires IsGood(posts, rule) && Answers(posts, rule) && forall r :: r in rules && r.id == rule.id ==> r == rule
    ensures Answers(AfterRun(posts, rules, today), rule)
    decreases |rules|
  {
    if rules != [] {
      var n := |rules| - 1;
      RunKeepsAnswers(posts, rules[..n], rule, today);
      RunOnlyAppends(posts, rules[..n], today);
      assert rules[n] in rules;
      RuleKeepsAnswers(AfterRun(posts, rules[..n], today), rule, rules[n], today);
    }
  }

  /**
   Over any number of runs, at any times and beside any other rules, a rule whose
   clones land never has two of them for one date, and posts are only added.
   */
  lemma {:induction false} AtMostOneClonePerDate(states: seq<seq<Post>>, rules: seq<Rule>, todays: seq<int>, rule: Rule,
                                                 n: nat)
    requires |states| == |todays| + 1 && n < |states|
    requires forall i :: 0 <= i < |todays| ==> states[i + 1] == AfterRun(states[i], rules, todays[i])
    requires IsDue(rule) && rule.interval > 0 && Lands(rule.source) && rule.source.id < |states[0]|
    requires Answers(states[0], rule) && forall r :: r in rules && r.id == rule.id ==> r == rule
    ensures states[0] <= states[n] && Answers(states[n], rule)
    ensures forall i, j :: 0 <= i < j < |states[n]| && MadeFor(states[n][i], rule) ==>
      states[n][i].origin != states[n][j].origin
    decreases n
  {
    if n > 0 {
      AtMostOneClonePerDate(states, rules, todays, rule, n - 1);
      RunOnlyAppends(states[n - 1], rules, todays[n - 1]);
      RunKeepsAnswers(states[n - 1], rules, rule, todays[n - 1]);
    }
  }

  // ----- Every date is served -----

  /** The rule has a clone for the date, wherever that clone's time lies. */
  ghost predicate HasClone(posts: seq<Post>, rule: Rule, d: Date) {
    exists p :: p in posts && p.origin == Some((rule.id, d))
  }

  lemma RuleServesDate(posts: seq<Post>, rule: Rule, today: int, d: Date)
    requires IsDue(rule) && d in DatesOf(rule, today) && d > today
    ensures d in TakenDates(posts, rule.source) || HasClone(AfterRule(posts, rule, today), rule, d)
    ensures Lands(rule.source) && rule.source.id < |posts| ==>
      d in TakenDates(AfterRule(posts, rule, today), rule.source)
  {
    var dates, taken, after := DatesOf(rule, today), TakenDates(posts, rule.source), AfterRule(posts, rule, today);
    if d !in taken {
      assert IsChosen(d, dates, taken, today);
      OriginsAreChosen(posts, rule, dates, taken, today);
      var i :| |posts| <= i < |after| && after[i].origin == Some((rule.id, d));
      assert after[i] in after;
    }
    if rule.source.id < |posts| {
      TakenAfterClones(posts, rule, dates, taken, today, d);
      assert d + 0 == d;
    }
  }

  lemma ServedStaysServed(before: seq<Post>, after: seq<Post>, rule: Rule, d: Date)
    requires before <= after
    ensures HasClone(before, rule, d) ==> HasClone(after, rule, d)
    ensures d in TakenDates(before, rule.source) ==> d in TakenDates(after, rule.source)
  {
    assert forall p :: p in before ==> p in after;
    TakenIff(before, rule.source, d);
    TakenIff(after, rule.source, d);
    hide TakesDate, TakenDates;
  }

  /**
   After one run, every date still ahead of every due rule is taken by a post
   with the rule's caption or has a clone; where the clones land, it is taken.
   */
  lemma {:induction false} RunServesEveryDate(posts: seq<Post>, rules: seq<Rule>, today: int, rule: Rule, d: Date)
    requires rule in rules && IsDue(rule) && d in DatesOf(rule, today) && d > today
    ensures var after := AfterRun(posts, rules, today);
      (d in TakenDates(after, rule.source) || HasClone(after, rule, d))
      && (Lands(rule.source) && rule.source.id < |posts| ==> d in TakenDates(after, rule.source))
    decreases |rules|
  {
    hide DatesOf, TakenDates, Lands, HasClone;
    var n := |rules| - 1;
    var before, after := AfterRun(posts, rules[..n], today), AfterRun(posts, rules, today);
    RunOnlyAppends(posts, rules[..n], today);
    RuleOnlyAppends(before, rules[n], today);
    ServedStaysServed(before, after, rule, d);
    if rules[n] == rule {
      RuleServesDate(before, rule, today, d);
    } else {
      assert rule in rules[..n];
      RunServesEveryDate(posts, rules[..n], today, rule, d);
    }
  }

  // ----- The bounds, in the rule's own fields -----

  /** The k-th date of the rule lies ahead of today, within 90 days, and not past the rule's own end. */
  lemma DateIsKept(rule: Rule, today: int, k: nat)
    requires IsDue(rule) && !rule.frequency.Unknown? && 1 <= k <= 180
    ensures var d := Iterate(DateOf(rule.source.scheduledAt.value), rule.frequency, rule.interval, k);
      d in DatesOf(rule, today) <==> d <= today + 90 && (rule.endDate.Some? ==> d <= rule.endDate.value)
  {
    var base, dates: seq<Date> := DateOf(rule.source.scheduledAt.value), DatesOf(rule, today);
    var end := CutOff(rule, today);
    if rule.interval > 0 {
      DatesAreCompleteAndOrdered(dates, base, rule.frequency, rule.interval, end, 2 * LOOKAHEAD);
    } else {
      IntervalZeroDates(rule, today);
      IntervalZeroStays(base, rule.frequency, k);
      assert |dates| > 0 ==> dates[0] in dates;
    }
    hide Iterate, DatesOf;
  }

  /** Whatever a rule adds is for an untaken recurrence ahead of today, within 90 days and not past its end date. */
  lemma AddedWithinBounds(posts: seq<Post>, rule: Rule, today: int, i: nat) returns (k: nat)
    requires |posts| <= i < |AfterRule(posts, rule, today)|
    ensures rule.active && rule.source.scheduledAt.Some? && DateOf(rule.source.scheduledAt.value) >= 1
    ensures var origin := AfterRule(posts, rule, today)[i].origin;
      1 <= k <= 180 && origin.Some? && origin.value.0 == rule.id
      && origin.value.1 == Iterate(DateOf(rule.source.scheduledAt.value), rule.frequency, rule.interval, k)
      && today < origin.value.1 <= today + 90 && (rule.endDate.Some? ==> origin.value.1 <= rule.endDate.value)
    ensures forall p ::
      p in posts && p.workspace == rule.source.workspace && p.caption == rule.source.caption && p.id != rule.source.id
      && p.scheduledAt.Some? ==>
        Some((rule.id, DateOf(p.scheduledAt.value))) != AfterRule(posts, rule, today)[i].origin
  {
    var dates := DatesOf(rule, today);
    OriginsAreChosen(posts, rule, dates, TakenDates(posts, rule.source), today);
    var d := AfterRule(posts, rule, today)[i].origin.value.1;
    TakenIff(posts, rule.source, d);
    assert forall p :: p in posts ==> !TakesDate(p, rule.source, d);
    hide Iterate, DatesOf, WithClones, TakenDates;
    var j :| 0 <= j < |dates| && dates[j] == d;
    k := j + 1;
  }

  /** And every such recurrence is taken by a post with the source's caption, or has its clone. */
  lemma RecurrencesAreServed(posts: seq<Post>, rules: seq<Rule>, today: int, rule: Rule, k: nat)
    requires rule in rules && rule.active && rule.source.scheduledAt.Some? && !rule.frequency.Unknown? && 1 <= k <= 180
    requires DateOf(rule.source.scheduledAt.value) >= 1
    requires var d := Iterate(DateOf(rule.source.scheduledAt.value), rule.frequency, rule.interval, k);
      today < d <= today + 90 && (rule.endDate.Some? ==> d <= rule.endDate.value)
    ensures var d := Iterate(DateOf(rule.source.scheduledAt.value), rule.frequency, rule.interval, k);
      exists p :: p in AfterRun(posts, rules, today)
        && (p.origin == Some((rule.id, d))
            || (p.workspace == rule.source.workspace && p.caption == rule.source.caption && p.id != rule.source.id
                && p.scheduledAt.Some? && DateOf(p.scheduledAt.value) == d))
  {
    var d := Iterate(DateOf(rule.source.scheduledAt.value), rule.frequency, rule.interval, k);
    var after := AfterRun(posts, rules, today);
    DateIsKept(rule, today, k);
    hide Iterate, DatesOf, AfterRun;
    RunServesEveryDate(posts, rules, today, rule, d);
    TakenIff(after, rule.source, d);
    if d in TakenDates(after, rule.source) {
      var p :| p in after && TakesDate(p, rule.source, d);
    } else {
      var p :| p in after && p.origin == Some((rule.id, d));
    }
    hide TakenDates;
  }

  /** The same bounds for whatever a whole run adds, each post by one of its active rules. */
  lemma {:induction false} RunAddsWithinBounds(posts: seq<Post>, rules: seq<Rule>, today: int, i: nat)
    returns (rule: Rule, k: nat)
    requires |posts| <= i < |AfterRun(posts, rules, today)|
    ensures rule in rules && rule.active && rule.source.scheduledAt.Some?
    ensures DateOf(rule.source.scheduledAt.value) >= 1
    ensures var origin := AfterRun(posts, rules, today)[i].origin;
      1 <= k <= 180 && origin.Some? && origin.value.0 == rule.id
      && origin.value.1 == Iterate(DateOf(rule.source.scheduledAt.value), rule.frequency, rule.interval, k)
      && today < origin.value.1 <= today + 90 && (rule.endDate.Some? ==> origin.value.1 <= rule.endDate.value)
    decreases |rules|
  {
    hide Iterate, AfterRule;
    var n := |rules| - 1;
    var before := AfterRun(posts, rules[..n], today);
    RunOnlyAppends(posts, rules[..n], today);
    RuleOnlyAppends(before, rules[n], today);
    if i < |before| {
      rule, k := RunAddsWithinBounds(posts, rules[..n], today, i);
    } else {
      rule := rules[n];
      k := AddedWithinBounds(before, rule, today, i);
    }
  }

  // ----- Sources that nothing holds back -----

  /** A source whose children are all untimed is cloned again in full by every run of the day. */
  lemma UntimedSourceIsClonedAgain(posts: seq<Post>, rule: Rule, today: int)
    requires IsDue(rule) && rule.source.id < |posts| && DaysOff(rule.source).None?
    ensures var once := AfterRule(posts, rule, today);
      |AfterRule(once, rule, today)| - |once| == |once| - |posts|
  {
    var once, dates := AfterRule(posts, rule, today), DatesOf(rule, today);
    forall x ensures x in TakenDates(once, rule.source) <==> x in TakenDates(posts, rule.source) {
      TakenAfterClones(posts, rule, dates, TakenDates(posts, rule.source), today, x);
    }
    assert TakenDates(once, rule.source) == TakenDates(posts, rule.source);
    ClonesAreToDo(posts, rule, dates, TakenDates(posts, rule.source), today);
    ClonesAreToDo(once, rule, dates, TakenDates(once, rule.source), today);
  }

  lemma {:induction false} IntervalZeroStays(base: Date, f: Frequency, k: nat)
    ensures Iterate(base, f, 0, k) == base
  {
    if k > 0 {
      IntervalZeroStays(base, f, k - 1);
    }
  }

  lemma {:induction false} AllOrNone(dates: seq<Date>, taken: set<int>, today: int, d: Date)
    requires forall i :: 0 <= i < |dates| ==> dates[i] == d
    ensures ToDo(dates, taken, today) == if d !in taken && d > today then |dates| else 0
  {
    if dates != [] {
      AllOrNone(dates[..|dates| - 1], taken, today, d);
    }
  }

  lemma IntervalZeroDates(rule: Rule, today: int)
    requires IsDue(rule) && rule.interval == 0 && !rule.frequency.Unknown?
    ensures var base := DateOf(rule.source.scheduledAt.value);
      |DatesOf(rule, today)| == (if base <= CutOff(rule, today) then 180 else 0)
      && forall i :: 0 <= i < |DatesOf(rule, today)| ==> DatesOf(rule, today)[i] == base
  {
    var base: Date := DateOf(rule.source.scheduledAt.value);
    var dates := DatesOf(rule, today);
    IntervalZeroStays(base, rule.frequency, |dates| + 1);
    forall i | 0 <= i < |dates| ensures dates[i] == base {
      IntervalZeroStays(base, rule.frequency, i + 1);
    }
    if |dates| > 0 {
      assert dates[0] == base;
    }
  }

  /**
   The column allows an interval of zero: one run then makes 180 clones for the
   source's own date exactly when that date is ahead, within the cut-off and not
   taken, and none otherwise.
   */
  lemma IntervalZeroFloodsIff(posts: seq<Post>, rule: Rule, today: int)
    requires IsDue(rule) && rule.interval == 0 && !rule.frequency.Unknown?
    ensures var base, added := DateOf(rule.source.scheduledAt.value), |AfterRule(posts, rule, today)| - |posts|;
      (added == 180 <==> today < base <= CutOff(rule, today) && base !in TakenDates(posts, rule.source))
      && (added == 180 || added == 0)
  {
    var dates, taken := DatesOf(rule, today), TakenDates(posts, rule.source);
    IntervalZeroDates(rule, today);
    AllOrNone(dates, taken, today, DateOf(rule.source.scheduledAt.value));
    ClonesAreToDo(posts, rule, dates, taken, today);
    hide DatesOf, TakenDates, ToDo, WithClones;
  }
}
