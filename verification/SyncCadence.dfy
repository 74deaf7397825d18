/**
 The decaying per-post analytics sync (apps/analytics/tasks.py) and the ETA that
 the agent API promises for it (apps/analytics/freshness.py).  Times are seconds.
 */
module SyncCadence {
  import opened Wrappers

  const HOUR := 3600
  const DAY := 24 * HOUR
  const FIRST_POLL_DELAY := 300
  const NEVER_FETCHED: set<string> := {"linkedin_personal", "bluesky", "mastodon"}

  datatype Post = Post(published: Option<int>, platform: string)
  /** Snapshots are unique per metric and day; `captured` is the time of the last write. */
  datatype Key = Key(metric: string, date: int)
  datatype Row = Row(value: real, captured: int)
  type Rows = map<Key, Row>

  /** The cadence table: the first row whose age bound exceeds the age wins. */
  const CADENCE: seq<(Option<int>, Option<int>)> :=
    [(Some(DAY), Some(HOUR)), (Some(7 * DAY), Some(6 * HOUR)), (Some(30 * DAY), Some(DAY)),
     (Some(90 * DAY), Some(7 * DAY)), (None, None)]

  function Interval(age: int): Option<int> {
    if age < DAY then Some(HOUR)
    else if age < 7 * DAY then Some(6 * HOUR)
    else if age < 30 * DAY then Some(DAY)
    else if age < 90 * DAY then Some(7 * DAY)
    else None
  }

  method PostSyncInterval(age: int) returns (interval: Option<int>)
    ensures interval == Interval(age)
  {
    for i := 0 to |CADENCE|
      invariant (i > 0 ==> age >= DAY) && (i > 1 ==> age >= 7 * DAY)
      invariant (i > 2 ==> age >= 30 * DAY) && (i > 3 ==> age >= 90 * DAY) && i <= 4
    {
      if CADENCE[i].0.None? || age < CADENCE[i].0.value {
        return CADENCE[i].1;
      }
    }
    return None;
  }

  /** Metrics written by another path than the per-post sync. */
  function Excluded(platform: string): set<string> {
    if platform == "youtube" then {"watch_time", "avg_view_pct", "shares"} else {}
  }

  function BackfillDays(platform: string): nat {
    if platform in NEVER_FETCHED then 0
    else if platform == "tiktok" then 60
    else if platform == "ghost" then 30
    else 90
  }

  /** The tables of the schedule, in hours and days. */
  lemma ScheduleInHours(age: int, platform: string)
    ensures Interval(age) ==
      if age < 24 * 3600 then Some(3600)
      else if age < 7 * 24 * 3600 then Some(6 * 3600)
      else if age < 30 * 24 * 3600 then Some(24 * 3600)
      else if age < 90 * 24 * 3600 then Some(7 * 24 * 3600) else None
    ensures platform in {"linkedin_personal", "bluesky", "mastodon"} ==> BackfillDays(platform) == 0
    ensures platform !in {"linkedin_personal", "bluesky", "mastodon"} ==>
      BackfillDays(platform) == if platform == "tiktok" then 60 else if platform == "ghost" then 30 else 90
    ensures platform != "youtube" ==> Excluded(platform) == {}
    ensures Excluded("youtube") == {"watch_time", "avg_view_pct", "shares"}
  {
  }

  // ----- Reading and writing the snapshots -----

  /** The newest capture time among the rows of the metrics not excluded. */
  ghost predicate IsLatest(rows: Rows, excluded: set<string>, last: Option<int>) {
    (forall k :: k in rows && k.metric !in excluded ==> last.Some? && rows[k].captured <= last.value)
    && (last.Some? ==> exists k :: k in rows && k.metric !in excluded && rows[k].captured == last.value)
  }

  method LatestCaptured(rows: Rows, excluded: set<string>) returns (last: Option<int>)
    ensures IsLatest(rows, excluded, last)
  {
    last := None;
    var todo := rows.Keys;
    while todo != {}
      invariant todo <= rows.Keys
      invariant forall k :: k in rows && k !in todo && k.metric !in excluded ==>
        last.Some? && rows[k].captured <= last.value
      invariant last.Some? ==> exists k :: k in rows && k.metric !in excluded && rows[k].captured == last.value
      decreases |todo|
    {
      var k :| k in todo;
      todo := todo - {k};
      if k.metric !in excluded && (last.None? || rows[k].captured > last.value) {
        last := Some(rows[k].captured);
      }
    }
  }

  function Written(rows: Rows, metrics: map<string, real>, date: int, now: int): Rows {
    rows + map m | m in metrics :: Key(m, date) := Row(metrics[m], now)
  }

  ghost predicate Partly(after: Rows, rows: Rows, metrics: map<string, real>, done: set<string>, date: int, now: int)
    requires done <= metrics.Keys
  {
    (forall k :: k in after <==> k in rows || (k.date == date && k.metric in done))
    && (forall k :: k in after && k.date == date && k.metric in done ==> after[k] == Row(metrics[k.metric], now))
    && (forall k :: k in rows && !(k.date == date && k.metric in done) ==> after[k] == rows[k])
  }

  lemma PartlyGrows(after: Rows, rows: Rows, metrics: map<string, real>, done: set<string>, m: string, date: int,
                    now: int)
    requires done <= metrics.Keys && m in metrics && Partly(after, rows, metrics, done, date, now)
    ensures Partly(after[Key(m, date) := Row(metrics[m], now)], rows, metrics, done + {m}, date, now)
  {
  }

  lemma AllWritten(after: Rows, rows: Rows, metrics: map<string, real>, date: int, now: int)
    requires Partly(after, rows, metrics, metrics.Keys, date, now)
    ensures after == Written(rows, metrics, date, now)
  {
  }

  method WritePostSnapshot(rows: Rows, metrics: map<string, real>, date: int, now: int)
    returns (after: Rows, count: nat)
    ensures after == Written(rows, metrics, date, now)
    ensures count == |metrics.Keys|
  {
    after, count := rows, 0;
    var todo := metrics.Keys;
    while todo != {}
      invariant todo <= metrics.Keys && count == |metrics.Keys| - |todo|
      invariant Partly(after, rows, metrics, metrics.Keys - todo, date, now)
      decreases |todo|
    {
      var k :| k in todo;
      PartlyGrows(after, rows, metrics, metrics.Keys - todo, k, date, now);
      assert metrics.Keys - (todo - {k}) == metrics.Keys - todo + {k};
      after, count := after[Key(k, date) := Row(metrics[k], now)], count + 1;
      todo := todo - {k};
    }
    assert metrics.Keys - todo == metrics.Keys;
    AllWritten(after, rows, metrics, date, now);
  }

  // ----- When a post is due -----

  /** No row that counts is younger than the interval of the post's age. */
  ghost predicate IsDue(rows: Rows, post: Post, now: int) {
    post.published.Some? && Interval(now - post.published.value).Some?
    && forall k :: k in rows && k.metric !in Excluded(post.platform) ==>
      now - rows[k].captured >= Interval(now - post.published.value).value
  }

  method PostCadenceDue(rows: Rows, post: Post, now: int) returns (due: bool)
    ensures due <==> IsDue(rows, post, now)
  {
    if post.published.None? {
      return false;
    }
    var cadence := PostSyncInterval(now - post.published.value);
    if cadence.None? {
      return false;
    }
    var last := LatestCaptured(rows, Excluded(post.platform));
    if last.None? {
      return true;
    }
    return now - last.value >= cadence.value;
  }

  /** The hourly loop's own filter on the publication time, before it asks whether the post is due. */
  predicate InWindow(post: Post, now: int) {
    BackfillDays(post.platform) > 0 && post.published.Some?
    && post.published.value >= now - BackfillDays(post.platform) * DAY
  }

  /** The newest snapshot as the caller knows it and the time of the next sync. */
  function Freshness(post: Post, last: Option<int>, now: int): (Option<int>, Option<int>) {
    if post.platform in NEVER_FETCHED || post.published.None? then (None, None) else
      var interval := Interval(now - post.published.value);
      if interval.None? then (last, None)
      else if last.None? then
        (None, Some(now + if interval.value <= FIRST_POLL_DELAY then interval.value else FIRST_POLL_DELAY))
      else (last, Some(last.value + interval.value))
  }

  predicate EtaPassed(post: Post, last: Option<int>, now: int) {
    var eta := Freshness(post, last, now).1;
    eta.Some? && eta.value <= now
  }

  /** No counted row was captured after t. */
  ghost predicate NoCountedSince(rows: Rows, post: Post, t: int) {
    forall k :: k in rows && k.metric !in Excluded(post.platform) ==> rows[k].captured <= t
  }

  /**
   The promised time: none for a platform that is never fetched, a draft, or a
   post of 90 days; within five minutes for a post without a snapshot; else one
   interval after the last.
   */
  lemma EtaInFields(post: Post, last: Option<int>, now: int)
    ensures var age := if post.published.Some? then now - post.published.value else 90 * 24 * 3600;
      var eta := Freshness(post, last, now).1;
      (eta.None? <==> age >= 90 * 24 * 3600 || post.platform in {"linkedin_personal", "bluesky", "mastodon"})
      && (eta.Some? && last.None? ==> eta.value == now + 300)
      && (eta.Some? && last.Some? && age < 24 * 3600 ==> eta.value == last.value + 3600)
      && (eta.Some? && last.Some? && 24 * 3600 <= age < 7 * 24 * 3600 ==> eta.value == last.value + 6 * 3600)
      && (eta.Some? && last.Some? && 7 * 24 * 3600 <= age < 30 * 24 * 3600 ==> eta.value == last.value + 24 * 3600)
      && (eta.Some? && last.Some? && 30 * 24 * 3600 <= age ==> eta.value == last.value + 7 * 24 * 3600)
  {
  }

  ghost predicate HasExcludedSince(rows: Rows, post: Post, t: int) {
    exists k :: k in rows && k.metric in Excluded(post.platform) && rows[k].captured > t
  }

  /**
   The promise and the cadence agree on every post with a snapshot, except
   exactly where, under 90 days, no counted row but some excluded one is younger
   than the interval; where nothing is excluded they always agree.
   */
  lemma DueIffEtaPassed(rows: Rows, post: Post, last: Option<int>, now: int)
    requires IsLatest(rows, {}, last) && last.Some? && post.published.Some? && post.platform !in NEVER_FETCHED
    ensures EtaPassed(post, last, now) ==> IsDue(rows, post, now)
    ensures Excluded(post.platform) == {} ==> (IsDue(rows, post, now) <==> EtaPassed(post, last, now))
    ensures (IsDue(rows, post, now) <==> EtaPassed(post, last, now)) <==>
      !(var interval := Interval(now - post.published.value);
        interval.Some? && NoCountedSince(rows, post, now - interval.value)
        && HasExcludedSince(rows, post, now - interval.value))
  {
    var k :| k in rows && rows[k].captured == last.value;
    if IsDue(rows, post, now) && EtaPassed(post, last, now) {
      forall j | j in rows ensures now - rows[j].captured >= Interval(now - post.published.value).value {
        assert rows[j].captured <= last.value;
      }
    }
  }

  /** A YouTube post is due although its ETA, pushed ahead by the watch-time row, lies in the future. */
  lemma YouTubeIsDueBeforeItsEta()
    ensures var post := Post(Some(0), "youtube");
      var rows := map[Key("views", 0) := Row(1.0, 0), Key("watch_time", 0) := Row(2.0, HOUR)];
      IsLatest(rows, {}, Some(HOUR)) && IsDue(rows, post, HOUR) && !EtaPassed(post, Some(HOUR), HOUR)
  {
    var rows := map[Key("views", 0) := Row(1.0, 0), Key("watch_time", 0) := Row(2.0, HOUR)];
    assert Key("watch_time", 0) in rows && rows[Key("watch_time", 0)].captured == HOUR;
    assert "views" != "watch_time" by { assert |"views"| != |"watch_time"|; }
    assert Key("views", 0) in rows && rows[Key("views", 0)].captured == 0;
  }

  /**
   The loop takes a post whose ETA has passed exactly when the post is within the
   platform's window: past 60 days on TikTok, or 30 on Ghost, the ETA is never kept.
   */
  lemma EtaIsKeptIffInWindow(rows: Rows, post: Post, last: Option<int>, now: int)
    requires IsLatest(rows, {}, last) && last.Some? && EtaPassed(post, last, now)
    ensures InWindow(post, now) && IsDue(rows, post, now) <==>
      now - post.published.value <= BackfillDays(post.platform) * DAY
    ensures BackfillDays(post.platform) == 90 ==> InWindow(post, now)
  {
    DueIffEtaPassed(rows, post, last, now);
  }

  // ----- Whole lives of a post -----

  /** A tick of the hourly task with what the provider would answer, or a write by any other path. */
  datatype Event = Tick(now: int, metrics: map<string, real>) | OtherWrite(now: int, metrics: map<string, real>)

  ghost predicate Syncs(rows: Rows, post: Post, e: Event) {
    e.Tick? && InWindow(post, e.now) && IsDue(rows, post, e.now)
  }

  ghost function After(rows: Rows, post: Post, e: Event): Rows {
    if e.OtherWrite? || Syncs(rows, post, e) then Written(rows, e.metrics, e.now / DAY, e.now) else rows
  }

  /** One post's part of the hourly task. */
  class Store {
    var rows: Rows

    constructor ()
      ensures rows == map[]
    {
      rows := map[];
    }

    method SyncIfDue(post: Post, now: int, metrics: map<string, real>) returns (synced: bool)
      modifies this
      ensures rows == After(old(rows), post, Tick(now, metrics))
      ensures synced <==> Syncs(old(rows), post, Tick(now, metrics))
    {
      var days := BackfillDays(post.platform);
      if days == 0 || post.published.None? || post.published.value < now - days * DAY {
        return false;
      }
      synced := PostCadenceDue(rows, post, now);
      if synced {
        var count;
        rows, count := WritePostSnapshot(rows, metrics, now / DAY, now);
      }
    }
  }

  /** Events in time order from the publication on; every sync brings at least one counted metric. */
  ghost predicate IsLife(tables: seq<Rows>, events: seq<Event>, post: Post) {
    |tables| == |events| + 1 && post.published.Some?
    && (forall i :: 0 <= i < |events| ==> tables[i + 1] == After(tables[i], post, events[i]))
    && (forall i :: 0 <= i < |events| ==> events[i].now >= post.published.value)
    && (forall i, j :: 0 <= i < j < |events| ==> events[i].now <= events[j].now)
    && (forall i :: 0 <= i < |events| && Syncs(tables[i], post, events[i]) ==> Counts(events[i].metrics, post))
  }

  ghost predicate Counts(metrics: map<string, real>, post: Post) {
    exists m :: m in metrics && m !in Excluded(post.platform)
  }

  /** The ages at which the first n events synced the post. */
  ghost function SyncAges(tables: seq<Rows>, events: seq<Event>, post: Post, n: nat): seq<int>
    requires n <= |events| < |tables| && post.published.Some?
  {
    if n == 0 then [] else WithAge(SyncAges(tables, events, post, n - 1), tables[n - 1], post, events[n - 1])
  }

  ghost function WithAge(ages: seq<int>, rows: Rows, post: Post, e: Event): seq<int>
    requires post.published.Some?
  {
    if Syncs(rows, post, e) then ages + [e.now - post.published.value] else ages
  }

  /** Each sync comes at least an interval of its own age after the one before. */
  ghost predicate Spaced(ages: seq<int>) {
    (forall i :: 0 <= i < |ages| ==> 0 <= ages[i] < 90 * DAY)
    && forall i :: 0 < i < |ages| ==> ages[i] - ages[i - 1] >= Interval(ages[i]).value
  }

  ghost predicate HasCountedSince(rows: Rows, post: Post, t: int) {
    exists k :: k in rows && k.metric !in Excluded(post.platform) && rows[k].captured >= t
  }

  lemma WrittenKeepsCounted(rows: Rows, post: Post, metrics: map<string, real>, date: int, now: int, t: int)
    requires now >= t && (HasCountedSince(rows, post, t) || Counts(metrics, post))
    ensures HasCountedSince(Written(rows, metrics, date, now), post, t)
  {
    var after := Written(rows, metrics, date, now);
    if Counts(metrics, post) {
      var m :| m in metrics && m !in Excluded(post.platform);
      assert Key(m, date) in after && after[Key(m, date)].captured == now;
    } else {
      var k :| k in rows && k.metric !in Excluded(post.platform) && rows[k].captured >= t;
      assert k in after && after[k].captured >= t;
    }
  }

  lemma SyncStaysSpaced(rows: Rows, post: Post, e: Event, before: seq<int>)
    requires post.published.Some? && Syncs(rows, post, e) && e.now >= post.published.value && Spaced(before)
    requires before != [] ==> HasCountedSince(rows, post, post.published.value + before[|before| - 1])
    ensures Spaced(before + [e.now - post.published.value])
  {
    if before != [] {
      var last := post.published.value + before[|before| - 1];
      var k :| k in rows && k.metric !in Excluded(post.platform) && rows[k].captured >= last;
      assert e.now - rows[k].captured >= Interval(e.now - post.published.value).value;
    }
  }

  /** The ages so far are spaced, and a counted row is at least as young as the last of them. */
  ghost predicate Paced(rows: Rows, post: Post, ages: seq<int>, now: int)
    requires post.published.Some?
  {
    Spaced(ages)
    && (ages != [] ==>
          post.published.value + ages[|ages| - 1] <= now
          && HasCountedSince(rows, post, post.published.value + ages[|ages| - 1]))
  }

  lemma EventKeepsPaced(rows: Rows, post: Post, e: Event, ages: seq<int>, now: int)
    requires post.published.Some? && Paced(rows, post, ages, now) && now <= e.now && post.published.value <= e.now
    requires Syncs(rows, post, e) ==> Counts(e.metrics, post)
    ensures Paced(After(rows, post, e), post, WithAge(ages, rows, post, e), e.now)
  {
    hide IsDue, InWindow, Spaced, HasCountedSince, Counts, Written;
    if Syncs(rows, post, e) {
      SyncStaysSpaced(rows, post, e, ages);
      WrittenKeepsCounted(rows, post, e.metrics, e.now / DAY, e.now, e.now);
    } else {
      if e.OtherWrite? && ages != [] {
        WrittenKeepsCounted(rows, post, e.metrics, e.now / DAY, e.now, post.published.value + ages[|ages| - 1]);
      }
    }
  }

  /** The time of the event before the n-th, the publication to begin with. */
  ghost function TimeBefore(events: seq<Event>, post: Post, n: nat): int
    requires n <= |events| && post.published.Some?
  {
    if n == 0 then post.published.value else events[n - 1].now
  }

  lemma EventOfLife(tables: seq<Rows>, events: seq<Event>, post: Post, i: nat)
    requires IsLife(tables, events, post) && i < |events|
    ensures post.published.Some? && i + 1 < |tables| && tables[i + 1] == After(tables[i], post, events[i])
    ensures events[i].now >= TimeBefore(events, post, i) && events[i].now >= post.published.value
    ensures Syncs(tables[i], post, events[i]) ==> Counts(events[i].metrics, post)
  {
  }

  lemma NextStaysPaced(tables: seq<Rows>, events: seq<Event>, post: Post, n: nat)
    requires IsLife(tables, events, post) && n < |events|
    requires Paced(tables[n], post, SyncAges(tables, events, post, n), TimeBefore(events, post, n))
    ensures Paced(tables[n + 1], post, SyncAges(tables, events, post, n + 1), TimeBefore(events, post, n + 1))
  {
    EventOfLife(tables, events, post, n);
    hide Paced, Syncs, After, Counts, IsLife, WithAge;
    EventKeepsPaced(tables[n], post, events[n], SyncAges(tables, events, post, n), TimeBefore(events, post, n));
  }

  lemma {:induction false} LifeIsSpaced(tables: seq<Rows>, events: seq<Event>, post: Post, n: nat)
    requires IsLife(tables, events, post) && n <= |events|
    ensures Paced(tables[n], post, SyncAges(tables, events, post, n), TimeBefore(events, post, n))
    decreases n
  {
    if n > 0 {
      LifeIsSpaced(tables, events, post, n - 1);
      NextStaysPaced(tables, events, post, n - 1);
    } else {
      assert SyncAges(tables, events, post, 0) == [];
    }
  }

  /** The earliest age, in hours, at which the i-th sync of a life can come. */
  function EarliestAge(i: nat): nat {
    if i < 24 then i
    else if i < 48 then 29 + 6 * (i - 24)
    else if i < 71 then 191 + 24 * (i - 48)
    else 887 + 168 * (i - 71)
  }

  lemma {:induction false} NoSyncIsEarlier(ages: seq<int>, i: nat)
    requires Spaced(ages) && i < |ages|
    ensures ages[i] >= EarliestAge(i) * HOUR
  {
    if i > 0 {
      NoSyncIsEarlier(ages, i - 1);
    }
  }

  /**
   In any life of a post the hourly task syncs it at most 79 times: 24 hourly,
   24 six-hourly, 23 daily and 8 weekly; the i-th never before EarliestAge(i).
   */
  lemma AtMost79Syncs(tables: seq<Rows>, events: seq<Event>, post: Post)
    requires IsLife(tables, events, post)
    ensures var ages := SyncAges(tables, events, post, |events|);
      |ages| <= 79 && forall i :: 0 <= i < |ages| ==> ages[i] >= EarliestAge(i) * HOUR
  {
    LifeIsSpaced(tables, events, post, |events|);
    var ages := SyncAges(tables, events, post, |events|);
    forall i | 0 <= i < |ages| ensures ages[i] >= EarliestAge(i) * HOUR {
      NoSyncIsEarlier(ages, i);
    }
    if |ages| > 79 {
      NoSyncIsEarlier(ages, 79);
    }
  }

  lemma LifeGrows(tables: seq<Rows>, events: seq<Event>, post: Post, e: Event)
    requires IsLife(tables, events, post) && Counts(e.metrics, post) && e.now >= post.published.value
    requires events == [] || events[|events| - 1].now <= e.now
    ensures IsLife(tables + [After(tables[|events|], post, e)], events + [e], post)
  {
    var n := |events|;
    var more, longer := tables + [After(tables[n], post, e)], events + [e];
    forall i | 0 <= i <= n
      ensures more[i + 1] == After(more[i], post, longer[i]) && longer[i].now <= e.now
      ensures Syncs(more[i], post, longer[i]) ==> Counts(longer[i].metrics, post)
    {
      if i < n {
        EventOfLife(tables, events, post, i);
        assert events[i].now <= events[n - 1].now;
      }
    }
    forall i, j | 0 <= i < j <= n ensures longer[i].now <= longer[j].now {
      if j < n {
        assert events[i].now <= events[j].now;
      }
    }
    forall i | 0 <= i <= n ensures longer[i].now >= post.published.value {
      if i < n {
        EventOfLife(tables, events, post, i);
      }
    }
  }

  /** The bound is reached: a tick at each earliest age syncs every time. */
  lemma {:induction false} EarliestTicksAllSync(n: nat, post: Post) returns (tables: seq<Rows>, events: seq<Event>)
    requires n <= 79 && post == Post(Some(0), "facebook")
    ensures IsLife(tables, events, post) && |events| == n && |SyncAges(tables, events, post, n)| == n
    ensures n > 0 ==> events[n - 1].now == EarliestAge(n - 1) * HOUR
    ensures forall k :: k in tables[n] ==> n > 0 && tables[n][k].captured <= events[n - 1].now
    decreases n
  {
    if n == 0 {
      return [map[]], [];
    }
    var before, past := EarliestTicksAllSync(n - 1, post);
    var e := Tick(EarliestAge(n - 1) * HOUR, map["likes" := 1.0]);
    assert Counts(e.metrics, post) by {
      assert "likes" in e.metrics && Excluded(post.platform) == {};
    }
    NextTickSyncs(before[n - 1], n - 1, e, post);
    tables, events := before + [After(before[n - 1], post, e)], past + [e];
    hide IsLife, Syncs, Counts;
    LifeGrows(before, past, post, e);
    OneMoreSync(before, past, post, e);
  }

  lemma OneMoreSync(tables: seq<Rows>, events: seq<Event>, post: Post, e: Event)
    requires |tables| == |events| + 1 && post.published.Some? && Syncs(tables[|events|], post, e)
    ensures |SyncAges(tables + [After(tables[|events|], post, e)], events + [e], post, |events| + 1)| ==
      |SyncAges(tables, events, post, |events|)| + 1
  {
    SameAges(tables, events, tables + [After(tables[|events|], post, e)], events + [e], post, |events|);
  }

  lemma NextTickSyncs(rows: Rows, i: nat, e: Event, post: Post)
    requires i < 79 && e.Tick? && e.now == EarliestAge(i) * HOUR && post == Post(Some(0), "facebook")
    requires forall k :: k in rows ==> i > 0 && rows[k].captured <= EarliestAge(i - 1) * HOUR
    ensures Syncs(rows, post, e)
  {
    assert BackfillDays("facebook") == 90;
  }

  lemma {:induction false} SameAges(a: seq<Rows>, d: seq<Event>, b: seq<Rows>, e: seq<Event>, post: Post, n: nat)
    requires n <= |d| < |a| && n <= |e| < |b| && a[..n] == b[..n] && d[..n] == e[..n] && post.published.Some?
    ensures SyncAges(a, d, post, n) == SyncAges(b, e, post, n)
  {
    if n > 0 {
      assert a[..n - 1] == a[..n][..n - 1] && b[..n - 1] == b[..n][..n - 1];
      assert d[..n - 1] == d[..n][..n - 1] && e[..n - 1] == e[..n][..n - 1];
      SameAges(a, d, b, e, post, n - 1);
      assert a[n - 1] == a[..n][n - 1] && b[n - 1] == b[..n][n - 1];
      assert d[n - 1] == d[..n][n - 1] && e[n - 1] == e[..n][n - 1];
    }
  }
}
