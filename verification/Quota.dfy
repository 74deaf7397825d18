/**
 The rolling 24-hour cap on the posts an API key may create per social account
 (apps/api/limits.py).  Times are microseconds, as datetime arithmetic is.
 */
module Quota {
  import opened Wrappers

  const SECOND := 1_000_000
  const WINDOW := 24 * 60 * 60 * SECOND
  const NO_ROW_RETRY := 60

  datatype Status = Draft | InReview | Approved | Scheduled | Publishing | Published | Failed
  datatype Row = Row(status: Status, updated: int)
  datatype Account = Account(platform: string, override: Option<nat>)
  /** The platform posts of one social account. */
  type Rows = map<nat, Row>

  const PLATFORM_LIMITS: map<string, nat> := map[
    "linkedin_personal" := 100, "linkedin_company" := 100, "facebook" := 200, "instagram" := 25,
    "instagram_login" := 25, "tiktok" := 15, "youtube" := 50, "pinterest" := 100, "threads" := 250,
    "mastodon" := 200, "bluesky" := 200, "google_business" := 50]
  const DEFAULT_LIMIT := 50

  function ResolveLimit(account: Account): nat {
    if account.override.Some? then account.override.value
    else if account.platform in PLATFORM_LIMITS then PLATFORM_LIMITS[account.platform]
    else DEFAULT_LIMIT
  }

  predicate Consumes(status: Status) {
    status.Scheduled? || status.Publishing? || status.Published? || status.Failed?
  }

  /** The rows that take a slot at time now; a row exactly one window old still does. */
  function Recent(rows: Rows, now: int): set<nat> {
    set id | id in rows && Consumes(rows[id].status) && rows[id].updated >= now - WINDOW
  }

  /** A row counts once it is scheduled, whatever becomes of it, for 24 hours from its last update, end included. */
  lemma CountsInFields(rows: Rows, now: int, id: nat)
    ensures id in Recent(rows, now) <==>
      id in rows && rows[id].status in {Scheduled, Publishing, Published, Failed}
      && now - rows[id].updated <= 86_400_000_000
  {
  }

  /** The limit of an account: its own override, zero included, else its platform's, else 50. */
  lemma LimitInFields(account: Account)
    ensures ResolveLimit(account) ==
      if account.override.Some? then account.override.value
      else if account.platform == "tiktok" then 15
      else if account.platform in {"instagram", "instagram_login"} then 25
      else if account.platform in {"linkedin_personal", "linkedin_company", "pinterest"} then 100
      else if account.platform in {"facebook", "mastodon", "bluesky"} then 200
      else if account.platform == "threads" then 250 else 50
  {
  }

  /** Python's int() of a number of seconds: truncation toward zero. */
  function WholeSeconds(d: int): int {
    if d >= 0 then d / SECOND else 0 - (0 - d) / SECOND
  }

  /** The earliest update among the rows given. */
  ghost predicate IsOldest(rows: Rows, ids: set<nat>, oldest: Option<int>) {
    (oldest.None? <==> ids == {})
    && (oldest.Some? ==> exists id :: id in ids && id in rows && rows[id].updated == oldest.value)
    && (forall id :: id in ids && id in rows && oldest.Some? ==> rows[id].updated >= oldest.value)
  }

  method Oldest(rows: Rows, ids: set<nat>) returns (oldest: Option<int>)
    requires ids <= rows.Keys
    ensures IsOldest(rows, ids, oldest)
  {
    oldest := None;
    var todo := ids;
    while todo != {}
      invariant todo <= ids && (oldest.None? <==> todo == ids)
      invariant oldest.Some? ==> exists id :: id in ids && id in rows && rows[id].updated == oldest.value
      invariant forall id :: id in ids - todo && id in rows && oldest.Some? ==> rows[id].updated >= oldest.value
      decreases |todo|
    {
      var id :| id in todo;
      if oldest.None? || rows[id].updated < oldest.value {
        oldest := Some(rows[id].updated);
      }
      todo := todo - {id};
    }
  }

  /** Each query reads the clock again: t1 for the count, t2 for the oldest row, t3 for the remaining time. */
  method CheckPlatformQuota(rows: Rows, account: Account, t1: int, t2: int, t3: int) returns (refusal: Option<nat>)
    requires t1 <= t2 <= t3
    ensures refusal.Some? <==> |Recent(rows, t1)| >= ResolveLimit(account)
    ensures refusal.Some? && Recent(rows, t2) == {} ==> refusal.value == 60
    ensures refusal.Some? && Recent(rows, t2) != {} ==>
      exists id :: id in Recent(rows, t2) && refusal.value == RetryAfter(rows[id].updated, t3)
        && forall other :: other in Recent(rows, t2) ==> rows[id].updated <= rows[other].updated
  {
    if |Recent(rows, t1)| < ResolveLimit(account) {
      return None;
    }
    var oldest := Oldest(rows, Recent(rows, t2));
    var seconds := NO_ROW_RETRY;
    if oldest.Some? {
      seconds := WholeSeconds(oldest.value + WINDOW - t3);
    }
    if seconds < 1 {
      seconds := 1;
    }
    return Some(seconds);
  }

  // ----- The advertised delay -----

  function RetryAfter(oldest: int, now: int): nat {
    var seconds := WholeSeconds(oldest + WINDOW - now);
    if seconds < 1 then 1 else seconds
  }

  /** The delay is never zero, and it is the oldest row's remaining time up to less than a second, floored at one. */
  lemma RetryAfterIsClose(oldest: int, now: int)
    ensures var remaining, delay := oldest + 86_400_000_000 - now, RetryAfter(oldest, now) * 1_000_000;
      1_000_000 <= delay && remaining - 1_000_000 < delay <= if remaining < 1_000_000 then 1_000_000 else remaining
  {
  }

  lemma RecentShrinks(rows: Rows, now: int, later: int)
    requires now <= later
    ensures Recent(rows, later) <= Recent(rows, now)
  {
  }

  /**
   A client that waits exactly the advertised delay finds a slot freed if and
   only if less than a second was left: otherwise the truncated delay ends while
   the oldest row is still inside the window, and the same refusal comes again.
   */
  lemma WaitFreesASlotIff(rows: Rows, oldest: int, now: int)
    requires Recent(rows, now) != {} && IsOldest(rows, Recent(rows, now), Some(oldest))
    ensures var later := now + RetryAfter(oldest, now) * SECOND;
      |Recent(rows, later)| < |Recent(rows, now)| <==> oldest + WINDOW - now < SECOND
    ensures oldest + WINDOW - now >= SECOND ==>
      Recent(rows, now + RetryAfter(oldest, now) * SECOND) == Recent(rows, now)
  {
    var later := now + RetryAfter(oldest, now) * SECOND;
    RetryAfterIsClose(oldest, now);
    RecentShrinks(rows, now, later);
    var id :| id in Recent(rows, now) && rows[id].updated == oldest;
    if oldest + WINDOW - now < SECOND {
      assert id !in Recent(rows, later);
      StrictlyFewer(Recent(rows, later), Recent(rows, now), id);
    } else {
      assert Recent(rows, later) == Recent(rows, now);
    }
  }

  lemma StrictlyFewer(a: set<nat>, b: set<nat>, x: nat)
    requires a <= b && x in b && x !in a
    ensures |a| < |b|
  {
    assert b == a + (b - a);
    assert x in b - a && |b - a| > 0;
  }

  // ----- Admissions over a run -----

  type Worker = nat

  /**
   A check that passed.  `time` is when its count was read, `serial` numbers the
   checks, `seen` is how many admissions had been written by then and `rivals`
   are the checks that were still outstanding.
   */
  datatype Check = Check(serial: nat, time: int, seen: nat, rivals: set<nat>)

  /** stamp: the updated_at the row got on entering a consuming state. */
  datatype Admission = Admission(id: nat, check: Check, stamp: int)

  datatype State = State(rows: Rows, open: map<Worker, Check>, next: nat, log: seq<Admission>)

  /**
   Pass: a worker's check finds room.  Write: its row, which took no slot, starts
   to.  Abandon: it gives up.  Touch: any other save, of any row, checked or not.
   */
  datatype Step =
    | Pass(w: Worker, time: int)
    | Write(w: Worker, id: nat, stamp: int)
    | Abandon(w: Worker)
    | Touch(id: nat, status: Status, now: int)

  predicate WasAdmitted(log: seq<Admission>, id: nat) {
    exists j :: 0 <= j < |log| && log[j].id == id
  }

  /** An admitted row stays in the consuming states, and its updated_at only moves forward. */
  predicate Enabled(s: State, step: Step, limit: nat) {
    match step
    case Pass(w, time) => w !in s.open && |Recent(s.rows, time)| < limit
    case Write(w, id, stamp) =>
      w in s.open && s.open[w].time <= stamp && (id in s.rows ==> !Consumes(s.rows[id].status))
    case Abandon(w) => w in s.open
    case Touch(id, status, now) =>
      WasAdmitted(s.log, id) ==> Consumes(status) && (id in s.rows ==> now >= s.rows[id].updated)
  }

  /** Who may do what: a check passes exactly with room left, and a write needs one; only admitted rows are bound. */
  lemma StepsPossible(s: State, w: Worker, id: nat, status: Status, now: int, limit: nat)
    ensures Enabled(s, Pass(w, now), limit) <==> w !in s.open && |Recent(s.rows, now)| < limit
    ensures Enabled(s, Write(w, id, now), limit) <==>
      w in s.open && s.open[w].time <= now
      && (id in s.rows ==> s.rows[id].status in {Draft, InReview, Approved})
    ensures Enabled(s, Abandon(w), limit) <==> w in s.open
    ensures Enabled(s, Touch(id, status, now), limit) <==>
      (exists j :: 0 <= j < |s.log| && s.log[j].id == id) ==>
        status in {Scheduled, Publishing, Published, Failed} && (id in s.rows ==> s.rows[id].updated <= now)
  {
  }

  function Serials(open: map<Worker, Check>): set<nat> {
    set w | w in open :: open[w].serial
  }

  ghost predicate IsStep(s: State, step: Step, t: State) {
    match step
    case Pass(w, time) =>
      t == s.(open := s.open[w := Check(s.next, time, |s.log|, Serials(s.open))], next := s.next + 1)
    case Write(w, id, stamp) =>
      w in s.open
      && t == s.(rows := s.rows[id := Row(Scheduled, stamp)], open := s.open - {w},
                 log := s.log + [Admission(id, s.open[w], stamp)])
    case Abandon(w) => t == s.(open := s.open - {w})
    case Touch(id, status, now) => t == s.(rows := s.rows[id := Row(status, now)])
  }

  /** At no time more than `width` checks are outstanding. */
  ghost predicate IsRun(states: seq<State>, steps: seq<Step>, limit: nat, width: nat) {
    |states| == |steps| + 1 && states[0].log == [] && states[0].open == map[]
    && (forall i :: 0 <= i < |states| ==> |states[i].open| <= width)
    && forall i :: 0 <= i < |steps| ==>
      Enabled(states[i], steps[i], limit) && IsStep(states[i], steps[i], states[i + 1])
  }

  /** Earlier admissions stamped at or after `since`. */
  function StampedSince(log: seq<Admission>, n: nat, since: int): set<nat>
    requires n <= |log|
  {
    set j: nat | j < n && log[j].stamp >= since
  }

  /** Every admitted row still counts from its stamp on, and none was admitted twice. */
  ghost predicate Tracked(s: State) {
    (forall j :: 0 <= j < |s.log| ==>
      s.log[j].id in s.rows && Consumes(s.rows[s.log[j].id].status) && s.rows[s.log[j].id].updated >= s.log[j].stamp)
    && (forall j, k :: 0 <= j < k < |s.log| ==> s.log[j].id != s.log[k].id)
  }

  /** When it was read, the count left room behind the check; and few rivals were outstanding. */
  ghost predicate FoundRoom(log: seq<Admission>, c: Check, limit: nat, width: nat) {
    c.seen <= |log| && |StampedSince(log, c.seen, c.time - WINDOW)| < limit && |c.rivals| < width
  }

  /** Whoever checked before c and was not yet written then was a rival of c. */
  ghost predicate RivalsKnown(s: State, c: Check) {
    (forall j :: c.seen <= j < |s.log| && s.log[j].check.serial < c.serial ==> s.log[j].check.serial in c.rivals)
    && (forall w :: w in s.open && s.open[w].serial < c.serial ==> s.open[w].serial in c.rivals)
  }

  ghost predicate CheckIsSound(s: State, c: Check, limit: nat, width: nat) {
    FoundRoom(s.log, c, limit, width) && RivalsKnown(s, c)
  }

  /** Checks are numbered apart. */
  ghost predicate Numbered(s: State) {
    (forall w :: w in s.open ==> s.open[w].serial < s.next)
    && (forall k :: 0 <= k < |s.log| ==> s.log[k].check.serial < s.next)
    && (forall v, w :: v in s.open && w in s.open && v != w ==> s.open[v].serial != s.open[w].serial)
    && (forall w, j :: w in s.open && 0 <= j < |s.log| ==> s.open[w].serial != s.log[j].check.serial)
    && (forall j, k :: 0 <= j < k < |s.log| ==> s.log[j].check.serial != s.log[k].check.serial)
  }

  ghost predicate AllSound(s: State, limit: nat, width: nat) {
    (forall w :: w in s.open ==> CheckIsSound(s, s.open[w], limit, width))
    && (forall k :: 0 <= k < |s.log| ==> CheckIsSound(s, s.log[k].check, limit, width))
    && (forall k :: 0 <= k < |s.log| ==> s.log[k].check.time <= s.log[k].stamp)
  }

  ghost predicate Invariant(s: State, limit: nat, width: nat) {
    Tracked(s) && Numbered(s) && AllSound(s, limit, width)
  }

  lemma {:induction false} NoMoreThanRows(log: seq<Admission>, picked: set<nat>, ids: set<nat>)
    requires forall j :: j in picked ==> j < |log| && log[j].id in ids
    requires forall j, k :: j in picked && k in picked && j != k ==> log[j].id != log[k].id
    ensures |picked| <= |ids|
    decreases |picked|
  {
    if picked != {} {
      var j :| j in picked;
      NoMoreThanRows(log, picked - {j}, ids - {log[j].id});
    }
  }

  lemma {:induction false} NoMoreThanSerials(log: seq<Admission>, picked: set<nat>, serials: set<nat>)
    requires forall j :: j in picked ==> j < |log| && log[j].check.serial in serials
    requires forall j, k :: j in picked && k in picked && j != k ==> log[j].check.serial != log[k].check.serial
    ensures |picked| <= |serials|
    decreases |picked|
  {
    if picked != {} {
      var j :| j in picked;
      NoMoreThanSerials(log, picked - {j}, serials - {log[j].check.serial});
    }
  }

  lemma {:induction false} SerialsAreFew(open: map<Worker, Check>, workers: set<Worker>)
    requires workers <= open.Keys
    ensures |set w | w in workers :: open[w].serial| <= |workers|
    decreases |workers|
  {
    if workers != {} {
      var w :| w in workers;
      SerialsAreFew(open, workers - {w});
      var rest := set v | v in workers - {w} :: open[v].serial;
      assert (set v | v in workers :: open[v].serial) == rest + {open[w].serial};
    }
  }

  lemma StampsCount(s: State, time: int)
    requires Tracked(s)
    ensures |StampedSince(s.log, |s.log|, time - WINDOW)| <= |Recent(s.rows, time)|
  {
    NoMoreThanRows(s.log, StampedSince(s.log, |s.log|, time - WINDOW), Recent(s.rows, time));
  }

  /** A check stays sound while nothing is written and only later checks are opened. */
  lemma SoundStays(s: State, t: State, c: Check, limit: nat, width: nat)
    requires CheckIsSound(s, c, limit, width) && t.log == s.log
    requires forall w :: w in t.open && t.open[w].serial < c.serial ==> w in s.open && s.open[w] == t.open[w]
    ensures CheckIsSound(t, c, limit, width)
  {
    hide FoundRoom;
  }

  lemma RoomStays(log: seq<Admission>, a: Admission, c: Check, limit: nat, width: nat)
    requires FoundRoom(log, c, limit, width)
    ensures FoundRoom(log + [a], c, limit, width)
  {
    assert forall j :: 0 <= j < c.seen ==> (log + [a])[j] == log[j];
    assert StampedSince(log + [a], c.seen, c.time - WINDOW) == StampedSince(log, c.seen, c.time - WINDOW);
  }

  /** A write moves a check from the outstanding ones to the log, where the others still know it. */
  lemma SoundAfterWrite(s: State, w: Worker, a: Admission, t: State, c: Check, limit: nat, width: nat)
    requires CheckIsSound(s, c, limit, width) && w in s.open && a.check == s.open[w]
    requires t.log == s.log + [a] && t.open == s.open - {w}
    ensures CheckIsSound(t, c, limit, width)
  {
    RoomStays(s.log, a, c, limit, width);
    hide FoundRoom;
    forall j | c.seen <= j < |t.log| && t.log[j].check.serial < c.serial ensures t.log[j].check.serial in c.rivals {
      if j < |s.log| {
        assert t.log[j] == s.log[j];
      }
    }
  }

  lemma RivalsAreFew(open: map<Worker, Check>, w: Worker, c: Check, width: nat)
    requires w !in open && |open[w := c]| <= width
    ensures |Serials(open)| < width
  {
    SerialsAreFew(open, open.Keys);
    assert (set v | v in open.Keys :: open[v].serial) == Serials(open);
    assert open[w := c].Keys == open.Keys + {w};
  }

  lemma RivalsAreKnown(s: State, w: Worker, t: State, c: Check)
    requires c.seen == |s.log| && c.rivals == Serials(s.open) && t.log == s.log && t.open == s.open[w := c]
    ensures RivalsKnown(t, c)
  {
    forall v | v in t.open && t.open[v].serial < c.serial ensures t.open[v].serial in c.rivals {
      assert v in s.open && s.open[v].serial in Serials(s.open);
    }
  }

  lemma NewCheckIsSound(s: State, w: Worker, time: int, t: State, limit: nat, width: nat)
    requires Tracked(s) && Enabled(s, Pass(w, time), limit) && IsStep(s, Pass(w, time), t) && |t.open| <= width
    ensures CheckIsSound(t, t.open[w], limit, width)
  {
    StampsCount(s, time);
    RivalsAreFew(s.open, w, t.open[w], width);
    RivalsAreKnown(s, w, t, t.open[w]);
    hide StampedSince, Recent, RivalsKnown, Tracked, Serials;
  }

  lemma StepKeepsTracked(s: State, step: Step, t: State, limit: nat)
    requires Tracked(s) && Enabled(s, step, limit) && IsStep(s, step, t)
    ensures Tracked(t)
  {
    hide Recent;
  }

  lemma StepKeepsNumbered(s: State, step: Step, t: State)
    requires Numbered(s) && IsStep(s, step, t)
    ensures Numbered(t)
  {
    hide Serials;
  }

  lemma SoundAfterStep(s: State, step: Step, t: State, c: Check, limit: nat, width: nat)
    requires IsStep(s, step, t) && CheckIsSound(s, c, limit, width) && c.serial < s.next
    ensures CheckIsSound(t, c, limit, width)
  {
    hide CheckIsSound, Serials;
    if step.Write? {
      SoundAfterWrite(s, step.w, Admission(step.id, s.open[step.w], step.stamp), t, c, limit, width);
    } else {
      SoundStays(s, t, c, limit, width);
    }
  }

  lemma OpenStaysSound(s: State, step: Step, t: State, limit: nat, width: nat, w: Worker)
    requires Invariant(s, limit, width) && Enabled(s, step, limit) && IsStep(s, step, t) && |t.open| <= width
    requires w in t.open
    ensures CheckIsSound(t, t.open[w], limit, width)
  {
    hide CheckIsSound, Tracked, Recent, Serials;
    if step.Pass? && step.w == w {
      NewCheckIsSound(s, w, step.time, t, limit, width);
    } else {
      SoundAfterStep(s, step, t, s.open[w], limit, width);
    }
  }

  lemma LogStaysSound(s: State, step: Step, t: State, limit: nat, width: nat, k: nat)
    requires Invariant(s, limit, width) && Enabled(s, step, limit) && IsStep(s, step, t) && k < |t.log|
    ensures CheckIsSound(t, t.log[k].check, limit, width) && t.log[k].check.time <= t.log[k].stamp
  {
    hide CheckIsSound, Tracked, Recent, Serials;
    SoundAfterStep(s, step, t, if k < |s.log| then s.log[k].check else s.open[step.w], limit, width);
  }

  lemma StepKeepsSound(s: State, step: Step, t: State, limit: nat, width: nat)
    requires Invariant(s, limit, width) && Enabled(s, step, limit) && IsStep(s, step, t) && |t.open| <= width
    ensures AllSound(t, limit, width)
  {
    hide CheckIsSound, Invariant, Enabled, IsStep;
    forall w | w in t.open ensures CheckIsSound(t, t.open[w], limit, width) {
      OpenStaysSound(s, step, t, limit, width, w);
    }
    forall k | 0 <= k < |t.log|
      ensures CheckIsSound(t, t.log[k].check, limit, width) && t.log[k].check.time <= t.log[k].stamp
    {
      LogStaysSound(s, step, t, limit, width, k);
    }
  }

  lemma StepKeepsInvariant(s: State, step: Step, t: State, limit: nat, width: nat)
    requires Invariant(s, limit, width) && Enabled(s, step, limit) && IsStep(s, step, t) && |t.open| <= width
    ensures Invariant(t, limit, width)
  {
    hide Tracked, Numbered, AllSound;
    StepKeepsTracked(s, step, t, limit);
    StepKeepsNumbered(s, step, t);
    StepKeepsSound(s, step, t, limit, width);
  }

  lemma {:induction false} RunKeepsInvariant(states: seq<State>, steps: seq<Step>, limit: nat, width: nat, n: nat)
    requires IsRun(states, steps, limit, width) && n < |states|
    ensures Invariant(states[n], limit, width)
    decreases n
  {
    if n > 0 {
      RunKeepsInvariant(states, steps, limit, width, n - 1);
      StepKeepsInvariant(states[n - 1], steps[n - 1], states[n], limit, width);
    }
  }

  /** The admissions stamped in the closed window that starts at `from`. */
  function AdmittedIn(log: seq<Admission>, from: int): set<nat> {
    set j: nat | j < |log| && from <= log[j].stamp <= from + WINDOW
  }

  /** The part of a window that was written when c was checked, and the part written after it. */
  function WrittenBefore(log: seq<Admission>, from: int, c: Check): set<nat> {
    set j | j in AdmittedIn(log, from) && j < c.seen
  }

  function WrittenAfter(log: seq<Admission>, from: int, c: Check, last: nat): set<nat> {
    set j | j in AdmittedIn(log, from) && j >= c.seen && j != last
  }

  lemma BeforeLeftRoom(s: State, from: int, c: Check, limit: nat, width: nat)
    requires FoundRoom(s.log, c, limit, width) && c.time <= from + WINDOW
    ensures |WrittenBefore(s.log, from, c)| < limit
  {
    assert WrittenBefore(s.log, from, c) <= StampedSince(s.log, c.seen, c.time - WINDOW);
    NoMore(WrittenBefore(s.log, from, c), StampedSince(s.log, c.seen, c.time - WINDOW));
  }

  lemma AfterAreRivals(s: State, from: int, last: nat, limit: nat, width: nat)
    requires Numbered(s) && last < |s.log| && CheckIsSound(s, s.log[last].check, limit, width)
    requires forall j :: j in AdmittedIn(s.log, from) && j != last ==>
      s.log[j].check.serial < s.log[last].check.serial
    ensures |WrittenAfter(s.log, from, s.log[last].check, last)| < width
  {
    var later := WrittenAfter(s.log, from, s.log[last].check, last);
    forall j, k | j in later && k in later && j != k ensures s.log[j].check.serial != s.log[k].check.serial {
      assert j < k || k < j;
    }
    NoMoreThanSerials(s.log, later, s.log[last].check.rivals);
  }

  lemma InvariantBoundsWindows(s: State, limit: nat, width: nat, from: int)
    requires Invariant(s, limit, width) && width > 0
    ensures |AdmittedIn(s.log, from)| <= limit + width - 1
  {
    var admitted := AdmittedIn(s.log, from);
    if admitted != {} {
      var last := LastChecked(s.log, admitted);
      var c := s.log[last].check;
      assert CheckIsSound(s, c, limit, width) && c.time <= s.log[last].stamp;
      BeforeLeftRoom(s, from, c, limit, width);
      AfterAreRivals(s, from, last, limit, width);
      AtMostTogether(admitted, WrittenBefore(s.log, from, c), WrittenAfter(s.log, from, c, last), last);
    }
  }

  lemma AtMostTogether(all: set<nat>, a: set<nat>, b: set<nat>, x: nat)
    requires all <= a + b + {x}
    ensures |all| <= |a| + |b| + 1
  {
    NoMore(all, a + b + {x});
    assert a + b == a + (b - a);
    NoMore(b - a, b);
  }

  /**
   In every run in which at most `width` checks are outstanding at a time, no
   closed 24-hour interval holds more than limit + width - 1 admissions.
   */
  lemma OverlappingChecksAreBounded(states: seq<State>, steps: seq<Step>, limit: nat, width: nat, n: nat, from: int)
    requires IsRun(states, steps, limit, width) && width > 0 && n < |states|
    ensures var log := states[n].log;
      |set j: nat | j < |log| && from <= log[j].stamp <= from + 86_400_000_000| <= limit + width - 1
  {
    RunKeepsInvariant(states, steps, limit, width, n);
    InvariantBoundsWindows(states[n], limit, width, from);
    var log := states[n].log;
    assert AdmittedIn(log, from) == set j: nat | j < |log| && from <= log[j].stamp <= from + 86_400_000_000;
  }

  /** With one check at a time no closed 24-hour interval, wherever it starts, holds more admissions than the limit. */
  lemma NoWindowExceedsTheLimit(states: seq<State>, steps: seq<Step>, limit: nat, n: nat, from: int)
    requires IsRun(states, steps, limit, 1) && n < |states|
    ensures var log := states[n].log;
      |set j: nat | j < |log| && from <= log[j].stamp <= from + 86_400_000_000| <= limit
  {
    OverlappingChecksAreBounded(states, steps, limit, 1, n, from);
  }

  lemma NoMore(a: set<nat>, b: set<nat>)
    requires a <= b
    ensures |a| <= |b|
  {
    assert b == a + (b - a);
  }

  lemma {:induction false} LastChecked(log: seq<Admission>, ids: set<nat>) returns (last: nat)
    requires ids != {} && forall j :: j in ids ==> j < |log|
    requires forall j, k :: 0 <= j < k < |log| ==> log[j].check.serial != log[k].check.serial
    ensures last in ids && forall j :: j in ids && j != last ==> log[j].check.serial < log[last].check.serial
    decreases |ids|
  {
    var j :| j in ids;
    if ids == {j} {
      return j;
    }
    assert forall k :: k in ids ==> k == j || k in ids - {j};
    last := LastChecked(log, ids - {j});
    if log[last].check.serial < log[j].check.serial {
      last := j;
    }
  }

  /** An override of zero locks the account out, whatever its platform's limit and however many check at once. */
  lemma {:induction false} ZeroOverrideNeverAdmits(states: seq<State>, steps: seq<Step>, account: Account, width: nat,
                                                   n: nat)
    requires account.override == Some(0) && IsRun(states, steps, ResolveLimit(account), width) && n < |states|
    ensures states[n].log == [] && states[n].open == map[]
    decreases n
  {
    if n > 0 {
      ZeroOverrideNeverAdmits(states, steps, account, width, n - 1);
    }
  }

  // ----- The bound is reached -----

  /** After a writes and with o checks outstanding, everything at time zero. */
  ghost predicate Stands(s: State, a: nat, o: nat) {
    |s.log| == a && (forall j :: 0 <= j < a ==> s.log[j].stamp == 0)
    && (forall id: nat :: id in s.rows <==> id < a) && (forall id :: id in s.rows ==> s.rows[id] == Row(Scheduled, 0))
    && (forall w: nat :: w in s.open <==> w < o) && (forall w :: w in s.open ==> s.open[w].time == 0)
  }

  function UpTo(n: nat): (below: set<nat>)
    ensures |below| == n && forall k: nat :: k in below <==> k < n
  {
    if n == 0 then {} else UpTo(n - 1) + {n - 1}
  }

  lemma StandsCounts(s: State, a: nat, o: nat)
    requires Stands(s, a, o)
    ensures |Recent(s.rows, 0)| == a && |s.open| == o && |AdmittedIn(s.log, 0)| == a
  {
    assert Recent(s.rows, 0) == UpTo(a) && s.open.Keys == UpTo(o) && AdmittedIn(s.log, 0) == UpTo(a);
  }

  lemma RunGrows(states: seq<State>, steps: seq<Step>, limit: nat, width: nat, step: Step, t: State)
    requires IsRun(states, steps, limit, width) && Enabled(states[|steps|], step, limit) && |t.open| <= width
    requires IsStep(states[|steps|], step, t)
    ensures IsRun(states + [t], steps + [step], limit, width)
  {
    hide Enabled, IsStep;
    var longer, more := states + [t], steps + [step];
    forall i | 0 <= i < |more| ensures Enabled(longer[i], more[i], limit) && IsStep(longer[i], more[i], longer[i + 1]) {
      if i < |steps| {
        assert longer[i] == states[i] && longer[i + 1] == states[i + 1] && more[i] == steps[i];
      }
    }
  }

  lemma Passes(states: seq<State>, steps: seq<Step>, limit: nat, width: nat, a: nat, o: nat)
      returns (longer: seq<State>, more: seq<Step>)
    requires IsRun(states, steps, limit, width) && Stands(states[|steps|], a, o) && a < limit && o < width
    ensures IsRun(longer, more, limit, width) && Stands(longer[|more|], a, o + 1)
  {
    var s := states[|steps|];
    var t := s.(open := s.open[o := Check(s.next, 0, |s.log|, Serials(s.open))], next := s.next + 1);
    StandsCounts(s, a, o);
    StandsCounts(t, a, o + 1);
    RunGrows(states, steps, limit, width, Pass(o, 0), t);
    longer, more := states + [t], steps + [Pass(o, 0)];
  }

  lemma StandsAfterWrite(s: State, t: State, a: nat, o: nat)
    requires Stands(s, a, o) && o > 0 && IsStep(s, Write(o - 1, a, 0), t)
    ensures Stands(t, a + 1, o - 1)
  {
    assert forall j :: 0 <= j < a ==> t.log[j] == s.log[j];
  }

  lemma WriteIsNext(s: State, a: nat, o: nat, limit: nat) returns (t: State)
    requires Stands(s, a, o) && o > 0
    ensures Enabled(s, Write(o - 1, a, 0), limit) && IsStep(s, Write(o - 1, a, 0), t) && Stands(t, a + 1, o - 1)
    ensures |t.open| == o - 1
  {
    t := s.(rows := s.rows[a := Row(Scheduled, 0)], open := s.open - {o - 1},
            log := s.log + [Admission(a, s.open[o - 1], 0)]);
    StandsAfterWrite(s, t, a, o);
    StandsCounts(t, a + 1, o - 1);
  }

  lemma Writes(states: seq<State>, steps: seq<Step>, limit: nat, width: nat, a: nat, o: nat)
      returns (longer: seq<State>, more: seq<Step>)
    requires IsRun(states, steps, limit, width) && Stands(states[|steps|], a, o) && 0 < o <= width
    ensures IsRun(longer, more, limit, width) && Stands(longer[|more|], a + 1, o - 1)
  {
    var s := states[|steps|];
    var t := WriteIsNext(s, a, o, limit);
    RunGrows(states, steps, limit, width, Write(o - 1, a, 0), t);
    longer, more := states + [t], steps + [Write(o - 1, a, 0)];
    hide Stands, Enabled, IsStep;
  }

  lemma {:induction false} OneByOne(limit: nat, width: nat, a: nat) returns (states: seq<State>, steps: seq<Step>)
    requires a < limit && width > 0
    ensures IsRun(states, steps, limit, width) && Stands(states[|steps|], a, 0)
    decreases a
  {
    if a == 0 {
      return [State(map[], map[], 0, [])], [];
    }
    states, steps := OneByOne(limit, width, a - 1);
    states, steps := Passes(states, steps, limit, width, a - 1, 0);
    states, steps := Writes(states, steps, limit, width, a - 1, 1);
  }

  lemma {:induction false} AllPass(limit: nat, width: nat, o: nat) returns (states: seq<State>, steps: seq<Step>)
    requires limit > 0 && o <= width && width > 0
    ensures IsRun(states, steps, limit, width) && Stands(states[|steps|], limit - 1, o)
    decreases o
  {
    if o == 0 {
      states, steps := OneByOne(limit, width, limit - 1);
    } else {
      states, steps := AllPass(limit, width, o - 1);
      states, steps := Passes(states, steps, limit, width, limit - 1, o - 1);
    }
  }

  lemma {:induction false} AllWrite(limit: nat, width: nat, k: nat) returns (states: seq<State>, steps: seq<Step>)
    requires limit > 0 && k <= width && width > 0
    ensures IsRun(states, steps, limit, width) && Stands(states[|steps|], limit - 1 + k, width - k)
    decreases k
  {
    if k == 0 {
      states, steps := AllPass(limit, width, width);
    } else {
      states, steps := AllWrite(limit, width, k - 1);
      states, steps := Writes(states, steps, limit, width, limit - 1 + (k - 1), width - (k - 1));
    }
  }

  /** For every positive limit and number of overlapping checks a run admits as many as the bound allows. */
  lemma OverlappingChecksReachTheBound(limit: nat, width: nat) returns (states: seq<State>, steps: seq<Step>)
    requires limit > 0 && width > 0
    ensures IsRun(states, steps, limit, width)
    ensures var log := states[|steps|].log;
      |log| == limit + width - 1 && forall j :: 0 <= j < |log| ==> log[j].stamp == 0
  {
    states, steps := AllWrite(limit, width, width);
  }
}
