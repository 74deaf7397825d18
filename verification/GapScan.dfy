/**
 The 14-day scanner that proposes intake items for empty calendar days
 (apps/content_intake/calendar_agent.py).  Days are ordinals.
 */
module GapScan {
  import opened Wrappers

  const DAYS := 14
  const CADENCE := 3

  /** An intake item in the scanner's priority order; ids are primary keys. */
  datatype Candidate = Candidate(id: nat, target: Option<int>)
  datatype Proposal = Proposal(day: int, candidate: Candidate)

  ghost predicate DistinctIds(candidates: seq<Candidate>) {
    forall i, j :: 0 <= i < j < |candidates| ==> candidates[i].id != candidates[j].id
  }

  lemma TwoDistinct(a: Candidate, b: Candidate)
    ensures DistinctIds([a, b]) <==> a.id != b.id
  {
    assert [a, b][0] == a && [a, b][1] == b;
  }

  predicate CanGo(target: Option<int>, day: int) {
    target.None? || target.value <= day
  }

  // ----- What a plan must be -----

  /** One entry per day, from today on: what was proposed for it. */
  type Plan = seq<Option<Candidate>>

  function Used(plan: Plan): set<nat> {
    set k | 0 <= k < |plan| && plan[k].Some? :: plan[k].value.id
  }

  /** Days from lo up to hi that carry a post or a proposal. */
  function Busy(plan: Plan, scheduled: set<int>, today: int, lo: nat, hi: nat): nat
    requires lo <= hi <= |plan|
    decreases hi - lo
  {
    if lo == hi then 0
    else Busy(plan, scheduled, today, lo, hi - 1) + if today + hi - 1 in scheduled || plan[hi - 1].Some? then 1 else 0
  }

  /** First day of the seven-day block of day k. */
  function BlockStart(k: nat): nat {
    k - k % 7
  }

  ghost predicate IsFirstUnused(candidates: seq<Candidate>, used: set<nat>, day: int, i: int) {
    0 <= i < |candidates| && candidates[i].id !in used && CanGo(candidates[i].target, day)
    && forall j :: 0 <= j < i ==> candidates[j].id in used || !CanGo(candidates[j].target, day)
  }

  ghost predicate HasUnused(candidates: seq<Candidate>, used: set<nat>, day: int) {
    exists i :: 0 <= i < |candidates| && candidates[i].id !in used && CanGo(candidates[i].target, day)
  }

  /**
   The day after `plan` gets a proposal exactly when nothing is scheduled on it,
   fewer than three days before it in its block are busy, and an eligible
   candidate is left; the proposal is then the first such candidate.
   */
  ghost predicate ChoiceIsRight(plan: Plan, choice: Option<Candidate>, today: int, scheduled: set<int>,
                                candidates: seq<Candidate>) {
    var n := |plan|;
    (choice.Some? <==>
      today + n !in scheduled && Busy(plan, scheduled, today, BlockStart(n), n) < CADENCE
      && HasUnused(candidates, Used(plan), today + n))
    && (choice.Some? ==>
      exists i :: IsFirstUnused(candidates, Used(plan), today + n, i) && choice.value == candidates[i])
  }

  ghost predicate IsPlan(plan: Plan, today: int, scheduled: set<int>, candidates: seq<Candidate>) {
    forall k :: 0 <= k < |plan| ==> ChoiceIsRight(plan[..k], plan[k], today, scheduled, candidates)
  }

  function Listed(plan: Plan, today: int): seq<Proposal> {
    if plan == [] then [] else
      var n := |plan| - 1;
      Listed(plan[..n], today) + if plan[n].Some? then [Proposal(today + n, plan[n].value)] else []
  }

  // ----- The scanner -----

  method FirstUnused(candidates: seq<Candidate>, used: set<nat>, day: int) returns (found: Option<Candidate>)
    ensures IsFirstOffer(found, candidates, used, day)
    ensures found.Some? ==>
      found.value in candidates && found.value.id !in used
      && (found.value.target.None? || found.value.target.value <= day)
    ensures found.None? ==> forall c :: c in candidates && (c.target.None? || c.target.value <= day) ==> c.id in used
  {
    for i := 0 to |candidates|
      invariant forall j :: 0 <= j < i ==> candidates[j].id in used || !CanGo(candidates[j].target, day)
    {
      if candidates[i].id !in used && (candidates[i].target.None? || candidates[i].target.value <= day) {
        assert IsFirstUnused(candidates, used, day, i);
        return Some(candidates[i]);
      }
    }
    return None;
  }

  /** The counter stops counting at the cadence. */
  ghost predicate Counts(counter: nat, busy: nat) {
    if busy < CADENCE then counter == busy else counter >= CADENCE
  }

  ghost predicate IsFirstOffer(offer: Option<Candidate>, candidates: seq<Candidate>, used: set<nat>, day: int) {
    (offer.Some? <==> HasUnused(candidates, used, day))
    && (offer.Some? ==> exists i :: IsFirstUnused(candidates, used, day, i) && offer.value == candidates[i])
  }

  /** One pass of the loop body keeps the counter right and makes the right choice. */
  lemma DayStep(plan: Plan, choice: Option<Candidate>, counter: nat, next: nat, today: int, scheduled: set<int>,
                candidates: seq<Candidate>)
    requires Counts(counter, Busy(plan, scheduled, today, BlockStart(|plan|), |plan|))
    requires counter >= CADENCE ==> choice.None? && next == counter
    requires counter < CADENCE && today + |plan| in scheduled ==> choice.None? && next == counter + 1
    requires counter < CADENCE && today + |plan| !in scheduled ==>
      IsFirstOffer(choice, candidates, Used(plan), today + |plan|) && next == counter + if choice.Some? then 1 else 0
    ensures ChoiceIsRight(plan, choice, today, scheduled, candidates)
    ensures Counts(next, Busy(plan + [choice], scheduled, today, BlockStart(|plan|), |plan| + 1))
  {
    hide HasUnused, IsFirstUnused, Used;
    BusyOfPrefix(plan, choice, scheduled, today, BlockStart(|plan|), |plan|);
  }

  /** The proposals list the choices of a right plan for the fourteen days. */
  ghost predicate IsScan(proposals: seq<Proposal>, today: int, scheduled: set<int>, candidates: seq<Candidate>) {
    exists plan: Plan ::
        |plan| == 14 && IsPlan(plan, today, scheduled, candidates) && proposals == Listed(plan, today)
  }

  method Scan14DayGaps(today: int, scheduled: set<int>, candidates: seq<Candidate>) returns (proposals: seq<Proposal>)
    ensures IsScan(proposals, today, scheduled, candidates)
  {
    proposals := [];
    ghost var plan: Plan := [];
    var used, weekPostCount, weekStart := {}, 0, today;
    var days := DAYS;
    EmptyPlan(today, scheduled, candidates);
    hide ChoiceIsRight, HasUnused, IsFirstUnused, IsFirstOffer, Used, IsPlan, Listed, Counts, Busy;
    for delta := 0 to days
      invariant |plan| == delta && IsPlan(plan, today, scheduled, candidates)
      invariant proposals == Listed(plan, today) && used == Used(plan)
      invariant weekStart == today + if delta == 0 then 0 else BlockStart(delta - 1)
      invariant Counts(weekPostCount, Busy(plan, scheduled, today, weekStart - today, delta))
    {
      var day := today + delta;
      if day - weekStart >= 7 {
        weekStart, weekPostCount := day, 0;
        NothingCounted(plan, scheduled, today, delta);
      }
      assert weekStart == today + BlockStart(delta);
      ghost var before, counter := plan, weekPostCount;
      if weekPostCount >= CADENCE {
        plan := plan + [None];
      } else if day in scheduled {
        weekPostCount, plan := weekPostCount + 1, plan + [None];
      } else {
        var candidate := FirstUnused(candidates, used, day);
        plan := plan + [candidate];
        if candidate.Some? {
          used, weekPostCount := used + {candidate.value.id}, weekPostCount + 1;
          proposals := proposals + [Proposal(day, candidate.value)];
        }
      }
      ghost var choice := plan[delta];
      assert plan == before + [choice];
      DayStep(before, choice, counter, weekPostCount, today, scheduled, candidates);
      PlanGrows(before, choice, today, scheduled, candidates);
    }
  }

  lemma EmptyPlan(today: int, scheduled: set<int>, candidates: seq<Candidate>)
    ensures IsPlan([], today, scheduled, candidates) && Used([]) == {} && Listed([], today) == []
    ensures Counts(0, Busy([], scheduled, today, 0, 0))
  {
  }

  lemma NothingCounted(plan: Plan, scheduled: set<int>, today: int, n: nat)
    requires n <= |plan|
    ensures Counts(0, Busy(plan, scheduled, today, n, n))
  {
  }

  lemma {:induction false} BusyOfPrefix(plan: Plan, last: Option<Candidate>, scheduled: set<int>, today: int,
                                        lo: nat, hi: nat)
    requires lo <= hi <= |plan|
    ensures Busy(plan + [last], scheduled, today, lo, hi) == Busy(plan, scheduled, today, lo, hi)
    decreases hi - lo
  {
    if lo < hi {
      BusyOfPrefix(plan, last, scheduled, today, lo, hi - 1);
    }
  }

  lemma UsedGrows(plan: Plan, last: Option<Candidate>)
    ensures Used(plan + [last]) == Used(plan) + if last.Some? then {last.value.id} else {}
  {
    var longer := plan + [last];
    assert longer[|plan|] == last;
    forall id | id in Used(plan) ensures id in Used(longer) {
      var k :| 0 <= k < |plan| && plan[k].Some? && plan[k].value.id == id;
      assert longer[k] == plan[k];
    }
  }

  lemma PlanGrows(plan: Plan, last: Option<Candidate>, today: int, scheduled: set<int>, candidates: seq<Candidate>)
    requires IsPlan(plan, today, scheduled, candidates)
    requires ChoiceIsRight(plan, last, today, scheduled, candidates)
    ensures IsPlan(plan + [last], today, scheduled, candidates)
    ensures Used(plan + [last]) == Used(plan) + if last.Some? then {last.value.id} else {}
    ensures Listed(plan + [last], today)
         == Listed(plan, today) + if last.Some? then [Proposal(today + |plan|, last.value)] else []
  {
    hide ChoiceIsRight;
    UsedGrows(plan, last);
    var longer := plan + [last];
    assert longer[..|plan|] == plan;
    forall k | 0 <= k < |plan| ensures ChoiceIsRight(longer[..k], longer[k], today, scheduled, candidates) {
      assert longer[..k] == plan[..k];
      assert ChoiceIsRight(plan[..k], plan[k], today, scheduled, candidates);
    }
  }

  // ----- What follows from the plan alone -----

  lemma ChoiceAt(plan: Plan, k: nat, today: int, scheduled: set<int>, candidates: seq<Candidate>)
    requires IsPlan(plan, today, scheduled, candidates) && k < |plan|
    ensures ChoiceIsRight(plan[..k], plan[k], today, scheduled, candidates)
  {
    hide ChoiceIsRight;
  }

  lemma {:induction false} BusyIsCount(plan: Plan, scheduled: set<int>, today: int, lo: nat, hi: nat)
    requires lo <= hi <= |plan|
    ensures Busy(plan, scheduled, today, lo, hi)
         == |set j: nat | lo <= j < hi && (today + j in scheduled || plan[j].Some?)|
    decreases hi - lo
  {
    var days := set j: nat | lo <= j < hi && (today + j in scheduled || plan[j].Some?);
    if lo == hi {
      assert days == {};
    } else {
      BusyIsCount(plan, scheduled, today, lo, hi - 1);
      var before := set j: nat | lo <= j < hi - 1 && (today + j in scheduled || plan[j].Some?);
      assert days == before + if today + hi - 1 in scheduled || plan[hi - 1].Some? then {hi - 1} else {};
    }
  }

  /**
   A plan day by day, in the fields of its candidates: day k gets a proposal
   exactly when nothing is scheduled on it, fewer than three days before it in
   its seven-day block are busy, and a candidate is left whose target date has
   come; it is then the first such candidate.
   */
  lemma PlanInFields(plan: Plan, today: int, scheduled: set<int>, candidates: seq<Candidate>, k: nat)
    requires IsPlan(plan, today, scheduled, candidates) && k < |plan|
    ensures plan[k].Some? <==>
      today + k !in scheduled
      && |set j: nat | k - k % 7 <= j < k && (today + j in scheduled || plan[j].Some?)| < 3
      && exists c :: c in candidates && (c.target.None? || c.target.value <= today + k)
           && forall j :: 0 <= j < k && plan[j].Some? ==> plan[j].value.id != c.id
    ensures plan[k].Some? ==> exists i ::
      0 <= i < |candidates| && candidates[i] == plan[k].value
      && forall h :: 0 <= h < i && (candidates[h].target.None? || candidates[h].target.value <= today + k) ==>
           exists j :: 0 <= j < k && plan[j].Some? && plan[j].value.id == candidates[h].id
  {
    hide Busy, Used, IsPlan, HasUnused, BlockStart, CanGo;
    ChoiceAt(plan, k, today, scheduled, candidates);
    BusyInFields(plan, scheduled, today, k);
    LeftInFields(plan, today, candidates, k);
    if plan[k].Some? {
      var i :| IsFirstUnused(candidates, Used(plan[..k]), today + k, i) && plan[k].value == candidates[i];
      FirstInFields(plan, today, candidates, k, i);
    }
  }

  lemma BusyInFields(plan: Plan, scheduled: set<int>, today: int, k: nat)
    requires k < |plan|
    ensures Busy(plan[..k], scheduled, today, BlockStart(k), k)
         == |set j: nat | k - k % 7 <= j < k && (today + j in scheduled || plan[j].Some?)|
  {
    var before := plan[..k];
    BusyIsCount(before, scheduled, today, BlockStart(k), k);
    assert (set j: nat | k - k % 7 <= j < k && (today + j in scheduled || before[j].Some?))
        == (set j: nat | k - k % 7 <= j < k && (today + j in scheduled || plan[j].Some?));
  }

  lemma LeftInFields(plan: Plan, today: int, candidates: seq<Candidate>, k: nat)
    requires k < |plan|
    ensures HasUnused(candidates, Used(plan[..k]), today + k) <==>
      exists c :: c in candidates && (c.target.None? || c.target.value <= today + k)
        && forall j :: 0 <= j < k && plan[j].Some? ==> plan[j].value.id != c.id
  {
    hide Used;
    forall c | c in candidates
      ensures c.id in Used(plan[..k]) <==> exists j :: 0 <= j < k && plan[j].Some? && plan[j].value.id == c.id
    {
      UsedInFields(plan, k, c.id);
    }
    if HasUnused(candidates, Used(plan[..k]), today + k) {
      var i :| 0 <= i < |candidates| && candidates[i].id !in Used(plan[..k]) && CanGo(candidates[i].target, today + k);
      assert candidates[i] in candidates;
    }
  }

  lemma FirstInFields(plan: Plan, today: int, candidates: seq<Candidate>, k: nat, i: int)
    requires k < |plan| && IsFirstUnused(candidates, Used(plan[..k]), today + k, i)
    ensures 0 <= i < |candidates|
    ensures forall h :: 0 <= h < i && (candidates[h].target.None? || candidates[h].target.value <= today + k) ==>
      exists j :: 0 <= j < k && plan[j].Some? && plan[j].value.id == candidates[h].id
  {
    hide Used;
    forall h | 0 <= h < i && (candidates[h].target.None? || candidates[h].target.value <= today + k)
      ensures exists j :: 0 <= j < k && plan[j].Some? && plan[j].value.id == candidates[h].id
    {
      UsedInFields(plan, k, candidates[h].id);
    }
  }

  lemma UsedInFields(plan: Plan, k: nat, id: nat)
    requires k <= |plan|
    ensures id in Used(plan[..k]) <==> exists j :: 0 <= j < k && plan[j].Some? && plan[j].value.id == id
  {
    var before := plan[..k];
    if id in Used(before) {
      var j :| 0 <= j < |before| && before[j].Some? && before[j].value.id == id;
      assert plan[j].value.id == id;
    }
    if j :| 0 <= j < k && plan[j].Some? && plan[j].value.id == id {
      assert before[j].Some? && before[j].value.id == id;
    }
  }

  /** The list has the plan's proposals and no other, each on its own day, in the order of the days. */
  lemma {:induction false} ListInFields(plan: Plan, today: int)
    ensures forall p :: p in Listed(plan, today) <==>
      today <= p.day < today + |plan| && plan[p.day - today] == Some(p.candidate)
    ensures forall i, j :: 0 <= i < j < |Listed(plan, today)| ==>
      Listed(plan, today)[i].day < Listed(plan, today)[j].day
    decreases |plan|
  {
    if plan != [] {
      var n := |plan| - 1;
      var before, after := Listed(plan[..n], today), Listed(plan, today);
      ListInFields(plan[..n], today);
      assert forall i :: 0 <= i < |before| ==> before[i] in before;
      assert forall p :: p in after <==> p in before || (plan[n].Some? && p == Proposal(today + n, plan[n].value));
    }
  }

  lemma UsedAt(plan: Plan, k: nat)
    requires k < |plan| && plan[k].Some?
    ensures plan[k].value.id in Used(plan)
  {
  }

  /** No candidate twice, none before its target date, nothing on a scheduled day. */
  lemma ProposalsAreSound(plan: Plan, today: int, scheduled: set<int>, candidates: seq<Candidate>, j: nat, k: nat)
    requires IsPlan(plan, today, scheduled, candidates) && j < k < |plan| && plan[j].Some? && plan[k].Some?
    ensures plan[j].value.id != plan[k].value.id
    ensures plan[k].value in candidates && today + k !in scheduled
    ensures plan[k].value.target.None? || plan[k].value.target.value <= today + k
  {
    hide IsPlan, Busy, BlockStart;
    ChoiceAt(plan, k, today, scheduled, candidates);
    UsedAt(plan[..k], j);
  }

  function Proposed(plan: Plan, lo: nat, hi: nat): nat
    requires lo <= hi <= |plan|
    decreases hi - lo
  {
    if lo == hi then 0 else Proposed(plan, lo, hi - 1) + if plan[hi - 1].Some? then 1 else 0
  }

  lemma {:induction false} ProposedAreBusy(plan: Plan, scheduled: set<int>, today: int, lo: nat, hi: nat)
    requires lo <= hi <= |plan|
    ensures Proposed(plan, lo, hi) <= Busy(plan[..hi], scheduled, today, lo, hi)
    decreases hi - lo
  {
    if lo < hi {
      ProposedAreBusy(plan, scheduled, today, lo, hi - 1);
      assert plan[..hi] == plan[..hi - 1] + [plan[hi - 1]];
      BusyOfPrefix(plan[..hi - 1], plan[hi - 1], scheduled, today, lo, hi - 1);
    }
  }

  lemma InBlock(lo: nat, k: nat)
    requires lo % 7 == 0 && lo <= k < lo + 7
    ensures BlockStart(k) == lo
  {
  }

  lemma {:induction false} BlockIsBounded(plan: Plan, today: int, scheduled: set<int>, candidates: seq<Candidate>,
                                         lo: nat, hi: nat)
    requires IsPlan(plan, today, scheduled, candidates) && lo % 7 == 0 && lo <= hi <= |plan| && hi <= lo + 7
    ensures Proposed(plan, lo, hi) <= CADENCE
    decreases hi - lo
  {
    hide IsPlan, BlockStart, HasUnused, IsFirstUnused, Used;
    if lo < hi {
      BlockIsBounded(plan, today, scheduled, candidates, lo, hi - 1);
      ChoiceAt(plan, hi - 1, today, scheduled, candidates);
      InBlock(lo, hi - 1);
      ProposedAreBusy(plan, scheduled, today, lo, hi - 1);
    }
  }

  lemma {:induction false} ProposedIsCount(plan: Plan, lo: nat, hi: nat)
    requires lo <= hi <= |plan|
    ensures Proposed(plan, lo, hi) == |set k: nat | lo <= k < hi && plan[k].Some?|
    decreases hi - lo
  {
    var days := set k: nat | lo <= k < hi && plan[k].Some?;
    if lo == hi {
      assert days == {};
    } else {
      ProposedIsCount(plan, lo, hi - 1);
      assert days == (set k: nat | lo <= k < hi - 1 && plan[k].Some?) + if plan[hi - 1].Some? then {hi - 1} else {};
    }
  }

  /** Every seven-day block gets at most three proposals. */
  lemma BlocksKeepTheCadence(plan: Plan, today: int, scheduled: set<int>, candidates: seq<Candidate>, lo: nat, hi: nat)
    requires IsPlan(plan, today, scheduled, candidates) && lo % 7 == 0 && lo <= hi <= |plan| && hi <= lo + 7
    ensures |set k: nat | lo <= k < hi && plan[k].Some?| <= 3
  {
    hide IsPlan;
    BlockIsBounded(plan, today, scheduled, candidates, lo, hi);
    ProposedIsCount(plan, lo, hi);
  }

  // ----- The days depend on the target dates alone -----

  function Targets(candidates: seq<Candidate>): seq<Option<int>> {
    seq(|candidates|, i requires 0 <= i < |candidates| => candidates[i].target)
  }

  function Eligible(targets: seq<Option<int>>, day: int): nat {
    if targets == [] then 0 else
      Eligible(targets[..|targets| - 1], day) + if CanGo(targets[|targets| - 1], day) then 1 else 0
  }

  function EligibleIds(candidates: seq<Candidate>, day: int): set<nat> {
    set i | 0 <= i < |candidates| && CanGo(candidates[i].target, day) :: candidates[i].id
  }

  lemma EligibleIdsOfLast(candidates: seq<Candidate>, day: int)
    requires DistinctIds(candidates) && candidates != []
    ensures var rest, last := candidates[..|candidates| - 1], candidates[|candidates| - 1];
      EligibleIds(candidates, day) == EligibleIds(rest, day) + (if CanGo(last.target, day) then {last.id} else {})
      && last.id !in EligibleIds(rest, day)
  {
    var n := |candidates| - 1;
    var all, before := EligibleIds(candidates, day), EligibleIds(candidates[..n], day);
    forall id | id in before ensures id in all && id != candidates[n].id {
      var i :| 0 <= i < n && CanGo(candidates[..n][i].target, day) && candidates[..n][i].id == id;
      assert candidates[i].id == id;
    }
    forall id | id in all ensures id in before || (id == candidates[n].id && CanGo(candidates[n].target, day)) {
      var i :| 0 <= i <= n && CanGo(candidates[i].target, day) && candidates[i].id == id;
      assert i < n ==> candidates[..n][i].id == id;
    }
    if CanGo(candidates[n].target, day) {
      assert candidates[n].id in all;
    }
  }

  lemma {:induction false} EligibleIdsCount(candidates: seq<Candidate>, day: int)
    requires DistinctIds(candidates)
    ensures |EligibleIds(candidates, day)| == Eligible(Targets(candidates), day)
    decreases |candidates|
  {
    if candidates != [] {
      var n := |candidates| - 1;
      EligibleIdsCount(candidates[..n], day);
      EligibleIdsOfLast(candidates, day);
      hide EligibleIds, CanGo;
      assert Targets(candidates)[..n] == Targets(candidates[..n]);
    }
  }

  function UsedCount(plan: Plan): nat {
    if plan == [] then 0 else UsedCount(plan[..|plan| - 1]) + if plan[|plan| - 1].Some? then 1 else 0
  }

  /** Used candidates were eligible earlier, so they are eligible now. */
  lemma {:induction false} UsedAreEligible(plan: Plan, today: int, scheduled: set<int>, candidates: seq<Candidate>,
                                           day: int)
    requires IsPlan(plan, today, scheduled, candidates) && today + |plan| <= day + 1
    ensures Used(plan) <= EligibleIds(candidates, day) && |Used(plan)| == UsedCount(plan)
    decreases |plan|
  {
    if plan != [] {
      var n := |plan| - 1;
      assert plan == plan[..n] + [plan[n]];
      assert IsPlan(plan[..n], today, scheduled, candidates) by {
        PrefixIsPlan(plan, n, today, scheduled, candidates);
      }
      UsedAreEligible(plan[..n], today, scheduled, candidates, day);
      UsedGrows(plan[..n], plan[n]);
      assert ChoiceIsRight(plan[..n], plan[n], today, scheduled, candidates);
    }
  }

  lemma PrefixIsPlan(plan: Plan, n: nat, today: int, scheduled: set<int>, candidates: seq<Candidate>)
    requires IsPlan(plan, today, scheduled, candidates) && n <= |plan|
    ensures IsPlan(plan[..n], today, scheduled, candidates)
  {
    hide ChoiceIsRight;
    forall k | 0 <= k < n ensures ChoiceIsRight(plan[..n][..k], plan[..n][k], today, scheduled, candidates) {
      assert plan[..n][..k] == plan[..k];
      assert ChoiceIsRight(plan[..k], plan[k], today, scheduled, candidates);
    }
  }

  /** An unused eligible candidate exists exactly when more are eligible than were used. */
  lemma HasUnusedIff(plan: Plan, today: int, scheduled: set<int>, candidates: seq<Candidate>)
    requires IsPlan(plan, today, scheduled, candidates) && DistinctIds(candidates)
    ensures HasUnused(candidates, Used(plan), today + |plan|) <==>
      Eligible(Targets(candidates), today + |plan|) > UsedCount(plan)
  {
    hide IsPlan, Eligible, UsedCount, Targets;
    var day := today + |plan|;
    UsedAreEligible(plan, today, scheduled, candidates, day);
    EligibleIdsCount(candidates, day);
    var left := EligibleIds(candidates, day) - Used(plan);
    assert EligibleIds(candidates, day) == Used(plan) + left;
    if HasUnused(candidates, Used(plan), day) {
      var i :| 0 <= i < |candidates| && candidates[i].id !in Used(plan) && CanGo(candidates[i].target, day);
      assert candidates[i].id in left;
    } else {
      assert left == {};
    }
  }

  lemma EligibleOfLast(targets: seq<Option<int>>, last: Option<int>, day: int)
    ensures Eligible(targets + [last], day) == Eligible(targets, day) + if CanGo(last, day) then 1 else 0
  {
    assert (targets + [last])[..|targets|] == targets;
  }

  lemma {:induction false} EligibleWithout(targets: seq<Option<int>>, i: nat, day: int)
    requires i < |targets|
    ensures Eligible(targets, day) ==
      Eligible(targets[..i] + targets[i + 1..], day) + if CanGo(targets[i], day) then 1 else 0
    decreases |targets|
  {
    var n := |targets| - 1;
    var init := targets[..n];
    EligibleOfLast(init, targets[n], day);
    assert targets == init + [targets[n]];
    if i < n {
      EligibleWithout(init, i, day);
      EligibleOfLast(init[..i] + init[i + 1..], targets[n], day);
      assert targets[..i] + targets[i + 1..] == init[..i] + init[i + 1..] + [targets[n]];
    } else {
      assert targets[..i] + targets[i + 1..] == init;
    }
    hide Eligible, CanGo;
  }

  lemma WithoutOne(s: seq<Option<int>>, i: nat)
    requires i < |s|
    ensures multiset(s[..i] + s[i + 1..]) == multiset(s) - multiset{s[i]}
  {
    assert s == s[..i] + [s[i]] + s[i + 1..];
  }

  lemma {:induction false} EligibleOfPermutation(a: seq<Option<int>>, b: seq<Option<int>>, day: int)
    requires multiset(a) == multiset(b)
    ensures Eligible(a, day) == Eligible(b, day)
    decreases |a|
  {
    if a == [] {
      assert |multiset(b)| == 0;
    } else {
      var n := |a| - 1;
      assert a[n] in multiset(b);
      var i :| 0 <= i < |b| && b[i] == a[n];
      WithoutOne(a, n);
      WithoutOne(b, i);
      assert a[..n] + a[n + 1..] == a[..n];
      EligibleOfPermutation(a[..n], b[..i] + b[i + 1..], day);
      EligibleWithout(b, i, day);
    }
  }

  ghost predicate SameDays(p: Plan, q: Plan) {
    |p| == |q| && forall k :: 0 <= k < |p| ==> (p[k].Some? <==> q[k].Some?)
  }

  lemma {:induction false} SameDaysSameCounts(p: Plan, q: Plan, scheduled: set<int>, today: int, lo: nat, hi: nat)
    requires SameDays(p, q) && lo <= hi <= |p|
    ensures Busy(p, scheduled, today, lo, hi) == Busy(q, scheduled, today, lo, hi)
    decreases hi - lo
  {
    if lo < hi {
      SameDaysSameCounts(p, q, scheduled, today, lo, hi - 1);
    }
  }

  lemma {:induction false} SameDaysSameUsed(p: Plan, q: Plan)
    requires SameDays(p, q)
    ensures UsedCount(p) == UsedCount(q)
    decreases |p|
  {
    if p != [] {
      SameDaysSameUsed(p[..|p| - 1], q[..|q| - 1]);
    }
  }

  lemma NextDayIsSame(p: Plan, q: Plan, c: Option<Candidate>, d: Option<Candidate>, today: int, scheduled: set<int>,
                      a: seq<Candidate>, b: seq<Candidate>)
    requires IsPlan(p, today, scheduled, a) && IsPlan(q, today, scheduled, b) && SameDays(p, q)
    requires ChoiceIsRight(p, c, today, scheduled, a) && ChoiceIsRight(q, d, today, scheduled, b)
    requires DistinctIds(a) && DistinctIds(b) && multiset(Targets(a)) == multiset(Targets(b))
    ensures c.Some? <==> d.Some?
  {
    hide IsPlan, SameDays, HasUnused, IsFirstUnused, Used, Busy, DistinctIds, Targets, Eligible, UsedCount;
    assert |p| == |q| by {
      SameLength(p, q);
    }
    HasUnusedIff(p, today, scheduled, a);
    HasUnusedIff(q, today, scheduled, b);
    EligibleOfPermutation(Targets(a), Targets(b), today + |p|);
    SameDaysSameCounts(p, q, scheduled, today, BlockStart(|p|), |p|);
    SameDaysSameUsed(p, q);
  }

  lemma SameLength(p: Plan, q: Plan)
    requires SameDays(p, q)
    ensures |p| == |q|
  {
  }

  /**
   The days proposed depend only on the scheduled days and on the multiset of the
   candidates' target dates: not on their order, nor on who the candidates are.
   */
  lemma {:induction false} DaysDependOnTargetsOnly(p: Plan, q: Plan, today: int, scheduled: set<int>,
                                                   a: seq<Candidate>, b: seq<Candidate>)
    requires IsPlan(p, today, scheduled, a) && IsPlan(q, today, scheduled, b) && |p| == |q|
    requires DistinctIds(a) && DistinctIds(b) && multiset(Targets(a)) == multiset(Targets(b))
    ensures SameDays(p, q)
    decreases |p|
  {
    hide IsPlan, ChoiceIsRight, DistinctIds, Targets;
    if p != [] {
      var n := |p| - 1;
      PrefixIsPlan(p, n, today, scheduled, a);
      PrefixIsPlan(q, n, today, scheduled, b);
      DaysDependOnTargetsOnly(p[..n], q[..n], today, scheduled, a, b);
      ChoiceAt(p, n, today, scheduled, a);
      ChoiceAt(q, n, today, scheduled, b);
      NextDayIsSame(p[..n], q[..n], p[n], q[n], today, scheduled, a, b);
      assert forall k :: 0 <= k < n ==> p[k] == p[..n][k] && q[k] == q[..n][k];
    }
  }

  lemma {:induction false} SameDaysListTheSame(p: Plan, q: Plan, today: int)
    requires SameDays(p, q)
    ensures |Listed(p, today)| == |Listed(q, today)|
    ensures forall i :: 0 <= i < |Listed(p, today)| ==> Listed(p, today)[i].day == Listed(q, today)[i].day
    decreases |p|
  {
    if p != [] {
      SameDaysListTheSame(p[..|p| - 1], q[..|q| - 1], today);
    }
  }

  /** So two scans with the same scheduled days and target dates propose the same days, one for one. */
  lemma ScansProposeTheSameDays(r: seq<Proposal>, s: seq<Proposal>, today: int, scheduled: set<int>, a: seq<Candidate>,
                                b: seq<Candidate>)
    requires IsScan(r, today, scheduled, a) && IsScan(s, today, scheduled, b)
    requires DistinctIds(a) && DistinctIds(b) && multiset(Targets(a)) == multiset(Targets(b))
    ensures |r| == |s| && forall i :: 0 <= i < |r| ==> r[i].day == s[i].day
  {
    hide IsPlan, Listed, SameDays, DistinctIds, Targets;
    var p: Plan :| |p| == DAYS && IsPlan(p, today, scheduled, a) && r == Listed(p, today);
    var q: Plan :| |q| == DAYS && IsPlan(q, today, scheduled, b) && s == Listed(q, today);
    DaysDependOnTargetsOnly(p, q, today, scheduled, a, b);
    SameDaysListTheSame(p, q, today);
  }
}
