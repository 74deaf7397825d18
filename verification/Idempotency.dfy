/**
 Idempotency slots: an insert under a unique constraint decides who works,
 everyone else re-reads the row (apps/api/middleware.py, apps/api/tasks.py).
 Times are in seconds.
 */
module Idempotency {
  import opened Wrappers

  /** The unique constraint: (api key, client key). */
  type Slot = (int, string)

  /** One stored row.  `id` is the row's own key, new for every insert. */
  datatype Record = Record(id: nat, fingerprint: string, status: nat, body: string, created: int)

  const PENDING := 0
  const TTL := 24 * 60 * 60

  datatype Disposition =
    | Passthrough
    | Claimed
    | Replay(status: nat, body: string)
    | InFlight
    | Reused      // the fingerprint differs: the caller answers 422
    | Vanished    // the row was gone at the re-read: an uncaught lookup error

  // ----- The statements sent to the database -----

  /** What a caller reads after its insert failed. */
  function Reread(rows: map<Slot, Record>, slot: Slot, fingerprint: string): Disposition {
    if slot !in rows then Vanished
    else if rows[slot].fingerprint != fingerprint then Reused
    else if rows[slot].status == PENDING then InFlight
    else Replay(rows[slot].status, rows[slot].body)
  }

  /** What each statement does to one slot, and that it leaves every other slot alone. */
  lemma StatementsOnASlot(rows: map<Slot, Record>, slot: Slot, id: nat, fingerprint: string, status: nat, body: string,
                          now: int, other: Slot)
    ensures var row := Record(id, fingerprint, 0, "", now);
      slot in Inserted(rows, slot, id, fingerprint, now) && Inserted(rows, slot, id, fingerprint, now)[slot] == row
    ensures Filled(rows, slot, status, body).Keys == rows.Keys
    ensures slot in rows ==> Filled(rows, slot, status, body)[slot] == Record(rows[slot].id, rows[slot].fingerprint,
                                                                              status, body, rows[slot].created)
    ensures slot in Released(rows, slot) <==> slot in rows && rows[slot].status != 0
    ensures slot in Swept(rows, now) <==> slot in rows && now - rows[slot].created <= 86400
    ensures slot in Released(rows, slot) ==> Released(rows, slot)[slot] == rows[slot]
    ensures slot in Swept(rows, now) ==> Swept(rows, now)[slot] == rows[slot]
    ensures other != slot ==>
      (other in Inserted(rows, slot, id, fingerprint, now) <==> other in rows)
      && (other in Released(rows, slot) <==> other in rows)
      && (other in rows ==>
            Inserted(rows, slot, id, fingerprint, now)[other] == Filled(rows, slot, status, body)[other]
            == Released(rows, slot)[other] == rows[other])
  {
  }

  function Inserted(rows: map<Slot, Record>, slot: Slot, id: nat, fingerprint: string, now: int): map<Slot, Record> {
    rows[slot := Record(id, fingerprint, PENDING, "", now)]
  }

  /** The update names the slot only: it does not ask who owns the row. */
  function Filled(rows: map<Slot, Record>, slot: Slot, status: nat, body: string): map<Slot, Record> {
    if slot in rows then rows[slot := rows[slot].(status := status, body := body)] else rows
  }

  function Released(rows: map<Slot, Record>, slot: Slot): map<Slot, Record> {
    if slot in rows && rows[slot].status == PENDING then rows - {slot} else rows
  }

  function Swept(rows: map<Slot, Record>, now: int): map<Slot, Record> {
    map s | s in rows && !(rows[s].created < now - TTL) :: rows[s]
  }

  /** The table and its functions, as one worker runs them undisturbed. */
  class IdempotencyTable {
    var rows: map<Slot, Record>
    var nextId: nat

    constructor ()
      ensures rows == map[]
    {
      rows, nextId := map[], 0;
    }

    method Claim(apiKey: int, key: Option<string>, fingerprint: string, now: int) returns (d: Disposition)
      modifies this
      ensures key.None? || key.value == "" ==> d == Passthrough && rows == old(rows)
      ensures key.Some? && key.value != "" && (apiKey, key.value) !in old(rows) ==>
        d == Claimed && rows == old(rows)[(apiKey, key.value) := Record(old(nextId), fingerprint, 0, "", now)]
      ensures key.Some? && key.value != "" && (apiKey, key.value) in old(rows) ==>
        var row := old(rows)[(apiKey, key.value)];
        rows == old(rows)
        && d == if row.fingerprint != fingerprint then Reused
                else if row.status == 0 then InFlight else Replay(row.status, row.body)
    {
      if key.None? || key.value == "" {
        return Passthrough;
      }
      var slot := (apiKey, key.value);
      if slot !in rows {
        rows := rows[slot := Record(nextId, fingerprint, PENDING, "", now)];
        nextId := nextId + 1;
        return Claimed;
      }
      var existing := rows[slot];
      if existing.fingerprint != fingerprint {
        return Reused;
      }
      if existing.status == PENDING {
        return InFlight;
      }
      return Replay(existing.status, existing.body);
    }

    method Finalize(apiKey: int, key: Option<string>, status: nat, body: string)
      modifies this
      ensures nextId == old(nextId)
      ensures rows == if key.None? || key.value == "" then old(rows)
                      else Filled(old(rows), (apiKey, key.value), status, body)
    {
      if key.Some? && key.value != "" && (apiKey, key.value) in rows {
        var slot := (apiKey, key.value);
        rows := rows[slot := rows[slot].(status := status, body := body)];
      }
    }

    method Release(apiKey: int, key: Option<string>)
      modifies this
      ensures nextId == old(nextId)
      ensures rows == if key.None? || key.value == "" then old(rows) else Released(old(rows), (apiKey, key.value))
    {
      if key.Some? && key.value != "" && (apiKey, key.value) in rows && rows[(apiKey, key.value)].status == PENDING {
        rows := rows - {(apiKey, key.value)};
      }
    }

    method SweepStale(now: int)
      modifies this
      ensures nextId == old(nextId) && rows == Swept(old(rows), now)
    {
      var cutoff := now - TTL;
      rows := map s | s in rows && rows[s].created >= cutoff :: rows[s];
    }
  }

  // ----- Concurrent workers -----

  type WorkerId = nat

  datatype Worker =
    | Beaten(slot: Slot, fingerprint: string)              // its insert failed; it has yet to re-read
    | Working(slot: Slot, fingerprint: string, row: nat, since: int)
    | Finished(slot: Slot, row: nat, since: int)           // finalized; still inside the route's try block
    | Answered(slot: Slot, fingerprint: string, answer: Disposition)
    | Gone

  /** One committed finalize. */
  datatype Final = Final(slot: Slot, row: nat, fingerprint: string, status: nat, body: string)

  datatype State = State(rows: map<Slot, Record>, nextId: nat, now: int, workers: map<WorkerId, Worker>,
                         finals: seq<Final>)

  datatype Step =
    | Insert(w: WorkerId, slot: Slot, fingerprint: string)
    | LoseInsert(w: WorkerId, slot: Slot, fingerprint: string)
    | RereadRow(w: WorkerId)
    | Finalize(w: WorkerId, status: nat, body: string)
    | Release(w: WorkerId)
    | Return(w: WorkerId)
    | Crash(w: WorkerId)
    | Sweep
    | Tick(to: int)

  const INITIAL := State(map[], 0, 0, map[], [])

  ghost predicate Enabled(s: State, step: Step) {
    match step
    case Insert(w, slot, _) => w !in s.workers && slot !in s.rows
    case LoseInsert(w, slot, _) => w !in s.workers && slot in s.rows
    case RereadRow(w) => w in s.workers && s.workers[w].Beaten?
    case Finalize(w, status, _) => w in s.workers && s.workers[w].Working? && status != PENDING
    case Release(w) => w in s.workers && (s.workers[w].Working? || s.workers[w].Finished?)
    case Return(w) => w in s.workers && s.workers[w].Finished?
    case Crash(w) => w in s.workers
    case Sweep => true
    case Tick(to) => s.now <= to
  }

  /** Who may do what: an insert fails exactly where the slot is taken, and a crash, a sweep or time may always come. */
  lemma StepsPossible(s: State, w: WorkerId, slot: Slot, fingerprint: string, status: nat, body: string, now: int)
    ensures Enabled(s, Insert(w, slot, fingerprint)) <==> w !in s.workers && slot !in s.rows
    ensures Enabled(s, LoseInsert(w, slot, fingerprint)) <==> w !in s.workers && slot in s.rows
    ensures w in s.workers ==>
      Enabled(s, Crash(w)) && (Enabled(s, RereadRow(w)) <==> s.workers[w].Beaten?)
      && (Enabled(s, Finalize(w, status, body)) <==> s.workers[w].Working? && status != 0)
      && (Enabled(s, Release(w)) <==> s.workers[w].Working? || s.workers[w].Finished?)
      && (Enabled(s, Return(w)) <==> s.workers[w].Finished?)
    ensures Enabled(s, Sweep) && (Enabled(s, Tick(now)) <==> s.now <= now)
  {
  }

  ghost function Apply(s: State, step: Step): State
    requires Enabled(s, step)
  {
    match step
    case Insert(w, slot, fp) =>
      s.(rows := Inserted(s.rows, slot, s.nextId, fp, s.now), nextId := s.nextId + 1,
         workers := s.workers[w := Working(slot, fp, s.nextId, s.now)])
    case LoseInsert(w, slot, fp) => s.(workers := s.workers[w := Beaten(slot, fp)])
    case RereadRow(w) =>
      var v := s.workers[w];
      s.(workers := s.workers[w := Answered(v.slot, v.fingerprint, Reread(s.rows, v.slot, v.fingerprint))])
    case Finalize(w, status, body) =>
      var v := s.workers[w];
      s.(rows := Filled(s.rows, v.slot, status, body), workers := s.workers[w := Finished(v.slot, v.row, v.since)],
         finals := s.finals + [Final(v.slot, v.row, v.fingerprint, status, body)])
    case Release(w) => s.(rows := Released(s.rows, s.workers[w].slot), workers := s.workers[w := Gone])
    case Return(w) => s.(workers := s.workers[w := Gone])
    case Crash(w) => s.(workers := s.workers[w := Gone])
    case Sweep => s.(rows := Swept(s.rows, s.now))
    case Tick(to) => s.(now := to)
  }

  /** A request whose insert failed is answered by the row it finds: its fingerprint first, then its status. */
  lemma RereadAnswers(s: State, w: WorkerId)
    requires Enabled(s, RereadRow(w))
    ensures var v, t := s.workers[w], Apply(s, RereadRow(w));
      t.rows == s.rows && t.workers[w].Answered? && t.workers[w].slot == v.slot
      && var answer := t.workers[w].answer;
         (answer.Vanished? <==> v.slot !in s.rows)
         && (answer.Reused? <==> v.slot in s.rows && s.rows[v.slot].fingerprint != v.fingerprint)
         && (answer.InFlight? <==>
               v.slot in s.rows && s.rows[v.slot].fingerprint == v.fingerprint && s.rows[v.slot].status == 0)
         && (v.slot in s.rows && s.rows[v.slot].fingerprint == v.fingerprint && s.rows[v.slot].status != 0 ==>
               answer == Replay(s.rows[v.slot].status, s.rows[v.slot].body))
  {
  }

  predicate Holds(v: Worker) {
    v.Working? || v.Finished?
  }

  /** No worker is still inside its route more than 24 hours after its claim. */
  ghost predicate Timely(s: State, step: Step) {
    step.Tick? ==> forall w :: w in s.workers && Holds(s.workers[w]) ==> step.to <= s.workers[w].since + TTL
  }

  /** Only time can make a run untimely: by passing 24 hours since the insert of a worker still inside its route. */
  lemma TimelyInFields(s: State, step: Step)
    ensures Timely(s, step) <==>
      step.Tick? ==> forall w :: w in s.workers && (s.workers[w].Working? || s.workers[w].Finished?) ==>
        step.to - s.workers[w].since <= 86400
  {
  }

  /** A run: states[0] is the start and each step leads from one state to the next. */
  ghost predicate IsRun(states: seq<State>, steps: seq<Step>) {
    |states| == |steps| + 1 && states[0] == INITIAL
    && forall i :: 0 <= i < |steps| ==> Enabled(states[i], steps[i]) && states[i + 1] == Apply(states[i], steps[i])
  }

  ghost predicate IsTimelyRun(states: seq<State>, steps: seq<Step>) {
    IsRun(states, steps) && forall i :: 0 <= i < |steps| ==> Timely(states[i], steps[i])
  }

  // ----- The invariant of timely runs -----

  /** A holder's row is its own, still stored, and carries the state the holder put it in. */
  ghost predicate OwnsRow(s: State, v: Worker) {
    Holds(v) ==>
      && v.slot in s.rows && s.rows[v.slot].id == v.row && s.rows[v.slot].created == v.since <= s.now <= v.since + TTL
      && (v.Working? ==> s.rows[v.slot].status == PENDING && s.rows[v.slot].fingerprint == v.fingerprint)
      && (v.Finished? ==> s.rows[v.slot].status != PENDING)
  }

  ghost predicate Matches(f: Final, slot: Slot, r: Record) {
    f == Final(slot, r.id, r.fingerprint, r.status, r.body)
  }

  ghost predicate Invariant(s: State) {
    && (forall w :: w in s.workers ==> OwnsRow(s, s.workers[w]))
    && (forall w, v :: w in s.workers && v in s.workers && w != v && Holds(s.workers[w]) && Holds(s.workers[v]) ==>
          s.workers[w].row != s.workers[v].row)
    && (forall slot :: slot in s.rows ==> s.rows[slot].id < s.nextId)
    && (forall slot :: slot in s.rows && s.rows[slot].status != PENDING ==>
          exists f :: f in s.finals && Matches(f, slot, s.rows[slot]))
    && (forall w :: w in s.workers && s.workers[w].Answered? && s.workers[w].answer.Replay? ==>
          Recorded(s.finals, s.workers[w]))
  }

  /** The replayed answer is one that some finalizer of the same request stored. */
  ghost predicate Recorded(finals: seq<Final>, v: Worker)
    requires v.Answered? && v.answer.Replay?
  {
    exists f :: f in finals && f.slot == v.slot && f.fingerprint == v.fingerprint
      && f.status == v.answer.status && f.body == v.answer.body
  }

  lemma StepKeepsOwnership(s: State, step: Step)
    requires Invariant(s) && Enabled(s, step) && Timely(s, step)
    ensures var t := Apply(s, step);
      (forall w :: w in t.workers ==> OwnsRow(t, t.workers[w]))
      && (forall w, v :: w in t.workers && v in t.workers && w != v && Holds(t.workers[w]) && Holds(t.workers[v]) ==>
            t.workers[w].row != t.workers[v].row)
      && (forall slot :: slot in t.rows ==> t.rows[slot].id < t.nextId)
  {
    var t := Apply(s, step);
    forall w | w in t.workers ensures OwnsRow(t, t.workers[w]) {
      if w in s.workers {
        assert OwnsRow(s, s.workers[w]);
      }
      match step
      case Finalize(u, _, _) => assert OwnsRow(s, s.workers[u]);
      case Release(u) => assert OwnsRow(s, s.workers[u]);
      case _ =>
    }
  }

  lemma StepKeepsRecords(s: State, step: Step)
    requires Invariant(s) && Enabled(s, step) && Timely(s, step)
    ensures var t := Apply(s, step);
      (forall slot :: slot in t.rows && t.rows[slot].status != PENDING ==>
         exists f :: f in t.finals && Matches(f, slot, t.rows[slot]))
      && (forall w :: w in t.workers && t.workers[w].Answered? && t.workers[w].answer.Replay? ==>
            Recorded(t.finals, t.workers[w]))
  {
    var t := Apply(s, step);
    forall slot | slot in t.rows && t.rows[slot].status != PENDING
      ensures exists f :: f in t.finals && Matches(f, slot, t.rows[slot])
    {
      if step.Finalize? && s.workers[step.w].slot == slot {
        assert OwnsRow(s, s.workers[step.w]);
        assert Matches(t.finals[|s.finals|], slot, t.rows[slot]);
      } else {
        var f :| f in s.finals && Matches(f, slot, s.rows[slot]);
        assert f in t.finals;
      }
    }
    forall w | w in t.workers && t.workers[w].Answered? && t.workers[w].answer.Replay?
      ensures Recorded(t.finals, t.workers[w])
    {
      if step.RereadRow? && step.w == w {
        var v := s.workers[w];
        var f :| f in s.finals && Matches(f, v.slot, s.rows[v.slot]);
        assert f in t.finals;
      } else {
        var v := s.workers[w];
        assert Recorded(s.finals, v);
        var f :| f in s.finals && f.slot == v.slot && f.fingerprint == v.fingerprint
          && f.status == v.answer.status && f.body == v.answer.body;
        assert f in t.finals;
      }
    }
  }

  lemma {:induction false} RunKeepsInvariant(states: seq<State>, steps: seq<Step>, n: nat)
    requires IsTimelyRun(states, steps) && n < |states|
    ensures Invariant(states[n])
  {
    if n > 0 {
      RunKeepsInvariant(states, steps, n - 1);
      StepKeepsOwnership(states[n - 1], steps[n - 1]);
      StepKeepsRecords(states[n - 1], steps[n - 1]);
    }
  }

  // ----- What holds over every timely run -----

  /** At most one live worker owns a slot, and it owns the stored row. */
  lemma OneOwnerPerSlot(states: seq<State>, steps: seq<Step>, n: nat, w: WorkerId, v: WorkerId)
    requires IsTimelyRun(states, steps) && n < |states|
    requires w in states[n].workers && Holds(states[n].workers[w])
    requires v in states[n].workers && Holds(states[n].workers[v])
    requires states[n].workers[w].slot == states[n].workers[v].slot
    ensures w == v
    ensures states[n].workers[w].slot in states[n].rows
    ensures states[n].rows[states[n].workers[w].slot].id == states[n].workers[w].row
  {
    RunKeepsInvariant(states, steps, n);
    assert OwnsRow(states[n], states[n].workers[w]) && OwnsRow(states[n], states[n].workers[v]);
  }

  /** A replay is exactly what a finalizer stored for the same slot and fingerprint. */
  lemma ReplayIsAFinalizersAnswer(states: seq<State>, steps: seq<Step>, n: nat, w: WorkerId)
    requires IsTimelyRun(states, steps) && n < |states|
    requires w in states[n].workers && states[n].workers[w].Answered? && states[n].workers[w].answer.Replay?
    ensures exists i :: 0 <= i < n && FinalizesFor(states[i], steps[i], states[n].workers[w])
    ensures exists i, u ::
      0 <= i < n && steps[i] == Finalize(u, states[n].workers[w].answer.status, states[n].workers[w].answer.body)
      && u in states[i].workers && states[i].workers[u].Working?
      && states[i].workers[u].slot == states[n].workers[w].slot
      && states[i].workers[u].fingerprint == states[n].workers[w].fingerprint
  {
    RunKeepsInvariant(states, steps, n);
    var v := states[n].workers[w];
    assert Recorded(states[n].finals, v);
    var f :| f in states[n].finals && f.slot == v.slot && f.fingerprint == v.fingerprint
      && f.status == v.answer.status && f.body == v.answer.body;
    var i, u := FinalCameFromAStep(states, steps, n, f);
    assert FinalizesFor(states[i], steps[i], v);
  }

  /** The step is the finalize of a working request with v's slot and fingerprint, storing the answer v received. */
  ghost predicate FinalizesFor(s: State, step: Step, v: Worker)
    requires v.Answered? && v.answer.Replay?
  {
    step.Finalize? && step.w in s.workers && s.workers[step.w].Working?
    && s.workers[step.w].slot == v.slot && s.workers[step.w].fingerprint == v.fingerprint
    && step.status == v.answer.status && step.body == v.answer.body
  }

  lemma {:induction false} FinalCameFromAStep(states: seq<State>, steps: seq<Step>, n: nat, f: Final)
    returns (i: nat, u: WorkerId)
    requires IsRun(states, steps) && n < |states| && f in states[n].finals
    ensures i < n && steps[i] == Finalize(u, f.status, f.body)
    ensures u in states[i].workers && states[i].workers[u].Working?
    ensures states[i].workers[u].slot == f.slot && states[i].workers[u].fingerprint == f.fingerprint
  {
    if f in states[n - 1].finals {
      i, u := FinalCameFromAStep(states, steps, n - 1, f);
    } else {
      i, u := n - 1, steps[n - 1].w;
    }
  }

  /** Stored rows never change their fingerprint or age, and row keys are never used again. */
  lemma {:induction false} RowIdentityIsStable(states: seq<State>, steps: seq<Step>, i: nat, j: nat, slot: Slot)
    requires IsRun(states, steps) && i <= j < |states|
    requires slot in states[j].rows && states[j].rows[slot].id < states[i].nextId
    ensures slot in states[i].rows && states[i].rows[slot].id == states[j].rows[slot].id
    ensures states[i].rows[slot].fingerprint == states[j].rows[slot].fingerprint
    ensures states[i].rows[slot].created == states[j].rows[slot].created
    decreases j
  {
    if i < j {
      IdsOnlyGrow(states, steps, i, j - 1);
      RowIdentityIsStable(states, steps, i, j - 1, slot);
    }
  }

  lemma {:induction false} IdsOnlyGrow(states: seq<State>, steps: seq<Step>, i: nat, j: nat)
    requires IsRun(states, steps) && i <= j < |states|
    ensures states[i].nextId <= states[j].nextId
    decreases j
  {
    if i < j {
      IdsOnlyGrow(states, steps, i, j - 1);
    }
  }

  lemma FingerprintNeverChanges(states: seq<State>, steps: seq<Step>, i: nat, j: nat, slot: Slot)
    requires IsTimelyRun(states, steps) && i <= j < |states|
    requires slot in states[i].rows && slot in states[j].rows && states[i].rows[slot].id == states[j].rows[slot].id
    ensures states[i].rows[slot].fingerprint == states[j].rows[slot].fingerprint
    ensures states[i].rows[slot].created == states[j].rows[slot].created
  {
    RunKeepsInvariant(states, steps, i);
    RowIdentityIsStable(states, steps, i, j, slot);
  }

  ghost predicate FinalizesSlot(s: State, step: Step, slot: Slot) {
    step.Finalize? && step.w in s.workers && s.workers[step.w].Working? && s.workers[step.w].slot == slot
  }

  ghost predicate SweepsSlot(s: State, step: Step, slot: Slot) {
    step.Sweep? && slot in s.rows && slot !in Swept(s.rows, s.now)
  }

  lemma SweepInFields(s: State, step: Step, slot: Slot)
    ensures SweepsSlot(s, step, slot) <==> step == Sweep && slot in s.rows && s.now - s.rows[slot].created > 86400
  {
  }

  lemma StepKeepsFinalized(s: State, step: Step, slot: Slot)
    requires Invariant(s) && Enabled(s, step) && slot in s.rows && s.rows[slot].status != PENDING
    requires !SweepsSlot(s, step, slot)
    ensures slot in Apply(s, step).rows && Apply(s, step).rows[slot] == s.rows[slot]
  {
    match step
    case Finalize(u, _, _) => assert OwnsRow(s, s.workers[u]);
    case _ =>
  }

  /** A finalized row stays finalized, unchanged, until a sweep takes it. */
  lemma {:induction false} FinalizedUntilSwept(states: seq<State>, steps: seq<Step>, i: nat, j: nat, slot: Slot)
    requires IsTimelyRun(states, steps) && i <= j < |states|
    requires slot in states[i].rows && states[i].rows[slot].status != PENDING
    requires forall k :: i <= k < j ==> !SweepsSlot(states[k], steps[k], slot)
    ensures slot in states[j].rows && states[j].rows[slot] == states[i].rows[slot]
    decreases j
  {
    if i < j {
      FinalizedUntilSwept(states, steps, i, j - 1, slot);
      RunKeepsInvariant(states, steps, j - 1);
      hide Invariant, Apply, Enabled, SweepsSlot;
      StepKeepsFinalized(states[j - 1], steps[j - 1], slot);
    }
  }

  /** Between two finalizes of one slot a sweep removed the first one's row. */
  lemma FinalizedOncePerSweep(states: seq<State>, steps: seq<Step>, i: nat, j: nat, slot: Slot)
    requires IsTimelyRun(states, steps) && i < j < |steps|
    requires FinalizesSlot(states[i], steps[i], slot) && FinalizesSlot(states[j], steps[j], slot)
    ensures exists k :: i < k < j && SweepsSlot(states[k], steps[k], slot)
    ensures exists k ::
      i < k < j && steps[k] == Sweep && slot in states[k].rows
      && states[k].now - states[k].rows[slot].created > 86400
  {
    RunKeepsInvariant(states, steps, i);
    RunKeepsInvariant(states, steps, j);
    assert OwnsRow(states[i], states[i].workers[steps[i].w]);
    assert OwnsRow(states[j], states[j].workers[steps[j].w]);
    if forall k :: i + 1 <= k < j ==> !SweepsSlot(states[k], steps[k], slot) {
      FinalizedUntilSwept(states, steps, i + 1, j, slot);
      assert false;
    }
    var k :| i < k < j && SweepsSlot(states[k], steps[k], slot);
    SweepInFields(states[k], steps[k], slot);
  }

  // ----- Whose row a finalize or a release reaches, in any run -----

  /** The row that the holder inserted is the one stored in its slot. */
  ghost predicate HasOwnRow(s: State, w: WorkerId) {
    w in s.workers && Holds(s.workers[w]) && s.workers[w].slot in s.rows
    && s.rows[s.workers[w].slot].id == s.workers[w].row
  }

  /** The step is a sweep, or another worker's release, that deletes the row. */
  ghost predicate Takes(s: State, step: Step, w: WorkerId, slot: Slot, row: nat) {
    slot in s.rows && s.rows[slot].id == row
    && ((step.Sweep? && s.rows[slot].created < s.now - TTL)
        || (step.Release? && step.w != w && step.w in s.workers && Holds(s.workers[step.w])
            && s.workers[step.w].slot == slot && s.rows[slot].status == PENDING))
  }

  lemma TakesInFields(s: State, step: Step, w: WorkerId, slot: Slot, row: nat)
    ensures Takes(s, step, w, slot, row) <==>
      slot in s.rows && s.rows[slot].id == row
      && ((step == Sweep && s.now - s.rows[slot].created > 86400)
          || (step.Release? && step.w != w && step.w in s.workers && s.rows[slot].status == 0
              && (s.workers[step.w].Working? || s.workers[step.w].Finished?) && s.workers[step.w].slot == slot))
  {
  }

  /** Row keys are below the counter, in the table and with the holders. */
  ghost predicate KeysBelow(s: State) {
    (forall slot :: slot in s.rows ==> s.rows[slot].id < s.nextId)
    && (forall w :: w in s.workers && Holds(s.workers[w]) ==> s.workers[w].row < s.nextId)
  }

  lemma {:induction false} RunKeepsKeysBelow(states: seq<State>, steps: seq<Step>, n: nat)
    requires IsRun(states, steps) && n < |states|
    ensures KeysBelow(states[n])
    decreases n
  {
    if n > 0 {
      RunKeepsKeysBelow(states, steps, n - 1);
    }
  }

  /** One step: a holder loses its own row exactly to a step that takes it, and never gets it back. */
  lemma OwnRowAfterStep(s: State, step: Step, w: WorkerId)
    requires KeysBelow(s) && Enabled(s, step) && w in s.workers && Holds(s.workers[w])
    requires w in Apply(s, step).workers && Holds(Apply(s, step).workers[w])
    ensures Apply(s, step).workers[w].slot == s.workers[w].slot && Apply(s, step).workers[w].row == s.workers[w].row
    ensures HasOwnRow(Apply(s, step), w) <==>
      (HasOwnRow(s, w) && !Takes(s, step, w, s.workers[w].slot, s.workers[w].row))
  {
  }

  lemma NewHolderInserted(s: State, step: Step, w: WorkerId)
    requires Enabled(s, step) && w in Apply(s, step).workers && Holds(Apply(s, step).workers[w])
    requires !(w in s.workers && Holds(s.workers[w]))
    ensures step.Insert? && step.w == w && HasOwnRow(Apply(s, step), w) && Apply(s, step).workers[w].row == s.nextId
  {
  }

  /**
   In every run, timely or not: a finalize or release of a holder reaches the
   holder's own row exactly when no sweep and no other worker's release took it.
   */
  lemma {:induction false} ReachesOwnRowIff(states: seq<State>, steps: seq<Step>, n: nat, w: WorkerId)
    requires IsRun(states, steps) && n < |states| && w in states[n].workers && Holds(states[n].workers[w])
    ensures HasOwnRow(states[n], w) <==>
      states[n].workers[w].slot in states[n].rows
      && states[n].rows[states[n].workers[w].slot].id == states[n].workers[w].row
    ensures HasOwnRow(states[n], w) <==>
      forall k :: 0 <= k < n ==> !Takes(states[k], steps[k], w, states[n].workers[w].slot, states[n].workers[w].row)
    decreases n
  {
    if n > 0 {
      var s, step := states[n - 1], steps[n - 1];
      RunKeepsKeysBelow(states, steps, n - 1);
      hide Takes, HasOwnRow, KeysBelow, Enabled, Apply;
      if w in s.workers && Holds(s.workers[w]) {
        ReachesOwnRowIff(states, steps, n - 1, w);
        OwnRowAfterStep(s, step, w);
      } else {
        NewHolderInserted(s, step, w);
        forall k | 0 <= k < n
          ensures !Takes(states[k], steps[k], w, states[n].workers[w].slot, states[n].workers[w].row)
        {
          NotYetStored(states, steps, k, n - 1, w, states[n].workers[w].slot);
        }
      }
    }
  }

  /** Before its insert a row is in nobody's way. */
  lemma NotYetStored(states: seq<State>, steps: seq<Step>, k: nat, n: nat, w: WorkerId, slot: Slot)
    requires IsRun(states, steps) && k <= n < |steps|
    ensures !Takes(states[k], steps[k], w, slot, states[n].nextId)
  {
    RunKeepsKeysBelow(states, steps, k);
    IdsOnlyGrow(states, steps, k, n);
  }

  /** A sweep leaves every holder its row exactly when every holder is within its 24 hours. */
  lemma SweepSparesHoldersIff(s: State)
    requires forall w :: w in s.workers && Holds(s.workers[w]) ==>
      HasOwnRow(s, w) && s.rows[s.workers[w].slot].created == s.workers[w].since
    ensures (forall w :: w in s.workers && Holds(s.workers[w]) ==> HasOwnRow(Apply(s, Sweep), w)) <==>
      (forall w :: w in s.workers && Holds(s.workers[w]) ==> s.now <= s.workers[w].since + TTL)
  {
    forall w | w in s.workers && Holds(s.workers[w])
      ensures HasOwnRow(Apply(s, Sweep), w) <==> s.now <= s.workers[w].since + TTL
    {
      assert HasOwnRow(s, w);
    }
  }

  // ----- Why the 24-hour bound is needed -----

  /**
   Without it: a worker that outlives its claim writes its answer into the
   next owner's row, where the next owner's own fingerprint then replays it.
   */
  lemma LateFinalizeFillsAnotherRow()
    ensures exists states: seq<State>, steps: seq<Step> ::
      IsRun(states, steps) && |states| == 6
      && (exists w, v :: w in states[4].workers && v in states[4].workers && w != v
            && states[4].workers[w].Working? && states[4].workers[v].Working?
            && states[4].workers[w].slot == states[4].workers[v].slot)
      && Reread(states[5].rows, (1, "k"), "second") == Replay(201, "answer to the first")
  {
    var slot: Slot := (1, "k");
    var steps := [Insert(0, slot, "first"), Tick(TTL + 1), Sweep, Insert(1, slot, "second"),
                  Finalize(0, 201, "answer to the first")];
    var s1 := Apply(INITIAL, steps[0]);
    var s2 := Apply(s1, steps[1]);
    var s3 := Apply(s2, steps[2]);
    assert slot !in s3.rows;
    var s4 := Apply(s3, steps[3]);
    assert 0 in s4.workers && s4.workers[0].Working? && 1 in s4.workers && s4.workers[1].Working?;
    var s5 := Apply(s4, steps[4]);
    var states := [INITIAL, s1, s2, s3, s4, s5];
    assert IsRun(states, steps);
    assert s5.rows[slot].fingerprint == "second";
    assert Reread(states[5].rows, (1, "k"), "second") == Replay(201, "answer to the first");
  }

  /** The release has the same reach: a late one deletes the next owner's pending row. */
  lemma LateReleaseDropsAnotherRow() returns (states: seq<State>, steps: seq<Step>)
    ensures IsRun(states, steps) && |states| == 6 && steps[4] == Release(0)
    ensures var s := states[5];
      1 in s.workers && s.workers[1].Working? && s.workers[1].slot !in s.rows
  {
    var slot: Slot := (1, "k");
    steps := [Insert(0, slot, "first"), Tick(TTL + 1), Sweep, Insert(1, slot, "second"), Release(0)];
    var s1 := Apply(INITIAL, steps[0]);
    var s2 := Apply(s1, steps[1]);
    var s3 := Apply(s2, steps[2]);
    assert slot !in s3.rows;
    var s4 := Apply(s3, steps[3]);
    assert 0 in s4.workers && s4.workers[0].Working? && 1 in s4.workers && s4.workers[1].Working?;
    var s5 := Apply(s4, steps[4]);
    states := [INITIAL, s1, s2, s3, s4, s5];
  }
}
