/**
 The Redis lock around beat tasks (jobs/locks.py): SET NX EX to enter, a
 compare-and-delete script to leave.
 */
module Lock {
  type Name = string
  type Worker = nat
  type Token = nat

  datatype Entry = Entry(token: Token, expires: int)
  type Store = map<Name, Entry>

  /** A worker inside the protected body; `deadline` is when the key it set expires. */
  datatype Section = Section(name: Name, token: Token, deadline: int)

  /** issued: every uuid handed out so far. */
  datatype State = State(clock: int, store: Store, inside: map<Worker, Section>, issued: set<Token>)

  datatype Step =
    | Enter(w: Worker, name: Name, token: Token, ttl: int)
    | Leave(w: Worker)
    | Crash(w: Worker)
    | Tick(now: int)

  // ----- Redis -----

  /** What GET sees: an expired key is gone. */
  predicate Held(store: Store, name: Name, now: int) {
    name in store && now < store[name].expires
  }

  /** SET name token NX EX ttl; Redis rejects a non-positive ttl. */
  predicate SetSucceeds(store: Store, name: Name, ttl: int, now: int) {
    ttl > 0 && !Held(store, name, now)
  }

  function Released(store: Store, name: Name, token: Token, now: int): Store {
    if Held(store, name, now) && store[name].token == token then store - {name} else store
  }

  predicate Enabled(s: State, step: Step) {
    match step
    case Enter(w, _, token, _) => w !in s.inside && token !in s.issued
    case Leave(w) => w in s.inside
    case Crash(w) => w in s.inside
    case Tick(now) => now >= s.clock
  }

  /** Who may do what: only outsiders with a fresh token enter, only insiders leave or crash, and time may pass. */
  lemma StepsPossible(s: State, w: Worker, name: Name, token: Token, ttl: int, now: int)
    ensures Enabled(s, Enter(w, name, token, ttl)) <==> w !in s.inside && token !in s.issued
    ensures (Enabled(s, Leave(w)) <==> w in s.inside) && (Enabled(s, Crash(w)) <==> w in s.inside)
    ensures Enabled(s, Tick(now)) <==> s.clock <= now
  {
  }

  function Apply(s: State, step: Step): State
    requires Enabled(s, step)
  {
    match step
    case Enter(w, name, token, ttl) =>
      var asked := s.(issued := s.issued + {token});
      if SetSucceeds(s.store, name, ttl, s.clock)
      then asked.(store := s.store[name := Entry(token, s.clock + ttl)],
                  inside := s.inside[w := Section(name, token, s.clock + ttl)])
      else asked
    case Leave(w) =>
      var section := s.inside[w];
      s.(store := Released(s.store, section.name, section.token, s.clock), inside := s.inside - {w})
    case Crash(w) => s.(inside := s.inside - {w})
    case Tick(now) => s.(clock := now)
  }

  // ----- Every reachable state -----

  /** Tokens are unique, and until its deadline a section's key is the one in the store. */
  ghost predicate Invariant(s: State) {
    (forall w :: w in s.inside ==> s.inside[w].token in s.issued)
    && (forall name :: name in s.store ==> s.store[name].token in s.issued)
    && (forall v, w :: v in s.inside && w in s.inside && s.inside[v].token == s.inside[w].token ==> v == w)
    && (forall w :: w in s.inside && s.clock < s.inside[w].deadline ==> OwnsKey(s, w))
  }

  ghost predicate OwnsKey(s: State, w: Worker)
    requires w in s.inside
  {
    s.inside[w].name in s.store && s.store[s.inside[w].name] == Entry(s.inside[w].token, s.inside[w].deadline)
  }

  ghost predicate InTime(s: State, w: Worker, name: Name) {
    w in s.inside && s.inside[w].name == name && s.clock < s.inside[w].deadline
  }

  lemma StepKeepsInvariant(s: State, step: Step)
    requires Invariant(s) && Enabled(s, step)
    ensures Invariant(Apply(s, step))
  {
    var t := Apply(s, step);
    forall w | w in t.inside && t.clock < t.inside[w].deadline ensures OwnsKey(t, w) {
      if w in s.inside && s.clock < s.inside[w].deadline {
        assert OwnsKey(s, w);
      }
    }
  }

  ghost predicate IsRun(states: seq<State>, steps: seq<Step>) {
    |states| == |steps| + 1
    && states[0].store == map[] && states[0].inside == map[]
    && forall i :: 0 <= i < |steps| ==> Enabled(states[i], steps[i]) && states[i + 1] == Apply(states[i], steps[i])
  }

  lemma {:induction false} RunKeepsInvariant(states: seq<State>, steps: seq<Step>, n: nat)
    requires IsRun(states, steps) && n < |states|
    ensures Invariant(states[n])
    decreases n
  {
    if n > 0 {
      RunKeepsInvariant(states, steps, n - 1);
      StepKeepsInvariant(states[n - 1], steps[n - 1]);
    }
  }

  /** In every reachable state at most one worker is inside a name with its TTL still running. */
  lemma OneHolderInTime(states: seq<State>, steps: seq<Step>, n: nat, name: Name, v: Worker, w: Worker)
    requires IsRun(states, steps) && n < |states|
    requires InTime(states[n], v, name) && InTime(states[n], w, name)
    ensures v == w
  {
    RunKeepsInvariant(states, steps, n);
    assert OwnsKey(states[n], v) && OwnsKey(states[n], w);
  }

  /** If every body ends before its key expires, at most one worker per name is inside, throughout. */
  lemma ExclusiveWhenBodiesEndInTime(states: seq<State>, steps: seq<Step>, n: nat, v: Worker, w: Worker)
    requires IsRun(states, steps) && n < |states|
    requires forall i, u :: 0 <= i < |states| && u in states[i].inside ==>
      states[i].clock < states[i].inside[u].deadline
    requires v in states[n].inside && w in states[n].inside && states[n].inside[v].name == states[n].inside[w].name
    ensures v == w
  {
    OneHolderInTime(states, steps, n, states[n].inside[v].name, v, w);
  }

  /** Leaving, in time or late, never removes a key that another worker still holds in time. */
  lemma LeaveSparesNewerHolders(states: seq<State>, steps: seq<Step>, n: nat, w: Worker, v: Worker, name: Name)
    requires IsRun(states, steps) && n < |steps| && steps[n] == Leave(w) && v != w
    requires InTime(states[n], v, name)
    ensures InTime(states[n + 1], v, name) && OwnsKey(states[n + 1], v)
  {
    RunKeepsInvariant(states, steps, n);
    StepKeepsInvariant(states[n], steps[n]);
  }

  /** A late leave changes nothing that anyone can read; a leave in time frees the name. */
  lemma LeaveFreesIffInTime(states: seq<State>, steps: seq<Step>, n: nat, w: Worker)
    requires IsRun(states, steps) && n < |steps| && steps[n] == Leave(w)
    ensures var s, t, name := states[n], states[n + 1], states[n].inside[w].name;
      InTime(s, w, name) <==> Held(s.store, name, s.clock) && !Held(t.store, name, t.clock)
    ensures !InTime(states[n], w, states[n].inside[w].name) ==> forall name ::
      Held(states[n].store, name, states[n].clock) ==>
        Held(states[n + 1].store, name, states[n].clock) && states[n + 1].store[name] == states[n].store[name]
  {
    RunKeepsInvariant(states, steps, n);
    LateTokensAreGone(states, steps, n);
    var s := states[n];
    if InTime(s, w, s.inside[w].name) {
      assert OwnsKey(s, w);
    }
  }

  /** A key in the store carries its section's deadline, so a late section no longer finds its token there. */
  lemma {:induction false} LateTokensAreGone(states: seq<State>, steps: seq<Step>, n: nat)
    requires IsRun(states, steps) && n < |states|
    ensures var s := states[n];
      forall w, name :: w in s.inside && name in s.store && s.store[name].token == s.inside[w].token ==>
        s.store[name].expires == s.inside[w].deadline && name == s.inside[w].name
    decreases n
  {
    if n > 0 {
      LateTokensAreGone(states, steps, n - 1);
      RunKeepsInvariant(states, steps, n - 1);
    }
  }

  /** A worker that gets in shares the name only with workers already past their deadlines. */
  lemma EntersOnlyPastDeadlines(states: seq<State>, steps: seq<Step>, n: nat, w: Worker, v: Worker)
    requires IsRun(states, steps) && n < |steps| && steps[n].Enter? && steps[n].w == w
    requires v in states[n].inside && states[n].inside[v].name == steps[n].name && w in states[n + 1].inside
    ensures states[n].clock >= states[n].inside[v].deadline
  {
    RunKeepsInvariant(states, steps, n);
    assert states[n].clock < states[n].inside[v].deadline ==> OwnsKey(states[n], v);
  }

  /** The worker whose section set the key is still inside. */
  ghost predicate HasOwner(s: State, name: Name)
    requires name in s.store
  {
    exists v :: v in s.inside && s.inside[v] == Section(name, s.store[name].token, s.store[name].expires)
  }

  /** While no worker crashes, whoever set a key that still counts is inside. */
  lemma {:induction false} HeldKeysHaveOwners(states: seq<State>, steps: seq<Step>, n: nat, name: Name)
    requires IsRun(states, steps) && n < |states| && forall i :: 0 <= i < n ==> !steps[i].Crash?
    requires Held(states[n].store, name, states[n].clock)
    ensures HasOwner(states[n], name)
    decreases n
  {
    if n > 0 {
      var s, t, step := states[n - 1], states[n], steps[n - 1];
      RunKeepsInvariant(states, steps, n - 1);
      LateTokensAreGone(states, steps, n - 1);
      if step.Enter? && step.name == name && step.w in t.inside {
        assert t.inside[step.w] == Section(name, t.store[name].token, t.store[name].expires);
      } else {
        HeldKeysHaveOwners(states, steps, n - 1, name);
        var v :| v in s.inside && s.inside[v] == Section(name, s.store[name].token, s.store[name].expires);
        assert v in t.inside && t.inside[v] == Section(name, t.store[name].token, t.store[name].expires);
      }
    }
  }

  /** With a positive TTL and no crashes, a worker gets in exactly when nobody inside the name is in time. */
  lemma EntersIffNobodyInTime(states: seq<State>, steps: seq<Step>, n: nat)
    requires IsRun(states, steps) && n < |steps| && steps[n].Enter? && steps[n].ttl > 0
    requires forall i :: 0 <= i < n ==> !steps[i].Crash?
    ensures steps[n].w in states[n + 1].inside <==> forall v :: !InTime(states[n], v, steps[n].name)
  {
    var s, name := states[n], steps[n].name;
    RunKeepsInvariant(states, steps, n);
    if Held(s.store, name, s.clock) {
      HeldKeysHaveOwners(states, steps, n, name);
      var v :| v in s.inside && s.inside[v] == Section(name, s.store[name].token, s.store[name].expires);
      assert InTime(s, v, name);
    } else {
      forall v ensures !InTime(s, v, name) {
        assert InTime(s, v, name) ==> OwnsKey(s, v);
      }
    }
  }

  ghost predicate Shares(s: State, v: Worker, w: Worker) {
    v != w && v in s.inside && w in s.inside && s.inside[v].name == s.inside[w].name
  }

  /** The step lets one of the two into the name in which the other is past its deadline. */
  ghost predicate EntersBeside(s: State, step: Step, late: Worker, w: Worker) {
    step.Enter? && step.w == w && SetSucceeds(s.store, step.name, step.ttl, s.clock)
    && late in s.inside && s.inside[late].name == step.name && s.clock >= s.inside[late].deadline
  }

  /** Two workers begin to share a name exactly where one is let in beside the other's overrun body. */
  lemma SharingStartsIff(states: seq<State>, steps: seq<Step>, n: nat, v: Worker, w: Worker)
    requires IsRun(states, steps) && n < |steps| && !Shares(states[n], v, w)
    ensures Shares(states[n + 1], v, w) <==>
      (EntersBeside(states[n], steps[n], v, w) || EntersBeside(states[n], steps[n], w, v))
  {
    RunKeepsInvariant(states, steps, n);
    var s := states[n];
    forall u | u in s.inside ensures s.clock < s.inside[u].deadline ==> Held(s.store, s.inside[u].name, s.clock) {
      assert s.clock < s.inside[u].deadline ==> OwnsKey(s, u);
    }
  }

  /** The condition is needed: a body that outlives its TTL shares the name with the next worker. */
  lemma SlowBodySharesTheName(name: Name, ttl: int) returns (states: seq<State>, steps: seq<Step>)
    requires ttl > 0
    ensures IsRun(states, steps) && |steps| == 3
    ensures var s := states[3]; 0 in s.inside && 1 in s.inside && s.inside[0].name == s.inside[1].name == name
  {
    var s0 := State(0, map[], map[], {});
    steps := [Enter(0, name, 0, ttl), Tick(ttl), Enter(1, name, 1, ttl)];
    var s1 := Apply(s0, steps[0]);
    var s2 := Apply(s1, steps[1]);
    states := [s0, s1, s2, Apply(s2, steps[2])];
  }

  // ----- The context manager -----

  class RedisLock {
    var clock: int
    var store: Store
    var inside: map<Worker, Section>
    var issued: set<Token>

    constructor (now: int)
      ensures Abstract() == State(now, map[], map[], {})
    {
      clock, store, inside, issued := now, map[], map[], {};
    }

    ghost function Abstract(): State
      reads this
    {
      State(clock, store, inside, issued)
    }

    method SetNxEx(name: Name, token: Token, ttl: int) returns (ok: bool)
      modifies this`store
      ensures ok <==> SetSucceeds(old(store), name, ttl, clock)
      ensures store == if ok then old(store)[name := Entry(token, clock + ttl)] else old(store)
    {
      ok := ttl > 0 && !(name in store && clock < store[name].expires);
      if ok {
        store := store[name := Entry(token, clock + ttl)];
      }
    }

    /** The release script: get, compare, delete. */
    method CompareAndDelete(name: Name, token: Token) returns (deleted: nat)
      modifies this`store
      ensures store == Released(old(store), name, token, clock)
      ensures deleted == if Held(old(store), name, clock) && old(store)[name].token == token then 1 else 0
      ensures store == if deleted == 1 then old(store) - {name} else old(store)
      ensures deleted == 1 <==>
        name in old(store) && clock < old(store)[name].expires && old(store)[name].token == token
    {
      deleted := 0;
      if name in store && clock < store[name].expires && store[name].token == token {
        store := store - {name};
        deleted := 1;
      }
    }

    /** False where the source raises LockNotAcquired. */
    method Acquire(w: Worker, name: Name, token: Token, ttl: int) returns (ok: bool)
      requires w !in inside && token !in issued
      modifies this`store, this`inside, this`issued
      ensures Abstract() == Apply(old(Abstract()), Enter(w, name, token, ttl))
      ensures ok <==> w in inside
      ensures ok <==> ttl > 0 && (name in old(store) ==> old(store)[name].expires <= clock)
      ensures store == if ok then old(store)[name := Entry(token, clock + ttl)] else old(store)
    {
      issued := issued + {token};
      ok := SetNxEx(name, token, ttl);
      if ok {
        inside := inside[w := Section(name, token, clock + ttl)];
      }
    }

    method Exit(w: Worker)
      requires w in inside
      modifies this`store, this`inside
      ensures Abstract() == Apply(old(Abstract()), Leave(w))
    {
      var deleted := CompareAndDelete(inside[w].name, inside[w].token);
      inside := inside - {w};
    }
  }
}
