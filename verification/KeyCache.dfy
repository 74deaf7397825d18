/**
 API-key verification through a 30-second row cache, and the signal handlers
 that empty it (apps/api_keys/services.py, apps/api_keys/signals.py).  The
 handlers of a transaction run before it commits.

 A key is named by its lookup prefix, which is unique and never edited.
 */
module KeyCache {
  import opened Wrappers

  type Key = nat
  type Account = nat

  datatype KeyRow = KeyRow(hash: string, permissions: set<string>, expires: Option<int>, revoked: Option<int>,
                           issuer: Option<int>, workspace: int)

  /** What the cache holds: the row with its prefetched allowlist. */
  datatype View = View(row: KeyRow, accounts: set<Account>)

  datatype Entry = Entry(view: View, readAt: int, setAt: int)

  /** keys, the key/account relation, and the (user, workspace) memberships. */
  datatype Db = Db(keys: map<Key, KeyRow>, links: set<(Key, Account)>, members: set<(int, int)>)

  const CACHE_TTL := 30

  function ViewOf(db: Db, k: Key): View
    requires k in db.keys
  {
    View(db.keys[k], set l | l in db.links && l.0 == k :: l.1)
  }

  function Related(db: Db, a: Account): set<Key> {
    set l | l in db.links && l.1 == a :: l.0
  }

  predicate IsActive(row: KeyRow, now: int) {
    row.revoked.None? && !(row.expires.Some? && row.expires.value <= now)
  }

  predicate IssuerAuthorized(db: Db, row: KeyRow) {
    row.issuer.Some? && (row.issuer.value, row.workspace) in db.members
  }

  predicate IsLive(e: Entry, now: int) {
    now < e.setAt + CACHE_TTL
  }

  /** The view a verification works on: the live cache entry, else the stored row. */
  function Served(db: Db, cache: map<Key, Entry>, k: Key, now: int): Option<View> {
    if k in cache && IsLive(cache[k], now) then Some(cache[k].view)
    else if k in db.keys then Some(ViewOf(db, k))
    else None
  }

  function Verified(db: Db, cache: map<Key, Entry>, k: Key, hash: string, now: int): Option<View> {
    match Served(db, cache, k, now)
    case None => None
    case Some(v) =>
      if IsActive(v.row, now) && hash == v.row.hash && IssuerAuthorized(db, v.row) then Some(v) else None
  }

  /**
   A key is accepted exactly when the view at hand (the cached one for less than
   30 seconds after it was stored there, else the stored row with its accounts)
   has the digest presented, is neither revoked nor expired, and was issued by
   someone who is still a member of its workspace; that view is then returned.
   */
  lemma AcceptedIff(db: Db, cache: map<Key, Entry>, k: Key, hash: string, now: int, view: View)
    requires if k in cache && now - cache[k].setAt < 30 then view == cache[k].view
             else k in db.keys && view.row == db.keys[k] && forall a :: a in view.accounts <==> (k, a) in db.links
    ensures Verified(db, cache, k, hash, now) ==
      if view.row.hash == hash && view.row.revoked.None? && (view.row.expires.None? || now < view.row.expires.value)
         && view.row.issuer.Some? && (view.row.issuer.value, view.row.workspace) in db.members
      then Some(view) else None
  {
    if !(k in cache && now - cache[k].setAt < 30) {
      StoredView(db, k, view);
    }
    hide ViewOf;
  }

  /** Without a fresh entry and a stored row nothing is accepted. */
  lemma UnknownKeyIsRefused(db: Db, cache: map<Key, Entry>, k: Key, hash: string, now: int)
    requires !(k in cache && now - cache[k].setAt < 30) && k !in db.keys
    ensures Verified(db, cache, k, hash, now) == None
  {
  }

  lemma StoredView(db: Db, k: Key, view: View)
    requires k in db.keys && view.row == db.keys[k] && forall a :: a in view.accounts <==> (k, a) in db.links
    ensures view == ViewOf(db, k)
  {
    forall a ensures a in view.accounts <==> a in ViewOf(db, k).accounts {
      if a in view.accounts {
        assert (k, a).0 == k && (k, a).1 == a;
      }
      if a in ViewOf(db, k).accounts {
        var l :| l in db.links && l.0 == k && l.1 == a;
        assert l == (k, a);
      }
    }
    assert view.accounts == ViewOf(db, k).accounts;
  }

  function Linked(db: Db, a: Account, keys: set<Key>, attach: bool): Db {
    var pairs := set k | k in keys :: (k, a);
    db.(links := if attach then db.links + pairs else db.links - pairs)
  }

  function WithAccounts(db: Db, k: Key, accounts: set<Account>): Db {
    db.(links := (set l | l in db.links && l.0 != k) + (set a | a in accounts :: (k, a)))
  }

  function Cleared(db: Db, a: Account): Db {
    db.(links := set l | l in db.links && l.1 != a)
  }

  /** The edits of the relation, link by link; they leave rows and members alone. */
  lemma EditsOfLinks(db: Db, k: Key, a: Account, keys: set<Key>, attach: bool, accounts: set<Account>, j: Key,
                     b: Account)
    ensures (j, b) in Linked(db, a, keys, attach).links <==> if b == a && j in keys then attach else (j, b) in db.links
    ensures (j, b) in WithAccounts(db, k, accounts).links <==> if j == k then b in accounts else (j, b) in db.links
    ensures (j, b) in Cleared(db, a).links <==> (j, b) in db.links && b != a
    ensures Linked(db, a, keys, attach).keys == WithAccounts(db, k, accounts).keys == Cleared(db, a).keys == db.keys
    ensures Linked(db, a, keys, attach).members == WithAccounts(db, k, accounts).members == Cleared(db, a).members
         == db.members
  {
    var l := (j, b);
    assert l.0 == j && l.1 == b;
  }

  // ----- The service, undisturbed -----

  class KeyService {
    var db: Db
    var cache: map<Key, Entry>

    constructor (db: Db)
      ensures this.db == db && cache == map[]
    {
      this.db, cache := db, map[];
    }

    method Invalidate(k: Key)
      modifies this`cache
      ensures cache == old(cache) - {k}
    {
      cache := cache - {k};
    }

    method InvalidateAll(keys: set<Key>)
      modifies this`cache
      ensures cache == old(cache) - keys
    {
      var left := keys;
      while left != {}
        invariant left <= keys
        invariant cache == old(cache) - (keys - left)
        decreases left
      {
        var k :| k in left;
        Invalidate(k);
        left := left - {k};
      }
    }

    /** The token is already parsed: `k` is its lookup part, `hash` the digest of its secret part. */
    method VerifyToken(k: Key, hash: string, now: int) returns (result: Option<View>)
      modifies this`cache
      ensures result == Verified(db, old(cache), k, hash, now)
      ensures result.Some? ==> var row := result.value.row;
        row.hash == hash && row.revoked.None? && (row.expires.None? || now < row.expires.value)
        && row.issuer.Some? && (row.issuer.value, row.workspace) in db.members
      ensures cache - {k} == old(cache) - {k}
      ensures k in cache && k in old(cache) && IsLive(old(cache)[k], now) ==> cache[k] == old(cache)[k]
      ensures k in cache && !(k in old(cache) && IsLive(old(cache)[k], now)) ==>
        k in db.keys && cache[k] == Entry(ViewOf(db, k), now, now)
      ensures result.Some? ==> k in cache
      ensures k in cache ==> var row := cache[k].view.row;
        row.revoked.None? && (row.expires.None? || now < row.expires.value)
    {
      var view: View;
      if k in cache && IsLive(cache[k], now) {
        view := cache[k].view;
      } else {
        cache := cache - {k};
        if k !in db.keys {
          return None;
        }
        view := ViewOf(db, k);
        if IsActive(view.row, now) {
          cache := cache[k := Entry(view, now, now)];
        }
      }
      if !IsActive(view.row, now) {
        Invalidate(k);
        return None;
      }
      if hash != view.row.hash {
        return None;
      }
      if !IssuerAuthorized(db, view.row) {
        Invalidate(k);
        return None;
      }
      return Some(view);
    }

    /** Every save of a key row fires the handler. */
    method Save(k: Key, row: KeyRow)
      modifies this
      ensures db == old(db).(keys := old(db).keys[k := row]) && cache == old(cache) - {k}
    {
      db := db.(keys := db.keys[k := row]);
      Invalidate(k);
    }

    method Revoke(k: Key, now: int)
      requires k in db.keys
      modifies this
      ensures k in db.keys && db.keys[k] == old(db).keys[k].(revoked :=
        if old(db).keys[k].revoked.None? then Some(now) else old(db).keys[k].revoked)
      ensures db == old(db).(keys := old(db).keys[k := db.keys[k]])
      ensures cache == old(cache) - {k}
      ensures forall hash, later :: Verified(db, cache, k, hash, later) == None
    {
      if db.keys[k].revoked.None? {
        Save(k, db.keys[k].(revoked := Some(now)));
      }
      Invalidate(k);
    }

    /** Forward add, remove, set and clear all end with the key's own row. */
    method SetAccounts(k: Key, accounts: set<Account>)
      modifies this
      ensures db == WithAccounts(old(db), k, accounts) && cache == old(cache) - {k}
    {
      db := WithAccounts(db, k, accounts);
      Invalidate(k);
    }

    method ReverseChange(a: Account, keys: set<Key>, attach: bool)
      modifies this
      ensures db == Linked(old(db), a, keys, attach) && cache == old(cache) - keys
    {
      db := Linked(db, a, keys, attach);
      if keys != {} {
        InvalidateAll(keys);
      }
    }

    /** The relation is gone after the clear, so the keys are listed before it. */
    method ReverseClear(a: Account)
      modifies this
      ensures db == Cleared(old(db), a) && cache == old(cache) - Related(old(db), a)
    {
      var ids := Related(db, a);
      db := Cleared(db, a);
      InvalidateAll(ids);
    }
  }

  // ----- Concurrent requests and edits -----

  type Worker = nat
  type Writer = nat

  datatype Fetch = Fetch(key: Key, view: View, readAt: int)

  /** What the statements of an open transaction will change when it commits. */
  datatype Change = Change(rows: map<Key, KeyRow>, removed: set<(Key, Account)>, added: set<(Key, Account)>)

  /** The keys that had an account when a reverse clear was about to delete its links. */
  datatype Listing = Listing(account: Account, keys: set<Key>)

  /** owed: the invalidations that the handlers of the last statement have not sent yet. */
  datatype Tx = Tx(change: Change, owed: set<Key>, listed: Option<Listing>)

  const BLANK := Tx(Change(map[], {}, {}), {}, None)

  function Committed(db: Db, change: Change): Db {
    db.(keys := db.keys + change.rows, links := db.links - change.removed + change.added)
  }

  function KeysOf(pairs: set<(Key, Account)>): set<Key> {
    set p | p in pairs :: p.0
  }

  /** A delete takes the links it sees, and an insert adds the missing ones. */
  function Relinked(change: Change, seen: set<(Key, Account)>, pairs: set<(Key, Account)>, attach: bool): Change {
    if attach
    then change.(removed := change.removed - pairs, added := change.added + (pairs - seen))
    else change.(removed := change.removed + (pairs * seen), added := change.added - pairs)
  }

  function LinksTo(db: Db, a: Account): set<(Key, Account)> {
    set l | l in db.links && l.1 == a
  }

  /** pending: invalidations owed by autocommitted saves. */
  datatype State = State(db: Db, cache: map<Key, Entry>, now: int, fetches: map<Worker, Fetch>, pending: multiset<Key>,
                         txs: map<Writer, Tx>)

  /**
   SaveNow commits a row before its handler runs, as a revocation does.  The edits
   of the relation, and the admin's saves, run their handlers inside a transaction:
   Save, Link, List and Delete are its statements, Bust a handler's invalidation.
   */
  datatype Step =
    | SaveNow(k: Key, row: KeyRow)
    | BustNow(k: Key)
    | Open(t: Writer)
    | Save(t: Writer, k: Key, row: KeyRow)
    | Link(t: Writer, pairs: set<(Key, Account)>, attach: bool)
    | List(t: Writer, a: Account)
    | Delete(t: Writer)
    | Bust(t: Writer, k: Key)
    | Commit(t: Writer)
    | Rollback(t: Writer)
    | SetMembers(members: set<(int, int)>)
    | ReadAndFill(k: Key)
    | BeginRead(w: Worker, k: Key)
    | EndFill(w: Worker)
    | Drop(k: Key)              // a verification found the row inactive or its issuer gone
    | Tick(to: int)

  /** The handlers of the last statement have run, and no clear is halfway. */
  predicate IsIdle(s: State, t: Writer) {
    t in s.txs && s.txs[t].owed == {} && s.txs[t].listed.None?
  }

  ghost predicate Enabled(s: State, step: Step) {
    match step
    case BustNow(k) => k in s.pending
    case Open(t) => t !in s.txs
    case Save(t, k, row) => IsIdle(s, t)
    case Link(t, pairs, attach) => IsIdle(s, t)
    case List(t, a) => IsIdle(s, t)
    case Delete(t) => t in s.txs && s.txs[t].listed.Some?
    case Bust(t, k) => t in s.txs && k in s.txs[t].owed
    case Commit(t) => IsIdle(s, t)
    case Rollback(t) => t in s.txs
    case ReadAndFill(k) => k in s.db.keys
    case BeginRead(w, k) => k in s.db.keys && w !in s.fetches
    case EndFill(w) => w in s.fetches
    case Tick(to) => s.now <= to
    case _ => true
  }

  /**
   Who may do what: a verification may read or fill at any time, a transaction goes
   on to its next statement or its commit once its handlers have run, and it may be
   rolled back at any time.
   */
  lemma StepsPossible(s: State, t: Writer, k: Key, row: KeyRow, pairs: set<(Key, Account)>, attach: bool, a: Account,
                      members: set<(int, int)>, w: Worker, now: int)
    ensures Enabled(s, SaveNow(k, row)) && Enabled(s, SetMembers(members)) && Enabled(s, Drop(k))
    ensures (Enabled(s, Open(t)) <==> t !in s.txs) && (Enabled(s, Rollback(t)) <==> t in s.txs)
    ensures t in s.txs ==>
      var idle := s.txs[t].owed == {} && s.txs[t].listed.None?;
      (Enabled(s, Save(t, k, row)) <==> idle) && (Enabled(s, Link(t, pairs, attach)) <==> idle)
      && (Enabled(s, List(t, a)) <==> idle) && (Enabled(s, Commit(t)) <==> idle)
      && (Enabled(s, Delete(t)) <==> s.txs[t].listed.Some?) && (Enabled(s, Bust(t, k)) <==> k in s.txs[t].owed)
    ensures (Enabled(s, ReadAndFill(k)) <==> k in s.db.keys) && (Enabled(s, BustNow(k)) <==> k in s.pending)
    ensures (Enabled(s, BeginRead(w, k)) <==> k in s.db.keys && w !in s.fetches)
    ensures (Enabled(s, EndFill(w)) <==> w in s.fetches) && (Enabled(s, Tick(now)) <==> s.now <= now)
  {
  }

  ghost function Fill(s: State, k: Key, view: View, readAt: int): map<Key, Entry> {
    if IsActive(view.row, s.now) then s.cache[k := Entry(view, readAt, s.now)] else s.cache
  }

  /** The committed tables with the transaction's own changes. */
  ghost function Seen(s: State, t: Writer): Db
    requires t in s.txs
  {
    Committed(s.db, s.txs[t].change)
  }

  /** The transaction after its next statement or invalidation. */
  ghost function NextTx(s: State, step: Step): Tx
    requires (step.Save? || step.Link? || step.List? || step.Delete? || step.Bust?) && Enabled(s, step)
  {
    var tx, seen := s.txs[step.t], Seen(s, step.t);
    match step
    case Save(_, k, row) => tx.(change := tx.change.(rows := tx.change.rows[k := row]), owed := {k})
    case Link(_, pairs, attach) =>
      tx.(change := Relinked(tx.change, seen.links, pairs, attach), owed := KeysOf(pairs))
    case List(_, a) => tx.(listed := Some(Listing(a, Related(seen, a))))
    case Delete(_) =>
      Tx(Relinked(tx.change, seen.links, LinksTo(seen, tx.listed.value.account), false),
         tx.owed + tx.listed.value.keys, None)
    case Bust(_, k) => tx.(owed := tx.owed - {k})
  }

  ghost function Apply(s: State, step: Step): State
    requires Enabled(s, step)
  {
    match step
    case SaveNow(k, row) => s.(db := s.db.(keys := s.db.keys[k := row]), pending := s.pending + multiset{k})
    case BustNow(k) => s.(cache := s.cache - {k}, pending := s.pending - multiset{k})
    case Open(t) => s.(txs := s.txs[t := BLANK])
    case Bust(t, k) => s.(cache := s.cache - {k}, txs := s.txs[t := NextTx(s, step)])
    case Commit(t) => s.(db := Seen(s, t), txs := s.txs - {t})
    case Rollback(t) => s.(txs := s.txs - {t})
    case SetMembers(members) => s.(db := s.db.(members := members))
    case ReadAndFill(k) => s.(cache := Fill(s, k, ViewOf(s.db, k), s.now))
    case BeginRead(w, k) => s.(fetches := s.fetches[w := Fetch(k, ViewOf(s.db, k), s.now)])
    case EndFill(w) =>
      var f := s.fetches[w];
      s.(cache := Fill(s, f.key, f.view, f.readAt), fetches := s.fetches - {w})
    case Drop(k) => s.(cache := s.cache - {k})
    case Tick(to) => s.(now := to)
    case _ => s.(txs := s.txs[step.t := NextTx(s, step)])
  }

  /** What a statement changes in the transaction's own sight: the row, the pairs, all links of the cleared account. */
  lemma StatementsInSight(s: State, step: Step, j: Key, b: Account)
    requires (step.Save? || step.Link? || step.Delete?) && Enabled(s, step)
    ensures var before, after := Seen(s, step.t), Seen(Apply(s, step), step.t);
      after.keys == (if step.Save? then before.keys[step.k := step.row] else before.keys)
      && ((j, b) in after.links <==>
            if step.Link? && (j, b) in step.pairs then step.attach
            else (j, b) in before.links && !(step.Delete? && b == s.txs[step.t].listed.value.account))
  {
    var l := (j, b);
    assert l.1 == b;
  }

  /** Other requests see the tables change at commits and autocommitted saves only. */
  lemma TablesChangeAtCommits(s: State, step: Step)
    requires Enabled(s, step)
    ensures Apply(s, step).db ==
      if step.Commit? then Seen(s, step.t)
      else if step.SaveNow? then s.db.(keys := s.db.keys[step.k := step.row])
      else if step.SetMembers? then s.db.(members := step.members) else s.db
  {
  }

  ghost predicate Fresh(s: State) {
    s.cache == map[] && s.fetches == map[] && s.pending == multiset{} && s.txs == map[]
  }

  ghost predicate IsRun(states: seq<State>, steps: seq<Step>) {
    |states| == |steps| + 1 && Fresh(states[0])
    && forall i :: 0 <= i < |steps| ==> Enabled(states[i], steps[i]) && states[i + 1] == Apply(states[i], steps[i])
  }

  // ----- Staleness is bounded in every run -----

  ghost predicate FillsWithin(s: State, step: Step, delay: int) {
    step.EndFill? && step.w in s.fetches ==> s.now - s.fetches[step.w].readAt <= delay
  }

  /** The view was the stored row of k at time t of the run. */
  ghost predicate WasStored(states: seq<State>, n: nat, k: Key, view: View, t: int)
    requires n < |states|
  {
    exists i :: 0 <= i <= n && states[i].now == t && k in states[i].db.keys && ViewOf(states[i].db, k) == view
  }

  lemma StoredBefore(states: seq<State>, n: nat, k: Key, view: View, t: int)
    requires 0 < n < |states| && WasStored(states, n - 1, k, view, t)
    ensures WasStored(states, n, k, view, t)
  {
    var i :| 0 <= i <= n - 1 && states[i].now == t && k in states[i].db.keys && ViewOf(states[i].db, k) == view;
  }

  lemma StoredNow(states: seq<State>, n: nat, k: Key)
    requires 0 < n < |states| && k in states[n - 1].db.keys
    ensures WasStored(states, n, k, ViewOf(states[n - 1].db, k), states[n - 1].now)
  {
    StoredBefore(states, n, k, ViewOf(states[n - 1].db, k), states[n - 1].now);
  }

  /** Entries and pending fetches hold views that were stored when they were read. */
  ghost predicate Sourced(states: seq<State>, n: nat, delay: int)
    requires n < |states|
  {
    var s := states[n];
    (forall k :: k in s.cache ==>
       WasStored(states, n, k, s.cache[k].view, s.cache[k].readAt) && s.cache[k].setAt - s.cache[k].readAt <= delay)
    && (forall w :: w in s.fetches ==>
          WasStored(states, n, s.fetches[w].key, s.fetches[w].view, s.fetches[w].readAt))
  }

  lemma StepKeepsSourced(states: seq<State>, step: Step, n: nat, delay: nat)
    requires 0 < n < |states| && Sourced(states, n - 1, delay)
    requires Enabled(states[n - 1], step) && states[n] == Apply(states[n - 1], step)
    requires FillsWithin(states[n - 1], step, delay)
    ensures Sourced(states, n, delay)
  {
    hide WasStored, ViewOf;
    var s, t := states[n - 1], states[n];
    forall k | k in t.cache
      ensures WasStored(states, n, k, t.cache[k].view, t.cache[k].readAt)
      ensures t.cache[k].setAt - t.cache[k].readAt <= delay
    {
      if k in s.cache && t.cache[k] == s.cache[k] {
        StoredBefore(states, n, k, s.cache[k].view, s.cache[k].readAt);
      } else if step.ReadAndFill? {
        StoredNow(states, n, k);
      } else {
        StoredBefore(states, n, k, s.fetches[step.w].view, s.fetches[step.w].readAt);
      }
    }
    forall w | w in t.fetches ensures WasStored(states, n, t.fetches[w].key, t.fetches[w].view, t.fetches[w].readAt) {
      if w in s.fetches {
        StoredBefore(states, n, s.fetches[w].key, s.fetches[w].view, s.fetches[w].readAt);
      } else {
        StoredNow(states, n, t.fetches[w].key);
      }
    }
  }

  lemma {:induction false} HeldViewsWereStored(states: seq<State>, steps: seq<Step>, n: nat, delay: nat)
    requires IsRun(states, steps) && n < |states|
    requires forall i :: 0 <= i < |steps| ==> FillsWithin(states[i], steps[i], delay)
    ensures Sourced(states, n, delay)
    decreases n
  {
    if n > 0 {
      HeldViewsWereStored(states, steps, n - 1, delay);
      hide Sourced;
      StepKeepsSourced(states, steps[n - 1], n, delay);
    }
  }

  /**
   Whatever the interleaving, a view accepted at time t was the stored row at
   some moment later than t - 30 s - the longest delay between a read and its fill.
   */
  lemma AcceptedViewWasRecentlyStored(states: seq<State>, steps: seq<Step>, n: nat, delay: nat, k: Key, hash: string)
    requires IsRun(states, steps) && n < |states|
    requires forall i :: 0 <= i < |steps| && steps[i].EndFill? && steps[i].w in states[i].fetches ==>
      states[i].now - states[i].fetches[steps[i].w].readAt <= delay
    requires var s := states[n]; Verified(s.db, s.cache, k, hash, s.now).Some?
    ensures var s := states[n];
      exists t :: s.now - 30 - delay < t
                  && WasStored(states, n, k, Verified(s.db, s.cache, k, hash, s.now).value, t)
  {
    HeldViewsWereStored(states, steps, n, delay);
    var s := states[n];
    var v := Verified(s.db, s.cache, k, hash, s.now).value;
    if k in s.cache && IsLive(s.cache[k], s.now) {
      assert WasStored(states, n, k, v, s.cache[k].readAt);
    } else {
      assert WasStored(states, n, k, v, s.now);
    }
  }

  /** A request that missed accepts the view it read itself: stored no longer ago than its own delay. */
  lemma FetchedViewWasRecentlyStored(states: seq<State>, steps: seq<Step>, n: nat, delay: nat, w: Worker)
    requires IsRun(states, steps) && n < |steps| && steps[n] == EndFill(w)
    requires forall i :: 0 <= i < |steps| && steps[i].EndFill? && steps[i].w in states[i].fetches ==>
      states[i].now - states[i].fetches[steps[i].w].readAt <= delay
    ensures w in states[n].fetches
    ensures var f := states[n].fetches[w];
      states[n].now - delay <= f.readAt && WasStored(states, n, f.key, f.view, f.readAt)
  {
    HeldViewsWereStored(states, steps, n, delay);
    assert FillsWithin(states[n], steps[n], delay);
  }

  // ----- Exactly when the cache goes stale -----

  /** Every cached key that no autocommitted save still owes an invalidation shows the stored row. */
  ghost predicate Clean(s: State) {
    forall k :: k in s.cache && k !in s.pending ==> k in s.db.keys && s.cache[k].view == ViewOf(s.db, k)
  }

  lemma UntouchedView(before: Db, after: Db, k: Key)
    requires k in before.keys && k in after.keys && before.keys[k] == after.keys[k]
    requires forall a :: (k, a) in before.links <==> (k, a) in after.links
    ensures ViewOf(before, k) == ViewOf(after, k)
  {
    forall a ensures a in ViewOf(before, k).accounts <==> a in ViewOf(after, k).accounts {
      InView(before, k, a);
      InView(after, k, a);
    }
    hide ViewOf;
    assert ViewOf(before, k).accounts == ViewOf(after, k).accounts;
    assert ViewOf(before, k).row == ViewOf(after, k).row by {
      RowInView(before, k);
      RowInView(after, k);
    }
  }

  lemma RowInView(db: Db, k: Key)
    requires k in db.keys
    ensures ViewOf(db, k).row == db.keys[k]
  {
  }

  lemma InView(db: Db, k: Key, a: Account)
    requires k in db.keys
    ensures a in ViewOf(db, k).accounts <==> (k, a) in db.links
  {
    if a in ViewOf(db, k).accounts {
      var l :| l in db.links && l.0 == k && l.1 == a;
      assert l == (k, a);
    }
  }

  /** The link is there before and not after, or after and not before. */
  predicate FlipsLink(db: Db, change: Change, k: Key, a: Account) {
    if (k, a) in db.links then (k, a) in change.removed && (k, a) !in change.added else (k, a) in change.added
  }

  /** The change gives a stored key another row or another allowlist. */
  ghost predicate Touches(db: Db, change: Change, k: Key) {
    k in db.keys
    && ((k in change.rows && change.rows[k] != db.keys[k]) || exists a: Account :: FlipsLink(db, change, k, a))
  }

  lemma CommittedView(db: Db, change: Change, k: Key)
    requires k in db.keys
    ensures k in Committed(db, change).keys
    ensures ViewOf(Committed(db, change), k) != ViewOf(db, k) <==> Touches(db, change, k)
  {
    var after := Committed(db, change);
    RowInView(db, k);
    RowInView(after, k);
    forall a: Account ensures (k, a) in after.links <==> ((k, a) in db.links <==> !FlipsLink(db, change, k, a)) {
    }
    if Touches(db, change, k) {
      if a: Account :| FlipsLink(db, change, k, a) {
        InView(db, k, a);
        InView(after, k, a);
      }
    } else {
      hide ViewOf, FlipsLink;
      UntouchedView(db, after, k);
    }
  }

  /** A cached key that the transaction changes and that no autocommitted save will still invalidate. */
  ghost predicate LeftByCommit(s: State, t: Writer, k: Key)
    requires t in s.txs
  {
    k in s.cache && k !in s.pending && Touches(s.db, s.txs[t].change, k)
  }

  /**
   A commit leaves a stale entry behind exactly when a key that it changes is
   cached at that moment, with no other invalidation outstanding: its own
   invalidations came before, and it has none left.
   */
  lemma CommitStaysCleanIff(s: State, t: Writer)
    requires Clean(s) && Enabled(s, Commit(t))
    ensures Clean(Apply(s, Commit(t))) <==> forall k :: !LeftByCommit(s, t, k)
  {
    var after := Apply(s, Commit(t));
    forall k | k in after.cache && k !in after.pending
      ensures k in after.db.keys && (after.cache[k].view == ViewOf(after.db, k) <==> !LeftByCommit(s, t, k))
    {
      CommittedView(s.db, s.txs[t].change, k);
    }
    forall k ensures LeftByCommit(s, t, k) ==> k in after.cache && k !in after.pending {
    }
  }

  /** The change of a transaction that did nothing but clear the account. */
  ghost predicate OnlyUnlinks(change: Change, a: Account) {
    change.rows == map[] && change.added == {} && forall p :: p in change.removed ==> p.1 == a
  }

  /** For a reverse clear alone: when a key whose link it deletes is still linked and cached by then. */
  lemma ClearStaysCleanIff(s: State, t: Writer, a: Account)
    requires Clean(s) && Enabled(s, Commit(t))
    requires OnlyUnlinks(s.txs[t].change, a)
    ensures Clean(Apply(s, Commit(t))) <==>
      forall k :: k in s.cache && k !in s.pending && (k, a) in s.db.links ==> (k, a) !in s.txs[t].change.removed
  {
    CommitStaysCleanIff(s, t);
    var change := s.txs[t].change;
    forall k | k in s.cache && k !in s.pending
      ensures LeftByCommit(s, t, k) <==> (k, a) in s.db.links && (k, a) in change.removed
    {
      assert FlipsLink(s.db, change, k, a) <==> (k, a) in s.db.links && (k, a) in change.removed;
    }
  }

  /** A late fill is harmless: the row is inactive, the key is owed an invalidation, or the view is still stored. */
  ghost predicate FillsCurrent(s: State, f: Fetch) {
    IsActive(f.view.row, s.now) ==> f.key in s.pending || (f.key in s.db.keys && f.view == ViewOf(s.db, f.key))
  }

  /** A fill apart from its read leaves a stale entry behind exactly when it is not harmless in one of these ways. */
  lemma FillStaysCleanIff(s: State, w: Worker)
    requires Clean(s) && Enabled(s, EndFill(w))
    ensures Clean(Apply(s, EndFill(w))) <==> FillsCurrent(s, s.fetches[w])
  {
    var t, f := Apply(s, EndFill(w)), s.fetches[w];
    if IsActive(f.view.row, s.now) {
      assert f.key in t.cache && t.cache[f.key].view == f.view;
    }
  }

  ghost predicate StaysClean(s: State, step: Step)
    requires Enabled(s, step)
  {
    match step
    case Commit(t) => forall k :: !LeftByCommit(s, t, k)
    case EndFill(w) => FillsCurrent(s, s.fetches[w])
    case _ => true
  }

  /** These two are the only steps that can make the cache stale. */
  lemma StepStaysCleanIff(s: State, step: Step)
    requires Clean(s) && Enabled(s, step)
    ensures Clean(Apply(s, step)) <==> StaysClean(s, step)
  {
    match step
    case Commit(t) => CommitStaysCleanIff(s, t);
    case EndFill(w) => FillStaysCleanIff(s, w);
    case _ => OtherStepsStayClean(s, step);
  }

  lemma OtherStepsStayClean(s: State, step: Step)
    requires Clean(s) && Enabled(s, step) && !step.Commit? && !step.EndFill?
    ensures Clean(Apply(s, step))
  {
    hide NextTx, Seen;
    var t := Apply(s, step);
    if step.SaveNow? {
      forall k | k in t.cache && k !in t.pending ensures ViewOf(t.db, k) == ViewOf(s.db, k) {
        assert k != step.k;
      }
    }
  }

  /** Over whole runs: the cache never goes stale exactly when every commit and every late fill was harmless. */
  lemma {:induction false} RunStaysCleanIff(states: seq<State>, steps: seq<Step>, n: nat)
    requires IsRun(states, steps) && n < |states|
    ensures (forall i :: 0 <= i <= n ==> Clean(states[i])) <==>
      (forall i :: 0 <= i < n ==> StaysClean(states[i], steps[i]))
    decreases n
  {
    hide Clean, StaysClean, Apply;
    if n == 0 {
      FreshIsClean(states[0]);
    } else {
      var m := n - 1;
      RunStaysCleanIff(states, steps, m);
      assert states[m + 1] == Apply(states[m], steps[m]);
      if Clean(states[m]) {
        StepStaysCleanIff(states[m], steps[m]);
      }
      assert (forall i :: 0 <= i <= n ==> Clean(states[i])) <==>
        (forall i :: 0 <= i <= m ==> Clean(states[i])) && Clean(states[n]);
      assert (forall i :: 0 <= i < n ==> StaysClean(states[i], steps[i])) <==>
        (forall i :: 0 <= i < m ==> StaysClean(states[i], steps[i])) && StaysClean(states[m], steps[m]);
    }
  }

  lemma FreshIsClean(s: State)
    requires Fresh(s)
    ensures Clean(s)
  {
  }

  /** Once every autocommitted save of k has invalidated, a verification works on the stored row, not an older one. */
  lemma InvalidatedKeyIsCurrent(states: seq<State>, steps: seq<Step>, n: nat, k: Key)
    requires IsRun(states, steps) && n < |states| && forall i :: 0 <= i < n ==> StaysClean(states[i], steps[i])
    requires k in states[n].db.keys && k !in states[n].pending
    ensures Served(states[n].db, states[n].cache, k, states[n].now) == Some(ViewOf(states[n].db, k))
  {
    RunStaysCleanIff(states, steps, n);
  }

  // ----- Which schedules keep it clean -----

  ghost predicate IsAtomic(step: Step) {
    !step.BeginRead? && !step.EndFill?
  }

  /** Nobody else's commit gives the account a new key between a clear's listing and its delete. */
  ghost predicate NoAttachDuringClear(s: State, step: Step) {
    step.Commit? && step.t in s.txs ==>
      forall t, p :: t in s.txs && t != step.t && s.txs[t].listed.Some? && p in s.txs[step.t].change.added ==>
        p in s.db.links || p.1 != s.txs[t].listed.value.account
  }

  /** The transaction writes the key's row or one of its links. */
  ghost predicate Mentions(change: Change, k: Key) {
    k in change.rows || k in KeysOf(change.removed + change.added)
  }

  /** No verification fills the cache with a key between a transaction's invalidation of it and the commit. */
  ghost predicate NoFillBeforeCommit(s: State, step: Step) {
    step.ReadAndFill? ==>
      forall t :: t in s.txs && Mentions(s.txs[t].change, step.k) ==> step.k in s.txs[t].owed
  }

  /** The three schedules that keep the cache clean, in the fields of the transactions. */
  lemma SchedulesInFields(s: State, step: Step)
    ensures IsAtomic(step) <==> !step.BeginRead? && !step.EndFill?
    ensures NoFillBeforeCommit(s, step) <==>
      step.ReadAndFill? ==> forall t :: t in s.txs && step.k !in s.txs[t].owed ==>
        step.k !in s.txs[t].change.rows && forall p :: p in s.txs[t].change.removed + s.txs[t].change.added ==>
          p.0 != step.k
    ensures NoAttachDuringClear(s, step) <==>
      step.Commit? && step.t in s.txs ==>
        forall t :: t in s.txs && t != step.t && s.txs[t].listed.Some? ==>
          forall p :: p in s.txs[step.t].change.added && p.1 == s.txs[t].listed.value.account ==> p in s.db.links
  {
  }

  /** Every key with the account is on the list of the clear. */
  ghost predicate IsComplete(db: Db, listed: Option<Listing>) {
    listed.Some? ==> Related(db, listed.value.account) <= listed.value.keys
  }

  lemma InRelated(db: Db, a: Account, k: Key)
    ensures k in Related(db, a) <==> (k, a) in db.links
  {
    if k in Related(db, a) {
      var l :| l in db.links && l.1 == a && l.0 == k;
      assert l == (k, a);
    }
  }

  lemma FewerLinksStayComplete(before: Db, after: Db, listed: Option<Listing>)
    requires IsComplete(before, listed)
    requires listed.Some? ==> forall l :: l in after.links && l.1 == listed.value.account ==> l in before.links
    ensures IsComplete(after, listed)
  {
    if listed.Some? {
      var a := listed.value.account;
      forall k | k in Related(after, a) ensures k in listed.value.keys {
        InRelated(after, a, k);
        InRelated(before, a, k);
        assert (k, a) in after.links;
      }
    }
  }

  ghost predicate AllComplete(s: State) {
    forall t :: t in s.txs ==> IsComplete(Seen(s, t), s.txs[t].listed)
  }

  lemma StepKeepsComplete(s: State, step: Step)
    requires AllComplete(s) && Enabled(s, step) && NoAttachDuringClear(s, step)
    ensures AllComplete(Apply(s, step))
  {
    var after := Apply(s, step);
    hide IsComplete, Related, LinksTo, Relinked, ViewOf;
    forall t | t in after.txs ensures IsComplete(Seen(after, t), after.txs[t].listed) {
      if t !in s.txs || after.txs[t].listed.None? || (step.List? && step.t == t) {
        JustListed(Seen(after, t), after.txs[t].listed);
      } else {
        FewerLinksStayComplete(Seen(s, t), Seen(after, t), s.txs[t].listed);
      }
    }
  }

  lemma JustListed(db: Db, listed: Option<Listing>)
    requires listed.Some? ==> listed.value.keys == Related(db, listed.value.account)
    ensures IsComplete(db, listed)
  {
  }

  /** In every run without such an attach, a clear's list has every key that has the account. */
  lemma {:induction false} ListsStayComplete(states: seq<State>, steps: seq<Step>, n: nat)
    requires IsRun(states, steps) && n < |states|
    requires forall i :: 0 <= i < |steps| ==> NoAttachDuringClear(states[i], steps[i])
    ensures AllComplete(states[n])
    decreases n
  {
    if n > 0 {
      ListsStayComplete(states, steps, n - 1);
      hide AllComplete, NoAttachDuringClear, Apply, Enabled;
      StepKeepsComplete(states[n - 1], steps[n - 1]);
    }
  }

  /** What a transaction has written is not cached, unless its handlers still owe the invalidation. */
  ghost predicate Covered(s: State) {
    forall t, k :: t in s.txs && Mentions(s.txs[t].change, k) ==> k in s.txs[t].owed || k !in s.cache
  }

  /** What a statement adds to a transaction's writes it owes an invalidation. */
  lemma NewMentionsAreOwed(s: State, step: Step, k: Key)
    requires (step.Save? || step.Link? || step.Delete?) && Enabled(s, step)
    requires IsComplete(Seen(s, step.t), s.txs[step.t].listed)
    requires Mentions(NextTx(s, step).change, k) && !Mentions(s.txs[step.t].change, k)
    ensures k in NextTx(s, step).owed
  {
    var before, after := s.txs[step.t].change, NextTx(s, step).change;
    if k !in after.rows {
      var p :| p in after.removed + after.added && p.0 == k;
      assert p in before.removed + before.added ==> p.0 in KeysOf(before.removed + before.added);
      if step.Delete? {
        var a := s.txs[step.t].listed.value.account;
        assert p in LinksTo(Seen(s, step.t), a) && p == (k, a);
        InRelated(Seen(s, step.t), a, k);
      }
    }
  }

  lemma StepKeepsCovered(s: State, step: Step)
    requires Covered(s) && AllComplete(s) && Enabled(s, step) && IsAtomic(step) && NoFillBeforeCommit(s, step)
    ensures Covered(Apply(s, step))
  {
    var after := Apply(s, step);
    forall t, k | t in after.txs && Mentions(after.txs[t].change, k)
      ensures k in after.txs[t].owed || k !in after.cache
    {
      if (step.Save? || step.Link? || step.Delete?) && step.t == t {
        if !Mentions(s.txs[t].change, k) {
          NewMentionsAreOwed(s, step, k);
        }
      }
    }
  }

  lemma {:induction false} RunKeepsCovered(states: seq<State>, steps: seq<Step>, n: nat)
    requires IsRun(states, steps) && n < |states|
    requires forall i :: 0 <= i < |steps| ==>
      IsAtomic(steps[i]) && NoAttachDuringClear(states[i], steps[i]) && NoFillBeforeCommit(states[i], steps[i])
    ensures Covered(states[n])
    decreases n
  {
    if n > 0 {
      RunKeepsCovered(states, steps, n - 1);
      ListsStayComplete(states, steps, n - 1);
      hide Covered, AllComplete, NoAttachDuringClear, NoFillBeforeCommit, Apply, Enabled;
      StepKeepsCovered(states[n - 1], steps[n - 1]);
    }
  }

  lemma TouchedIsMentioned(db: Db, change: Change, k: Key)
    requires Touches(db, change, k)
    ensures Mentions(change, k)
  {
    if k !in change.rows {
      var a: Account :| FlipsLink(db, change, k, a);
      assert (k, a) in change.removed + change.added;
      assert (k, a).0 in KeysOf(change.removed + change.added);
    }
  }

  /**
   With atomic fills, no attach during a clear and no fill before a commit,
   invalidation alone makes every later verification of a saved or relinked key current.
   */
  lemma EditsPropagate(states: seq<State>, steps: seq<Step>, n: nat, k: Key)
    requires IsRun(states, steps) && n < |states|
    requires forall i :: 0 <= i < |steps| ==>
      IsAtomic(steps[i]) && NoAttachDuringClear(states[i], steps[i]) && NoFillBeforeCommit(states[i], steps[i])
    requires k in states[n].db.keys && k !in states[n].pending
    ensures Served(states[n].db, states[n].cache, k, states[n].now) == Some(ViewOf(states[n].db, k))
  {
    forall i | 0 <= i < n ensures StaysClean(states[i], steps[i]) {
      RunKeepsCovered(states, steps, i);
      CoveredStaysClean(states[i], steps[i]);
    }
    InvalidatedKeyIsCurrent(states, steps, n, k);
  }

  lemma CoveredStaysClean(s: State, step: Step)
    requires Covered(s) && Enabled(s, step) && IsAtomic(step)
    ensures StaysClean(s, step)
  {
    if step.Commit? {
      forall k: Key ensures !LeftByCommit(s, step.t, k) {
        if LeftByCommit(s, step.t, k) {
          TouchedIsMentioned(s.db, s.txs[step.t].change, k);
        }
      }
    }
  }

  // ----- Why each of the three is needed -----

  const ROW := KeyRow("digest", {}, None, None, Some(7), 1)
  const START := State(Db(map[1 := ROW], {}, {(7, 1)}), map[], 0, map[], multiset{}, map[])
  const LINKED := START.db.(links := {(1, 9)})
  const SERVED := Entry(View(ROW, {9}), 0, 0)

  lemma LinkedDb()
    ensures Related(START.db, 9) == {} && LinksTo(LINKED, 9) == {(1, 9)} && ViewOf(LINKED, 1) == View(ROW, {9})
    ensures {1} == KeysOf({(1, 9)})
    ensures Committed(START.db, Change(map[], {}, {(1, 9)})) == LINKED
    ensures Committed(LINKED, Change(map[], {(1, 9)}, {})) == START.db
    ensures Committed(START.db, BLANK.change) == START.db && Committed(LINKED, BLANK.change) == LINKED
  {
    assert (1, 9) in LINKED.links;
  }

  const ADDITION := Change(map[], {}, {(1, 9)})
  const REMOVAL := Change(map[], {(1, 9)}, {})
  const LISTED := Tx(BLANK.change, {}, Some(Listing(9, {})))

  ghost predicate StepAt(states: seq<State>, steps: seq<Step>, i: nat) {
    i < |steps| && i + 1 < |states| && Enabled(states[i], steps[i]) && states[i + 1] == Apply(states[i], steps[i])
  }

  lemma RunOfSteps(states: seq<State>, steps: seq<Step>)
    requires |states| == |steps| + 1 && Fresh(states[0]) && forall i :: 0 <= i < |steps| ==> StepAt(states, steps, i)
    ensures IsRun(states, steps)
  {
    forall i | 0 <= i < |steps| ensures Enabled(states[i], steps[i]) && states[i + 1] == Apply(states[i], steps[i]) {
      assert StepAt(states, steps, i);
    }
  }

  /** A verification slips in between the invalidation and the commit. */
  const SLIPPING: seq<Step> := [Open(0), Link(0, {(1, 9)}, false), Bust(0, 1), ReadAndFill(1), Commit(0)]

  const SLIP: seq<State> :=
    [START.(db := LINKED),
     START.(db := LINKED, txs := map[0 := BLANK]),
     START.(db := LINKED, txs := map[0 := Tx(REMOVAL, {1}, None)]),
     START.(db := LINKED, txs := map[0 := Tx(REMOVAL, {}, None)]),
     START.(db := LINKED, txs := map[0 := Tx(REMOVAL, {}, None)], cache := map[1 := SERVED]),
     START.(cache := map[1 := SERVED])]

  lemma SlipSteps()
    ensures forall i :: 0 <= i < 5 ==> StepAt(SLIP, SLIPPING, i)
  {
    LinkedDb();
    assert Relinked(BLANK.change, LINKED.links, {(1, 9)}, false) == REMOVAL;
    hide Related, ViewOf, Committed, Relinked, KeysOf, LinksTo;
    assert StepAt(SLIP, SLIPPING, 0);
    assert StepAt(SLIP, SLIPPING, 1) by {
      assert SLIP[1].txs[0 := SLIP[2].txs[0]] == SLIP[2].txs;
    }
    assert StepAt(SLIP, SLIPPING, 2) by {
      assert NextTx(SLIP[2], Bust(0, 1)) == SLIP[3].txs[0] && SLIP[2].cache - {1} == SLIP[3].cache;
      assert SLIP[2].txs[0 := SLIP[3].txs[0]] == SLIP[3].txs;
    }
    assert StepAt(SLIP, SLIPPING, 3);
    assert StepAt(SLIP, SLIPPING, 4) by {
      assert SLIP[4].txs - {0} == SLIP[5].txs;
    }
    hide StepAt;
  }

  /** The account is gone from the table, and its key is served with it from the cache. */
  lemma ServesRemoved(s: State)
    requires s == START.(cache := map[1 := SERVED])
    ensures s.pending == multiset{} && s.txs == map[] && (1, 9) !in s.db.links
    ensures Verified(s.db, s.cache, 1, "digest", s.now) == Some(View(ROW, {9}))
  {
  }

  /** With a fill between a handler's invalidation and the commit, the removed account is still served after both. */
  lemma FillBeforeCommitIsServedStale() returns (states: seq<State>, steps: seq<Step>)
    ensures IsRun(states, steps) && |states| == 6
    ensures forall i :: 0 <= i < |steps| ==> IsAtomic(steps[i]) && NoAttachDuringClear(states[i], steps[i])
    ensures states[5].pending == multiset{} && states[5].txs == map[] && (1, 9) !in states[5].db.links
    ensures Verified(states[5].db, states[5].cache, 1, "digest", states[5].now) == Some(View(ROW, {9}))
  {
    states, steps := SLIP, SLIPPING;
    ServesRemoved(SLIP[5]);
    SlipSteps();
    hide StepAt, Verified, ViewOf;
    RunOfSteps(states, steps);
  }

  /** Transaction 0 lists and deletes, transaction 1 attaches in between. */
  const RACING: seq<Step> := [Open(0), List(0, 9), Open(1), Link(1, {(1, 9)}, true), Bust(1, 1), Commit(1),
                              ReadAndFill(1), Delete(0), Commit(0)]

  const RACE: seq<State> :=
    [START,
     START.(txs := map[0 := BLANK]),
     START.(txs := map[0 := LISTED]),
     START.(txs := map[0 := LISTED, 1 := BLANK]),
     START.(txs := map[0 := LISTED, 1 := Tx(ADDITION, {1}, None)]),
     START.(txs := map[0 := LISTED, 1 := Tx(ADDITION, {}, None)]),
     START.(db := LINKED, txs := map[0 := LISTED]),
     START.(db := LINKED, txs := map[0 := LISTED], cache := map[1 := SERVED]),
     START.(db := LINKED, txs := map[0 := Tx(REMOVAL, {}, None)], cache := map[1 := SERVED]),
     START.(cache := map[1 := SERVED])]

  lemma RaceBegins()
    ensures forall i :: 0 <= i < 4 ==> StepAt(RACE, RACING, i)
  {
    LinkedDb();
    assert Relinked(BLANK.change, {}, {(1, 9)}, true) == ADDITION;
    hide Related, ViewOf, Committed, Relinked, KeysOf, LinksTo;
    assert RACE[1].txs[0 := LISTED] == RACE[2].txs;
    assert RACE[2].txs[1 := BLANK] == RACE[3].txs;
    assert RACE[3].txs[1 := RACE[4].txs[1]] == RACE[4].txs;
  }

  lemma RaceGoesOn()
    ensures forall i :: 4 <= i < 7 ==> StepAt(RACE, RACING, i)
  {
    LinkedDb();
    hide Related, ViewOf, Committed, Relinked, KeysOf, LinksTo;
    assert NextTx(RACE[4], Bust(1, 1)) == RACE[5].txs[1] && RACE[4].cache - {1} == RACE[5].cache;
    assert RACE[4].txs[1 := RACE[5].txs[1]] == RACE[5].txs;
    assert RACE[5].txs - {1} == RACE[6].txs;
  }

  lemma RaceEnds()
    ensures forall i :: 7 <= i < 9 ==> StepAt(RACE, RACING, i)
  {
    LinkedDb();
    assert Relinked(BLANK.change, LINKED.links, {(1, 9)}, false) == REMOVAL;
    hide Related, ViewOf, Committed, Relinked, KeysOf, LinksTo;
    assert RACE[7].txs[0 := RACE[8].txs[0]] == RACE[8].txs;
    assert RACE[8].txs - {0} == RACE[9].txs;
  }

  /** With an attach between the list and the delete, every handler runs and the removed account is still served. */
  lemma AttachDuringClearIsServedStale() returns (states: seq<State>, steps: seq<Step>)
    ensures IsRun(states, steps) && |states| == 10
    ensures forall i :: 0 <= i < |steps| ==> IsAtomic(steps[i]) && NoFillBeforeCommit(states[i], steps[i])
    ensures states[9].pending == multiset{} && states[9].txs == map[] && (1, 9) !in states[9].db.links
    ensures Verified(states[9].db, states[9].cache, 1, "digest", states[9].now) == Some(View(ROW, {9}))
  {
    states, steps := RACE, RACING;
    ServesRemoved(RACE[9]);
    RaceFills();
    RaceBegins();
    RaceGoesOn();
    RaceEnds();
    hide StepAt, Verified, ViewOf, NoFillBeforeCommit;
    RunOfSteps(states, steps);
  }

  lemma RaceFills()
    ensures forall i :: 0 <= i < |RACING| ==> IsAtomic(RACING[i]) && NoFillBeforeCommit(RACE[i], RACING[i])
  {
    assert BLANK.change.removed + BLANK.change.added == {};
  }

  /** With the read and the fill apart, a revoked key can be accepted after its revocation invalidated. */
  lemma SplitFillServesRevokedKey() returns (states: seq<State>, steps: seq<Step>)
    ensures IsRun(states, steps) && |states| == 5
    ensures forall i :: 0 <= i < |steps| ==>
      NoAttachDuringClear(states[i], steps[i]) && NoFillBeforeCommit(states[i], steps[i])
    ensures states[4].pending == multiset{} && 1 in states[4].db.keys && states[4].db.keys[1].revoked == Some(0)
    ensures Verified(states[4].db, states[4].cache, 1, "digest", states[4].now) == Some(View(ROW, {}))
  {
    var revoked := ROW.(revoked := Some(0));
    steps := [BeginRead(0, 1), SaveNow(1, revoked), BustNow(1), EndFill(0)];
    var s1 := START.(fetches := map[0 := Fetch(1, View(ROW, {}), 0)]);
    var s2 := s1.(db := START.db.(keys := map[1 := revoked]), pending := multiset{1});
    var s3 := s2.(pending := multiset{});
    var s4 := s3.(fetches := map[], cache := map[1 := Entry(View(ROW, {}), 0, 0)]);
    assert ViewOf(START.db, 1) == View(ROW, {});
    states := [START, s1, s2, s3, s4];
    assert Apply(START, steps[0]) == s1;
    assert Apply(s1, steps[1]) == s2;
    assert Apply(s2, steps[2]) == s3;
    assert Apply(s3, steps[3]) == s4;
  }
}
