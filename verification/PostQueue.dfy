/**
 A publishing queue: positions, assigned slots and the posts' own times
 (apps/calendar/services.py).  An entry is named by its post, which is unique
 within the queue.
 */
module PostQueue {
  import opened PostTimes
  import opened SlotFinder
  import opened Wrappers

  type PostId = nat

  /** children: the time of the post's platform post per account. */
  datatype Post = Post(children: Times, scheduledAt: Option<int>)

  // ----- Positions -----

  ghost predicate Distinct(position: map<PostId, nat>) {
    forall p, q :: p in position && q in position && p != q ==> position[p] != position[q]
  }

  /** The rows of `order_by("position")`; equal positions may come either way round. */
  ghost predicate IsOrder(order: seq<PostId>, position: map<PostId, nat>) {
    Ranked(order, position) && forall p :: p in position ==> p in order
  }

  ghost predicate Ranked(order: seq<PostId>, position: map<PostId, nat>) {
    (forall i :: 0 <= i < |order| ==> order[i] in position)
    && (forall i, j :: 0 <= i < j < |order| ==> order[i] != order[j] && position[order[i]] <= position[order[j]])
  }

  method Place(order: seq<PostId>, p: PostId, position: map<PostId, nat>) returns (result: seq<PostId>)
    requires Ranked(order, position) && p in position && p !in order
    ensures Ranked(result, position) && |result| == |order| + 1
    ensures forall q :: q in result <==> q in order || q == p
  {
    var i := 0;
    while i < |order| && position[order[i]] <= position[p]
      invariant i <= |order|
      invariant forall k :: 0 <= k < i ==> position[order[k]] <= position[p]
    {
      i := i + 1;
    }
    result := order[..i] + [p] + order[i..];
    assert forall k :: 0 <= k < |result| ==>
        result[k] == if k < i then order[k] else if k == i then p else order[k - 1];
  }

  /** The database's ordering of the entries. */
  method OrderByPosition(position: map<PostId, nat>) returns (order: seq<PostId>)
    ensures IsOrder(order, position) && |order| == |position|
  {
    order := [];
    var left := position.Keys;
    while left != {}
      invariant left <= position.Keys && Ranked(order, position)
      invariant forall p :: p in order <==> p in position && p !in left
      invariant |order| + |left| == |position|
      decreases left
    {
      var p :| p in left;
      order := Place(order, p, position);
      left := left - {p};
    }
  }

  /** The database's `Max("position")`, None for an empty queue. */
  method MaxPosition(position: map<PostId, nat>) returns (top: Option<nat>)
    ensures top.None? <==> position == map[]
    ensures top.Some? ==> exists p :: p in position && position[p] == top.value
    ensures top.Some? ==> forall p :: p in position ==> position[p] <= top.value
  {
    top := None;
    var left := position.Keys;
    while left != {}
      invariant left <= position.Keys
      invariant top.None? <==> left == position.Keys
      invariant top.Some? ==> exists p :: p in position && position[p] == top.value
      invariant top.Some? ==> forall p :: p in position && p !in left ==> position[p] <= top.value
      decreases left
    {
      var p :| p in left;
      if top.None? || position[p] > top.value {
        top := Some(position[p]);
      }
      left := left - {p};
    }
  }

  /** `add_to_queue`: to the top with everyone else shifted down, or one past the last (to 1 in an empty queue). */
  ghost predicate Moved(before: map<PostId, nat>, after: map<PostId, nat>, post: PostId, priority: bool) {
    (forall p :: p in after <==> p in before || p == post)
    && (forall p :: p in before && p != post ==> after[p] == before[p] + if priority then 1 else 0)
    && (priority ==> after[post] == 0)
    && (!priority ==> forall p :: p in before ==> before[p] < after[post])
    && (!priority ==> after[post] == 1 || exists p :: p in before && before[p] + 1 == after[post])
  }

  /** A move never makes two positions meet, never reorders the others, and puts the post first or last. */
  lemma MoveKeepsTheRest(before: map<PostId, nat>, after: map<PostId, nat>, post: PostId, priority: bool)
    requires Moved(before, after, post, priority)
    ensures Distinct(before) ==> Distinct(after)
    ensures forall p, q :: p in before && q in before && p != post && q != post ==>
      p in after && q in after && (before[p] < before[q] <==> after[p] < after[q])
    ensures priority ==> forall p :: p in after && p != post ==> after[post] < after[p]
    ensures !priority ==> forall p :: p in after && p != post ==> after[p] < after[post]
  {
  }

  /** One update per listed entry, in list order; ids from elsewhere match no row. */
  function Reordered(position: map<PostId, nat>, ids: seq<PostId>): (after: map<PostId, nat>)
    ensures after.Keys == position.Keys
  {
    if ids == [] then position else
      var last := |ids| - 1;
      var before := Reordered(position, ids[..last]);
      if ids[last] in before then before[ids[last] := last] else before
  }

  ghost function LastIndex(ids: seq<PostId>, p: PostId): Option<nat> {
    if ids == [] then None
    else if ids[|ids| - 1] == p then Some(|ids| - 1)
    else LastIndex(ids[..|ids| - 1], p)
  }

  /** A reorder gives an entry the place of its last mention, and leaves unlisted entries where they were. */
  lemma {:induction false} ReorderedPositions(position: map<PostId, nat>, ids: seq<PostId>)
    ensures forall p :: p in position ==>
      Reordered(position, ids)[p] == (if LastIndex(ids, p).Some? then LastIndex(ids, p).value else position[p])
  {
    if ids != [] {
      ReorderedPositions(position, ids[..|ids| - 1]);
    }
  }

  lemma {:induction false} LastIndexIsLast(ids: seq<PostId>, p: PostId)
    ensures LastIndex(ids, p).Some? <==> p in ids
    ensures LastIndex(ids, p).Some? ==> LastIndex(ids, p).value < |ids| && ids[LastIndex(ids, p).value] == p
    ensures LastIndex(ids, p).Some? ==> forall k :: LastIndex(ids, p).value < k < |ids| ==> ids[k] != p
  {
    if ids != [] {
      LastIndexIsLast(ids[..|ids| - 1], p);
      assert forall x :: x in ids <==> x in ids[..|ids| - 1] || x == ids[|ids| - 1];
    }
  }

  lemma ReorderedPair(position: map<PostId, nat>, ids: seq<PostId>, p: PostId, q: PostId)
    requires Distinct(position) && p in position && q in position && p != q
    ensures Reordered(position, ids)[p] == Reordered(position, ids)[q] <==>
      ((p in ids && q !in ids && LastIndex(ids, p) == Some(position[q]))
       || (q in ids && p !in ids && LastIndex(ids, q) == Some(position[p])))
  {
    ReorderedPositions(position, ids);
    LastIndexIsLast(ids, p);
    LastIndexIsLast(ids, q);
    hide LastIndex;
  }

  /** A reorder keeps positions distinct exactly when no listed entry lands on the place of an unlisted one. */
  lemma ReorderKeepsDistinctIff(position: map<PostId, nat>, ids: seq<PostId>)
    requires Distinct(position)
    ensures Distinct(Reordered(position, ids)) <==>
      forall p, q :: p in position && q in position && p in ids && q !in ids ==>
        LastIndex(ids, p) != Some(position[q])
  {
    hide LastIndex, Reordered;
    forall p, q | p in position && q in position && p != q
      ensures Reordered(position, ids)[p] == Reordered(position, ids)[q] <==>
        ((p in ids && q !in ids && LastIndex(ids, p) == Some(position[q]))
         || (q in ids && p !in ids && LastIndex(ids, q) == Some(position[p])))
    {
      ReorderedPair(position, ids, p, q);
    }
  }

  /** In particular a full permutation does, and numbers the entries as listed. */
  lemma PermutationReorders(position: map<PostId, nat>, ids: seq<PostId>)
    requires forall p :: p in ids <==> p in position
    requires forall i, j :: 0 <= i < j < |ids| ==> ids[i] != ids[j]
    ensures Distinct(Reordered(position, ids))
    ensures forall i :: 0 <= i < |ids| ==> ids[i] in position && Reordered(position, ids)[ids[i]] == i
  {
    ReorderedPositions(position, ids);
    assert forall i :: 0 <= i < |ids| ==> ids[i] in ids;
    forall i | 0 <= i < |ids| ensures LastIndex(ids, ids[i]) == Some(i) {
      LastIndexIsLast(ids, ids[i]);
    }
    var after := Reordered(position, ids);
    forall p, q | p in after && q in after && p != q ensures after[p] != after[q] {
      var i :| 0 <= i < |ids| && ids[i] == p;
      var j :| 0 <= j < |ids| && ids[j] == q;
    }
  }

  ghost predicate IsPermutation(ids: seq<PostId>, position: map<PostId, nat>) {
    (forall p :: p in ids <==> p in position) && forall i, j :: 0 <= i < j < |ids| ==> ids[i] != ids[j]
  }

  ghost predicate QueueStep(before: map<PostId, nat>, after: map<PostId, nat>) {
    (exists post, priority :: Moved(before, after, post, priority))
    || (exists ids :: IsPermutation(ids, before) && after == Reordered(before, ids))
  }

  /** Every move is a step of the queue, and so is every reorder that lists each entry once. */
  lemma StepsOfTheQueue(before: map<PostId, nat>, after: map<PostId, nat>, post: PostId, priority: bool,
                        ids: seq<PostId>)
    ensures Moved(before, after, post, priority) ==> QueueStep(before, after)
    ensures (forall p :: p in ids <==> p in before) && (forall i, j :: 0 <= i < j < |ids| ==> ids[i] != ids[j]) ==>
      QueueStep(before, Reordered(before, ids))
  {
    hide Moved, Reordered;
  }

  /** Over any run of appends, priority inserts and full reorders from distinct positions, positions stay distinct. */
  lemma {:induction false} RunKeepsPositionsDistinct(states: seq<map<PostId, nat>>, n: nat)
    requires n < |states| && Distinct(states[0])
    requires forall i :: 0 <= i < |states| - 1 ==> QueueStep(states[i], states[i + 1])
    ensures Distinct(states[n])
  {
    if n > 0 {
      RunKeepsPositionsDistinct(states, n - 1);
      var before, after := states[n - 1], states[n];
      assert QueueStep(states[n - 1], states[n - 1 + 1]);
      if post, priority :| Moved(before, after, post, priority) {
        MoveKeepsTheRest(before, after, post, priority);
      } else {
        var ids :| IsPermutation(ids, before) && after == Reordered(before, ids);
        PermutationReorders(before, ids);
      }
    }
  }

  /** A partial reorder can put two entries on one place. */
  lemma PartialReorderCollides()
    ensures var before := map[5 := 0, 6 := 1];
      Distinct(before) && !Distinct(Reordered(before, [6]))
  {
    var before := map[5 := 0, 6 := 1];
    var after := Reordered(before, [6]);
    ReorderedPositions(before, [6]);
    assert after[5] == 0 && after[6] == 0;
  }

  /** Entry k of the position order holds time k, and no entry past the times holds one. */
  ghost predicate HoldsTimes(order: seq<PostId>, times: seq<int>, position: map<PostId, nat>,
                             slotOf: map<PostId, Option<int>>) {
    IsOrder(order, position) && slotOf.Keys == position.Keys
    && forall k :: 0 <= k < |order| ==> slotOf[order[k]] == SlotAt(times, k)
  }

  /** Read off: the entries stand in position order, each with the time of its rank while there is one. */
  lemma TimesByRank(order: seq<PostId>, times: seq<int>, position: map<PostId, nat>, slotOf: map<PostId, Option<int>>)
    requires HoldsTimes(order, times, position, slotOf)
    ensures slotOf.Keys == position.Keys && forall p :: p in order <==> p in position
    ensures forall i, j :: 0 <= i < j < |order| ==>
      order[i] != order[j] && order[i] in position && order[j] in position
      && position[order[i]] <= position[order[j]]
    ensures forall k :: 0 <= k < |order| ==>
      order[k] in slotOf && slotOf[order[k]] == if k < |times| then Some(times[k]) else None
  {
  }

  function SlotAt(times: seq<int>, i: nat): Option<int> {
    if i < |times| then Some(times[i]) else None
  }

  /** Later positions get later times, and only a tail of the queue is unassigned. */
  ghost predicate TimesFollow(position: map<PostId, nat>, slotOf: map<PostId, Option<int>>)
    requires slotOf.Keys == position.Keys
  {
    forall p, q :: p in position && q in position && position[p] < position[q] && slotOf[q].Some? ==>
      slotOf[p].Some? && slotOf[p].value < slotOf[q].value
  }

  lemma TimesFollowOrder(order: seq<PostId>, times: seq<int>, position: map<PostId, nat>,
                         slotOf: map<PostId, Option<int>>)
    requires Increasing(times) && HoldsTimes(order, times, position, slotOf)
    ensures TimesFollow(position, slotOf)
    ensures forall p, q :: p in position && q in position && position[p] < position[q] && slotOf[q].Some? ==>
      slotOf[p].Some? && slotOf[p].value < slotOf[q].value
  {
    forall p, q | p in position && q in position && position[p] < position[q] && slotOf[q].Some?
      ensures slotOf[p].Some? && slotOf[p].value < slotOf[q].value
    {
      assert p in order && q in order;
      var i :| 0 <= i < |order| && order[i] == p;
      var j :| 0 <= j < |order| && order[j] == q;
      assert i < j;
    }
  }

  /** A priority insert takes the first free slot. */
  lemma PriorityTakesFirstSlot(before: map<PostId, nat>, position: map<PostId, nat>, post: PostId, order: seq<PostId>,
                               times: seq<int>, slotOf: map<PostId, Option<int>>)
    requires Moved(before, position, post, true) && HoldsTimes(order, times, position, slotOf)
    ensures slotOf[post] == if times == [] then None else Some(times[0])
  {
    MoveKeepsTheRest(before, position, post, true);
    assert post in position && post in order;
    var i :| 0 <= i < |order| && order[i] == post;
    assert order[0] in position && position[order[0]] <= position[post];
    assert slotOf[order[i]] == SlotAt(times, i);
  }

  /** An appended entry takes the slot after everyone else's, if the horizon still has one. */
  lemma AppendTakesLastSlot(before: map<PostId, nat>, position: map<PostId, nat>, post: PostId, order: seq<PostId>,
                            times: seq<int>, slotOf: map<PostId, Option<int>>)
    requires Moved(before, position, post, false) && HoldsTimes(order, times, position, slotOf)
    ensures |order| > 0 && slotOf[post] == if |order| <= |times| then Some(times[|order| - 1]) else None
  {
    MoveKeepsTheRest(before, position, post, false);
    assert post in position && post in order;
    var i :| 0 <= i < |order| && order[i] == post;
    var n := |order| - 1;
    assert order[n] in position && position[post] <= position[order[n]];
    assert slotOf[order[i]] == SlotAt(times, i);
  }

  lemma {:induction false} OrderHasAll(order: seq<PostId>, position: map<PostId, nat>)
    requires IsOrder(order, position)
    ensures |order| == |position|
    decreases |order|
  {
    if order == [] {
      assert position == map[];
    } else {
      var n := |order| - 1;
      var rest := position - {order[n]};
      assert rest.Keys == position.Keys - {order[n]};
      OrderOfRest(order, position);
      OrderHasAll(order[..n], rest);
      hide IsOrder;
    }
  }

  lemma OrderOfRest(order: seq<PostId>, position: map<PostId, nat>)
    requires IsOrder(order, position) && order != []
    ensures var n := |order| - 1; order[n] in position && IsOrder(order[..n], position - {order[n]})
  {
    assert order == order[..|order| - 1] + [order[|order| - 1]];
  }

  /**
   The slots of an account do not know who holds them.  When two of its queues
   are assigned at one moment, an entry with a time shares it with the other
   queue's entry of the same rank, and with no other.
   */
  lemma QueuesShareSlots(slots: seq<Slot>, now: int, i: nat, j: nat,
                         order: seq<PostId>, position: map<PostId, nat>, slotOf: map<PostId, Option<int>>,
                         other: seq<PostId>, otherPosition: map<PostId, nat>, otherSlotOf: map<PostId, Option<int>>)
    requires WellFormed(slots) && i < |order| && j < |other|
    requires HoldsTimes(order, NextSlots(slots, now, |position| + 10), position, slotOf)
    requires HoldsTimes(other, NextSlots(slots, now, |otherPosition| + 10), otherPosition, otherSlotOf)
    ensures slotOf[order[i]].Some? ==> (slotOf[order[i]] == otherSlotOf[other[j]] <==> i == j)
  {
    OrderHasAll(order, position);
    OrderHasAll(other, otherPosition);
    SlotsAgree(slots, now, |position| + 10, |otherPosition| + 10, i, j);
    HeldAt(order, NextSlots(slots, now, |position| + 10), position, slotOf, i);
    HeldAt(other, NextSlots(slots, now, |otherPosition| + 10), otherPosition, otherSlotOf, j);
    hide NextSlots, IsOrder, HoldsTimes, SlotAt, WellFormed;
  }

  lemma HeldAt(order: seq<PostId>, times: seq<int>, position: map<PostId, nat>, slotOf: map<PostId, Option<int>>,
               i: nat)
    requires HoldsTimes(order, times, position, slotOf) && i < |order|
    ensures IsOrder(order, position) && order[i] in slotOf && slotOf[order[i]] == SlotAt(times, i)
  {
  }

  lemma SlotsAgree(slots: seq<Slot>, now: int, m: nat, n: nat, i: nat, j: nat)
    requires WellFormed(slots) && i < m && j < n
    ensures SlotAt(NextSlots(slots, now, m), i).Some? ==>
      (SlotAt(NextSlots(slots, now, m), i) == SlotAt(NextSlots(slots, now, n), j) <==> i == j)
  {
    NextSlotsIncrease(slots, now, if m < n then n else m);
    hide AllSlots, WellFormed, Active;
  }

  // ----- The first loop over the entries -----

  /** Writing a time on the platform post of an account, when the post has one. */
  function WithTime(children: Times, account: Account, t: Option<int>): Times {
    if account in children then children[account := t] else children
  }

  /** Only the account's own platform posts are touched. */
  lemma OtherAccountsKeepTimes(before: map<PostId, Post>, after: map<PostId, Post>, position: map<PostId, nat>,
                               account: Account, slotOf: map<PostId, Option<int>>)
    requires after.Keys == before.Keys && position.Keys <= after.Keys && position.Keys <= slotOf.Keys
    requires forall p :: p in after && p !in position ==> after[p] == before[p]
    requires forall p :: p in position ==> after[p].children == WithTime(before[p].children, account, slotOf[p])
    ensures forall p :: p in after ==> after[p].children.Keys == before[p].children.Keys
    ensures forall p, a :: p in after && a in before[p].children && a != account ==>
      after[p].children[a] == before[p].children[a]
  {
  }

  /** The first n entries have the slot at their index, and the others kept theirs. */
  ghost predicate TimesWritten(entries: seq<PostId>, times: seq<int>, n: nat, slotOf: map<PostId, Option<int>>,
                               oldSlotOf: map<PostId, Option<int>>)
    requires n <= |entries|
  {
    (forall p :: p in slotOf <==> p in oldSlotOf || p in entries[..n])
    && (forall k :: 0 <= k < n ==> entries[k] in slotOf && slotOf[entries[k]] == SlotAt(times, k))
  }

  /** So have their platform posts, and no other post changed. */
  ghost predicate ChildrenWritten(entries: seq<PostId>, times: seq<int>, n: nat, account: Account,
                                  posts: map<PostId, Post>, oldPosts: map<PostId, Post>)
    requires n <= |entries|
  {
    posts.Keys == oldPosts.Keys
    && (forall k :: 0 <= k < n ==> entries[k] in posts)
    && (forall k :: 0 <= k < n ==>
          posts[entries[k]].children == WithTime(oldPosts[entries[k]].children, account, SlotAt(times, k)))
    && (forall p :: p in posts && p !in entries[..n] ==> posts[p] == oldPosts[p])
  }

  lemma OneMoreTime(entries: seq<PostId>, times: seq<int>, n: nat, slotOf: map<PostId, Option<int>>,
                    oldSlotOf: map<PostId, Option<int>>)
    requires n < |entries| && TimesWritten(entries, times, n, slotOf, oldSlotOf)
    requires forall i, j :: 0 <= i < j < |entries| ==> entries[i] != entries[j]
    ensures TimesWritten(entries, times, n + 1, slotOf[entries[n] := SlotAt(times, n)], oldSlotOf)
  {
    hide SlotAt;
    assert entries[..n + 1] == entries[..n] + [entries[n]];
  }

  lemma OneMoreChild(entries: seq<PostId>, times: seq<int>, n: nat, account: Account, posts: map<PostId, Post>,
                     oldPosts: map<PostId, Post>)
    requires n < |entries| && entries[n] in posts && ChildrenWritten(entries, times, n, account, posts, oldPosts)
    requires forall i, j :: 0 <= i < j < |entries| ==> entries[i] != entries[j]
    ensures var p := entries[n];
      var changed := posts[p].(children := WithTime(posts[p].children, account, SlotAt(times, n)));
      ChildrenWritten(entries, times, n + 1, account, posts[p := changed], oldPosts)
  {
    hide WithTime, SlotAt;
    assert entries[..n + 1] == entries[..n] + [entries[n]];
    assert entries[n] !in entries[..n];
  }

  lemma AllSlotsWritten(entries: seq<PostId>, times: seq<int>, account: Account,
                        slotOf: map<PostId, Option<int>>, posts: map<PostId, Post>,
                        oldSlotOf: map<PostId, Option<int>>, oldPosts: map<PostId, Post>)
    requires TimesWritten(entries, times, |entries|, slotOf, oldSlotOf)
    requires ChildrenWritten(entries, times, |entries|, account, posts, oldPosts)
    ensures slotOf.Keys == oldSlotOf.Keys + set p | p in entries
    ensures posts.Keys == oldPosts.Keys
    ensures forall k :: 0 <= k < |entries| ==> slotOf[entries[k]] == SlotAt(times, k)
    ensures forall p :: p in entries ==> posts[p].children == WithTime(oldPosts[p].children, account, slotOf[p])
    ensures forall p :: p in posts && p !in entries ==> posts[p] == oldPosts[p]
  {
    hide WithTime, SlotAt;
    assert entries[..|entries|] == entries;
    forall p | p in entries
      ensures p in posts && p in slotOf && posts[p].children == WithTime(oldPosts[p].children, account, slotOf[p])
    {
      var k :| 0 <= k < |entries| && entries[k] == p;
    }
  }

  // ----- The queue -----

  class Queue {
    const account: Account
    const slots: seq<Slot>
    var position: map<PostId, nat>
    var slotOf: map<PostId, Option<int>>
    var posts: map<PostId, Post>

    /** Each queued post's platform post for this account carries the entry's time, and the post its earliest time. */
    ghost predicate PostsFollowEntries()
      reads this
      requires slotOf.Keys == position.Keys && position.Keys <= posts.Keys
    {
      forall p :: p in position ==>
        (account in posts[p].children ==> posts[p].children[account] == slotOf[p])
        && IsEarliest(posts[p].scheduledAt, posts[p].children)
    }

    ghost predicate Valid()
      reads this
    {
      WellFormed(slots) && slotOf.Keys == position.Keys <= posts.Keys
      && TimesFollow(position, slotOf) && PostsFollowEntries()
    }

    constructor (account: Account, slots: seq<Slot>, posts: map<PostId, Post>)
      requires WellFormed(slots)
      ensures Valid() && position == map[] && this.posts == posts && this.account == account && this.slots == slots
    {
      this.account, this.slots, this.posts := account, slots, posts;
      position, slotOf := map[], map[];
    }

    /** The first loop: every entry, and its platform post, takes the slot at its index. */
    method WriteSlots(entries: seq<PostId>, times: seq<int>)
      requires forall p :: p in entries ==> p in posts
      requires forall i, j :: 0 <= i < j < |entries| ==> entries[i] != entries[j]
      modifies this`slotOf, this`posts
      ensures slotOf.Keys == old(slotOf).Keys + set p | p in entries
      ensures posts.Keys == old(posts).Keys
      ensures forall k :: 0 <= k < |entries| ==> slotOf[entries[k]] == SlotAt(times, k)
      ensures forall p :: p in entries ==> posts[p].children == WithTime(old(posts)[p].children, account, slotOf[p])
      ensures forall p :: p in posts && p !in entries ==> posts[p] == old(posts)[p]
    {
      for i := 0 to |entries|
        invariant posts.Keys == old(posts).Keys
        invariant TimesWritten(entries, times, i, slotOf, old(slotOf))
        invariant ChildrenWritten(entries, times, i, account, posts, old(posts))
      {
        hide TimesWritten, ChildrenWritten, WithTime, SlotAt;
        var p := entries[i];
        assert p in entries;
        OneMoreTime(entries, times, i, slotOf, old(slotOf));
        OneMoreChild(entries, times, i, account, posts, old(posts));
        slotOf := slotOf[p := SlotAt(times, i)];
        posts := posts[p := posts[p].(children := WithTime(posts[p].children, account, SlotAt(times, i)))];
      }
      AllSlotsWritten(entries, times, account, slotOf, posts, old(slotOf), old(posts));
    }

    /** The second loop: every touched post takes its earliest platform time. */
    method SyncPosts(entries: seq<PostId>)
      requires forall p :: p in entries ==> p in posts
      modifies this`posts
      ensures posts.Keys == old(posts).Keys
      ensures forall p :: p in entries ==>
        posts[p].children == old(posts)[p].children && IsEarliest(posts[p].scheduledAt, posts[p].children)
      ensures forall p :: p in posts && p !in entries ==> posts[p] == old(posts)[p]
    {
      for i := 0 to |entries|
        invariant posts.Keys == old(posts).Keys
        invariant forall p :: p in posts ==> posts[p].children == old(posts)[p].children
        invariant forall p :: p in entries[..i] ==> IsEarliest(posts[p].scheduledAt, posts[p].children)
        invariant forall p :: p in posts && p !in entries[..i] ==> posts[p] == old(posts)[p]
      {
        var p := entries[i];
        assert p in entries;
        var t := Earliest(posts[p].children);
        posts := posts[p := posts[p].(scheduledAt := t)];
        assert entries[..i + 1] == entries[..i] + [p];
      }
      assert entries[..|entries|] == entries;
    }

    /** Both loops, in position order. */
    method FillInOrder(entries: seq<PostId>, times: seq<int>)
      requires WellFormed(slots) && IsOrder(entries, position) && Increasing(times)
      requires slotOf.Keys <= position.Keys <= posts.Keys
      modifies this`slotOf, this`posts
      ensures Valid() && HoldsTimes(entries, times, position, slotOf) && posts.Keys == old(posts).Keys
      ensures forall p :: p in posts && p !in position ==> posts[p] == old(posts)[p]
      ensures forall p :: p in position ==> posts[p].children == WithTime(old(posts)[p].children, account, slotOf[p])
    {
      assert forall p :: p in entries <==> p in position;
      WriteSlots(entries, times);
      SyncPosts(entries);
      TimesFollowOrder(entries, times, position, slotOf);
    }

    method AssignSlots(now: int) returns (ghost order: seq<PostId>, ghost times: seq<int>)
      requires WellFormed(slots) && slotOf.Keys <= position.Keys <= posts.Keys
      modifies this`slotOf, this`posts
      ensures Valid() && HoldsTimes(order, times, position, slotOf) && times == NextSlots(slots, now, |position| + 10)
      ensures posts.Keys == old(posts).Keys
      ensures forall p :: p in posts && p !in position ==> posts[p] == old(posts)[p]
      ensures forall p :: p in posts ==> posts[p].children.Keys == old(posts)[p].children.Keys
      ensures forall p, a :: p in posts && a in old(posts)[p].children && a != account ==>
        posts[p].children[a] == old(posts)[p].children[a]
    {
      hide NextSlots, HoldsTimes, IsOrder, Valid, WellFormed, Increasing;
      var entries := OrderByPosition(position);
      order := entries;
      times := NextSlots(slots, now, |position| + 10);
      if entries == [] {
        NothingQueued(entries, times);
        return;
      }
      var slotTimes := NextSlotDatetimes(slots, now, |entries| + 10);
      NextSlotsIncrease(slots, now, |entries| + 10);
      FillInOrder(entries, slotTimes);
      OtherAccountsKeepTimes(old(posts), posts, position, account, slotOf);
    }

    /** Read off a valid queue: its platform posts carry their entries' times, and every post its earliest time. */
    lemma PostsInFields()
      requires Valid()
      ensures forall p :: p in position ==>
        p in posts && p in slotOf
        && (account in posts[p].children ==> posts[p].children[account] == slotOf[p])
        && (posts[p].scheduledAt.None? <==> forall a :: a in posts[p].children ==> posts[p].children[a].None?)
        && (posts[p].scheduledAt.Some? ==>
              (exists a :: a in posts[p].children && posts[p].children[a] == posts[p].scheduledAt)
              && forall a :: a in posts[p].children && posts[p].children[a].Some? ==>
                   posts[p].scheduledAt.value <= posts[p].children[a].value)
    {
      hide TimesFollow, WellFormed;
    }

    lemma NothingQueued(order: seq<PostId>, times: seq<int>)
      requires WellFormed(slots) && slotOf.Keys <= position.Keys && IsOrder(order, position) && order == []
      ensures position == map[] && Valid() && HoldsTimes(order, times, position, slotOf)
    {
      assert forall p :: p !in position;
    }

    method MovePost(post: PostId, priority: bool)
      modifies this`position
      ensures Moved(old(position), position, post, priority)
      ensures position.Keys == old(position).Keys + {post}
      ensures forall p :: p in old(position) && p != post ==>
        position[p] == old(position)[p] + if priority then 1 else 0
      ensures priority ==> position[post] == 0
      ensures !priority && old(position) == map[] ==> position[post] == 1
      ensures !priority && old(position) != map[] ==>
        (exists p :: p in old(position) && position[post] == old(position)[p] + 1)
        && forall p :: p in old(position) ==> old(position)[p] < position[post]
    {
      var place := 0;
      if priority {
        position := map p | p in position :: position[p] + 1;
      } else {
        var top := MaxPosition(position);
        place := (if top.Some? then top.value else 0) + 1;
      }
      position := position[post := place];
    }

    method AddToQueue(post: PostId, priority: bool, now: int) returns (ghost order: seq<PostId>, ghost times: seq<int>)
      requires WellFormed(slots) && slotOf.Keys <= position.Keys <= posts.Keys && post in posts
      modifies this`position, this`slotOf, this`posts
      ensures Valid() && HoldsTimes(order, times, position, slotOf) && times == NextSlots(slots, now, |position| + 10)
      ensures Moved(old(position), position, post, priority)
      ensures position.Keys == old(position).Keys + {post}
      ensures forall p :: p in old(position) && p != post ==>
        position[p] == old(position)[p] + if priority then 1 else 0
      ensures priority ==> position[post] == 0
      ensures !priority && old(position) == map[] ==> position[post] == 1
      ensures !priority && old(position) != map[] ==>
        (exists p :: p in old(position) && position[post] == old(position)[p] + 1)
        && forall p :: p in old(position) ==> old(position)[p] < position[post]
      ensures posts.Keys == old(posts).Keys
      ensures forall p :: p in posts && p !in position ==> posts[p] == old(posts)[p]
      ensures forall p :: p in posts ==> posts[p].children.Keys == old(posts)[p].children.Keys
      ensures forall p, a :: p in posts && a in old(posts)[p].children && a != account ==>
        posts[p].children[a] == old(posts)[p].children[a]
    {
      hide NextSlots, Moved, HoldsTimes, Valid, WellFormed;
      MovePost(post, priority);
      assert slotOf.Keys <= position.Keys <= posts.Keys;
      order, times := AssignSlots(now);
    }

    method ApplyOrder(ids: seq<PostId>)
      modifies this`position
      ensures position == Reordered(old(position), ids)
    {
      for i := 0 to |ids|
        invariant position == Reordered(old(position), ids[..i])
      {
        assert ids[..i + 1][..i] == ids[..i];
        if ids[i] in position {
          position := position[ids[i] := i];
        }
      }
      assert ids[..|ids|] == ids;
    }

    method ReorderQueue(ids: seq<PostId>, now: int) returns (ghost order: seq<PostId>, ghost times: seq<int>)
      requires WellFormed(slots) && slotOf.Keys <= position.Keys <= posts.Keys
      modifies this`position, this`slotOf, this`posts
      ensures Valid() && position == Reordered(old(position), ids) && posts.Keys == old(posts).Keys
      ensures HoldsTimes(order, times, position, slotOf) && times == NextSlots(slots, now, |position| + 10)
      ensures forall p :: p in posts && p !in position ==> posts[p] == old(posts)[p]
      ensures forall p :: p in posts ==> posts[p].children.Keys == old(posts)[p].children.Keys
      ensures forall p, a :: p in posts && a in old(posts)[p].children && a != account ==>
        posts[p].children[a] == old(posts)[p].children[a]
    {
      hide NextSlots;
      ApplyOrder(ids);
      order, times := AssignSlots(now);
    }
  }
}
