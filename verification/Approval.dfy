/**
 Approval by e-mail: single-use REVIEW and PUBLISH tokens drive an assignment
 from pending to approved or declined and, at most once, into scheduling
 (apps/approvals/review_views.py, tokens.py, assignment_service.py).
 */
module Approval {
  import opened Wrappers

  const DAY := 86400

  datatype Purpose = ForReview | ForPublish
  datatype Status = Pending | Approved | Declined
  datatype ReviewState = Unreviewed | AwaitingReview | ReviewApproved | ChangesRequested
  datatype Text = Text(title: string, caption: string, firstComment: string)

  /** A platform child; its gate, when it has one, names the text it was issued for. */
  datatype Child = Child(gate: Option<Text>, contentHash: string)
  datatype Post = Post(text: Text, review: ReviewState, children: seq<Child>)
  datatype Assignment = Assignment(post: nat, status: Status, reason: string)
  datatype Token = Token(assignment: nat, purpose: Purpose, expires: int, used: bool)

  datatype Decision = Approve | ApprovePublish | Decline | Other
  /** The edit fields of the form; None when a field was not submitted. */
  datatype Edits = Edits(title: Option<string>, caption: Option<string>, firstComment: Option<string>)
  datatype Event = Decided(assignment: nat, approved: bool) | Scheduled(assignment: nat)
  datatype Page = InvalidLink | ReasonRequired | UnknownDecision | ServerError | Done

  /** minting: assignments whose REVIEW token is still to be minted by the call that created them. */
  datatype State = State(clock: int, posts: map<nat, Post>, assignments: seq<Assignment>, tokens: map<string, Token>,
                         minting: set<nat>, log: seq<Event>)

  // ----- Tokens and edits -----

  function Expiry(now: int, ttl: Option<int>): int {
    now + DAY * (if ttl.None? || ttl.value == 0 then 7 else ttl.value)
  }

  predicate IsLive(tokens: map<string, Token>, raw: string, purpose: Purpose, now: int) {
    raw in tokens && tokens[raw].purpose == purpose && !tokens[raw].used && tokens[raw].expires > now
  }

  /** A submitted value is stored only where it differs from the value the request had read. */
  function NewField(stored: string, seen: string, submitted: Option<string>): string {
    if submitted.None? || submitted.value == seen then stored else submitted.value
  }

  function NewText(stored: Text, seen: Text, edits: Edits): Text {
    Text(NewField(stored.title, seen.title, edits.title),
         NewField(stored.caption, seen.caption, edits.caption),
         NewField(stored.firstComment, seen.firstComment, edits.firstComment))
  }

  predicate FieldChanged(seen: string, submitted: Option<string>) {
    submitted.Some? && submitted.value != seen
  }

  predicate AnyChanged(seen: Text, edits: Edits) {
    FieldChanged(seen.title, edits.title) || FieldChanged(seen.caption, edits.caption)
    || FieldChanged(seen.firstComment, edits.firstComment)
  }

  function Ungated(children: seq<Child>): seq<Child> {
    seq(|children|, i requires 0 <= i < |children| =>
      if children[i].gate.Some? then Child(None, "") else children[i])
  }

  function Edited(post: Post, seen: Text, edits: Edits): Post {
    if AnyChanged(seen, edits)
    then post.(text := NewText(post.text, seen, edits), children := Ungated(post.children))
    else post
  }

  // ----- The steps -----

  /**
   Autosave: a save that ungates, as the composer's draft save does.  Save: one
   that leaves gates alone, as its main save and the text-update service do.
   Gate: a child is stamped for the text read before the gate service was asked.
   */
  datatype Step =
    | Assign(post: nat)
    | MintReview(assignment: nat, raw: string, ttl: Option<int>)
    | Review(raw: string, decision: Decision, reason: string, edits: Edits, seen: Text, publishRaw: string,
             ttl: Option<int>)
    | Publish(raw: string)
    | Autosave(post: nat, text: Text)
    | Save(post: nat, text: Text)
    | Gate(post: nat, child: nat, issuedFor: Text, contentHash: string)
    | Tick(now: int)

  predicate Enabled(s: State, step: Step) {
    match step
    case Assign(post) => post in s.posts
    case MintReview(a, _, _) => a in s.minting
    case Review(_, _, _, _, _, _, _) => true
    case Publish(_) => true
    case Autosave(post, _) => post in s.posts
    case Save(post, _) => post in s.posts
    case Gate(post, child, _, _) => post in s.posts && child < |s.posts[post].children|
    case Tick(now) => now >= s.clock
  }

  /** Who may do what: both pages may be posted at any time, and a review token is minted once per assignment. */
  lemma StepsPossible(s: State, p: nat, a: nat, raw: string, ttl: Option<int>, decision: Decision, reason: string,
                      edits: Edits, seen: Text, text: Text, child: nat, hash: string, now: int)
    ensures Enabled(s, Review(raw, decision, reason, edits, seen, raw, ttl)) && Enabled(s, Publish(raw))
    ensures (Enabled(s, Assign(p)) <==> p in s.posts) && (Enabled(s, MintReview(a, raw, ttl)) <==> a in s.minting)
    ensures (Enabled(s, Autosave(p, text)) <==> p in s.posts) && (Enabled(s, Save(p, text)) <==> p in s.posts)
    ensures Enabled(s, Gate(p, child, text, hash)) <==> p in s.posts && child < |s.posts[p].children|
    ensures Enabled(s, Tick(now)) <==> s.clock <= now
  {
  }

  /** Rows that foreign keys guarantee. */
  predicate RefersToRows(s: State) {
    (forall raw :: raw in s.tokens ==> s.tokens[raw].assignment < |s.assignments|)
    && (forall i :: 0 <= i < |s.assignments| ==> s.assignments[i].post in s.posts)
  }

  function Minted(s: State, a: nat, purpose: Purpose, raw: string, ttl: Option<int>): State {
    s.(tokens := s.tokens[raw := Token(a, purpose, Expiry(s.clock, ttl), false)])
  }

  /** The decision is recorded, the post follows, and the REVIEW token is spent. */
  function Decide(s: State, raw: string, approved: bool, reason: string, post: Post): State
    requires RefersToRows(s) && raw in s.tokens
  {
    var a := s.tokens[raw].assignment;
    var row := s.assignments[a];
    s.(assignments := s.assignments[a := row.(status := if approved then Approved else Declined,
                                              reason := if approved then row.reason else reason)],
       posts := s.posts[row.post := post.(review := if approved then ReviewApproved else ChangesRequested)],
       tokens := s.tokens[raw := s.tokens[raw].(used := true)],
       log := s.log + [Decided(a, approved)])
  }

  function AfterReview(s: State, raw: string, decision: Decision, reason: string, edits: Edits, seen: Text,
                       publishRaw: string, ttl: Option<int>): State
    requires RefersToRows(s)
  {
    if !IsLive(s.tokens, raw, ForReview, s.clock) || decision.Other? || (decision.Decline? && reason == "") then s else
      var a := s.tokens[raw].assignment;
      var post := s.posts[s.assignments[a].post];
      match decision
      case Decline => Decide(s, raw, false, reason, post)
      case ApprovePublish =>
        var decided := Decide(s, raw, true, reason, Edited(post, seen, edits));
        decided.(log := decided.log + [Scheduled(a)])
      case _ =>
        if publishRaw in s.tokens then s
        else Minted(Decide(s, raw, true, reason, Edited(post, seen, edits)), a, ForPublish, publishRaw, ttl)
  }

  function AfterPublish(s: State, raw: string): State {
    if !IsLive(s.tokens, raw, ForPublish, s.clock) then s else
      s.(tokens := s.tokens[raw := s.tokens[raw].(used := true)], log := s.log + [Scheduled(s.tokens[raw].assignment)])
  }

  function Apply(s: State, step: Step): State
    requires RefersToRows(s) && Enabled(s, step)
  {
    match step
    case Assign(post) =>
      s.(assignments := s.assignments + [Assignment(post, Pending, "")],
         posts := s.posts[post := s.posts[post].(review := AwaitingReview)],
         minting := s.minting + {|s.assignments|})
    case MintReview(a, raw, ttl) =>
      var done := s.(minting := s.minting - {a});
      if raw in s.tokens then done else Minted(done, a, ForReview, raw, ttl)
    case Review(raw, decision, reason, edits, seen, publishRaw, ttl) =>
      AfterReview(s, raw, decision, reason, edits, seen, publishRaw, ttl)
    case Publish(raw) => AfterPublish(s, raw)
    case Autosave(post, text) =>
      var p := s.posts[post];
      s.(posts := s.posts[post := p.(text := text, children := Ungated(p.children))])
    case Save(post, text) => s.(posts := s.posts[post := s.posts[post].(text := text)])
    case Gate(post, child, issuedFor, hash) =>
      var p := s.posts[post];
      s.(posts := s.posts[post := p.(children := p.children[child := Child(Some(issuedFor), hash)])])
    case Tick(now) => s.(clock := now)
  }

  // ----- What every reachable state satisfies -----

  function Times(log: seq<Event>, e: Event): nat {
    multiset(log)[e]
  }

  predicate IsTokenOf(tokens: map<string, Token>, raw: string, a: nat, purpose: Purpose) {
    raw in tokens && tokens[raw].assignment == a && tokens[raw].purpose == purpose
  }

  /** One token per assignment and purpose, none before the first minting, each in step with its assignment. */
  ghost predicate TokensInStep(s: State) {
    RefersToRows(s)
    && (forall raw :: raw in s.tokens ==> s.tokens[raw].assignment !in s.minting)
    && (forall raw, other ::
          raw in s.tokens && IsTokenOf(s.tokens, other, s.tokens[raw].assignment, s.tokens[raw].purpose)
          ==> raw == other)
    && (forall raw :: raw in s.tokens && s.tokens[raw].purpose.ForReview? ==>
          (s.assignments[s.tokens[raw].assignment].status.Pending? <==> !s.tokens[raw].used))
    && (forall raw :: raw in s.tokens && s.tokens[raw].purpose.ForPublish? ==>
          s.assignments[s.tokens[raw].assignment].status.Approved?
          && Times(s.log, Scheduled(s.tokens[raw].assignment)) == if s.tokens[raw].used then 1 else 0)
  }

  /** One assignment against the log and its tokens. */
  ghost predicate Accounted(s: State, a: nat)
    requires a < |s.assignments|
  {
    var status, scheduled := s.assignments[a].status, Times(s.log, Scheduled(a));
    Times(s.log, Decided(a, true)) == (if status.Approved? then 1 else 0)
    && Times(s.log, Decided(a, false)) == (if status.Declined? then 1 else 0)
    && (!status.Approved? ==> scheduled == 0)
    && (status.Approved? ==>
          scheduled == 1 || (scheduled == 0 && exists raw :: IsTokenOf(s.tokens, raw, a, ForPublish)))
    && (!status.Pending? ==> exists raw :: IsTokenOf(s.tokens, raw, a, ForReview))
  }

  ghost predicate ApprovedFirst(log: seq<Event>) {
    forall k :: 0 <= k < |log| && log[k].Scheduled? ==> Decided(log[k].assignment, true) in log[..k]
  }

  ghost predicate Invariant(s: State)
    ensures Invariant(s) ==> RefersToRows(s)
  {
    TokensInStep(s)
    && (forall a :: a in s.minting ==> a < |s.assignments| && s.assignments[a].status.Pending?)
    && (forall a :: 0 <= a < |s.assignments| ==> Accounted(s, a))
    && (forall e :: e in s.log ==> e.assignment < |s.assignments|)
    && ApprovedFirst(s.log)
  }

  lemma OneMore(log: seq<Event>, e: Event, f: Event)
    ensures Times(log + [e], f) == Times(log, f) + if e == f then 1 else 0
  {
  }

  lemma StaysApprovedFirst(log: seq<Event>, e: Event)
    requires ApprovedFirst(log) && (e.Scheduled? ==> Decided(e.assignment, true) in log)
    ensures ApprovedFirst(log + [e])
  {
    forall k | 0 <= k <= |log| && (log + [e])[k].Scheduled?
      ensures Decided((log + [e])[k].assignment, true) in (log + [e])[..k]
    {
      assert (log + [e])[..k] == log[..k];
    }
  }

  /** Between the decision and what follows it, only the decided assignment is unsettled. */
  lemma DecideAccounts(s: State, raw: string, approved: bool, reason: string, post: Post, b: nat)
    requires Invariant(s) && IsLive(s.tokens, raw, ForReview, s.clock) && b < |s.assignments|
    ensures var t, a := Decide(s, raw, approved, reason, post), s.tokens[raw].assignment;
      if b == a && approved
      then t.assignments[b].status.Approved? && Times(t.log, Scheduled(b)) == 0
           && Times(t.log, Decided(b, true)) == 1 && Times(t.log, Decided(b, false)) == 0
           && IsTokenOf(t.tokens, raw, b, ForReview)
      else Accounted(t, b)
  {
    var t, a := Decide(s, raw, approved, reason, post), s.tokens[raw].assignment;
    OneMore(s.log, Decided(a, approved), Decided(b, true));
    OneMore(s.log, Decided(a, approved), Decided(b, false));
    OneMore(s.log, Decided(a, approved), Scheduled(b));
    assert Accounted(s, b);
    assert forall r, p :: IsTokenOf(s.tokens, r, b, p) ==> IsTokenOf(t.tokens, r, b, p);
    assert IsTokenOf(t.tokens, raw, a, ForReview);
  }

  lemma DecideKeepsTokens(s: State, raw: string, approved: bool, reason: string, post: Post)
    requires Invariant(s) && IsLive(s.tokens, raw, ForReview, s.clock)
    ensures TokensInStep(Decide(s, raw, approved, reason, post))
    ensures forall r ::
      !IsTokenOf(Decide(s, raw, approved, reason, post).tokens, r, s.tokens[raw].assignment, ForPublish)
  {
    var t, a := Decide(s, raw, approved, reason, post), s.tokens[raw].assignment;
    assert IsTokenOf(s.tokens, raw, a, ForReview);
    assert s.assignments[a].status.Pending?;
    forall r | r in t.tokens && t.tokens[r].purpose.ForPublish?
      ensures Times(t.log, Scheduled(t.tokens[r].assignment)) == Times(s.log, Scheduled(t.tokens[r].assignment))
    {
      OneMore(s.log, Decided(a, approved), Scheduled(t.tokens[r].assignment));
    }
    forall r, o | r in t.tokens && IsTokenOf(t.tokens, o, t.tokens[r].assignment, t.tokens[r].purpose)
      ensures r == o
    {
      assert IsTokenOf(s.tokens, o, s.tokens[r].assignment, s.tokens[r].purpose);
    }
    forall r | r in s.tokens && s.tokens[r].assignment == a && s.tokens[r].purpose.ForReview? ensures r == raw {
      assert IsTokenOf(s.tokens, r, a, ForReview);
    }
  }

  lemma DeclineKeeps(s: State, raw: string, reason: string)
    requires Invariant(s) && IsLive(s.tokens, raw, ForReview, s.clock)
    ensures Invariant(Decide(s, raw, false, reason, s.posts[s.assignments[s.tokens[raw].assignment].post]))
  {
    var post := s.posts[s.assignments[s.tokens[raw].assignment].post];
    DecideKeepsTokens(s, raw, false, reason, post);
    forall b | 0 <= b < |s.assignments| ensures Accounted(Decide(s, raw, false, reason, post), b) {
      DecideAccounts(s, raw, false, reason, post, b);
    }
    StaysApprovedFirst(s.log, Decided(s.tokens[raw].assignment, false));
    assert IsTokenOf(s.tokens, raw, s.tokens[raw].assignment, ForReview);
  }

  lemma ApprovePublishKeeps(s: State, raw: string, reason: string, post: Post)
    requires Invariant(s) && IsLive(s.tokens, raw, ForReview, s.clock)
    ensures var t := Decide(s, raw, true, reason, post);
      Invariant(t.(log := t.log + [Scheduled(s.tokens[raw].assignment)]))
  {
    var t, a := Decide(s, raw, true, reason, post), s.tokens[raw].assignment;
    var u := t.(log := t.log + [Scheduled(a)]);
    DecideKeepsTokens(s, raw, true, reason, post);
    forall b | 0 <= b < |s.assignments| ensures Accounted(u, b) {
      DecideAccounts(s, raw, true, reason, post, b);
      OneMore(t.log, Scheduled(a), Decided(b, true));
      OneMore(t.log, Scheduled(a), Decided(b, false));
      OneMore(t.log, Scheduled(a), Scheduled(b));
    }
    forall r | r in u.tokens && u.tokens[r].purpose.ForPublish?
      ensures Times(u.log, Scheduled(u.tokens[r].assignment)) == Times(t.log, Scheduled(u.tokens[r].assignment))
    {
      assert !IsTokenOf(t.tokens, r, a, ForPublish);
      OneMore(t.log, Scheduled(a), Scheduled(u.tokens[r].assignment));
    }
    StaysApprovedFirst(s.log, Decided(a, true));
    StaysApprovedFirst(t.log, Scheduled(a));
  }

  /** Minting the PUBLISH token settles an assignment that has just been approved. */
  lemma PublishTokenKeepsTokens(t: State, a: nat, raw: string, ttl: Option<int>)
    requires TokensInStep(t) && raw !in t.tokens && a < |t.assignments| && a !in t.minting
    requires forall r :: !IsTokenOf(t.tokens, r, a, ForPublish)
    requires t.assignments[a].status.Approved? && Times(t.log, Scheduled(a)) == 0
    ensures TokensInStep(Minted(t, a, ForPublish, raw, ttl))
  {
    var u := Minted(t, a, ForPublish, raw, ttl);
    forall r, o | r in u.tokens && IsTokenOf(u.tokens, o, u.tokens[r].assignment, u.tokens[r].purpose)
      ensures r == o
    {
      assert r != raw && o != raw ==> IsTokenOf(t.tokens, o, t.tokens[r].assignment, t.tokens[r].purpose);
      assert !IsTokenOf(t.tokens, r, a, ForPublish) && !IsTokenOf(t.tokens, o, a, ForPublish);
    }
  }

  lemma ApproveAccounts(s: State, raw: string, reason: string, post: Post, publishRaw: string, ttl: Option<int>, b: nat)
    requires Invariant(s) && IsLive(s.tokens, raw, ForReview, s.clock) && publishRaw !in s.tokens && b < |s.assignments|
    ensures var decided := Decide(s, raw, true, reason, post);
      Accounted(Minted(decided, s.tokens[raw].assignment, ForPublish, publishRaw, ttl), b)
  {
    var t, a := Decide(s, raw, true, reason, post), s.tokens[raw].assignment;
    var u := Minted(t, a, ForPublish, publishRaw, ttl);
    DecideAccounts(s, raw, true, reason, post, b);
    assert IsTokenOf(u.tokens, publishRaw, a, ForPublish);
    assert forall r, p :: IsTokenOf(t.tokens, r, b, p) ==> IsTokenOf(u.tokens, r, b, p);
  }

  lemma ApproveKeeps(s: State, raw: string, reason: string, post: Post, publishRaw: string, ttl: Option<int>)
    requires Invariant(s) && IsLive(s.tokens, raw, ForReview, s.clock) && publishRaw !in s.tokens
    ensures Invariant(Minted(Decide(s, raw, true, reason, post), s.tokens[raw].assignment, ForPublish, publishRaw, ttl))
  {
    var t, a := Decide(s, raw, true, reason, post), s.tokens[raw].assignment;
    DecideKeepsTokens(s, raw, true, reason, post);
    DecideAccounts(s, raw, true, reason, post, a);
    PublishTokenKeepsTokens(t, a, publishRaw, ttl);
    forall b | 0 <= b < |s.assignments|
      ensures Accounted(Minted(t, a, ForPublish, publishRaw, ttl), b)
    {
      ApproveAccounts(s, raw, reason, post, publishRaw, ttl, b);
    }
    StaysApprovedFirst(s.log, Decided(a, true));
    assert forall e :: e in t.log <==> e in s.log || e == Decided(a, true);
  }

  lemma PublishKeepsTokens(s: State, raw: string)
    requires Invariant(s) && IsLive(s.tokens, raw, ForPublish, s.clock)
    ensures TokensInStep(AfterPublish(s, raw))
  {
    var t, a := AfterPublish(s, raw), s.tokens[raw].assignment;
    forall r, o | r in t.tokens && IsTokenOf(t.tokens, o, t.tokens[r].assignment, t.tokens[r].purpose)
      ensures r == o
    {
      assert IsTokenOf(s.tokens, o, s.tokens[r].assignment, s.tokens[r].purpose);
    }
    forall r | r in t.tokens && t.tokens[r].purpose.ForPublish?
      ensures Times(t.log, Scheduled(t.tokens[r].assignment)) == if t.tokens[r].used then 1 else 0
    {
      OneMore(s.log, Scheduled(a), Scheduled(t.tokens[r].assignment));
      if s.tokens[r].assignment == a {
        assert IsTokenOf(s.tokens, r, s.tokens[raw].assignment, s.tokens[raw].purpose);
      }
    }
  }

  lemma PublishAccounts(s: State, raw: string, b: nat)
    requires Invariant(s) && IsLive(s.tokens, raw, ForPublish, s.clock) && b < |s.assignments|
    ensures Accounted(AfterPublish(s, raw), b)
  {
    var t, a := AfterPublish(s, raw), s.tokens[raw].assignment;
    assert Accounted(s, b);
    OneMore(s.log, Scheduled(a), Decided(b, true));
    OneMore(s.log, Scheduled(a), Decided(b, false));
    OneMore(s.log, Scheduled(a), Scheduled(b));
    assert forall r, p :: IsTokenOf(s.tokens, r, b, p) ==> IsTokenOf(t.tokens, r, b, p);
  }

  lemma PublishKeeps(s: State, raw: string)
    requires Invariant(s)
    ensures Invariant(AfterPublish(s, raw))
  {
    if IsLive(s.tokens, raw, ForPublish, s.clock) {
      var a := s.tokens[raw].assignment;
      assert Accounted(s, a);
      PublishKeepsTokens(s, raw);
      forall b | 0 <= b < |s.assignments| ensures Accounted(AfterPublish(s, raw), b) {
        PublishAccounts(s, raw, b);
      }
      StaysApprovedFirst(s.log, Scheduled(a));
    }
  }

  lemma AssignKeeps(s: State, post: nat)
    requires Invariant(s) && post in s.posts
    ensures Invariant(Apply(s, Assign(post)))
  {
    var t, n := Apply(s, Assign(post)), |s.assignments|;
    assert n !in s.minting;
    forall b | 0 <= b <= n ensures Accounted(t, b) {
      if b < n {
        assert Accounted(s, b);
      } else {
        assert Decided(n, true) !in s.log && Decided(n, false) !in s.log && Scheduled(n) !in s.log;
      }
    }
  }

  lemma MintReviewKeepsTokens(s: State, a: nat, raw: string, ttl: Option<int>)
    requires Invariant(s) && a in s.minting && raw !in s.tokens
    ensures TokensInStep(Apply(s, MintReview(a, raw, ttl)))
  {
    var t := Apply(s, MintReview(a, raw, ttl));
    forall r, o | r in t.tokens && IsTokenOf(t.tokens, o, t.tokens[r].assignment, t.tokens[r].purpose)
      ensures r == o
    {
      if r in s.tokens && o in s.tokens {
        assert IsTokenOf(s.tokens, o, s.tokens[r].assignment, s.tokens[r].purpose);
      }
    }
  }

  lemma MintReviewKeeps(s: State, a: nat, raw: string, ttl: Option<int>)
    requires Invariant(s) && a in s.minting
    ensures Invariant(Apply(s, MintReview(a, raw, ttl)))
  {
    var t := Apply(s, MintReview(a, raw, ttl));
    if raw !in s.tokens {
      MintReviewKeepsTokens(s, a, raw, ttl);
    }
    forall b | 0 <= b < |s.assignments| ensures Accounted(t, b) {
      assert Accounted(s, b);
      assert forall r, p :: IsTokenOf(s.tokens, r, b, p) ==> IsTokenOf(t.tokens, r, b, p);
    }
  }

  lemma ReviewKeeps(s: State, raw: string, decision: Decision, reason: string, edits: Edits, seen: Text,
                    publishRaw: string, ttl: Option<int>)
    requires Invariant(s)
    ensures Invariant(AfterReview(s, raw, decision, reason, edits, seen, publishRaw, ttl))
  {
    if IsLive(s.tokens, raw, ForReview, s.clock) {
      var post := s.posts[s.assignments[s.tokens[raw].assignment].post];
      match decision
      case Decline => DeclineKeeps(s, raw, reason);
      case ApprovePublish => ApprovePublishKeeps(s, raw, reason, Edited(post, seen, edits));
      case Approve =>
        if publishRaw !in s.tokens {
          ApproveKeeps(s, raw, reason, Edited(post, seen, edits), publishRaw, ttl);
        }
      case Other =>
    }
  }

  /** The invariant does not speak of the clock or of the posts' contents. */
  lemma OtherStepsKeep(s: State, t: State)
    requires Invariant(s) && t == s.(clock := t.clock, posts := t.posts) && t.posts.Keys == s.posts.Keys
    ensures Invariant(t)
  {
    forall b | 0 <= b < |s.assignments| ensures Accounted(t, b) {
      assert Accounted(s, b);
    }
  }

  lemma StepKeepsInvariant(s: State, step: Step)
    requires Invariant(s) && Enabled(s, step)
    ensures Invariant(Apply(s, step))
  {
    hide Invariant;
    match step
    case Assign(post) => AssignKeeps(s, post);
    case MintReview(a, raw, ttl) => MintReviewKeeps(s, a, raw, ttl);
    case Review(raw, decision, reason, edits, seen, publishRaw, ttl) =>
      ReviewKeeps(s, raw, decision, reason, edits, seen, publishRaw, ttl);
    case Publish(raw) => PublishKeeps(s, raw);
    case _ => OtherStepsKeep(s, Apply(s, step));
  }

  // ----- Whole runs -----

  ghost predicate IsRun(states: seq<State>, steps: seq<Step>) {
    |states| == |steps| + 1
    && (forall i :: 0 <= i < |states| ==> RefersToRows(states[i]))
    && (forall i :: 0 <= i < |steps| ==> Enabled(states[i], steps[i]) && states[i + 1] == Apply(states[i], steps[i]))
  }

  ghost predicate Initial(s: State) {
    s.assignments == [] && s.tokens == map[] && s.minting == {} && s.log == []
  }

  lemma {:induction false} RunKeepsInvariant(states: seq<State>, steps: seq<Step>, n: nat)
    requires IsRun(states, steps) && Initial(states[0]) && n < |states|
    ensures Invariant(states[n])
  {
    if n > 0 {
      RunKeepsInvariant(states, steps, n - 1);
      StepKeepsInvariant(states[n - 1], steps[n - 1]);
    }
  }

  /**
   In every run each assignment is scheduled at most once, only after its
   approval was recorded, and never when it was declined or is still pending.
   */
  lemma ScheduledOnceAndOnlyIfApproved(states: seq<State>, steps: seq<Step>, n: nat, a: nat)
    requires IsRun(states, steps) && Initial(states[0]) && n < |states| && a < |states[n].assignments|
    ensures var s := states[n]; Times(s.log, Scheduled(a)) <= (if s.assignments[a].status.Approved? then 1 else 0)
    ensures var log := states[n].log;
      forall k :: 0 <= k < |log| && log[k] == Scheduled(a) ==> Decided(a, true) in log[..k]
  {
    RunKeepsInvariant(states, steps, n);
    assert Accounted(states[n], a);
  }

  /** An assignment has left PENDING exactly when a REVIEW token of its own is spent, and it never has two. */
  lemma LeavesPendingIffTokenSpent(states: seq<State>, steps: seq<Step>, n: nat, a: nat)
    requires IsRun(states, steps) && Initial(states[0]) && n < |states| && a < |states[n].assignments|
    ensures var s := states[n];
      !s.assignments[a].status.Pending? <==> exists raw :: IsTokenOf(s.tokens, raw, a, ForReview) && s.tokens[raw].used
    ensures var tokens := states[n].tokens;
      forall raw, other ::
         IsTokenOf(tokens, raw, a, ForReview) && IsTokenOf(tokens, other, a, ForReview) ==> raw == other
  {
    RunKeepsInvariant(states, steps, n);
    assert Accounted(states[n], a);
  }

  /** An approval is never lost: it has been scheduled, or its one PUBLISH token is still unspent. */
  lemma ApprovalIsScheduledOrOpen(states: seq<State>, steps: seq<Step>, n: nat, a: nat)
    requires IsRun(states, steps) && Initial(states[0]) && n < |states| && a < |states[n].assignments|
    requires states[n].assignments[a].status.Approved?
    ensures var s := states[n];
      Times(s.log, Scheduled(a)) == 1
      <==> !(exists raw :: IsTokenOf(s.tokens, raw, a, ForPublish) && !s.tokens[raw].used)
  {
    RunKeepsInvariant(states, steps, n);
    assert Accounted(states[n], a);
  }

  lemma StepKeepsDecision(s: State, step: Step, a: nat)
    requires Invariant(s) && Enabled(s, step) && a < |s.assignments| && !s.assignments[a].status.Pending?
    ensures var t := Apply(s, step); a < |t.assignments| && t.assignments[a] == s.assignments[a]
  {
  }

  /** A decision is final: status and reason never change again. */
  lemma {:induction false} DecisionsAreFinal(states: seq<State>, steps: seq<Step>, m: nat, n: nat, a: nat)
    requires IsRun(states, steps) && Initial(states[0]) && m <= n < |states|
    requires a < |states[m].assignments| && !states[m].assignments[a].status.Pending?
    ensures a < |states[n].assignments| && states[n].assignments[a] == states[m].assignments[a]
    decreases n - m
  {
    if m < n {
      DecisionsAreFinal(states, steps, m, n - 1, a);
      RunKeepsInvariant(states, steps, n - 1);
      StepKeepsDecision(states[n - 1], steps[n - 1], a);
    }
  }

  /**
   A decided review shows on the post and the assignment alike: an approval
   keeps the reason column, a decline keeps the text and its gates.
   */
  lemma DecisionReachesThePost(s: State, step: Step)
    requires Invariant(s) && step.Review? && s.log < Apply(s, step).log
    ensures step.raw in s.tokens
    ensures var t, a := Apply(s, step), s.tokens[step.raw].assignment;
      var before, after := s.posts[s.assignments[a].post], t.posts[s.assignments[a].post];
      (step.decision.Decline? <==> t.assignments[a].status.Declined? && after.review.ChangesRequested?)
      && (step.decision.Decline? <==> !(t.assignments[a].status.Approved? && after.review.ReviewApproved?))
      && (step.decision.Decline? ==> t.assignments[a].reason == step.reason != "")
      && (step.decision.Decline? ==> after.text == before.text && after.children == before.children)
      && (!step.decision.Decline? ==> t.assignments[a].reason == s.assignments[a].reason)
      && (step.decision.Approve? <==> step.publishRaw !in s.tokens && step.publishRaw in t.tokens)
      && (step.decision.ApprovePublish? <==> Scheduled(a) in t.log)
  {
    var a := s.tokens[step.raw].assignment;
    assert Accounted(s, a) && Scheduled(a) !in s.log;
    EditedKeepsReview(s.posts[s.assignments[a].post], step.seen, step.edits);
    hide Edited;
  }

  /**
   A review decides exactly when its token is stored, unused, of its purpose and
   not expired, and the form asks for a decision that can be carried out: a decline
   has a reason, an approval that mints has an unused token value.  Otherwise
   nothing changes.
   */
  lemma ReviewDecidesIff(s: State, step: Step)
    requires RefersToRows(s) && step.Review?
    ensures s.log < Apply(s, step).log <==>
      step.raw in s.tokens && s.tokens[step.raw].purpose == ForReview && !s.tokens[step.raw].used
      && s.clock < s.tokens[step.raw].expires
      && (step.decision == Decline ==> step.reason != "") && (step.decision == Approve ==> step.publishRaw !in s.tokens)
      && step.decision != Other
    ensures s.log < Apply(s, step).log || Apply(s, step) == s
  {
    hide Edited;
  }

  /**
   An approval stores, field by field, what was submitted if that differs from
   the copy the request had read, and leaves the stored value otherwise; if any
   field differed, every gated child loses gate and hash.
   */
  lemma ApprovalStoresTheEdits(s: State, step: Step)
    requires RefersToRows(s) && step.Review? && step.decision != Decline && s.log < Apply(s, step).log
    ensures step.raw in s.tokens
    ensures var p := s.assignments[s.tokens[step.raw].assignment].post;
      var edits, seen, before, after := step.edits, step.seen, s.posts[p], Apply(s, step).posts[p];
      (after.text.title == if edits.title.Some? && edits.title.value != seen.title then edits.title.value
                           else before.text.title)
      && (after.text.caption == if edits.caption.Some? && edits.caption.value != seen.caption then edits.caption.value
                                else before.text.caption)
      && (after.text.firstComment ==
            if edits.firstComment.Some? && edits.firstComment.value != seen.firstComment then edits.firstComment.value
            else before.text.firstComment)
      && |after.children| == |before.children|
      && forall i :: 0 <= i < |after.children| ==>
           after.children[i] ==
             if before.children[i].gate.Some?
                && ((edits.title.Some? && edits.title.value != seen.title)
                    || (edits.caption.Some? && edits.caption.value != seen.caption)
                    || (edits.firstComment.Some? && edits.firstComment.value != seen.firstComment))
             then Child(None, "") else before.children[i]
  {
    var p := s.assignments[s.tokens[step.raw].assignment].post;
    EditedInFields(s.posts[p], step.seen, step.edits);
    hide Edited, AnyChanged, NewText, Ungated;
  }

  lemma EditedInFields(before: Post, seen: Text, edits: Edits)
    ensures var after := Edited(before, seen, edits);
      (after.text.title == if edits.title.Some? && edits.title.value != seen.title then edits.title.value
                           else before.text.title)
      && (after.text.caption == if edits.caption.Some? && edits.caption.value != seen.caption then edits.caption.value
                                else before.text.caption)
      && (after.text.firstComment ==
            if edits.firstComment.Some? && edits.firstComment.value != seen.firstComment then edits.firstComment.value
            else before.text.firstComment)
      && |after.children| == |before.children|
      && forall i :: 0 <= i < |after.children| ==>
           after.children[i] ==
             if before.children[i].gate.Some?
                && ((edits.title.Some? && edits.title.value != seen.title)
                    || (edits.caption.Some? && edits.caption.value != seen.caption)
                    || (edits.firstComment.Some? && edits.firstComment.value != seen.firstComment))
             then Child(None, "") else before.children[i]
  {
  }

  /** A decision spends its REVIEW token; a plain approval leaves a fresh PUBLISH token; no other token changes. */
  lemma DecisionSpendsAndMints(s: State, step: Step)
    requires RefersToRows(s) && step.Review? && s.log < Apply(s, step).log
    ensures step.raw in s.tokens
    ensures var spent, days := s.tokens[step.raw], if step.ttl in {None, Some(0)} then 7 else step.ttl.value;
      var after := s.tokens[step.raw := spent.(used := true)];
      Apply(s, step).tokens ==
        if step.decision == Approve
        then after[step.publishRaw := Token(spent.assignment, ForPublish, s.clock + 86400 * days, false)] else after
  {
    hide Edited;
  }

  /** The PUBLISH page: a stored, unused, unexpired token of its purpose is spent and its assignment scheduled. */
  lemma PublishSchedulesIff(s: State, raw: string)
    requires RefersToRows(s)
    ensures Apply(s, Publish(raw)) ==
      if raw in s.tokens && s.tokens[raw].purpose == ForPublish && !s.tokens[raw].used
         && s.clock < s.tokens[raw].expires
      then s.(tokens := s.tokens[raw := s.tokens[raw].(used := true)],
              log := s.log + [Scheduled(s.tokens[raw].assignment)])
      else s
  {
  }

  lemma EditedKeepsReview(post: Post, seen: Text, edits: Edits)
    ensures Edited(post, seen, edits).review == post.review
  {
  }

  /** A token works for exactly the configured days after it was minted: seven when none or zero is configured. */
  lemma TokenLivesItsDays(s: State, a: nat, purpose: Purpose, raw: string, ttl: Option<int>, now: int)
    ensures IsLive(Minted(s, a, purpose, raw, ttl).tokens, raw, purpose, now) <==>
      now - s.clock < 86400 * (if ttl in {None, Some(0)} then 7 else ttl.value)
  {
  }

  // ----- Reviewer edits and the compliance gate -----

  /** Every gate a child still carries was issued for the text the post has now. */
  ghost predicate GatesCurrent(posts: map<nat, Post>) {
    forall p, i :: p in posts && 0 <= i < |posts[p].children| && posts[p].children[i].gate.Some? ==>
      posts[p].children[i].gate.value == posts[p].text
  }

  ghost predicate NoGates(post: Post) {
    forall i :: 0 <= i < |post.children| ==> post.children[i].gate.None?
  }

  /**
   Editing on the review page never bypasses the gate: whatever (possibly stale)
   copy a review compared its edits with, a post whose text it changed carries no
   gate afterwards; children are left alone or all ungated.
   */
  lemma EditsNeverBypassTheGate(s: State, step: Step, p: nat)
    requires RefersToRows(s) && step.Review? && p in s.posts
    ensures p in Apply(s, step).posts
    ensures var before, after := s.posts[p], Apply(s, step).posts[p];
      (after.text != before.text ==> NoGates(after))
      && (after.children == before.children || (after.children == Ungated(before.children) && NoGates(after)))
  {
    if IsLive(s.tokens, step.raw, ForReview, s.clock) {
      var q := s.assignments[s.tokens[step.raw].assignment].post;
      EditedClearsGates(s.posts[q], step.seen, step.edits);
      hide Edited, Ungated;
    }
  }

  lemma EditedClearsGates(post: Post, seen: Text, edits: Edits)
    ensures var after := Edited(post, seen, edits);
      if AnyChanged(seen, edits) then NoGates(after) && after.children == Ungated(post.children) else after == post
  {
  }

  /** Both saves store the text; only the autosave touches the gates, and a stamp touches one child. */
  lemma SavesStoreTheText(s: State, p: nat, text: Text, child: nat, hash: string)
    requires RefersToRows(s) && p in s.posts && child < |s.posts[p].children|
    ensures Apply(s, Autosave(p, text)).posts ==
      s.posts[p := Post(text, s.posts[p].review, Ungated(s.posts[p].children))]
    ensures Apply(s, Save(p, text)).posts == s.posts[p := Post(text, s.posts[p].review, s.posts[p].children)]
    ensures Apply(s, Gate(p, child, text, hash)).posts ==
      s.posts[p := s.posts[p].(children := s.posts[p].children[child := Child(Some(text), hash)])]
    ensures NoGates(Apply(s, Autosave(p, text)).posts[p])
  {
  }

  /** What a step must meet so that no gate comes to stand for another text than the post's. */
  ghost predicate KeepsGates(s: State, step: Step)
    requires RefersToRows(s) && Enabled(s, step)
  {
    match step
    case Save(p, text) => text == s.posts[p].text || NoGates(s.posts[p])
    case Gate(p, _, issuedFor, _) => issuedFor == s.posts[p].text
    case _ => true
  }

  /**
   From gates that are current, a save keeps them so exactly when it changes
   nothing or no child has one, a stamp exactly when the text read is still
   stored, and every other step always.
   */
  lemma StepKeepsGatesIff(s: State, step: Step)
    requires RefersToRows(s) && Enabled(s, step) && GatesCurrent(s.posts)
    ensures GatesCurrent(Apply(s, step).posts) <==> KeepsGates(s, step)
  {
    match step
    case Review(_, _, _, _, _, _, _) =>
      forall p | p in s.posts {
        EditsNeverBypassTheGate(s, step, p);
      }
    case Save(p, text) =>
      if i :| 0 <= i < |s.posts[p].children| && s.posts[p].children[i].gate.Some? {
        assert Apply(s, step).posts[p].children[i] == s.posts[p].children[i];
      }
    case Gate(p, child, issuedFor, hash) =>
      assert Apply(s, step).posts[p].children[child] == Child(Some(issuedFor), hash);
    case _ =>
  }

  /** Over whole runs: gates are current throughout exactly when every save and every stamp met its condition. */
  lemma {:induction false} GatesStayCurrentIff(states: seq<State>, steps: seq<Step>, n: nat)
    requires IsRun(states, steps) && GatesCurrent(states[0].posts) && n < |states|
    ensures (forall i :: 0 <= i <= n ==> GatesCurrent(states[i].posts)) <==>
      (forall i :: 0 <= i < n ==> KeepsGates(states[i], steps[i]))
    decreases n
  {
    hide GatesCurrent, KeepsGates, Apply, Enabled, RefersToRows;
    if n > 0 {
      var m := n - 1;
      GatesStayCurrentIff(states, steps, m);
      assert states[m + 1] == Apply(states[m], steps[m]);
      if GatesCurrent(states[m].posts) {
        StepKeepsGatesIff(states[m], steps[m]);
      }
      assert (forall i :: 0 <= i <= n ==> GatesCurrent(states[i].posts)) <==>
        (forall i :: 0 <= i <= m ==> GatesCurrent(states[i].posts)) && GatesCurrent(states[n].posts);
      assert (forall i :: 0 <= i < n ==> KeepsGates(states[i], steps[i])) <==>
        (forall i :: 0 <= i < m ==> KeepsGates(states[i], steps[i])) && KeepsGates(states[m], steps[m]);
    }
  }

  /** A gated post saved with another text keeps the gate of the old one. */
  lemma SaveKeepsAnOldGate(read: Text, saved: Text) returns (states: seq<State>, steps: seq<Step>)
    requires read != saved
    ensures IsRun(states, steps) && |steps| == 2 && Initial(states[0]) && GatesCurrent(states[0].posts)
    ensures 1 in states[2].posts && |states[2].posts[1].children| == 1
    ensures states[2].posts[1].text == saved && states[2].posts[1].children[0].gate == Some(read)
  {
    var posts := map[1 := Post(read, Unreviewed, [Child(None, "")])];
    var s0 := State(0, posts, [], map[], {}, []);
    steps := [Gate(1, 0, read, "hash"), Save(1, saved)];
    var s1 := Apply(s0, steps[0]);
    states := [s0, s1, Apply(s1, steps[1])];
  }

  /**
   The approved post carries a submitted value exactly when the field was
   changed from what the request had read, or its stored value was still that.
   */
  lemma StoresWhatWasSubmitted(post: Post, seen: Text, edits: Edits)
    requires edits.title.Some? && edits.caption.Some? && edits.firstComment.Some?
    ensures var submitted := Text(edits.title.value, edits.caption.value, edits.firstComment.value);
      Edited(post, seen, edits).text == submitted <==>
        ((submitted.title == seen.title ==> post.text.title == seen.title)
         && (submitted.caption == seen.caption ==> post.text.caption == seen.caption)
         && (submitted.firstComment == seen.firstComment ==> post.text.firstComment == seen.firstComment))
  {
    EditedKeepsText(post, seen, edits);
  }

  lemma EditedKeepsText(post: Post, seen: Text, edits: Edits)
    ensures Edited(post, seen, edits).text == NewText(post.text, seen, edits)
  {
  }

  // ----- The services and the two views -----

  class Desk {
    var clock: int
    var posts: map<nat, Post>
    var assignments: seq<Assignment>
    var tokens: map<string, Token>
    var minting: set<nat>
    var log: seq<Event>

    constructor (now: int, posts: map<nat, Post>)
      ensures Abstract() == State(now, posts, [], map[], {}, [])
    {
      clock, this.posts := now, posts;
      assignments, tokens, minting, log := [], map[], {}, [];
    }

    ghost function Abstract(): State
      reads this
    {
      State(clock, posts, assignments, tokens, minting, log)
    }

    method MintToken(a: nat, purpose: Purpose, raw: string, ttl: Option<int>) returns (ok: bool)
      modifies this`tokens
      ensures ok <==> raw !in old(tokens)
      ensures tokens == if ok then old(tokens)[raw := Token(a, purpose, Expiry(clock, ttl), false)] else old(tokens)
    {
      ok := raw !in tokens;
      if ok {
        var days := 7;
        if ttl.Some? && ttl.value != 0 {
          days := ttl.value;
        }
        tokens := tokens[raw := Token(a, purpose, clock + DAY * days, false)];
      }
    }

    method ResolveToken(raw: string, purpose: Purpose) returns (token: Option<Token>)
      ensures token.Some? <==> IsLive(tokens, raw, purpose, clock)
      ensures token.Some? ==> token.value == tokens[raw]
    {
      if raw !in tokens || tokens[raw].purpose != purpose || tokens[raw].used || tokens[raw].expires <= clock {
        return None;
      }
      return Some(tokens[raw]);
    }

    method Consume(raw: string)
      requires raw in tokens
      modifies this`tokens
      ensures tokens == old(tokens)[raw := old(tokens)[raw].(used := true)]
    {
      tokens := tokens[raw := tokens[raw].(used := true)];
    }

    method ApplyReviewerEdits(p: nat, seen: Text, edits: Edits) returns (edited: bool)
      requires p in posts
      modifies this`posts
      ensures posts == old(posts)[p := Edited(old(posts)[p], seen, edits)]
      ensures edited <==> AnyChanged(seen, edits)
    {
      edited := false;
      var text := posts[p].text;
      if edits.title.Some? && edits.title.value != seen.title {
        text, edited := text.(title := edits.title.value), true;
      }
      if edits.caption.Some? && edits.caption.value != seen.caption {
        text, edited := text.(caption := edits.caption.value), true;
      }
      if edits.firstComment.Some? && edits.firstComment.value != seen.firstComment {
        text, edited := text.(firstComment := edits.firstComment.value), true;
      }
      if edited {
        posts := posts[p := posts[p].(text := text, children := Ungated(posts[p].children))];
      }
    }

    method AssignForReview(p: nat, raw: string, ttl: Option<int>) returns (a: nat, ok: bool)
      requires p in posts && RefersToRows(Abstract())
      requires |assignments| !in minting
      modifies this
      ensures var created := Apply(old(Abstract()), Assign(p));
        Enabled(created, MintReview(|old(assignments)|, raw, ttl))
        && Abstract() == Apply(created, MintReview(|old(assignments)|, raw, ttl))
      ensures a == |old(assignments)| && assignments == old(assignments) + [Assignment(p, Pending, "")]
      ensures posts == old(posts)[p := old(posts)[p].(review := AwaitingReview)]
      ensures ok <==> raw !in old(tokens)
      ensures var days := if ttl in {None, Some(0)} then 7 else ttl.value;
        ok ==> raw in tokens && tokens[raw] == Token(a, ForReview, clock + 86400 * days, false)
      ensures tokens - {raw} == old(tokens) - {raw} && minting == old(minting) && log == old(log)
    {
      a := |assignments|;
      assignments := assignments + [Assignment(p, Pending, "")];
      posts := posts[p := posts[p].(review := AwaitingReview)];
      ok := MintToken(a, ForReview, raw, ttl);
      assert minting + {a} - {a} == minting;
    }

    method RecordDecision(raw: string, approved: bool, reason: string)
      requires RefersToRows(Abstract()) && raw in tokens
      modifies this
      ensures var s := old(Abstract());
        Abstract() == Decide(s, raw, approved, reason, s.posts[s.assignments[s.tokens[raw].assignment].post])
    {
      var a := tokens[raw].assignment;
      var row := assignments[a];
      log := log + [Decided(a, approved)];
      if approved {
        assignments := assignments[a := row.(status := Approved)];
        posts := posts[row.post := posts[row.post].(review := ReviewApproved)];
      } else {
        assignments := assignments[a := row.(status := Declined, reason := reason)];
        posts := posts[row.post := posts[row.post].(review := ChangesRequested)];
      }
      Consume(raw);
    }

    /** The POST of the review page; a failed insert rolls the whole transaction back. */
    method PostReview(raw: string, decision: Decision, reason: string, edits: Edits, seen: Text, publishRaw: string,
                      ttl: Option<int>)
      returns (page: Page)
      requires RefersToRows(Abstract())
      modifies this
      ensures Abstract() == Apply(old(Abstract()), Review(raw, decision, reason, edits, seen, publishRaw, ttl))
      ensures page.InvalidLink? <==> !IsLive(old(tokens), raw, ForReview, clock)
      ensures page.Done? <==> old(log) < log
    {
      hide Edited, AnyChanged, Expiry;
      var token := ResolveToken(raw, ForReview);
      if token.None? {
        return InvalidLink;
      }
      var a := token.value.assignment;
      if decision.Other? {
        return UnknownDecision;
      } else if decision.Decline? {
        if reason == "" {
          return ReasonRequired;
        }
        RecordDecision(raw, false, reason);
      } else {
        var savedPosts, savedAssignments, savedTokens, savedLog := posts, assignments, tokens, log;
        var edited := ApplyReviewerEdits(assignments[a].post, seen, edits);
        RecordDecision(raw, true, reason);
        if decision.ApprovePublish? {
          log := log + [Scheduled(a)];
        } else {
          var ok := MintToken(a, ForPublish, publishRaw, ttl);
          if !ok {
            posts, assignments, tokens, log := savedPosts, savedAssignments, savedTokens, savedLog;
            return ServerError;
          }
        }
      }
      return Done;
    }

    method PostPublish(raw: string) returns (page: Page)
      requires RefersToRows(Abstract())
      modifies this`tokens, this`log
      ensures Abstract() == Apply(old(Abstract()), Publish(raw))
      ensures page == if IsLive(old(tokens), raw, ForPublish, clock) then Done else InvalidLink
    {
      var token := ResolveToken(raw, ForPublish);
      if token.None? {
        return InvalidLink;
      }
      Consume(raw);
      log := log + [Scheduled(token.value.assignment)];
      return Done;
    }
  }
}
