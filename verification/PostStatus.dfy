/** The aggregate status of a post from its platform children (apps/composer/status.py). */
module PostStatus {
  import opened Wrappers

  /** In workflow order; Failed stands outside it. */
  datatype Status = Draft | ChangesRequested | Rejected | PendingReview | PendingClient | Approved | Scheduled
                  | Publishing | PartiallyPublished | Published | Failed

  /** Position in the workflow order; what is not in it comes last. */
  function Rank(s: Status): nat {
    match s
    case Draft => 0
    case ChangesRequested => 1
    case Rejected => 2
    case PendingReview => 3
    case PendingClient => 4
    case Approved => 5
    case Scheduled => 6
    case Publishing => 7
    case PartiallyPublished => 8
    case Published => 9
    case Failed => 10
  }

  predicate IsTerminal(s: Status) {
    s.Published? || s.Failed?
  }

  /** Blank children are skipped. */
  function Values(statuses: seq<Option<Status>>): (values: seq<Status>)
    ensures forall v :: v in values <==> Some(v) in statuses
  {
    if statuses == [] then [] else
      var last := statuses[|statuses| - 1];
      assert statuses == statuses[..|statuses| - 1] + [last];
      Values(statuses[..|statuses| - 1]) + if last.Some? then [last.value] else []
  }

  /** min(values, key=rank). */
  function Lowest(values: seq<Status>): (low: Status)
    requires values != []
    ensures low in values && forall v :: v in values ==> Rank(low) <= Rank(v)
  {
    if |values| == 1 then values[0] else
      var low, last := Lowest(values[..|values| - 1]), values[|values| - 1];
      assert values == values[..|values| - 1] + [last];
      if Rank(last) < Rank(low) then last else low
  }

  function Combine(values: seq<Status>): Status {
    if values == [] then Draft
    else if forall v :: v in values ==> v == values[0] then values[0]
    else if forall v :: v in values ==> IsTerminal(v) then
      if Published in values && Failed in values then PartiallyPublished
      else if Published in values then Published
      else Failed
    else Lowest(values)
  }

  function DerivePostStatus(statuses: seq<Option<Status>>): Status {
    Combine(Values(statuses))
  }

  // ----- The order behind the rules -----

  /** The workflow order, with Published and Failed side by side at the top. */
  predicate Leq(a: Status, b: Status) {
    a == b || (Rank(a) < Rank(b) && !(a.Published? && b.Failed?))
  }

  lemma LeqIsPartialOrder(a: Status, b: Status, c: Status)
    ensures Leq(a, b) && Leq(b, c) ==> Leq(a, c)
    ensures Leq(a, b) && Leq(b, a) ==> a == b
  {
  }

  ghost predicate IsLowerBound(low: Status, values: seq<Status>) {
    forall v :: v in values ==> Leq(low, v)
  }

  ghost predicate IsMeet(m: Status, values: seq<Status>) {
    IsLowerBound(m, values) && forall low :: IsLowerBound(low, values) ==> Leq(low, m)
  }

  lemma CombineIsLowerBound(values: seq<Status>)
    requires values != []
    ensures IsLowerBound(Combine(values), values)
  {
    if w :| w in values && !IsTerminal(w) {
      assert Rank(Lowest(values)) <= Rank(w);
    }
  }

  /** The result is the greatest status that is at or below every child's. */
  lemma CombineIsMeet(values: seq<Status>)
    requires values != []
    ensures IsMeet(Combine(values), values)
  {
    CombineIsLowerBound(values);
    var m := Combine(values);
    forall low | IsLowerBound(low, values) ensures Leq(low, m) {
      assert values[0] in values && Leq(low, values[0]);
      if m == PartiallyPublished && Published in values && Failed in values {
        assert Leq(low, Published) && Leq(low, Failed);
      }
    }
  }

  lemma MeetIsUnique(m: Status, n: Status, values: seq<Status>, others: seq<Status>)
    requires IsMeet(m, values) && IsMeet(n, others)
    requires forall v :: v in values <==> v in others
    ensures m == n
  {
    assert IsLowerBound(m, others) && IsLowerBound(n, values);
    LeqIsPartialOrder(m, n, m);
  }

  /** Order and multiplicity of the children do not matter, nor do blank ones. */
  lemma DependsOnTheSetOnly(a: seq<Option<Status>>, b: seq<Option<Status>>)
    requires forall v :: Some(v) in a <==> Some(v) in b
    ensures DerivePostStatus(a) == DerivePostStatus(b)
  {
    var va, vb := Values(a), Values(b);
    assert forall v :: v in va <==> v in vb;
    if va != [] {
      SameMembersNonEmpty(va, vb);
      CombineIsMeet(va);
      CombineIsMeet(vb);
      MeetIsUnique(Combine(va), Combine(vb), va, vb);
    } else if vb != [] {
      SameMembersNonEmpty(vb, va);
    }
  }

  lemma SameMembersNonEmpty(a: seq<Status>, b: seq<Status>)
    requires a != [] && forall v :: v in a <==> v in b
    ensures b != []
  {
    assert a[0] in b;
  }

  lemma {:induction false} ValuesOfConcat(a: seq<Option<Status>>, b: seq<Option<Status>>)
    ensures forall v :: v in Values(a + b) <==> v in Values(a) || v in Values(b)
  {
    assert forall v :: Some(v) in a + b <==> Some(v) in a || Some(v) in b;
  }

  lemma MeetOfMeets(a: seq<Status>, b: seq<Status>, both: seq<Status>)
    requires a != [] && b != [] && forall v :: v in both <==> v in a || v in b
    ensures Combine(both) == Combine([Combine(a), Combine(b)])
  {
    var ma, mb := Combine(a), Combine(b);
    var m := Combine([ma, mb]);
    assert a[0] in both;
    CombineIsMeet(a);
    CombineIsMeet(b);
    CombineIsMeet(both);
    CombineIsMeet([ma, mb]);
    hide Combine, Leq;
    assert ma in [ma, mb] && mb in [ma, mb];
    forall v | v in both ensures Leq(m, v) {
      LeqIsPartialOrder(m, if v in a then ma else mb, v);
    }
    forall low | IsLowerBound(low, both) ensures Leq(low, m) {
      assert IsLowerBound(low, a) && IsLowerBound(low, b);
      assert IsLowerBound(low, [ma, mb]);
    }
    assert IsMeet(m, both);
    MeetIsUnique(m, Combine(both), both, both);
  }

  /** The stages of the workflow, earliest first. */
  lemma StagesInOrder()
    ensures Rank(Draft) < Rank(ChangesRequested) < Rank(Rejected) < Rank(PendingReview) < Rank(PendingClient)
    ensures Rank(PendingClient) < Rank(Approved) < Rank(Scheduled) < Rank(Publishing) < Rank(PartiallyPublished)
    ensures Rank(PartiallyPublished) < Rank(Published) < Rank(Failed)
  {
  }

  /** With a child that is neither published nor failed, the earliest stage wins. */
  lemma EarliestStageWins(values: seq<Status>, s: Status)
    requires s in values && s != Published && s != Failed && forall v :: v in values ==> v == s || Rank(s) < Rank(v)
    ensures Combine(values) == s
  {
    assert !IsTerminal(s);
    hide Rank;
  }

  /** And when all are published or failed: what all are, else partially published; without children, a draft. */
  lemma TerminalStages(values: seq<Status>)
    requires forall v :: v in values ==> v == Published || v == Failed
    ensures Combine(values) ==
      if values == [] then Draft
      else if Published in values && Failed in values then PartiallyPublished
      else if Published in values then Published else Failed
  {
    if values != [] {
      assert values[0] in values;
    }
  }

  /** A group is a draft exactly when it has no status or one of its statuses is a draft. */
  lemma DraftIff(values: seq<Status>)
    ensures Combine(values) == Draft <==> values == [] || Draft in values
  {
    if values != [] {
      CombineIsMeet(values);
    }
  }

  /**
   Deriving over all children equals deriving over the results of two groups
   exactly when both groups have a status, or neither has, or one has a draft.
   */
  lemma GroupsCombineIff(a: seq<Option<Status>>, b: seq<Option<Status>>)
    ensures DerivePostStatus(a + b) == DerivePostStatus([Some(DerivePostStatus(a)), Some(DerivePostStatus(b))]) <==>
      ((Values(a) != [] && Values(b) != []) || Values(a + b) == [] || Draft in Values(a + b))
  {
    var va, vb := Values(a), Values(b);
    ValuesOfConcat(a, b);
    TwoValues(Combine(va), Combine(vb));
    DraftIff(Values(a + b));
    if va != [] && vb != [] {
      MeetOfMeets(va, vb, Values(a + b));
    } else {
      DraftIsLeast(Combine(va), Combine(vb));
    }
  }

  lemma TwoValues(a: Status, b: Status)
    ensures Values([Some(a), Some(b)]) == [a, b]
  {
    assert [Some(a)][..0] == [];
    assert Values([Some(a)]) == [a];
    assert [Some(a), Some(b)][..1] == [Some(a)];
  }

  lemma DraftIsLeast(a: Status, b: Status)
    requires a == Draft || b == Draft
    ensures Combine([a, b]) == Draft
  {
    CombineIsMeet([a, b]);
    assert a in [a, b] && b in [a, b];
  }

  /**
   The description of the rules says that a failed child beside one still under
   way makes the post "publishing"; the code answers so exactly when a child is
   publishing and none is earlier.
   */
  lemma FailedAmongNonTerminal(values: seq<Status>)
    requires Failed in values && exists v :: v in values && !IsTerminal(v)
    ensures Combine(values) == Publishing <==>
      Publishing in values && forall v :: v in values ==> Rank(v) >= Rank(Publishing)
  {
    var v :| v in values && !IsTerminal(v);
    assert Combine(values) == Lowest(values);
  }
}
