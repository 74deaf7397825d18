/** A post's own time: the earliest of its platform posts' times (apps/composer/services.py). */
module PostTimes {
  import opened Wrappers

  type Account = nat

  /** The time of the post's platform post per account, None while it has none. */
  type Times = map<Account, Option<int>>

  ghost predicate IsEarliest(t: Option<int>, children: Times) {
    && (t.None? <==> forall a :: a in children ==> children[a].None?)
    && (t.Some? ==> exists a :: a in children && children[a] == t)
    && (t.Some? ==> forall a :: a in children && children[a].Some? ==> t.value <= children[a].value)
  }

  /** The children already looked at. */
  ghost function Seen(children: Times, left: set<Account>): Times {
    map a | a in children && a !in left :: children[a]
  }

  lemma SeenGrows(children: Times, left: set<Account>, a: Account)
    requires a in left && a in children
    ensures Seen(children, left - {a}) == Seen(children, left)[a := children[a]]
  {
  }

  lemma SeenAtEnds(children: Times)
    ensures Seen(children, children.Keys) == map[] && Seen(children, {}) == children
  {
  }

  method Earliest(children: Times) returns (t: Option<int>)
    ensures IsEarliest(t, children)
  {
    t := None;
    var left := children.Keys;
    SeenAtEnds(children);
    while left != {}
      invariant left <= children.Keys && IsEarliest(t, Seen(children, left))
      decreases left
    {
      hide IsEarliest;
      var a :| a in left;
      SeenGrows(children, left, a);
      ghost var seen := t;
      if children[a].Some? && (t.None? || children[a].value < t.value) {
        t := children[a];
      }
      EarliestGrows(Seen(children, left), a, children[a], seen, t);
      left := left - {a};
    }
  }

  lemma EarliestGrows(before: Times, a: Account, time: Option<int>, seen: Option<int>, t: Option<int>)
    requires a !in before && IsEarliest(seen, before)
    requires t == if time.Some? && (seen.None? || time.value < seen.value) then time else seen
    ensures IsEarliest(t, before[a := time])
  {
    var after := before[a := time];
    if time.Some? {
      assert after[a] == time;
    }
    if seen.Some? {
      var b :| b in before && before[b] == seen;
      assert after[b] == seen;
    }
  }

  lemma {:induction false} EarliestExists(children: Times) returns (t: Option<int>)
    ensures IsEarliest(t, children)
    decreases |children|
  {
    if children == map[] {
      return None;
    }
    var a :| a in children;
    var rest := children - {a};
    var seen := EarliestExists(rest);
    t := if children[a].Some? && (seen.None? || children[a].value < seen.value) then children[a] else seen;
    EarliestGrows(rest, a, children[a], seen, t);
    assert rest[a := children[a]] == children;
  }

  ghost function EarliestOf(children: Times): (t: Option<int>)
    ensures IsEarliest(t, children)
  {
    assert exists t :: IsEarliest(t, children) by {
      var u := EarliestExists(children);
    }
    var t :| IsEarliest(t, children);
    t
  }

  lemma EarliestIsUnique(t: Option<int>, u: Option<int>, children: Times)
    requires IsEarliest(t, children) && IsEarliest(u, children)
    ensures t == u
  {
  }
}
