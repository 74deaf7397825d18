/**
 The analytics fallback: one pass over cumulative per-post snapshots that
 rebuilds what happened on each day (apps/analytics/services.py).

 Days are day numbers.  A post's `published` day is the date of its
 `published_at`; values are reals, so rounding is not modelled.
 */
module PostSeries {
  import opened Wrappers
  import opened Sums

  /** One row of the query, in the order the query returns its columns. */
  datatype PostRow = PostRow(post: int, published: Option<int>, day: int, value: real, captured: Option<int>)

  /** The query's `order_by("platform_post_id", "date")`; (post, metric, date) is unique. */
  ghost predicate Ordered(rows: seq<PostRow>) {
    forall i, j :: 0 <= i < j < |rows| ==>
      rows[i].post < rows[j].post || (rows[i].post == rows[j].post && rows[i].day < rows[j].day)
  }

  /** Two rows are in order when the post id grows, or stays and the day grows. */
  lemma PairsInOrder(a: PostRow, b: PostRow)
    ensures Ordered([a, b]) <==> a.post < b.post || (a.post == b.post && a.day < b.day)
  {
    assert [a, b][0] == a && [a, b][1] == b;
  }

  /** The query's date filter. */
  ghost predicate InWindow(rows: seq<PostRow>, start: int, end: int) {
    forall i :: 0 <= i < |rows| ==> start <= rows[i].day <= end
  }

  function Get(m: map<int, real>, d: int): real {
    if d in m then m[d] else 0.0
  }

  // ----- What the pass is for, said without the pass -----

  /** The largest value the post showed on any day up to `through`. */
  ghost function Peak(rows: seq<PostRow>, post: int, through: int): Option<real> {
    if rows == [] then None else
      var init, last := rows[..|rows| - 1], rows[|rows| - 1];
      var before := Peak(init, post, through);
      if last.post != post || last.day > through then before
      else if before.Some? && before.value >= last.value then before
      else Some(last.value)
  }

  /** The post's earliest row. */
  ghost function First(rows: seq<PostRow>, post: int): Option<PostRow> {
    if rows == [] then None
    else if First(rows[..|rows| - 1], post).Some? then First(rows[..|rows| - 1], post)
    else if rows[|rows| - 1].post == post then Some(rows[|rows| - 1])
    else None
  }

  /** Published before the window: the first value anchors the count and earns nothing. */
  ghost predicate Predates(r: PostRow, start: int) {
    r.published.Some? && r.published.value <= r.day && r.published.value < start
  }

  /** Published inside the window: the first value is spread over [published, day]. */
  ghost predicate Spreads(r: PostRow, start: int) {
    r.published.Some? && start <= r.published.value <= r.day
  }

  /** What a post's first row is worth by the end of day `through`. */
  ghost function OpeningThrough(r: PostRow, start: int, through: int): real {
    if Predates(r, start) then 0.0
    else if through >= r.day then r.value
    else if Spreads(r, start) && through >= r.published.value then
      r.value / (r.day - r.published.value + 1) as real * (through - r.published.value + 1) as real
    else 0.0
  }

  /** The post's gain by the end of day `through`: its high-water mark, less the anchor. */
  ghost function GainThrough(rows: seq<PostRow>, start: int, post: int, through: int): real {
    match First(rows, post)
    case None => 0.0
    case Some(r) =>
      match Peak(rows, post, through)
      case None => OpeningThrough(r, start, through)
      case Some(peak) => peak - r.value + OpeningThrough(r, start, through)
  }

  // ----- The credits the pass hands out -----

  /** The credit a first row gives to day d. */
  ghost function Opening(r: PostRow, start: int, d: int): real {
    if Predates(r, start) then 0.0
    else if Spreads(r, start) then
      if r.published.value <= d <= r.day then r.value / (r.day - r.published.value + 1) as real else 0.0
    else if d == r.day then r.value else 0.0
  }

  /** The credit row r gives to day d when it is read after `before`. */
  ghost function Credit(before: seq<PostRow>, r: PostRow, start: int, d: int): real {
    match Peak(before, r.post, r.day)
    case None => Opening(r, start, d)
    case Some(peak) => if d == r.day && r.value > peak then r.value - peak else 0.0
  }

  /** The credits the rows give to day d for one post. */
  ghost function PostDay(rows: seq<PostRow>, start: int, post: int, d: int): real {
    if rows == [] then 0.0 else
      var init, last := rows[..|rows| - 1], rows[|rows| - 1];
      PostDay(init, start, post, d) + if last.post == post then Credit(init, last, start, d) else 0.0
  }

  /** The credits the rows give to day d for all posts. */
  ghost function DayTotal(rows: seq<PostRow>, start: int, d: int): real {
    if rows == [] then 0.0 else
      var init, last := rows[..|rows| - 1], rows[|rows| - 1];
      DayTotal(init, start, d) + Credit(init, last, start, d)
  }

  // ----- Facts about the reference functions -----

  lemma {:induction false} PeakReadsEarlierRows(rows: seq<PostRow>, post: int, a: int, b: int)
    requires forall i :: 0 <= i < |rows| && rows[i].post == post ==> rows[i].day <= a && rows[i].day <= b
    ensures Peak(rows, post, a) == Peak(rows, post, b)
  {
    if rows != [] {
      PeakReadsEarlierRows(rows[..|rows| - 1], post, a, b);
    }
  }

  lemma {:induction false} NoPeakBeforeFirst(rows: seq<PostRow>, post: int, through: int)
    requires Ordered(rows)
    ensures Peak(rows, post, through).Some? <==> First(rows, post).Some? && First(rows, post).value.day <= through
    ensures First(rows, post).Some? <==> exists i :: 0 <= i < |rows| && rows[i].post == post
    ensures First(rows, post).Some? ==> First(rows, post).value in rows && First(rows, post).value.post == post
  {
    if rows != [] {
      var init, last := rows[..|rows| - 1], rows[|rows| - 1];
      NoPeakBeforeFirst(init, post, through);
      assert forall i :: 0 <= i < |init| ==> init[i] == rows[i];
      if First(init, post).Some? {
        var i :| 0 <= i < |init| && init[i] == First(init, post).value;
        assert rows[i].post == post;
        if last.post == post {
          assert rows[i].day < rows[|rows| - 1].day;
        }
      } else if last.post == post {
        assert rows[|rows| - 1].post == post;
      }
    }
  }

  /** `Peak` is the maximum: it bounds every value in reach and is one of them. */
  lemma {:induction false} PeakIsMaximum(rows: seq<PostRow>, post: int, through: int)
    ensures forall i :: 0 <= i < |rows| && rows[i].post == post && rows[i].day <= through ==>
      Peak(rows, post, through).Some? && rows[i].value <= Peak(rows, post, through).value
    ensures var peak := Peak(rows, post, through);
      peak.Some? ==> exists r :: r in rows && r.post == post && r.day <= through && r.value == peak.value
  {
    if rows != [] {
      var init := rows[..|rows| - 1];
      PeakIsMaximum(init, post, through);
      assert forall i :: 0 <= i < |init| ==> init[i] == rows[i];
      var peak := Peak(rows, post, through);
      if peak.Some? && peak == Peak(init, post, through) {
        var r :| r in init && r.post == post && r.day <= through && r.value == peak.value;
        assert r in rows;
      }
    }
  }

  /** The credits of one first row, summed over the days from the window's start. */
  lemma OpeningSums(r: PostRow, start: int, through: int)
    requires start <= r.day
    ensures SumDays(d => Opening(r, start, d), start, through) == OpeningThrough(r, start, through)
  {
    var f := d => Opening(r, start, d);
    if Predates(r, start) {
      SumDaysOfBlock(f, 0.0, start, start, start, through);
    } else if Spreads(r, start) {
      var n := r.day - r.published.value + 1;
      SumDaysOfBlock(f, r.value / n as real, r.published.value, r.day, start, through);
      assert r.value / n as real * n as real == r.value;
    } else {
      SumDaysOfBlock(f, r.value, r.day, r.day, start, through);
    }
  }

  /** How far a later row exceeds the high-water mark before it. */
  ghost function Rise(before: seq<PostRow>, r: PostRow): real {
    var peak := Peak(before, r.post, r.day);
    if peak.Some? && r.value > peak.value then r.value - peak.value else 0.0
  }

  lemma GainGrows(rows: seq<PostRow>, start: int, through: int)
    requires rows != [] && Ordered(rows) && First(rows[..|rows| - 1], rows[|rows| - 1].post).Some?
    ensures var init, last := rows[..|rows| - 1], rows[|rows| - 1];
      Peak(init, last.post, last.day).Some?
      && GainThrough(rows, start, last.post, through) - GainThrough(init, start, last.post, through)
         == (if last.day <= through then Rise(init, last) else 0.0)
  {
    var init, last := rows[..|rows| - 1], rows[|rows| - 1];
    NoPeakBeforeFirst(init, last.post, last.day);
    NoPeakBeforeFirst(init, last.post, through);
    var i :| 0 <= i < |init| && init[i] == First(init, last.post).value;
    assert rows[i].day < last.day;
    if last.day <= through {
      PeakReadsEarlierRows(init, last.post, last.day, through);
    }
    hide OpeningThrough;
  }

  /** One later row of the post earns its rise over the high-water mark, once its day is reached. */
  lemma LaterRowGain(rows: seq<PostRow>, start: int, end: int, through: int)
    requires rows != [] && Ordered(rows) && InWindow(rows, start, end)
    requires First(rows[..|rows| - 1], rows[|rows| - 1].post).Some?
    ensures var init, last := rows[..|rows| - 1], rows[|rows| - 1];
      SumDays(d => Credit(init, last, start, d), start, through)
      == GainThrough(rows, start, last.post, through) - GainThrough(init, start, last.post, through)
  {
    var init, last := rows[..|rows| - 1], rows[|rows| - 1];
    GainGrows(rows, start, through);
    assert start <= rows[|rows| - 1].day;
    hide Peak, First, GainThrough, Opening, Ordered, InWindow;
    SumDaysOfBlock(d => Credit(init, last, start, d), Rise(init, last), last.day, last.day, start, through);
  }

  /** A post's first row earns its opening credits. */
  lemma FirstRowGain(rows: seq<PostRow>, start: int, end: int, through: int)
    requires rows != [] && Ordered(rows) && InWindow(rows, start, end)
    requires First(rows[..|rows| - 1], rows[|rows| - 1].post).None?
    ensures var init, last := rows[..|rows| - 1], rows[|rows| - 1];
      SumDays(d => Credit(init, last, start, d), start, through)
      == GainThrough(rows, start, last.post, through)
  {
    var init, last := rows[..|rows| - 1], rows[|rows| - 1];
    NoPeakBeforeFirst(init, last.post, last.day);
    NoPeakBeforeFirst(init, last.post, through);
    assert start <= rows[|rows| - 1].day;
    SumDaysSame(d => Credit(init, last, start, d), d => Opening(last, start, d), start, through);
    OpeningSums(last, start, through);
  }

  /**
   Main result: in every ordered row list, the credits a post collects up to
   any day sum to its high-water mark on that day, less the anchor value when
   the post predates the window (and, before its first row, to the even share
   of the first value).  Count resets never lose or repeat a credit.
   */
  lemma {:induction false} CreditsFollowHighWater(rows: seq<PostRow>, start: int, end: int, post: int, through: int)
    requires Ordered(rows) && InWindow(rows, start, end)
    ensures SumDays(d => PostDay(rows, start, post, d), start, through) == GainThrough(rows, start, post, through)
    decreases |rows|
  {
    if rows == [] {
      SumDaysOfBlock(d => PostDay(rows, start, post, d), 0.0, start, start, start, through);
    } else {
      var init, last := rows[..|rows| - 1], rows[|rows| - 1];
      CreditsFollowHighWater(init, start, end, post, through);
      if last.post != post {
        SumDaysSame(d => PostDay(rows, start, post, d), d => PostDay(init, start, post, d), start, through);
      } else {
        SumDaysAdds(d => PostDay(init, start, post, d), d => Credit(init, last, start, d),
          d => PostDay(rows, start, post, d), start, through);
        if First(init, post).None? {
          FirstRowGain(rows, start, end, through);
        } else {
          LaterRowGain(rows, start, end, through);
        }
      }
    }
  }

  // ----- What each row earns, in its own fields -----

  /**
   Reading a post's first row: published inside the window up to its day, it is
   worth an equal share on each day since; published before, nothing; without a
   publication day up to its own, all on its own day.
   */
  lemma FirstRowEarns(rows: seq<PostRow>, start: int, i: nat, d: int)
    requires Ordered(rows) && i < |rows| && forall j :: 0 <= j < i ==> rows[j].post != rows[i].post
    ensures var r := rows[i];
      var earned := DayTotal(rows[..i + 1], start, d) - DayTotal(rows[..i], start, d);
      if r.published.None? || r.published.value > r.day then earned == if d == r.day then r.value else 0.0
      else if r.published.value < start then earned == 0.0
      else earned * (r.day - r.published.value + 1) as real
             == if r.published.value <= d <= r.day then r.value else 0.0
  {
    hide DayTotal, Ordered, Opening;
    FirstRowCredit(rows, start, i, d);
    OpeningInFields(rows[i], start, d, DayTotal(rows[..i + 1], start, d) - DayTotal(rows[..i], start, d));
  }

  lemma FirstRowCredit(rows: seq<PostRow>, start: int, i: nat, d: int)
    requires Ordered(rows) && i < |rows| && forall j :: 0 <= j < i ==> rows[j].post != rows[i].post
    ensures DayTotal(rows[..i + 1], start, d) - DayTotal(rows[..i], start, d) == Opening(rows[i], start, d)
  {
    var r, before := rows[i], rows[..i];
    RowAdds(rows, start, i);
    NoPeakBeforeFirst(before, r.post, r.day);
    hide DayTotal, Ordered, Opening, First;
    assert forall j :: 0 <= j < |before| ==> before[j].post != r.post;
    assert Peak(before, r.post, r.day).None?;
  }

  lemma OpeningInFields(r: PostRow, start: int, d: int, earned: real)
    ensures earned == Opening(r, start, d) ==>
      if r.published.None? || r.published.value > r.day then earned == if d == r.day then r.value else 0.0
      else if r.published.value < start then earned == 0.0
      else earned * (r.day - r.published.value + 1) as real
             == if r.published.value <= d <= r.day then r.value else 0.0
  {
    if r.published.Some? && start <= r.published.value <= r.day {
      var n := r.day - r.published.value + 1;
      assert r.value / n as real * n as real == r.value;
    }
  }

  /** A row on its own. */
  lemma OnlyRowEarns(r: PostRow, start: int, d: int)
    ensures var total := DayTotal([r], start, d);
      if r.published.None? || r.published.value > r.day then total == if d == r.day then r.value else 0.0
      else if r.published.value < start then total == 0.0
      else total * (r.day - r.published.value + 1) as real
             == if r.published.value <= d <= r.day then r.value else 0.0
  {
    FirstRowEarns([r], start, 0, d);
    NothingRead(start);
    assert [r][..0] == [] && [r][..1] == [r];
  }

  /** Reading a later row, with k the best of its post's earlier ones: its rise over that, on its own day. */
  lemma LaterRowEarns(rows: seq<PostRow>, start: int, i: nat, k: nat, d: int)
    requires Ordered(rows) && k < i < |rows| && rows[k].post == rows[i].post
    requires forall j :: 0 <= j < i && rows[j].post == rows[i].post ==> rows[j].value <= rows[k].value
    ensures DayTotal(rows[..i + 1], start, d) - DayTotal(rows[..i], start, d) ==
      if d == rows[i].day && rows[i].value > rows[k].value then rows[i].value - rows[k].value else 0.0
  {
    var r, before := rows[i], rows[..i];
    RowAdds(rows, start, i);
    PeakIsMaximum(before, r.post, r.day);
    assert before[k] == rows[k] && rows[k].day < rows[i].day;
    var p := Peak(before, r.post, r.day);
    assert p.Some? && rows[k].value <= p.value;
    var best :| best in before && best.post == r.post && best.day <= r.day && best.value == p.value;
    var j :| 0 <= j < i && before[j] == best;
    assert rows[j].value <= rows[k].value;
    hide DayTotal, Peak, Ordered;
  }

  /**
   By the end, a post whose best value is row k's has gained that value; less its
   first row's, when it was published before the window.
   */
  lemma GainIsGrowth(rows: seq<PostRow>, start: int, end: int, i: nat, k: nat)
    requires Ordered(rows) && InWindow(rows, start, end) && i <= k < |rows| && rows[k].post == rows[i].post
    requires forall j :: 0 <= j < i ==> rows[j].post != rows[i].post
    requires forall j :: 0 <= j < |rows| && rows[j].post == rows[i].post ==> rows[j].value <= rows[k].value
    ensures GainThrough(rows, start, rows[i].post, end) ==
      rows[k].value
      - if rows[i].published.Some? && rows[i].published.value <= rows[i].day && rows[i].published.value < start
        then rows[i].value else 0.0
  {
    var post := rows[i].post;
    NoPeakBeforeFirst(rows, post, end);
    PeakIsMaximum(rows, post, end);
    FirstIsEarliest(rows, i);
    assert rows[i].post == post && rows[k].day <= end && rows[i].day <= end;
    var peak := Peak(rows, post, end).value;
    var best :| best in rows && best.post == post && best.day <= end && best.value == peak;
    var j :| 0 <= j < |rows| && rows[j] == best;
    assert rows[j].value <= rows[k].value;
    hide Peak, First, Ordered, InWindow;
  }

  lemma {:induction false} FirstIsEarliest(rows: seq<PostRow>, i: nat)
    requires i < |rows| && forall j :: 0 <= j < i ==> rows[j].post != rows[i].post
    ensures First(rows, rows[i].post) == Some(rows[i])
  {
    var n := |rows| - 1;
    if i < n {
      FirstIsEarliest(rows[..n], i);
    } else {
      NoFirst(rows[..n], rows[i].post);
    }
  }

  lemma {:induction false} NoFirst(rows: seq<PostRow>, post: int)
    requires forall j :: 0 <= j < |rows| ==> rows[j].post != post
    ensures First(rows, post).None?
  {
    if rows != [] {
      NoFirst(rows[..|rows| - 1], post);
    }
  }

  // ----- All posts together -----

  ghost predicate Distinct(posts: seq<int>) {
    forall i, j :: 0 <= i < j < |posts| ==> posts[i] != posts[j]
  }

  ghost function SumPosts(posts: seq<int>, f: int -> real): real {
    if posts == [] then 0.0 else SumPosts(posts[..|posts| - 1], f) + f(posts[|posts| - 1])
  }

  lemma {:induction false} SumPostsWithOneChange(posts: seq<int>, f: int -> real, g: int -> real, post: int, c: real)
    requires Distinct(posts)
    requires forall p :: p in posts ==> g(p) == f(p) + if p == post then c else 0.0
    ensures SumPosts(posts, g) == SumPosts(posts, f) + if post in posts then c else 0.0
  {
    if posts != [] {
      SumPostsWithOneChange(posts[..|posts| - 1], f, g, post, c);
      assert posts == posts[..|posts| - 1] + [posts[|posts| - 1]];
    }
  }

  lemma {:induction false} DayTotalByPost(rows: seq<PostRow>, start: int, d: int, posts: seq<int>)
    requires Distinct(posts) && forall i :: 0 <= i < |rows| ==> rows[i].post in posts
    ensures DayTotal(rows, start, d) == SumPosts(posts, p => PostDay(rows, start, p, d))
    decreases |rows|
  {
    var f := p => PostDay(rows, start, p, d);
    if rows == [] {
      SumPostsOfZero(posts, f);
    } else {
      var init, last := rows[..|rows| - 1], rows[|rows| - 1];
      DayTotalByPost(init, start, d, posts);
      SumPostsWithOneChange(posts, p => PostDay(init, start, p, d), f, last.post, Credit(init, last, start, d));
    }
  }

  lemma {:induction false} SumPostsOfZero(posts: seq<int>, f: int -> real)
    requires forall p :: p in posts ==> f(p) == 0.0
    ensures SumPosts(posts, f) == 0.0
  {
    if posts != [] {
      var last := posts[|posts| - 1];
      assert f(last) == 0.0;
      SumPostsOfZero(posts[..|posts| - 1], f);
    }
  }

  /** Exchanging the two sums: over days of per-post credits, over posts of credited days. */
  lemma {:induction false} SumsExchange(rows: seq<PostRow>, start: int, posts: seq<int>, through: int)
    ensures SumDays(d => SumPosts(posts, p => PostDay(rows, start, p, d)), start, through)
         == SumPosts(posts, p => SumDays(d => PostDay(rows, start, p, d), start, through))
    decreases |posts|
  {
    var byDay := d => SumPosts(posts, p => PostDay(rows, start, p, d));
    if posts == [] {
      SumDaysOfBlock(byDay, 0.0, start, start, start, through);
    } else {
      var init, last := posts[..|posts| - 1], posts[|posts| - 1];
      SumsExchange(rows, start, init, through);
      SumDaysAdds(d => SumPosts(init, p => PostDay(rows, start, p, d)), d => PostDay(rows, start, last, d),
        byDay, start, through);
    }
  }

  lemma {:induction false} SumPostsSame(posts: seq<int>, f: int -> real, g: int -> real)
    requires forall p :: p in posts ==> f(p) == g(p)
    ensures SumPosts(posts, f) == SumPosts(posts, g)
  {
    if posts != [] {
      var last := posts[|posts| - 1];
      assert f(last) == g(last);
      SumPostsSame(posts[..|posts| - 1], f, g);
    }
  }

  /**
   Conservation: whatever days the credits landed on, they total the sum over
   the posts of their high-water gains, on every day of the window.
   */
  lemma TotalIsSumOfGains(rows: seq<PostRow>, start: int, end: int, posts: seq<int>, through: int)
    requires Ordered(rows) && InWindow(rows, start, end)
    requires forall i, j :: 0 <= i < j < |posts| ==> posts[i] != posts[j]
    requires forall i :: 0 <= i < |rows| ==> rows[i].post in posts
    ensures SumDays(d => DayTotal(rows, start, d), start, through)
         == SumPosts(posts, p => GainThrough(rows, start, p, through))
  {
    forall d ensures DayTotal(rows, start, d) == SumPosts(posts, p => PostDay(rows, start, p, d)) {
      DayTotalByPost(rows, start, d, posts);
    }
    SumDaysSame(d => DayTotal(rows, start, d), d => SumPosts(posts, p => PostDay(rows, start, p, d)), start, through);
    SumsExchange(rows, start, posts, through);
    forall p ensures SumDays(d => PostDay(rows, start, p, d), start, through) == GainThrough(rows, start, p, through) {
      CreditsFollowHighWater(rows, start, end, p, through);
    }
    SumPostsSame(posts, p => SumDays(d => PostDay(rows, start, p, d), start, through),
      p => GainThrough(rows, start, p, through));
  }

  /** With non-negative counts no day is ever credited a negative amount, and nothing falls outside the window. */
  lemma {:induction false} CreditsStayInWindow(rows: seq<PostRow>, start: int, end: int, d: int)
    requires Ordered(rows) && InWindow(rows, start, end)
    requires forall i :: 0 <= i < |rows| ==> rows[i].value >= 0.0
    ensures DayTotal(rows, start, d) >= 0.0
    ensures !(start <= d <= end) ==> DayTotal(rows, start, d) == 0.0
  {
    if rows != [] {
      var init, last := rows[..|rows| - 1], rows[|rows| - 1];
      assert last == rows[|rows| - 1];
      assert Opening(last, start, d) >= 0.0;
      CreditsStayInWindow(init, start, end, d);
    }
  }

  // ----- The pass itself -----

  /** The latest capture time among the rows, None when no row has one. */
  ghost predicate IsLatest(latest: Option<int>, times: set<int>) {
    if times == {} then latest == None
    else latest.Some? && latest.value in times && forall t :: t in times ==> t <= latest.value
  }

  lemma LatestIsMaximum(latest: Option<int>, times: set<int>)
    ensures IsLatest(latest, times) <==>
      (latest.None? <==> times == {})
      && (latest.Some? ==> latest.value in times && forall t :: t in times ==> t <= latest.value)
  {
  }

  ghost function Captures(rows: seq<PostRow>): set<int> {
    set i | 0 <= i < |rows| && rows[i].captured.Some? :: rows[i].captured.value
  }

  /** The loop adds the opening credits of a post published inside the window, one day at a time. */
  method SpreadOpening(out: map<int, real>, r: PostRow, start: int, end: int) returns (result: map<int, real>)
    requires r.published.Some? && start <= r.published.value <= r.day <= end
    ensures forall d ::
      Get(result, d) - Get(out, d) ==
        if r.published.value <= d <= r.day then r.value / (r.day - r.published.value + 1) as real else 0.0
    ensures forall d :: d in result ==> d in out || start <= d <= end
  {
    result := out;
    var days := r.day - r.published.value + 1;
    var perDay := r.value / days as real;
    var d := r.published.value;
    while d <= r.day
      invariant r.published.value <= d <= r.day + 1
      invariant forall x :: Get(result, x) == Get(out, x) + if r.published.value <= x < d then perDay else 0.0
      invariant forall x :: x in result ==> x in out || start <= x <= end
    {
      if start <= d <= end {
        result := result[d := Get(result, d) + perDay];
      }
      d := d + 1;
    }
  }

  method PostSummedSeries(rows: seq<PostRow>, start: int, end: int)
    returns (out: map<int, real>, maxCaptured: Option<int>)
    requires Ordered(rows) && InWindow(rows, start, end)
    ensures forall d :: Get(out, d) == DayTotal(rows, start, d)
    ensures forall d :: d in out ==> start <= d <= end
    ensures IsLatest(maxCaptured, Captures(rows))
    ensures maxCaptured.None? <==> forall r :: r in rows ==> r.captured.None?
    ensures maxCaptured.Some? ==> exists r :: r in rows && r.captured == maxCaptured
    ensures maxCaptured.Some? ==>
      forall r :: r in rows && r.captured.Some? ==> r.captured.value <= maxCaptured.value
  {
    out := map[];
    maxCaptured := None;
    var currentPost: Option<int> := None;
    var prevValue := 0.0;
    var firstObs := true;
    NothingRead(start);
    hide DayTotal, Peak, Captures, InWindow;
    for i := 0 to |rows|
      invariant forall d :: Get(out, d) == DayTotal(rows[..i], start, d)
      invariant forall d :: d in out ==> start <= d <= end
      invariant IsLatest(maxCaptured, Captures(rows[..i]))
      invariant i == 0 ==> currentPost == None
      invariant i > 0 ==> currentPost == Some(rows[i - 1].post) && !firstObs
      invariant i > 0 ==> Peak(rows[..i], rows[i - 1].post, rows[i - 1].day) == Some(prevValue)
    {
      var r := rows[i];
      RowInWindow(rows, start, end, i);
      RowAdds(rows, start, i);
      PeakSoFar(rows, i);
      if currentPost != Some(r.post) {
        currentPost := Some(r.post);
        firstObs := true;
        prevValue := 0.0;
      }
      if r.captured.Some? && (maxCaptured.None? || r.captured.value > maxCaptured.value) {
        maxCaptured := r.captured;
      }
      CapturesGrow(rows, i);
      ghost var had := out;
      if firstObs {
        assert Peak(rows[..i], r.post, r.day) == None;
        firstObs := false;
        if r.published.None? || r.published.value > r.day {
          if start <= r.day <= end {
            out := out[r.day := Get(out, r.day) + r.value];
          }
        } else if r.published.value >= start {
          out := SpreadOpening(out, r, start, end);
        }
        prevValue := r.value;
        assert forall d :: Get(out, d) == Get(had, d) + Credit(rows[..i], r, start, d);
      } else {
        assert Peak(rows[..i], r.post, r.day) == Some(prevValue);
        var delta := r.value - prevValue;
        if delta > 0.0 {
          prevValue := r.value;
          out := out[r.day := Get(out, r.day) + delta];
        }
        assert forall d :: Get(out, d) == Get(had, d) + Credit(rows[..i], r, start, d);
      }
    }
    assert rows[..|rows|] == rows;
    CapturesInRows(rows, maxCaptured);
  }

  lemma CapturesInRows(rows: seq<PostRow>, latest: Option<int>)
    requires IsLatest(latest, Captures(rows))
    ensures latest.None? <==> forall r :: r in rows ==> r.captured.None?
    ensures latest.Some? ==> exists r :: r in rows && r.captured == latest
    ensures latest.Some? ==> forall r :: r in rows && r.captured.Some? ==> r.captured.value <= latest.value
  {
    forall r | r in rows && r.captured.Some? ensures r.captured.value in Captures(rows) {
      var i :| 0 <= i < |rows| && rows[i] == r;
      assert rows[i].captured.Some?;
    }
    if latest.Some? {
      var i :| 0 <= i < |rows| && rows[i].captured == latest;
      assert rows[i] in rows;
    }
  }

  lemma NothingRead(start: int)
    ensures forall d :: DayTotal([], start, d) == 0.0
    ensures Captures([]) == {}
  {
  }

  lemma RowInWindow(rows: seq<PostRow>, start: int, end: int, i: nat)
    requires InWindow(rows, start, end) && i < |rows|
    ensures start <= rows[i].day <= end
  {
  }

  /** Reading row i adds its credits and may raise its post's high-water mark. */
  lemma RowAdds(rows: seq<PostRow>, start: int, i: nat)
    requires i < |rows|
    ensures var r, before := rows[i], rows[..i];
      (forall d :: DayTotal(rows[..i + 1], start, d) == DayTotal(before, start, d) + Credit(before, r, start, d))
      && Peak(rows[..i + 1], r.post, r.day) ==
        (var peak := Peak(before, r.post, r.day); if peak.Some? && peak.value >= r.value then peak else Some(r.value))
  {
    assert rows[..i + 1][..i] == rows[..i];
    hide Credit;
  }

  /** At row i the post's earlier rows are exactly those just read, all on earlier days. */
  lemma PeakSoFar(rows: seq<PostRow>, i: nat)
    requires i < |rows| && Ordered(rows)
    ensures i == 0 || rows[i - 1].post != rows[i].post ==> Peak(rows[..i], rows[i].post, rows[i].day) == None
    ensures i > 0 && rows[i - 1].post == rows[i].post ==>
      Peak(rows[..i], rows[i].post, rows[i].day) == Peak(rows[..i], rows[i].post, rows[i - 1].day)
  {
    var before := rows[..i];
    NoPeakBeforeFirst(before, rows[i].post, rows[i].day);
    if i > 0 && rows[i - 1].post == rows[i].post {
      PeakReadsEarlierRows(before, rows[i].post, rows[i].day, rows[i - 1].day);
    }
  }

  lemma CapturesGrow(rows: seq<PostRow>, i: nat)
    requires i < |rows|
    ensures Captures(rows[..i + 1]) ==
      Captures(rows[..i]) + if rows[i].captured.Some? then {rows[i].captured.value} else {}
  {
    var before, after := rows[..i], rows[..i + 1];
    forall t | t in Captures(before) ensures t in Captures(after) {
      var k :| 0 <= k < i && before[k].captured == Some(t);
      assert after[k].captured == Some(t);
    }
    if rows[i].captured.Some? {
      assert after[i].captured == rows[i].captured;
    }
  }
}
