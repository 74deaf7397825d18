/**
 Fitting a caption that must carry the article-link token into a platform's
 character limit (apps/composer/generation.py), and what replacing the token by
 the article's URL then does (apps/publisher/links.py).
 */
module FitToken {
  import opened PythonText

  const TOKEN: string := "[NEXUS BRIEF LINK]"
  const URL_RESERVE := 130

  /** The characters trimmed from the end of a head before it is cut. */
  predicate IsTrailer(c: char) {
    c == ' ' || c == '\n' || c == ':' || c == '-'
  }

  function TrimEnd(s: string, drop: char -> bool): (t: string)
    ensures t <= s && (t != [] ==> !drop(t[|t| - 1]))
    ensures forall i :: |t| <= i < |s| ==> drop(s[i])
  {
    if s != [] && drop(s[|s| - 1]) then TrimEnd(s[..|s| - 1], drop) else s
  }

  function TrimStart(s: string): (t: string)
    ensures |t| <= |s| && t == s[|s| - |t|..] && (t != [] ==> !IsSpace(t[0]))
  {
    if s != [] && IsSpace(s[0]) then TrimStart(s[1..]) else s
  }

  function Strip(s: string): string {
    TrimEnd(TrimStart(s), IsSpace)
  }

  predicate IsStripped(s: string) {
    s == [] || (!IsSpace(s[0]) && !IsSpace(s[|s| - 1]))
  }

  lemma StripIsStripped(s: string)
    ensures IsStripped(Strip(s))
    ensures IsStripped(s) ==> Strip(s) == s
  {
  }

  // ----- Occurrences of a token -----

  /** The shape that keeps occurrences apart: brackets at the two ends and none inside. */
  ghost predicate IsToken(t: string)
    ensures IsToken(t) ==> t != []
  {
    |t| >= 2 && t[0] == '[' && t[|t| - 1] == ']'
    && (forall k :: 0 < k < |t| ==> t[k] != '[')
  }

  predicate At(s: string, t: string, i: int) {
    0 <= i <= |s| - |t| && s[i..i + |t|] == t
  }

  lemma AtInTail(s: string, t: string, j: int)
    requires j > 0 && |s| > 0
    ensures At(s, t, j) <==> At(s[1..], t, j - 1)
  {
    assert j <= |s| - |t| ==> s[1..][j - 1..j - 1 + |t|] == s[j..j + |t|];
  }

  /** The first occurrence, or -1. */
  function Find(s: string, t: string): (i: int)
    requires t != []
    ensures -1 <= i && (i >= 0 ==> At(s, t, i))
    ensures forall j :: At(s, t, j) ==> 0 <= i <= j
  {
    if |s| < |t| then -1
    else if s[..|t|] == t then 0
    else
      assert s[0..|t|] == s[..|t|];
      assert !At(s, t, 0);
      assert forall j :: j > 0 ==> (At(s, t, j) <==> At(s[1..], t, j - 1)) by {
        forall j | j > 0 ensures At(s, t, j) <==> At(s[1..], t, j - 1) {
          AtInTail(s, t, j);
        }
      }
      var rest := Find(s[1..], t);
      if rest < 0 then -1 else rest + 1
  }

  predicate Has(s: string, t: string)
    requires t != []
  {
    Find(s, t) >= 0
  }

  /** str.count: occurrences from left to right. */
  function Count(s: string, t: string): nat
    requires t != []
    decreases |s|
  {
    var i := Find(s, t);
    if i < 0 then 0 else 1 + Count(s[i + |t|..], t)
  }

  /** str.replace of every occurrence. */
  function Replaced(s: string, t: string, url: string): string
    requires t != []
    decreases |s|
  {
    var i := Find(s, t);
    if i < 0 then s else s[..i] + url + Replaced(s[i + |t|..], t, url)
  }

  /** What is left of the text behind the first occurrence. */
  function Behind(s: string, t: string): (rest: string)
    requires t != [] && Find(s, t) >= 0
    ensures |rest| == |s| - Find(s, t) - |t|
  {
    s[Find(s, t) + |t|..]
  }

  lemma FirstReplaced(s: string, t: string, url: string)
    requires t != [] && Find(s, t) >= 0
    ensures |Replaced(s, t, url)| == Find(s, t) + |url| + |Replaced(Behind(s, t), t, url)|
    ensures Count(s, t) == 1 + Count(Behind(s, t), t)
  {
    hide Find;
  }

  ghost function Growth(n: nat, d: int): int {
    if n == 0 then 0 else d + Growth(n - 1, d)
  }

  lemma {:induction false} GrowthIsProduct(n: nat, d: int)
    ensures Growth(n, d) == n * d
  {
    if n > 0 {
      GrowthIsProduct(n - 1, d);
      assert n * d == (n - 1) * d + d;
    }
  }

  lemma OneMoreGrowth(n: nat, d: int)
    ensures Growth(0, d) == 0 && Growth(1 + n, d) == d + Growth(n, d)
  {
  }

  lemma NothingReplaced(s: string, t: string, url: string)
    requires t != [] && Find(s, t) < 0
    ensures Replaced(s, t, url) == s && Count(s, t) == 0
  {
    hide Find;
  }

  lemma {:induction false} ReplacedGrows(s: string, t: string, url: string)
    requires t != []
    ensures |Replaced(s, t, url)| - |s| == Growth(Count(s, t), |url| - |t|)
    decreases |s|
  {
    hide Find, At, Replaced, Count, Growth, Behind;
    if Find(s, t) >= 0 {
      FirstReplaced(s, t, url);
      ReplacedGrows(Behind(s, t), t, url);
      OneMoreGrowth(Count(Behind(s, t), t), |url| - |t|);
    } else {
      NothingReplaced(s, t, url);
      OneMoreGrowth(0, |url| - |t|);
    }
  }

  /** Every occurrence adds the difference of the two lengths. */
  lemma ReplacedLength(s: string, t: string, url: string)
    requires t != []
    ensures |Replaced(s, t, url)| == |s| + Count(s, t) * (|url| - |t|)
  {
    ReplacedGrows(s, t, url);
    GrowthIsProduct(Count(s, t), |url| - |t|);
  }

  lemma AtEnds(s: string, t: string, i: int)
    requires IsToken(t) && At(s, t, i)
    ensures s[i] == '[' && s[i + |t| - 1] == ']'
    ensures forall j :: i < j < i + |t| ==> s[j] != '['
  {
    var u := s[i..i + |t|];
    assert forall j :: i <= j < i + |t| ==> s[j] == u[j - i];
  }

  /** Before the token at the end of a text there is none that reaches into it. */
  lemma OnlyAtEnd(p: string, t: string, j: int)
    requires IsToken(t) && !Has(p, t) && At(p + t, t, j)
    ensures j == |p|
  {
    var s := p + t;
    assert s[|p|..|p| + |t|] == t;
    AtEnds(s, t, j);
    AtEnds(s, t, |p|);
    assert j + |t| <= |p| ==> s[j..j + |t|] == p[j..j + |t|];
    assert j + |t| <= |p| ==> At(p, t, j);
  }

  /** A text without the token, followed by the token, has it once and at the end. */
  lemma TokenAtEndIsOnly(p: string, t: string)
    requires IsToken(t) && !Has(p, t)
    ensures Find(p + t, t) == |p| && Count(p + t, t) == 1
  {
    var s := p + t;
    assert s[|p|..|p| + |t|] == t;
    assert At(s, t, |p|);
    OnlyAtEnd(p, t, Find(s, t));
    assert s[|p| + |t|..] == [];
  }

  /** Text without a closing bracket cannot complete an occurrence. */
  lemma TokenLiesBefore(p: string, q: string, t: string)
    requires IsToken(t) && Has(p + q, t) && ']' !in q
    ensures Has(p, t)
  {
    var s := p + q;
    var i := Find(s, t);
    AtEnds(s, t, i);
    assert forall k :: |p| <= k < |s| ==> s[k] == q[k - |p|] && s[k] in q;
    assert s[i..i + |t|] == p[i..i + |t|];
    assert At(p, t, i);
  }

  lemma TokenInPrefix(s: string, t: string, n: nat)
    requires t != [] && n <= |s| && Has(s[..n], t)
    ensures Has(s, t) && Find(s, t) + |t| <= n
  {
    var i := Find(s[..n], t);
    assert s[i..i + |t|] == s[..n][i..i + |t|];
    assert At(s, t, i);
  }

  // ----- Fitting -----

  /** The caption with the token appended where it was missing. */
  function WithToken(caption: string, t: string): string
    requires t != []
  {
    var c := Strip(caption);
    if Has(c, t) then c
    else if c != [] then c + "\n\nFull piece: " + t
    else "Full piece: " + t
  }

  /** What precedes the first token. */
  function Front(c: string, t: string): string
    requires t != []
  {
    if Find(c, t) < 0 then c else c[..Find(c, t)]
  }

  /** The same without the characters that led up to the token. */
  function Head(c: string, t: string): string
    requires t != []
  {
    TrimEnd(Front(c, t), IsTrailer)
  }

  function Take(s: string, n: nat): string {
    if n <= |s| then s[..n] else s
  }

  function Headroom(t: string): nat {
    if |t| > URL_RESERVE then |t| else URL_RESERVE
  }

  function FitToken(caption: string, limit: int, t: string): string
    requires t != []
  {
    var c := WithToken(caption, t);
    if |c| - |t| + Headroom(t) <= limit then c else
      var room := limit - (2 + |t|) - (Headroom(t) - |t|);
      if room <= 0 then t else TrimEnd(Take(Head(c, t), room), IsSpace) + "\n\n" + t
  }

  function FitWithToken(caption: string, limit: int): string {
    FitToken(caption, limit, TOKEN)
  }

  lemma TokenIsToken()
    ensures IsToken(TOKEN) && |TOKEN| == 18
  {
  }

  lemma AddedOnce(c: string, lead: string, t: string)
    requires IsToken(t) && !Has(c, t) && ']' !in lead
    ensures Find(c + lead + t, t) == |c + lead| && Count(c + lead + t, t) == 1
    ensures !Has(c + lead, t)
  {
    if Has(c + lead, t) {
      TokenLiesBefore(c, lead, t);
    }
    TokenAtEndIsOnly(c + lead, t);
  }

  lemma LeadIns()
    ensures ']' !in "\n\nFull piece: " && ']' !in "Full piece: " && ']' !in "\n\n"
    ensures !IsSpace("Full piece: "[0])
  {
  }

  /** The token is there; once, unless the caption itself had it more often. */
  lemma TokenIsAdded(caption: string, t: string)
    requires IsToken(t)
    ensures Has(WithToken(caption, t), t)
    ensures Count(Strip(caption), t) <= 1 ==> Count(WithToken(caption, t), t) == 1
  {
    hide Strip, IsToken, Find, At, Count;
    var c := Strip(caption);
    LeadIns();
    if !Has(c, t) {
      AddedOnce(c, "\n\nFull piece: ", t);
      NothingInEmpty(t);
      AddedOnce([], "Full piece: ", t);
      assert [] + "Full piece: " == "Full piece: ";
    } else {
      CountHas(c, t);
    }
  }

  lemma NothingInEmpty(t: string)
    requires IsToken(t)
    ensures !Has([], t)
  {
  }

  lemma CountHas(s: string, t: string)
    requires t != []
    ensures Count(s, t) > 0 <==> Has(s, t)
  {
  }

  /** The kept part of the head. */
  function Cut(c: string, room: nat, t: string): string
    requires t != []
  {
    TrimEnd(Take(Head(c, t), room), IsSpace)
  }

  lemma CutHasNoToken(c: string, room: nat, t: string)
    requires IsToken(t)
    ensures Cut(c, room, t) <= c && |Cut(c, room, t)| <= room && !Has(Cut(c, room, t), t)
  {
    var h := Cut(c, room, t);
    assert h == c[..|h|];
    if Has(c[..|h|], t) {
      TokenInPrefix(c, t, |h|);
    }
  }

  /** Three outcomes: untouched, the bare token, or a cut head and the token. */
  lemma FitCases(caption: string, limit: int, t: string)
    requires IsToken(t) && |t| <= URL_RESERVE
    ensures var c, r := WithToken(caption, t), FitToken(caption, limit, t);
      if |c| - |t| + URL_RESERVE <= limit then r == c
      else if limit <= URL_RESERVE + 2 then r == t
      else r == Cut(c, limit - URL_RESERVE - 2, t) + "\n\n" + t
  {
    hide WithToken, IsToken, Head, Find, TrimEnd, Take;
  }

  /**
   The token is in every result: once when the caption has it at most once, and
   once in any case when the text was cut.
   */
  lemma FitHasToken(caption: string, limit: int, t: string)
    requires IsToken(t) && |t| <= URL_RESERVE
    ensures Has(FitToken(caption, limit, t), t)
    ensures Count(Strip(caption), t) <= 1 || FitToken(caption, limit, t) != WithToken(caption, t)
      ==> Count(FitToken(caption, limit, t), t) == 1
  {
    hide FitToken, WithToken, Strip, Cut, Find, At, IsToken, Count;
    FitCases(caption, limit, t);
    TokenIsAdded(caption, t);
    NothingInEmpty(t);
    AddedOnce([], [], t);
    assert [] + [] + t == t;
    var c := WithToken(caption, t);
    if limit > URL_RESERVE + 2 {
      var h := Cut(c, limit - URL_RESERVE - 2, t);
      CutHasNoToken(c, limit - URL_RESERVE - 2, t);
      LeadIns();
      AddedOnce(h, "\n\n", t);
    }
    CountHas(FitToken(caption, limit, t), t);
  }

  lemma CutIsFront(c: string, room: nat, t: string)
    requires t != []
    ensures Cut(c, room, t) <= Front(c, t)
  {
    hide Front, Find;
  }

  lemma CaptionIsFront(caption: string, t: string)
    requires t != []
    ensures Strip(caption) <= WithToken(caption, t)
  {
    hide Strip, Find;
  }

  /** What is kept is a front part of the caption: all of it if nothing was cut, else of what stood before its token. */
  lemma FitKeepsTheFront(caption: string, limit: int, t: string)
    requires IsToken(t) && |t| <= URL_RESERVE
    ensures Strip(caption) <= WithToken(caption, t)
    ensures var c, r := WithToken(caption, t), FitToken(caption, limit, t);
      r == c || r == t || exists h :: h <= Front(c, t) && r == h + "\n\n" + t
  {
    hide FitToken, WithToken, Front, Strip, Cut, IsToken;
    FitCases(caption, limit, t);
    CaptionIsFront(caption, t);
    if limit > URL_RESERVE + 2 {
      CutIsFront(WithToken(caption, t), limit - URL_RESERVE - 2, t);
    }
  }

  lemma TokenIsNoLonger(s: string, t: string)
    requires t != [] && Has(s, t)
    ensures |t| <= |s|
  {
  }

  lemma HasIff(c: string, t: string)
    requires t != []
    ensures Has(c, t) <==> exists a: string, b: string :: c == a + t + b
  {
    if Has(c, t) {
      var i := Find(c, t);
      assert c == c[..i] + t + c[i + |t|..];
    }
    if a: string, b: string :| c == a + t + b {
      assert c[|a|..|a| + |t|] == t;
      assert At(c, t, |a|);
    }
  }

  /** Stripping takes white space from the two ends, and all of it. */
  lemma StripInFields(s: string) returns (lead: string, trail: string)
    ensures s == lead + Strip(s) + trail
    ensures (forall i :: 0 <= i < |lead| ==> IsSpace(lead[i])) && forall i :: 0 <= i < |trail| ==> IsSpace(trail[i])
    ensures Strip(s) == "" || (!IsSpace(Strip(s)[0]) && !IsSpace(Strip(s)[|Strip(s)| - 1]))
  {
    hide IsSpace, TrimEnd, TrimStart;
    var tail := TrimStart(s);
    var c := Strip(s);
    lead, trail := s[..|s| - |tail|], tail[|c|..];
    StripIsStripped(s);
    hide Strip;
    TrimStartDrops(s);
    ThreeParts(s, lead, tail, c, trail);
    TrimEndDrops(tail, trail, c);
  }

  lemma TrimEndDrops(tail: string, trail: string, c: string)
    requires c == TrimEnd(tail, IsSpace) && trail == tail[|c|..]
    ensures forall i :: 0 <= i < |trail| ==> IsSpace(trail[i])
  {
    hide TrimEnd, IsSpace;
    forall i | 0 <= i < |trail| ensures IsSpace(trail[i]) {
      assert trail[i] == tail[|c| + i];
    }
  }

  lemma ThreeParts(s: string, lead: string, tail: string, c: string, trail: string)
    requires |lead| <= |s| && lead == s[..|lead|] && tail == s[|lead|..]
    requires |c| <= |tail| && c == tail[..|c|] && trail == tail[|c|..]
    ensures s == lead + c + trail
  {
    assert s == lead + tail && tail == c + trail;
  }

  lemma {:induction false} TrimStartDrops(s: string)
    ensures forall i :: 0 <= i < |s| - |TrimStart(s)| ==> IsSpace(s[i])
  {
    if s != [] && IsSpace(s[0]) {
      TrimStartDrops(s[1..]);
    }
  }

  /** The caption the fitter starts from: stripped, with the token appended where it was missing. */
  lemma CaptionInFields(caption: string, t: string)
    requires t != []
    ensures var c := Strip(caption);
      WithToken(caption, t) ==
        if exists a: string, b: string :: c == a + t + b then c
        else if c == "" then "Full piece: " + t else c + "\n\nFull piece: " + t
  {
    HasIff(Strip(caption), t);
    hide Strip, Find;
  }

  lemma TrimEndKeeps(s: string, drop: char -> bool, p: string)
    requires p <= s && (p == "" || !drop(p[|p| - 1]))
    ensures p <= TrimEnd(s, drop)
  {
    assert p != "" ==> !drop(s[|p| - 1]);
  }

  /**
   A cut wastes no room.  Every front part p of the caption that ends in no white
   space, stands at or before some character q ends in that does not belong to a
   lead-in to the token, and fits with the break and the longest URL, is kept.
   */
  lemma FitKeepsAsMuchAsFits(caption: string, limit: int, t: string, p: string, q: string)
    requires IsToken(t) && |t| <= 130 && limit > 132 && |WithToken(caption, t)| - |t| + 130 > limit
    requires p <= q <= Front(WithToken(caption, t), t)
    requires q == "" || q[|q| - 1] !in " \n:-"
    requires |p| + 132 <= limit && (p == "" || !IsSpace(p[|p| - 1]))
    ensures p <= FitToken(caption, limit, t) && |FitToken(caption, limit, t)| >= |p| + 2 + |t|
  {
    var c := WithToken(caption, t);
    hide FitToken, WithToken, Front, IsToken, IsSpace;
    FitCases(caption, limit, t);
    TrimEndKeeps(Front(c, t), IsTrailer, q);
    assert p <= Take(Head(c, t), limit - 132);
    TrimEndKeeps(Take(Head(c, t), limit - 132), IsSpace, p);
  }

  /** With the reserve added the result fits exactly when the limit leaves room for a bare URL. */
  lemma FitsWithReserveIff(caption: string, limit: int, t: string)
    requires IsToken(t) && |t| <= URL_RESERVE
    ensures |FitToken(caption, limit, t)| - |t| + 130 <= limit <==> limit >= 130
    ensures |FitToken(caption, limit, t)| > limit <==> limit < |t|
  {
    hide FitToken, WithToken, Cut, Find, At, IsToken;
    FitCases(caption, limit, t);
    TokenIsAdded(caption, t);
    TokenIsNoLonger(WithToken(caption, t), t);
    if limit > URL_RESERVE + 2 {
      CutHasNoToken(WithToken(caption, t), limit - URL_RESERVE - 2, t);
    }
  }

  /** A text stays in a limit for every URL within the reserve exactly when it does for the longest at each token. */
  lemma FitsEveryUrlIff(s: string, t: string, limit: int)
    requires t != [] && |t| <= URL_RESERVE
    ensures (forall url: string :: |url| <= URL_RESERVE ==> |Replaced(s, t, url)| <= limit) <==>
      |s| + Count(s, t) * (URL_RESERVE - |t|) <= limit
  {
    var longest := seq(URL_RESERVE, i => 'u');
    assert |longest| == URL_RESERVE;
    ReplacedLength(s, t, longest);
    forall url: string | |url| <= URL_RESERVE
      ensures |Replaced(s, t, url)| <= |s| + Count(s, t) * (URL_RESERVE - |t|)
    {
      ReplacedLength(s, t, url);
      Monotone(Count(s, t), |url| - |t|, URL_RESERVE - |t|);
    }
  }

  lemma Monotone(n: nat, a: int, b: int)
    requires a <= b
    ensures n * a <= n * b
  {
  }

  /**
   For every limit of at least 130, a caption that has the token at most once is
   fitted so that any URL of up to 130 characters in its place stays in the limit.
   */
  lemma FitsOnceReplaced(caption: string, limit: int, t: string, url: string)
    requires IsToken(t) && |t| <= URL_RESERVE && limit >= URL_RESERVE && |url| <= URL_RESERVE
    ensures Count(Strip(caption), t) <= 1 ==> |Replaced(FitToken(caption, limit, t), t, url)| <= limit
  {
    hide FitToken, IsToken, Strip, Replaced;
    FitHasToken(caption, limit, t);
    FitsWithReserveIff(caption, limit, t);
    ReplacedLength(FitToken(caption, limit, t), t, url);
  }

  /**
   In general, and said of the caption alone: for every URL within the reserve
   the fitted text stays in the limit exactly when the text is cut, or has room
   for the longest URL at each of its tokens.
   */
  lemma FitsReplacedIff(caption: string, limit: int, t: string)
    requires IsToken(t) && |t| <= URL_RESERVE && limit >= URL_RESERVE
    ensures var c := WithToken(caption, t);
      (forall url: string :: |url| <= URL_RESERVE ==> |Replaced(FitToken(caption, limit, t), t, url)| <= limit) <==>
      (|c| - |t| + URL_RESERVE > limit || |c| + Count(c, t) * (URL_RESERVE - |t|) <= limit)
  {
    var c, r := WithToken(caption, t), FitToken(caption, limit, t);
    FitCases(caption, limit, t);
    FitHasToken(caption, limit, t);
    FitsWithReserveIff(caption, limit, t);
    FitsEveryUrlIff(r, t, limit);
    hide WithToken, FitToken, Cut, Replaced, Count, IsToken, Strip;
  }

  /** The function's own condition counts one token only: two of them outgrow the limit that it accepted. */
  lemma TwoTokensOutgrowTheLimit(url: string)
    requires |url| == URL_RESERVE
    ensures var caption := TOKEN + TOKEN;
      FitWithToken(caption, 148) == caption && |Replaced(caption, TOKEN, url)| == 260
  {
    var caption := TOKEN + TOKEN;
    TokenIsToken();
    TokenAtEndTwice(TOKEN);
    assert caption[0] == '[' && caption[|caption| - 1] == ']';
    assert !IsSpace('[') && !IsSpace(']');
    StripIsStripped(caption);
    ReplacedLength(caption, TOKEN, url);
  }

  lemma TokenAtEndTwice(t: string)
    requires IsToken(t)
    ensures Has(t + t, t) && Count(t + t, t) == 2
  {
    var s := t + t;
    assert s[..|t|] == t && s[|t|..] == t;
    NothingInEmpty(t);
    TokenAtEndIsOnly([], t);
    assert [] + t == t;
    assert Find(s, t) == 0;
  }

  // ----- Fitting twice -----

  lemma TokenIsStripped(t: string, h: string)
    requires IsToken(t)
    ensures h + t != [] && (h + t)[|h + t| - 1] == ']' && !IsSpace(']') && !IsSpace('[')
    ensures (h + t)[0] == if h == [] then '[' else h[0]
  {
  }

  lemma WithTokenIsStripped(caption: string, t: string)
    requires IsToken(t)
    ensures IsStripped(WithToken(caption, t)) && WithToken(caption, t) != []
  {
    hide Strip, IsToken, Find, At;
    var c := Strip(caption);
    StripIsStripped(caption);
    LeadIns();
    TokenIsStripped(t, c + "\n\nFull piece: ");
    TokenIsStripped(t, "Full piece: ");
    NothingInEmpty(t);
  }

  lemma RefitKeeps(r: string, limit: int, t: string)
    requires IsToken(t) && |t| <= URL_RESERVE && IsStripped(r) && Has(r, t)
    requires |r| - |t| + URL_RESERVE <= limit || (r == t && limit <= URL_RESERVE + 2)
    ensures FitToken(r, limit, t) == r
  {
    hide Strip, IsToken, Find, At;
    StripIsStripped(r);
  }

  lemma TrimStartSkips(c: char, s: string)
    requires IsSpace(c)
    ensures TrimStart([c] + s) == TrimStart(s)
  {
    assert ([c] + s)[1..] == s;
  }

  lemma BreakIsSpace(t: string)
    ensures IsSpace('\n') && "\n\n" + t == ['\n'] + (['\n'] + t)
  {
  }

  lemma StripDropsBreak(t: string)
    requires t != [] && IsStripped(t)
    ensures Strip("\n\n" + t) == t
  {
    hide TrimEnd, TrimStart, IsSpace;
    BreakIsSpace(t);
    TrimStartSkips('\n', t);
    TrimStartSkips('\n', ['\n'] + t);
    StripIsStripped(t);
  }

  lemma TokenHasItself(t: string)
    requires IsToken(t)
    ensures Has(t, t) && IsStripped(t)
  {
    assert At(t, t, 0);
  }

  lemma RefitDropsBreak(limit: int, t: string)
    requires IsToken(t) && |t| <= URL_RESERVE <= limit
    ensures FitToken("\n\n" + t, limit, t) == t && "\n\n" + t != t
  {
    TokenHasItself(t);
    StripDropsBreak(t);
    assert |"\n\n" + t| == |t| + 2;
    hide Strip, IsToken, Find, At;
  }

  /** A head and the token are fitted to themselves exactly when there is a head. */
  lemma RefitOfHead(h: string, limit: int, t: string)
    requires IsToken(t) && |t| <= URL_RESERVE <= limit && (h != [] ==> !IsSpace(h[0]))
    requires Has(h + "\n\n" + t, t) && |h + "\n\n" + t| - |t| + URL_RESERVE <= limit
    ensures var r := h + "\n\n" + t; FitToken(r, limit, t) == r <==> h != ""
  {
    hide FitToken, Strip, IsToken, Find, At;
    var r := h + "\n\n" + t;
    if h == "" {
      assert r == "\n\n" + t;
      RefitDropsBreak(limit, t);
    } else {
      TokenIsStripped(t, h + "\n\n");
      RefitKeeps(r, limit, t);
    }
  }

  lemma CutStarts(c: string, room: nat, t: string)
    requires IsToken(t) && c != [] && !IsSpace(c[0])
    ensures var h := Cut(c, room, t); h != [] ==> !IsSpace(h[0])
  {
    CutHasNoToken(c, room, t);
    hide Cut, IsSpace;
  }

  lemma RefitOfCut(c: string, r: string, limit: int, t: string)
    requires IsToken(t) && |t| <= URL_RESERVE && limit > URL_RESERVE + 2 && c != [] && !IsSpace(c[0])
    requires r == Cut(c, limit - URL_RESERVE - 2, t) + "\n\n" + t
    requires Has(r, t) && |r| - |t| + URL_RESERVE <= limit
    ensures FitToken(r, limit, t) == r <==> Head(c, t) != ""
  {
    hide FitToken, Strip, IsToken, Find, At, Cut, Head;
    CutIsEmptyIff(c, limit - URL_RESERVE - 2, t);
    CutStarts(c, limit - URL_RESERVE - 2, t);
    RefitOfHead(Cut(c, limit - URL_RESERVE - 2, t), limit, t);
  }

  /**
   Fitting again changes nothing exactly when it was not the case that the
   caption had to be cut, left room for a head, and had none before its token.
   */
  lemma FitIsIdempotentIff(caption: string, limit: int, t: string)
    requires IsToken(t) && |t| <= URL_RESERVE
    ensures var c, r := WithToken(caption, t), FitToken(caption, limit, t);
      FitToken(r, limit, t) == r <==>
        !(|c| - |t| + URL_RESERVE > limit && limit > URL_RESERVE + 2 && Head(c, t) == "")
  {
    var c, r := WithToken(caption, t), FitToken(caption, limit, t);
    hide FitToken, WithToken, Strip, IsToken, Find, At, Cut, Head;
    FitCases(caption, limit, t);
    FitHasToken(caption, limit, t);
    FitsWithReserveIff(caption, limit, t);
    WithTokenIsStripped(caption, t);
    if |c| - |t| + URL_RESERVE <= limit {
      RefitKeeps(r, limit, t);
    } else if limit <= URL_RESERVE + 2 {
      TokenHasItself(t);
      RefitKeeps(r, limit, t);
    } else {
      RefitOfCut(c, r, limit, t);
    }
  }

  lemma CutIsEmptyIff(c: string, room: nat, t: string)
    requires t != [] && room > 0 && c != [] && !IsSpace(c[0])
    ensures Cut(c, room, t) == "" <==> Head(c, t) == ""
  {
    var head := Head(c, t);
    if head != "" {
      assert head[0] == c[0] && Take(head, room)[0] == c[0];
    }
  }

  // ----- The variants of a campaign -----

  datatype Channel = Channel(platform: string, limit: int, isGhost: bool)
  datatype Variant = Variant(isGhost: bool, caption: string, chars: nat, limit: int, over: bool)

  /**
   The variant made of a draft for a channel: outside Ghost the fitted draft,
   which is over its limit exactly below the length of the token.
   */
  ghost predicate IsVariantFor(v: Variant, c: Channel, draft: string) {
    (v.isGhost <==> c.isGhost || c.platform == "ghost")
    && (!v.isGhost ==> v.caption == FitWithToken(draft, c.limit) && v.chars == |v.caption|)
    && (v.over <==> !v.isGhost && c.limit < 18)
  }

  lemma VariantInFields(v: Variant, c: Channel, draft: string)
    requires IsVariantFor(v, c, draft)
    ensures v.isGhost <==> c.isGhost || c.platform == "ghost"
    ensures !v.isGhost ==> v.caption == FitToken(draft, c.limit, "[NEXUS BRIEF LINK]") && v.chars == |v.caption|
    ensures v.over <==> !v.isGhost && v.chars > c.limit
  {
    TokenIsToken();
    if !v.isGhost {
      FitsWithReserveIff(draft, c.limit, TOKEN);
    }
    hide FitToken;
  }

  /** drafts: the text each channel's writer came up with, whichever of the three it was. */
  method GenerateVariants(channels: seq<Channel>, drafts: seq<string>, masterText: string)
    returns (variants: seq<Variant>)
    requires |drafts| == |channels|
    ensures |variants| == |channels|
    ensures forall i :: 0 <= i < |channels| ==> IsVariantFor(variants[i], channels[i], drafts[i])
  {
    variants := [];
    hide FitToken;
    for i := 0 to |channels|
      invariant |variants| == i
      invariant forall k :: 0 <= k < i ==> IsVariantFor(variants[k], channels[k], drafts[k])
    {
      var limit := channels[i].limit;
      if channels[i].isGhost || channels[i].platform == "ghost" {
        variants := variants + [Variant(true, "", |masterText|, limit, false)];
      } else {
        var caption := FitWithToken(drafts[i], limit);
        TokenIsToken();
        FitsWithReserveIff(drafts[i], limit, TOKEN);
        variants := variants + [Variant(false, caption, |caption|, limit, |caption| > limit)];
      }
    }
  }
}
