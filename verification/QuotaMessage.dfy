/**
 The 429 message of the quota check and the error handler that turns it back
 into fields and headers (apps/api/limits.py, apps/api/api.py).
 */
module QuotaMessage {
  import opened PythonText

  datatype Value = Num(n: nat) | Str(s: string)
  type Parts = map<string, Value>

  function Format(tier: string, limit: nat, remaining: nat, retryAfter: nat): string {
    "rate_limited" + " " + ("tier=" + tier) + " " + ("limit=" + Dec(limit)) + " " + ("remaining=" + Dec(remaining))
    + " " + ("retry_after=" + Dec(retryAfter))
  }

  /** The first equals sign, or -1. */
  function FirstEquals(s: string): (i: int)
    ensures -1 <= i < |s| && (i >= 0 ==> s[i] == '=')
    ensures forall j :: 0 <= j < (if i < 0 then |s| else i) ==> s[j] != '='
  {
    if s == [] then -1
    else if s[0] == '=' then 0
    else
      var rest := FirstEquals(s[1..]);
      if rest < 0 then -1 else rest + 1
  }

  function ValueOf(v: string): Value {
    if IsDigits(v) then Num(ToNat(v)) else Str(v)
  }

  function Collected(words: seq<string>): Parts {
    if words == [] then map["error" := Str("rate_limited")] else
      var before, w := Collected(words[..|words| - 1]), words[|words| - 1];
      var i := FirstEquals(w);
      if i < 0 then before else before[w[..i] := ValueOf(w[i + 1..])]
  }

  function Headers(parts: Parts): map<string, string> {
    Header(parts, "retry_after", "Retry-After") + Header(parts, "limit", "X-RateLimit-Limit")
    + Header(parts, "remaining", "X-RateLimit-Remaining")
  }

  function Header(parts: Parts, key: string, name: string): map<string, string> {
    if key in parts && parts[key].Num? then map[name := Dec(parts[key].n)] else map[]
  }

  method ParseQuotaMessage(msg: string) returns (parts: Parts, headers: map<string, string>)
    ensures parts == Collected(Words(msg)) && headers == Headers(parts)
  {
    hide Collected;
    parts := CollectParts(Words(msg));
    headers := AddHeader(map[], parts, "retry_after", "Retry-After");
    headers := AddHeader(headers, parts, "limit", "X-RateLimit-Limit");
    headers := AddHeader(headers, parts, "remaining", "X-RateLimit-Remaining");
  }

  method CollectParts(words: seq<string>) returns (parts: Parts)
    ensures parts == Collected(words)
  {
    parts := map["error" := Str("rate_limited")];
    for n := 0 to |words|
      invariant parts == Collected(words[..n])
    {
      assert words[..n + 1][..n] == words[..n];
      var i := FirstEquals(words[n]);
      if i >= 0 {
        parts := parts[words[n][..i] := ValueOf(words[n][i + 1..])];
      }
    }
    assert words[..|words|] == words;
  }

  method AddHeader(before: map<string, string>, parts: Parts, key: string, name: string)
    returns (headers: map<string, string>)
    ensures headers == before + Header(parts, key, name)
  {
    headers := before;
    if key in parts && parts[key].Num? {
      headers := headers[name := Dec(parts[key].n)];
    }
  }

  // ----- The round trip -----

  lemma SplitsAtFirst(key: string, v: string)
    requires '=' !in key
    ensures var w := key + "=" + v;
      FirstEquals(w) == |key| && w[..|key|] == key && w[|key| + 1..] == v
  {
    var w := key + "=" + v;
    assert w[|key|] == '=';
    assert forall j :: 0 <= j < |key| ==> w[j] in key;
  }

  lemma OneMoreWord(words: seq<string>, key: string, v: string)
    requires '=' !in key
    ensures Collected(words + [key + "=" + v]) == Collected(words)[key := ValueOf(v)]
  {
    SplitsAtFirst(key, v);
    assert (words + [key + "=" + v])[..|words|] == words;
  }

  lemma NumberWord(a: string, key: string, n: nat)
    requires '=' !in key && forall c :: c in key ==> !IsSpace(c)
    ensures Collected(Words(a + " " + (key + "=" + Dec(n)))) == Collected(Words(a))[key := Num(n)]
  {
    DecReadsBack(n);
    assert !IsSpace('=');
    WordsOfAppended(a, key + "=" + Dec(n));
    OneMoreWord(Words(a), key, Dec(n));
  }

  ghost predicate NoSpaces(s: string) {
    forall c :: c in s ==> !IsSpace(c)
  }

  function Opening(tier: string): string {
    "rate_limited" + " " + ("tier=" + tier)
  }

  lemma KeysArePlain()
    ensures '=' !in "limit" && '=' !in "remaining" && '=' !in "retry_after" && '=' !in "tier" && '=' !in "rate_limited"
    ensures NoSpaces("limit") && NoSpaces("remaining") && NoSpaces("retry_after") && NoSpaces("tier")
    ensures NoSpaces("rate_limited")
    ensures !IsSpace('=')
  {
  }

  lemma KeysDiffer()
    ensures "limit" != "remaining" && "limit" != "retry_after" && "remaining" != "retry_after"
    ensures "tier" != "limit" && "tier" != "remaining" && "tier" != "retry_after" && "error" != "limit"
  {
  }

  /** Whatever the tier put into the fields, the three numbers are written over it last. */
  lemma NumbersComeLast(tier: string, limit: nat, remaining: nat, retryAfter: nat)
    ensures Collected(Words(Format(tier, limit, remaining, retryAfter))) ==
      Collected(Words(Opening(tier)))
        ["limit" := Num(limit)]["remaining" := Num(remaining)]["retry_after" := Num(retryAfter)]
  {
    hide Collected, Words, IsSpace, Dec;
    KeysArePlain();
    var a := Opening(tier);
    var b := a + " " + ("limit=" + Dec(limit));
    var c := b + " " + ("remaining=" + Dec(remaining));
    assert "limit=" == "limit" + "=" && "remaining=" == "remaining" + "=" && "retry_after=" == "retry_after" + "=";
    NumberWord(a, "limit", limit);
    NumberWord(b, "remaining", remaining);
    NumberWord(c, "retry_after", retryAfter);
  }

  lemma Joined(before: string, key: string, value: string, word: string)
    requires word == " " + key
    ensures before + " " + (key + value) == before + word + value
  {
  }

  /** The message as it is sent. */
  lemma MessageText(tier: string, limit: nat, remaining: nat, retryAfter: nat)
    ensures Format(tier, limit, remaining, retryAfter) ==
      "rate_limited" + " tier=" + tier + " limit=" + Dec(limit) + " remaining=" + Dec(remaining)
      + " retry_after=" + Dec(retryAfter)
  {
    hide Dec;
    var a := "rate_limited" + " " + ("tier=" + tier);
    Joined("rate_limited", "tier=", tier, " tier=");
    Joined(a, "limit=", Dec(limit), " limit=");
    var b := a + " " + ("limit=" + Dec(limit));
    Joined(b, "remaining=", Dec(remaining), " remaining=");
    var c := b + " " + ("remaining=" + Dec(remaining));
    Joined(c, "retry_after=", Dec(retryAfter), " retry_after=");
  }

  /** Limit, remaining and delay come back from every message, as fields and as headers. */
  lemma NumbersSurviveAnyTier(tier: string, limit: nat, remaining: nat, retryAfter: nat)
    ensures var parts := Collected(Words(Format(tier, limit, remaining, retryAfter)));
      "limit" in parts && parts["limit"] == Num(limit)
      && "remaining" in parts && parts["remaining"] == Num(remaining)
      && "retry_after" in parts && parts["retry_after"] == Num(retryAfter)
      && Headers(parts) == map["Retry-After" := Dec(retryAfter)] + map["X-RateLimit-Limit" := Dec(limit)]
                           + map["X-RateLimit-Remaining" := Dec(remaining)]
  {
    hide Collected, Words, Dec, Format;
    NumbersComeLast(tier, limit, remaining, retryAfter);
    KeysDiffer();
  }

  /** A text value came from one word and was not a numeral. */
  ghost predicate IsTextValue(v: Value) {
    v.Str? ==> NoSpaces(v.s) && !IsDigits(v.s)
  }

  lemma {:induction false} ValuesAreText(words: seq<string>)
    requires forall w :: w in words ==> IsWord(w)
    ensures forall k :: k in Collected(words) ==> IsTextValue(Collected(words)[k])
  {
    hide IsSpace;
    if words != [] {
      var n := |words| - 1;
      ValuesAreText(words[..n]);
      assert words[n] in words;
      var i := FirstEquals(words[n]);
      assert i >= 0 ==> NoSpaces(words[n][i + 1..]);
    } else {
      KeysArePlain();
      assert "rate_limited"[0] == 'r' && 'r' in "rate_limited" && !IsDigit('r');
    }
  }

  lemma TwoWords(first: string, key: string, v: string)
    requires IsWord(first) && '=' !in first && '=' !in key && NoSpaces(key) && NoSpaces(v)
    ensures Collected(Words(first + " " + (key + "=" + v))) == map["error" := Str("rate_limited")][key := ValueOf(v)]
  {
    hide IsSpace, ValueOf;
    KeysArePlain();
    WordsOfAppended(first, key + "=" + v);
    OneWord(first);
    OneMoreWord([first], key, v);
    NoField(first);
  }

  lemma OneWord(w: string)
    requires IsWord(w)
    ensures Words(w) == [w]
  {
    WordsOfRun([], w);
    assert [] + w == w && Words([]) == [] && [] + [w] == [w];
  }

  lemma NoField(w: string)
    requires '=' !in w
    ensures Collected([w]) == map["error" := Str("rate_limited")]
  {
  }

  lemma GoodTierIsAWord(tier: string)
    requires NoSpaces(tier)
    ensures Collected(Words(Opening(tier))) == map["error" := Str("rate_limited")]["tier" := ValueOf(tier)]
  {
    hide IsSpace, Words, Collected, ValueOf;
    KeysArePlain();
    assert "tier=" == "tier" + "=";
    TwoWords("rate_limited", "tier", tier);
  }

  /** The tier comes back exactly when it has no white space and is not itself a numeral; then nothing else is added. */
  lemma TierSurvivesIff(tier: string, limit: nat, remaining: nat, retryAfter: nat)
    ensures var parts := Collected(Words(Format(tier, limit, remaining, retryAfter)));
      "tier" in parts && parts["tier"] == Str(tier) <==> NoSpaces(tier) && !IsDigits(tier)
    ensures NoSpaces(tier) && !IsDigits(tier) ==>
      Collected(Words(Format(tier, limit, remaining, retryAfter))) ==
        map["error" := Str("rate_limited"), "tier" := Str(tier), "limit" := Num(limit), "remaining" := Num(remaining),
            "retry_after" := Num(retryAfter)]
  {
    hide Collected, Words, Format, IsSpace;
    NumbersComeLast(tier, limit, remaining, retryAfter);
    KeysDiffer();
    WordsAreWords(Opening(tier));
    ValuesAreText(Words(Opening(tier)));
    if NoSpaces(tier) {
      GoodTierIsAWord(tier);
    }
  }
}
