/**
 The printed form of an API key and its parser (apps/api_keys/services.py).  The
 content-addressed lookup, a hash prefix, is a parameter.
 */
module TokenFormat {
  import opened Wrappers

  const PREFIX: string := "cos_"
  const LOOKUP_LEN := 8
  const MIN_SECRET := 32
  const MAX_SECRET := 64

  datatype Parsed = Parsed(secret: string, lookup: string)

  /** Hex digits: of the fixed length and without underscore. */
  ghost predicate IsLookup(lookup: string) {
    |lookup| == LOOKUP_LEN && '_' !in lookup
  }

  function Print(secret: string, makeLookup: string -> string): string {
    PREFIX + secret + ['_'] + makeLookup(secret)
  }

  /** str.rsplit('_', 1): the position of the last underscore, or -1. */
  function LastUnderscore(s: string): (i: int)
    ensures -1 <= i < |s| && (i >= 0 ==> s[i] == '_')
    ensures forall j :: i < j < |s| ==> s[j] != '_'
  {
    if s == [] then -1
    else if s[|s| - 1] == '_' then |s| - 1
    else LastUnderscore(s[..|s| - 1])
  }

  function ParseBody(body: string, makeLookup: string -> string): Option<Parsed> {
    var i := LastUnderscore(body);
    if i < 0 then None else
      var secret, lookup := body[..i], body[i + 1..];
      if |lookup| != LOOKUP_LEN then None
      else if !(MIN_SECRET <= |secret| <= MAX_SECRET) then None
      else if makeLookup(secret) != lookup then None
      else Some(Parsed(secret, lookup))
  }

  function Parse(raw: string, makeLookup: string -> string): Option<Parsed> {
    if PREFIX <= raw then ParseBody(raw[|PREFIX|..], makeLookup) else None
  }

  lemma LastUnderscoreOf(secret: string, lookup: string)
    requires '_' !in lookup
    ensures LastUnderscore(secret + ['_'] + lookup) == |secret|
  {
    var s := secret + ['_'] + lookup;
    assert s[|secret|] == '_';
    assert forall j :: |secret| < j < |s| ==> s[j] in lookup;
  }

  lemma BodyThenParse(secret: string, makeLookup: string -> string)
    requires MIN_SECRET <= |secret| <= MAX_SECRET && IsLookup(makeLookup(secret))
    ensures ParseBody(secret + ['_'] + makeLookup(secret), makeLookup) == Some(Parsed(secret, makeLookup(secret)))
  {
    var lookup := makeLookup(secret);
    var body := secret + ['_'] + lookup;
    LastUnderscoreOf(secret, lookup);
    assert body[..|secret|] == secret && body[|secret| + 1..] == lookup;
  }

  /** Every printed secret of an accepted length parses to its parts, underscores in the secret notwithstanding. */
  lemma PrintThenParse(secret: string, makeLookup: string -> string)
    requires MIN_SECRET <= |secret| <= MAX_SECRET && IsLookup(makeLookup(secret))
    ensures Parse(Print(secret, makeLookup), makeLookup) == Some(Parsed(secret, makeLookup(secret)))
    ensures Print(secret, makeLookup) == "cos_" + secret + "_" + makeLookup(secret)
  {
    hide ParseBody;
    BodyThenParse(secret, makeLookup);
    var raw := Print(secret, makeLookup);
    assert raw == PREFIX + (secret + ['_'] + makeLookup(secret));
    assert raw[|PREFIX|..] == secret + ['_'] + makeLookup(secret);
  }

  /** Nothing parses that does not print back to itself, and only with a lookup that fits its secret. */
  lemma ParseThenPrint(raw: string, makeLookup: string -> string)
    requires Parse(raw, makeLookup).Some?
    ensures var p := Parse(raw, makeLookup).value;
      raw == Print(p.secret, makeLookup) && p.lookup == makeLookup(p.secret) && IsLookup(p.lookup)
      && MIN_SECRET <= |p.secret| <= MAX_SECRET
  {
    var body := raw[|PREFIX|..];
    var i := LastUnderscore(body);
    assert body == body[..i] + ['_'] + body[i + 1..];
    assert raw == PREFIX + body;
  }

  /** The accepted texts are exactly the printed ones, and each has one reading. */
  lemma ParsesIffPrinted(raw: string, makeLookup: string -> string, p: Parsed)
    ensures Parse(raw, makeLookup) == Some(p) <==>
      (raw == "cos_" + p.secret + "_" + p.lookup && p.lookup == makeLookup(p.secret)
       && |p.lookup| == 8 && '_' !in p.lookup && 32 <= |p.secret| <= 64)
  {
    if Parse(raw, makeLookup) == Some(p) {
      ParseThenPrint(raw, makeLookup);
    }
    if raw == Print(p.secret, makeLookup) && IsLookup(makeLookup(p.secret)) && MIN_SECRET <= |p.secret| <= MAX_SECRET {
      PrintThenParse(p.secret, makeLookup);
    }
  }

  /** No two secrets share a printed form. */
  lemma PrintIsInjective(a: string, b: string, makeLookup: string -> string)
    requires IsLookup(makeLookup(a)) && IsLookup(makeLookup(b)) && Print(a, makeLookup) == Print(b, makeLookup)
    ensures a == b
  {
    LastUnderscoreOf(a, makeLookup(a));
    LastUnderscoreOf(b, makeLookup(b));
    var raw := Print(a, makeLookup);
    assert raw[|PREFIX|..] == a + ['_'] + makeLookup(a);
    assert raw[|PREFIX|..] == b + ['_'] + makeLookup(b);
    assert a == raw[|PREFIX|..][..|a|];
  }
}
