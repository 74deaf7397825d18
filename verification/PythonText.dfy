/** Python's notions of white space and decimal numerals, as far as the text formats need them. */
module PythonText {
  /** The characters that str.strip() removes and str.split() splits at. */
  predicate IsSpace(c: char) {
    var n := c as int;
    0x09 <= n <= 0x0D || 0x1C <= n <= 0x20 || n == 0x85 || n == 0xA0 || n == 0x1680 || 0x2000 <= n <= 0x200A
    || n == 0x2028 || n == 0x2029 || n == 0x202F || n == 0x205F || n == 0x3000
  }

  /** The white space characters, one by one. */
  lemma SpacesByCode(c: char)
    ensures IsSpace(c) <==>
      c as int in {9, 10, 11, 12, 13, 28, 29, 30, 31, 32, 133, 160, 5760, 8192, 8193, 8194, 8195, 8196, 8197, 8198,
                   8199, 8200, 8201, 8202, 8232, 8233, 8239, 8287, 12288}
  {
  }

  predicate IsDigit(c: char) {
    '0' <= c <= '9'
  }

  /** str.isdigit() on ASCII text. */
  predicate IsDigits(s: string) {
    s != [] && forall c :: c in s ==> IsDigit(c)
  }

  function DigitValue(c: char): nat
    requires IsDigit(c)
  {
    c as int - '0' as int
  }

  function ToNat(s: string): nat
    requires forall c :: c in s ==> IsDigit(c)
  {
    if s == [] then 0 else
      assert s[|s| - 1] in s;
      10 * ToNat(s[..|s| - 1]) + DigitValue(s[|s| - 1])
  }

  function Dec(n: nat): string {
    var last := [('0' as int + n % 10) as char];
    if n < 10 then last else Dec(n / 10) + last
  }

  /** A printed number is all digits and reads back as itself. */
  lemma {:induction false} DecReadsBack(n: nat)
    ensures IsDigits(Dec(n)) && ToNat(Dec(n)) == n
    ensures forall c :: c in Dec(n) ==> !IsSpace(c) && c != '='
  {
    if n >= 10 {
      DecReadsBack(n / 10);
      assert Dec(n)[..|Dec(n)| - 1] == Dec(n / 10);
    }
  }

  /** str.split() without arguments. */
  function Words(s: string): (words: seq<string>)
    ensures s != [] && !IsSpace(s[|s| - 1]) ==> words != []
  {
    if s == [] then [] else
      var n := |s| - 1;
      var before := Words(s[..n]);
      if IsSpace(s[n]) then before
      else if n == 0 || IsSpace(s[n - 1]) then before + [[s[n]]]
      else
        assert s[..n][|s[..n]| - 1] == s[n - 1];
        before[..|before| - 1] + [before[|before| - 1] + [s[n]]]
  }

  ghost predicate IsWord(w: string) {
    w != [] && forall c :: c in w ==> !IsSpace(c)
  }

  lemma {:induction false} WordsAreWords(s: string)
    ensures forall w :: w in Words(s) ==> IsWord(w)
  {
    hide IsSpace;
    if s != [] {
      var n := |s| - 1;
      WordsAreWords(s[..n]);
      if !IsSpace(s[n]) && n > 0 && !IsSpace(s[n - 1]) {
        var before := Words(s[..n]);
        var last := before[|before| - 1];
        assert last in before;
        assert IsWord(last + [s[n]]);
      }
    }
  }

  lemma WordStarts(p: string, c: char)
    requires !IsSpace(c) && (p == [] || IsSpace(p[|p| - 1]))
    ensures Words(p + [c]) == Words(p) + [[c]]
  {
    hide IsSpace;
    assert (p + [c])[..|p|] == p;
  }

  lemma WordGrows(p: string, c: char, before: seq<string>, w: string)
    requires !IsSpace(c) && p != [] && !IsSpace(p[|p| - 1]) && Words(p) == before + [w]
    ensures Words(p + [c]) == before + [w + [c]]
  {
    hide IsSpace;
    assert (p + [c])[..|p|] == p;
  }

  /** Text without spaces that starts after a space, or at the beginning, is one word. */
  lemma {:induction false} WordsOfRun(a: string, w: string)
    requires IsWord(w) && (a == [] || IsSpace(a[|a| - 1]))
    ensures Words(a + w) == Words(a) + [w]
    decreases |w|
  {
    hide IsSpace, Words;
    var n := |w| - 1;
    assert w == w[..n] + [w[n]] && a + w == a + w[..n] + [w[n]];
    if n == 0 {
      assert a + w[..n] == a && w == [w[0]];
      WordStarts(a, w[0]);
    } else {
      assert w[n - 1] in w && (a + w[..n])[|a + w[..n]| - 1] == w[n - 1];
      WordsOfRun(a, w[..n]);
      WordGrows(a + w[..n], w[n], Words(a), w[..n]);
    }
  }

  /** A word after a space is split off whole. */
  lemma WordsOfAppended(a: string, w: string)
    requires IsWord(w)
    ensures Words(a + " " + w) == Words(a) + [w]
  {
    assert (a + " ")[..|a|] == a && IsSpace(' ');
    WordsOfRun(a + " ", w);
  }
}
