/** The parts of Python's `str` type that the parsers in main.py rely on:
    `str.isspace` on one character, `str.split()` with no separator and
    `str.strip()` with no argument. */
module PyStr {

  /** A character Python's argument-less `split()` and `strip()` treat as
      whitespace: the ASCII set (tab, line feed, vertical tab, form feed,
      carriage return, the four information separators U+001C..U+001F and
      space) and the Unicode spaces outside ASCII. */
  predicate IsSpace(c: char) {
    || c == ' ' || c == '\t' || c == '\n' || c == '\r'
    || c == '\U{0B}' || c == '\U{0C}'
    || ('\U{1C}' <= c <= '\U{1F}')
    || c == '\U{85}' || c == '\U{A0}' || c == '\U{1680}'
    || ('\U{2000}' <= c <= '\U{200A}')
    || c == '\U{2028}' || c == '\U{2029}' || c == '\U{202F}'
    || c == '\U{205F}' || c == '\U{3000}'
  }

  predicate NoSpace(s: string) {
    forall i :: 0 <= i < |s| ==> !IsSpace(s[i])
  }

  predicate AllSpace(s: string) {
    forall i :: 0 <= i < |s| ==> IsSpace(s[i])
  }

  /** What `split()` can produce: a non-empty run of non-whitespace. */
  predicate IsWord(w: string) {
    w != [] && NoSpace(w)
  }

  predicate AllWords(ws: seq<string>) {
    forall i :: 0 <= i < |ws| ==> IsWord(ws[i])
  }

  /** Length of the word that starts `s`: the first whitespace position, or
      the end of `s`. */
  function WordEnd(s: string): (n: nat)
    requires s != [] && !IsSpace(s[0])
    ensures 0 < n <= |s|
    ensures IsWord(s[..n])
    ensures n < |s| ==> IsSpace(s[n])
    decreases |s|
  {
    if |s| == 1 || IsSpace(s[1]) then 1
    else
      var k := WordEnd(s[1..]);
      assert s[..k + 1] == [s[0]] + s[1..][..k];
      k + 1
  }

  /** The boundary of the leading word is the only position that ends a
      whitespace-free prefix at whitespace or at the end. */
  lemma {:induction false} WordEndUnique(s: string, n: nat)
    requires 0 < n <= |s| && NoSpace(s[..n])
    requires n == |s| || IsSpace(s[n])
    ensures WordEnd(s) == n
  {
    assert s[0] == s[..n][0];
  }

  /** Python's `s.split()`: the maximal runs of non-whitespace, left to right. */
  function Tokens(s: string): (r: seq<string>)
    decreases |s|
  {
    if s == [] then []
    else if IsSpace(s[0]) then Tokens(s[1..])
    else
      var n := WordEnd(s);
      [s[..n]] + Tokens(s[n..])
  }

  /** Every token is a non-empty run of non-whitespace. */
  lemma {:induction false} TokensAreWords(s: string)
    ensures AllWords(Tokens(s))
    decreases |s|
  {
    if s == [] {
    } else if IsSpace(s[0]) {
      TokensAreWords(s[1..]);
    } else {
      var n := WordEnd(s);
      TokensAreWords(s[n..]);
      var r := Tokens(s);
      assert r == [s[..n]] + Tokens(s[n..]);
      forall i | 0 <= i < |r| ensures IsWord(r[i]) {
        if i > 0 { assert r[i] == Tokens(s[n..])[i - 1]; }
      }
    }
  }

  /** Characters of `s` that are not whitespace, in order. */
  function NonSpace(s: string): (r: string)
    ensures NoSpace(r)
    decreases |s|
  {
    if s == [] then []
    else (if IsSpace(s[0]) then [] else [s[0]]) + NonSpace(s[1..])
  }

  function Concat(ws: seq<string>): string {
    if ws == [] then [] else ws[0] + Concat(ws[1..])
  }

  /** Tokens joined by single spaces, the inverse of `split()`. */
  function Join(ws: seq<string>): string {
    if ws == [] then []
    else if |ws| == 1 then ws[0]
    else ws[0] + " " + Join(ws[1..])
  }

  lemma {:induction false} NonSpaceAppend(a: string, b: string)
    ensures NonSpace(a + b) == NonSpace(a) + NonSpace(b)
    decreases |a|
  {
    if a != [] {
      assert (a + b)[1..] == a[1..] + b;
      NonSpaceAppend(a[1..], b);
    } else {
      assert a + b == b;
    }
  }

  lemma {:induction false} NonSpaceOfWord(w: string)
    requires NoSpace(w)
    ensures NonSpace(w) == w
    decreases |w|
  {
    if w != [] {
      assert NoSpace(w[1..]) by {
        forall i | 0 <= i < |w[1..]| ensures !IsSpace(w[1..][i]) { assert w[1..][i] == w[i + 1]; }
      }
      NonSpaceOfWord(w[1..]);
      assert w == [w[0]] + w[1..];
    }
  }

  /** `split()` drops exactly the whitespace: gluing its tokens back
      together gives the input's non-whitespace characters, in order. */
  lemma {:induction false} TokensKeepNonSpace(s: string)
    ensures Concat(Tokens(s)) == NonSpace(s)
    decreases |s|
  {
    if s == [] {
    } else if IsSpace(s[0]) {
      TokensKeepNonSpace(s[1..]);
    } else {
      var n := WordEnd(s);
      var r := Tokens(s);
      assert r == [s[..n]] + Tokens(s[n..]);
      assert r[1..] == Tokens(s[n..]);
      TokensKeepNonSpace(s[n..]);
      NonSpaceAppend(s[..n], s[n..]);
      assert s[..n] + s[n..] == s;
      NonSpaceOfWord(s[..n]);
    }
  }

  /** Text made of a word and then either nothing or whitespace splits into
      that word followed by the split of the rest. */
  lemma TokensAfterWord(u: string, w: string, rest: string)
    requires IsWord(w) && u == w + rest
    requires rest == [] || IsSpace(rest[0])
    ensures Tokens(u) == [w] + Tokens(rest)
  {
    assert u[..|w|] == w && u[|w|..] == rest;
    WordEndUnique(u, |w|);
  }

  /** Leading whitespace does not change the split. */
  lemma TokensAfterSpace(c: char, rest: string)
    requires IsSpace(c)
    ensures Tokens([c] + rest) == Tokens(rest)
  {
    assert ([c] + rest)[1..] == rest;
  }

  /** A single word splits to itself. */
  lemma TokensOfWord(w: string)
    requires IsWord(w)
    ensures Tokens(w) == [w]
  {
    TokensAfterWord(w, w, []);
    assert w + [] == w;
  }

  lemma AllWordsTail(ws: seq<string>)
    requires AllWords(ws) && ws != []
    ensures AllWords(ws[1..])
  {
    forall i | 0 <= i < |ws[1..]| ensures IsWord(ws[1..][i]) { assert ws[1..][i] == ws[i + 1]; }
  }

  /** Round trip: splitting words joined by spaces gives the words back. */
  lemma {:induction false} TokensOfJoin(ws: seq<string>)
    requires AllWords(ws)
    ensures Tokens(Join(ws)) == ws
    decreases |ws|
  {
    if ws == [] {
    } else if |ws| == 1 {
      TokensOfWord(ws[0]);
    } else {
      var rest := " " + Join(ws[1..]);
      TokensAfterWord(Join(ws), ws[0], rest);
      TokensAfterSpace(' ', Join(ws[1..]));
      AllWordsTail(ws);
      TokensOfJoin(ws[1..]);
      assert ws == [ws[0]] + ws[1..];
    }
  }

  /** A line of words joined by spaces and ended by a line feed, as
      `readlines()` returns it, splits into those words. */
  lemma {:induction false} TokensOfJoinedLine(ws: seq<string>)
    requires AllWords(ws)
    ensures Tokens(Join(ws) + "\n") == ws
    decreases |ws|
  {
    if ws == [] {
      TokensAfterSpace('\n', []);
      assert Join(ws) + "\n" == ['\n'] + [];
    } else if |ws| == 1 {
      TokensAfterSpace('\n', []);
      TokensAfterWord(Join(ws) + "\n", ws[0], "\n");
    } else {
      var tail := Join(ws[1..]) + "\n";
      assert Join(ws) + "\n" == ws[0] + (" " + tail);
      TokensAfterWord(Join(ws) + "\n", ws[0], " " + tail);
      TokensAfterSpace(' ', tail);
      AllWordsTail(ws);
      TokensOfJoinedLine(ws[1..]);
      assert ws == [ws[0]] + ws[1..];
    }
  }

  /** Python's `s.lstrip()`: drops leading whitespace only. */
  function TrimStart(s: string): (r: string)
    ensures |r| <= |s| && r == s[|s| - |r|..]
    ensures AllSpace(s[..|s| - |r|])
    ensures r == [] || !IsSpace(r[0])
    decreases |s|
  {
    if s != [] && IsSpace(s[0]) then
      var r := TrimStart(s[1..]);
      assert s[..|s| - |r|] == [s[0]] + s[1..][..|s[1..]| - |r|];
      r
    else s
  }

  /** Python's `s.rstrip()`: drops trailing whitespace only. */
  function TrimEnd(s: string): (r: string)
    ensures |r| <= |s| && r == s[..|r|]
    ensures AllSpace(s[|r|..])
    ensures r == [] || !IsSpace(r[|r| - 1])
    decreases |s|
  {
    if s != [] && IsSpace(s[|s| - 1]) then
      var r := TrimEnd(s[..|s| - 1]);
      assert s[|r|..] == s[..|s| - 1][|r|..] + [s[|s| - 1]];
      r
    else s
  }

  /** Python's `s.strip()`: the part of `s` left after removing whitespace
      at both ends. */
  function Strip(s: string): (r: string)
  {
    TrimEnd(TrimStart(s))
  }

  /** What `strip()` returns is a slice of its input whose cut-off ends are
      whitespace and whose own ends are not. */
  lemma StripIsTrimmedSlice(s: string)
    ensures exists i, j :: 0 <= i <= j <= |s| && Strip(s) == s[i..j] && AllSpace(s[..i]) && AllSpace(s[j..])
    ensures Strip(s) == [] || (!IsSpace(Strip(s)[0]) && !IsSpace(Strip(s)[|Strip(s)| - 1]))
  {
    var a := TrimStart(s);
    var r := TrimEnd(a);
    var i := |s| - |a|;
    var j := i + |r|;
    assert r == s[i..j] by {
      assert a == s[i..] && r == a[..|r|];
    }
    assert AllSpace(s[j..]) by {
      assert s[j..] == a[|r|..];
    }
    assert AllSpace(s[..i]);
    assert r == [] || !IsSpace(r[0]) by {
      if r != [] { assert r[0] == a[0]; }
    }
  }

  /** `strip()` leaves a word untouched. */
  lemma StripWord(w: string)
    requires NoSpace(w)
    ensures Strip(w) == w
  {
    if w != [] {
      assert !IsSpace(w[|w| - 1]);
    }
  }

  /** `strip()` is idempotent. */
  lemma StripIdempotent(s: string)
    ensures Strip(Strip(s)) == Strip(s)
  {
    var r := Strip(s);
    StripIsTrimmedSlice(s);
    if r != [] {
      assert TrimStart(r) == r;
      assert TrimEnd(r) == r;
    }
  }

  /** `[w.strip() for w in ws]`. */
  function StripAll(ws: seq<string>): seq<string> {
    seq(|ws|, i requires 0 <= i < |ws| => Strip(ws[i]))
  }

  /** Stripping each token of a `split()` result changes nothing. */
  lemma StripAllWords(ws: seq<string>)
    requires AllWords(ws)
    ensures StripAll(ws) == ws
  {
    forall i | 0 <= i < |ws| ensures StripAll(ws)[i] == ws[i] {
      StripWord(ws[i]);
    }
  }
}
