/** The line loop that `get_adj` and `get_coord` in main.py share: start
    from an empty dictionary, skip every line of length 0 or 1, split every
    other line on whitespace and store one entry built from its tokens.
    Building that entry may raise (IndexError, ValueError), which ends the
    whole parse. */
module Lines {
  import opened Results
  import opened PyStr

  /** The Python exceptions the parsers can raise. The file is not read
      here, so the errors `open` could raise are not part of this model. */
  datatype ParseError = IndexError | ValueError(token: string)

  /** `len(line) > 1`: the only filter applied before a line is split. */
  predicate Kept(line: string) {
    |line| > 1
  }

  /** A line as `readlines()` returns it when the file holds these tokens
      separated by single spaces: joined, and ended by a line feed. */
  function LineOf(tokens: seq<string>): string {
    Join(tokens) + "\n"
  }

  /** A line made of tokens splits back into those tokens, and it is kept
      whenever it has one. */
  lemma LineOfTokens(tokens: seq<string>)
    requires AllWords(tokens)
    ensures Tokens(LineOf(tokens)) == tokens
    ensures tokens != [] ==> Kept(LineOf(tokens))
  {
    TokensOfJoinedLine(tokens);
  }

  /** A kept line whose entry could not be built. */
  predicate Fails<V>(row: seq<string> -> Result<(string, V), ParseError>, line: string) {
    Kept(line) && row(Tokens(line)).Failure?
  }

  /** A kept line that stores an entry. */
  predicate Writes<V>(row: seq<string> -> Result<(string, V), ParseError>, line: string) {
    Kept(line) && row(Tokens(line)).Success?
  }

  /** The key and value a writing line stores. */
  function Written<V>(row: seq<string> -> Result<(string, V), ParseError>, line: string): (string, V)
    requires Writes(row, line)
  {
    row(Tokens(line)).value
  }

  /** No line after index `i` stores under key `k`. */
  predicate LastWriter<V>(row: seq<string> -> Result<(string, V), ParseError>, lines: seq<string>, i: nat, k: string) {
    forall j :: i < j < |lines| && Writes(row, lines[j]) ==> Written(row, lines[j]).0 != k
  }

  /** The dictionary after the loop has run over all of `lines`, or the
      exception that stopped it. */
  function Fold<V>(lines: seq<string>, row: seq<string> -> Result<(string, V), ParseError>): Result<map<string, V>, ParseError>
    decreases |lines|
  {
    if lines == [] then Success(map[])
    else
      var last := lines[|lines| - 1];
      match Fold(lines[..|lines| - 1], row)
      case Failure(e) => Failure(e)
      case Success(m) =>
        if !Kept(last) then Success(m)
        else match row(Tokens(last))
          case Failure(e) => Failure(e)
          case Success(kv) => Success(m[kv.0 := kv.1])
  }

  /** Once an exception is raised, the lines after it do not matter. */
  lemma {:induction false} FoldFailurePersists<V>(lines: seq<string>, k: nat, row: seq<string> -> Result<(string, V), ParseError>)
    requires k <= |lines| && Fold(lines[..k], row).Failure?
    ensures Fold(lines, row) == Fold(lines[..k], row)
    decreases |lines|
  {
    if k < |lines| {
      var p := lines[..|lines| - 1];
      assert p[..k] == lines[..k];
      FoldFailurePersists(p, k, row);
    } else {
      assert lines[..k] == lines;
    }
  }

  /** A line of length 0 or 1 has no effect, wherever it stands. */
  lemma {:induction false} FoldSkipsShortLine<V>(a: seq<string>, line: string, b: seq<string>, row: seq<string> -> Result<(string, V), ParseError>)
    requires !Kept(line)
    ensures Fold(a + [line] + b, row) == Fold(a + b, row)
    decreases |b|
  {
    if b == [] {
      assert a + [line] + b == a + [line];
      assert (a + [line])[..|a|] == a;
      assert a + b == a;
    } else {
      var b' := b[..|b| - 1];
      var x := b[|b| - 1];
      assert (a + [line] + b)[..|a + [line] + b| - 1] == a + [line] + b';
      assert (a + [line] + b)[|a + [line] + b| - 1] == x;
      assert (a + b)[..|a + b| - 1] == a + b';
      assert (a + b)[|a + b| - 1] == x;
      FoldSkipsShortLine(a, line, b', row);
    }
  }

  /** The loop finishes exactly when no kept line fails, and an exception
      that stops it comes from the first kept line that fails. */
  lemma {:induction false} FoldErrors<V>(lines: seq<string>, row: seq<string> -> Result<(string, V), ParseError>)
    ensures Fold(lines, row).Success? <==> forall i :: 0 <= i < |lines| ==> !Fails(row, lines[i])
    ensures Fold(lines, row).Failure? ==>
      exists k :: 0 <= k < |lines| && Fails(row, lines[k])
        && row(Tokens(lines[k])).error == Fold(lines, row).error
        && forall i :: 0 <= i < k ==> !Fails(row, lines[i])
    decreases |lines|
  {
    if lines != [] {
      var n := |lines| - 1;
      var p := lines[..n];
      assert forall i :: 0 <= i < n ==> p[i] == lines[i];
      FoldErrors(p, row);
      if Fold(p, row).Failure? {
        var k :| 0 <= k < n && Fails(row, p[k])
          && row(Tokens(p[k])).error == Fold(p, row).error
          && forall i :: 0 <= i < k ==> !Fails(row, p[i]);
        assert Fails(row, lines[k]);
      } else if Fails(row, lines[n]) {
        assert forall i :: 0 <= i < n ==> !Fails(row, lines[i]);
      }
    }
  }

  /** What a completed loop stores: every writing line's key is present,
      every present key was written by some line, and the value under a key
      is the one written by the last line with that key. */
  lemma {:induction false} FoldEntries<V>(lines: seq<string>, row: seq<string> -> Result<(string, V), ParseError>, m: map<string, V>)
    requires Fold(lines, row) == Success(m)
    ensures forall i :: 0 <= i < |lines| && Writes(row, lines[i]) ==> Written(row, lines[i]).0 in m
    ensures forall k :: k in m ==> exists i :: 0 <= i < |lines| && Writes(row, lines[i]) && Written(row, lines[i]).0 == k
    ensures forall i :: 0 <= i < |lines| && Writes(row, lines[i]) && LastWriter(row, lines, i, Written(row, lines[i]).0) ==>
      m[Written(row, lines[i]).0] == Written(row, lines[i]).1
    decreases |lines|
  {
    if lines != [] {
      var n := |lines| - 1;
      var p := lines[..n];
      var l := lines[n];
      assert forall i :: 0 <= i < n ==> p[i] == lines[i];
      assert Fold(p, row).Success?;
      var mp := Fold(p, row).value;
      FoldEntries(p, row, mp);
      forall i | 0 <= i < |lines| && Writes(row, lines[i]) && LastWriter(row, lines, i, Written(row, lines[i]).0)
        ensures m[Written(row, lines[i]).0] == Written(row, lines[i]).1
      {
        if i < n {
          assert LastWriter(row, p, i, Written(row, p[i]).0);
        }
      }
      forall k | k in m
        ensures exists i :: 0 <= i < |lines| && Writes(row, lines[i]) && Written(row, lines[i]).0 == k
      {
        if !(Writes(row, l) && Written(row, l).0 == k) {
          assert k in mp;
          var i :| 0 <= i < n && Writes(row, p[i]) && Written(row, p[i]).0 == k;
          assert Writes(row, lines[i]);
        }
      }
    }
  }
}
