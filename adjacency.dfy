/** `get_adj` (main.py:5-33): reads the adjacency list, one node per line,
    the node's name first and its neighbours' names after it, into a
    dictionary from name to the ordered list of neighbour names. The file
    is given as the list of its lines, as `readlines()` returns them. */
module Adjacency {
  import opened Results
  import opened PyStr
  import opened Lines

  type AdjacencyMap = map<string, seq<string>>

  /** The entry one kept line stores:
      the first token is the key and the stripped remaining tokens are the
      value. A line with no token at all makes `split_line[0]` raise
      IndexError (Python builds the list first, but building it has no
      effect, so the order is not observable). */
  function AdjRow(ts: seq<string>): (r: Result<(string, seq<string>), ParseError>)
    ensures r.Success? <==> ts != []
    ensures r.Failure? ==> r.error == IndexError
    ensures r.Success? ==> r.value.0 == ts[0] && |r.value.1| == |ts| - 1
  {
    if |ts| == 0 then Failure(IndexError) else Success((ts[0], StripAll(ts[1..])))
  }

  /** What `get_adj` returns for these lines, or the exception it raises. */
  function ParseAdj(lines: seq<string>): Result<AdjacencyMap, ParseError> {
    Fold(lines, AdjRow)
  }

  /** A kept line that has at least one token, so that it stores an entry. */
  predicate IsEntry(line: string) {
    Kept(line) && Tokens(line) != []
  }

  /** The node a line describes: its first token. */
  function Node(line: string): string
    requires IsEntry(line)
  {
    Tokens(line)[0]
  }

  /** The neighbours a line lists: its other tokens, in order. */
  function Neighbours(line: string): seq<string>
    requires IsEntry(line)
  {
    Tokens(line)[1..]
  }

  /** No line after index `i` describes node `k` again. */
  predicate LastFor(lines: seq<string>, i: nat, k: string) {
    forall j :: i < j < |lines| && IsEntry(lines[j]) ==> Node(lines[j]) != k
  }

  /** The loop of main.py:21-33, with the file's lines as input. */
  method GetAdj(lines: seq<string>) returns (r: Result<AdjacencyMap, ParseError>)
    ensures r == ParseAdj(lines)
  {
    var adj: AdjacencyMap := map[];
    var i := 0;
    while i < |lines|
      invariant i <= |lines|
      invariant Fold(lines[..i], AdjRow) == Success(adj)
    {
      var line := lines[i];
      assert lines[..i + 1][..i] == lines[..i];
      if |line| > 1 {
        var splitLine := Tokens(line);
        if |splitLine| == 0 {
          FoldFailurePersists(lines, i + 1, AdjRow);
          return Failure(IndexError);
        }
        adj := adj[splitLine[0] := StripAll(splitLine[1..])];
      }
      i := i + 1;
    }
    assert lines[..i] == lines;
    r := Success(adj);
  }

  /** The per-token `strip()` never changes anything: a kept line with a
      token stores its first token and exactly its remaining tokens. */
  lemma AdjRowOfLine(line: string)
    requires IsEntry(line)
    ensures Writes(AdjRow, line)
    ensures Written(AdjRow, line) == (Node(line), Neighbours(line))
    ensures AllWords(Neighbours(line))
  {
    var ts := Tokens(line);
    TokensAreWords(line);
    assert AllWords(ts[1..]) by {
      forall i | 0 <= i < |ts[1..]| ensures IsWord(ts[1..][i]) { assert ts[1..][i] == ts[i + 1]; }
    }
    StripAllWords(ts[1..]);
  }

  /** `get_adj` raises exactly when some kept line (length above one) holds
      only whitespace, and the exception is then IndexError. */
  lemma ParseAdjErrors(lines: seq<string>)
    ensures ParseAdj(lines).Failure? <==> exists i :: 0 <= i < |lines| && Kept(lines[i]) && Tokens(lines[i]) == []
    ensures ParseAdj(lines).Failure? ==> ParseAdj(lines).error == IndexError
  {
    FoldErrors(lines, AdjRow);
    assert forall i :: 0 <= i < |lines| ==> (Fails(AdjRow, lines[i]) <==> Kept(lines[i]) && Tokens(lines[i]) == []);
    if ParseAdj(lines).Failure? {
      var k :| 0 <= k < |lines| && Fails(AdjRow, lines[k]) && AdjRow(Tokens(lines[k])).error == ParseAdj(lines).error;
    }
  }

  /** The dictionary `get_adj` returns: every kept line's first token is a
      key, every key is the first token of some line, the value under a key
      is the neighbour list of the last line naming that node, and no
      neighbour name is empty or holds whitespace. */
  lemma ParseAdjEntries(lines: seq<string>, adj: AdjacencyMap)
    requires ParseAdj(lines) == Success(adj)
    ensures forall i :: 0 <= i < |lines| && Kept(lines[i]) ==> IsEntry(lines[i]) && Node(lines[i]) in adj
    ensures forall k :: k in adj ==> exists i :: 0 <= i < |lines| && IsEntry(lines[i]) && Node(lines[i]) == k
    ensures forall i :: 0 <= i < |lines| && IsEntry(lines[i]) && LastFor(lines, i, Node(lines[i])) ==>
      adj[Node(lines[i])] == Neighbours(lines[i])
    ensures forall k :: k in adj ==> AllWords(adj[k])
  {
    ParseAdjErrors(lines);
    FoldEntries(lines, AdjRow, adj);
    forall i | 0 <= i < |lines| && IsEntry(lines[i])
      ensures Writes(AdjRow, lines[i]) && Written(AdjRow, lines[i]) == (Node(lines[i]), Neighbours(lines[i]))
      ensures AllWords(Neighbours(lines[i]))
    {
      AdjRowOfLine(lines[i]);
    }
    forall i | 0 <= i < |lines| && IsEntry(lines[i]) && LastFor(lines, i, Node(lines[i]))
      ensures LastWriter(AdjRow, lines, i, Written(AdjRow, lines[i]).0)
    {
      forall j | i < j < |lines| && Writes(AdjRow, lines[j])
        ensures Written(AdjRow, lines[j]).0 != Written(AdjRow, lines[i]).0
      {
        assert IsEntry(lines[j]);
      }
    }
    forall k | k in adj ensures AllWords(adj[k]) {
      var i :| 0 <= i < |lines| && Writes(AdjRow, lines[i]) && Written(AdjRow, lines[i]).0 == k;
      var last := LastOf(lines, i, k);
      assert adj[k] == Neighbours(lines[last]);
    }
  }

  /** The index of the last line after `i` (or `i` itself) that describes
      node `k`. */
  ghost function LastOf(lines: seq<string>, i: nat, k: string): (r: nat)
    requires i < |lines| && IsEntry(lines[i]) && Node(lines[i]) == k
    ensures i <= r < |lines| && IsEntry(lines[r]) && Node(lines[r]) == k
    ensures LastFor(lines, r, k)
    decreases |lines| - i
  {
    if exists j :: i < j < |lines| && IsEntry(lines[j]) && Node(lines[j]) == k then
      var j :| i < j < |lines| && IsEntry(lines[j]) && Node(lines[j]) == k;
      LastOf(lines, j, k)
    else i
  }

  /** One more line naming a node sets (or replaces) that node's
      neighbours and leaves every other entry as it was. */
  lemma ParseAdjAppend(lines: seq<string>, line: string, adj: AdjacencyMap, k: string, v: seq<string>)
    requires ParseAdj(lines) == Success(adj)
    requires IsEntry(line) && Node(line) == k && Neighbours(line) == v
    ensures ParseAdj(lines + [line]) == Success(adj[k := v])
  {
    assert (lines + [line])[..|lines|] == lines;
    AdjRowOfLine(line);
  }

  /** A line listing a node and then its neighbours describes exactly that. */
  lemma LineOfEntry(names: seq<string>)
    requires AllWords(names) && names != []
    ensures IsEntry(LineOf(names))
    ensures Node(LineOf(names)) == names[0] && Neighbours(LineOf(names)) == names[1..]
  {
    LineOfTokens(names);
  }

  /** A line holding only a node's name stores that node with no
      neighbours. */
  lemma ParseAdjNodeAlone(lines: seq<string>, adj: AdjacencyMap, name: string)
    requires ParseAdj(lines) == Success(adj) && IsWord(name)
    ensures ParseAdj(lines + [LineOf([name])]) == Success(adj[name := []])
  {
    LineOfEntry([name]);
    ParseAdjAppend(lines, LineOf([name]), adj, name, []);
  }

  lemma ExampleNamesAreWords0()
    ensures AllWords(["Anthony", "Bluff_City", "Kiowa", "Attica", "Harper"])
  {
    assert IsWord("Anthony") && IsWord("Bluff_City") && IsWord("Kiowa");
    assert IsWord("Attica") && IsWord("Harper");
  }

  lemma ExampleNamesAreWords1()
    ensures AllWords(["Attica", "Medicine_Lodge"])
  {
    assert IsWord("Attica") && IsWord("Medicine_Lodge");
  }

  lemma ExampleNamesAreWords2()
    ensures AllWords(["Augusta", "Winfield", "Andover", "Leon", "Wichita"])
  {
    assert IsWord("Augusta") && IsWord("Winfield") && IsWord("Andover");
    assert IsWord("Leon") && IsWord("Wichita");
  }

  lemma ExamplePrefix1()
    ensures ParseAdj([LineOf(["Anthony", "Bluff_City", "Kiowa", "Attica", "Harper"])])
      == Success(map["Anthony" := ["Bluff_City", "Kiowa", "Attica", "Harper"]])
  {
    var l0 := LineOf(["Anthony", "Bluff_City", "Kiowa", "Attica", "Harper"]);
    assert IsEntry(l0) && Node(l0) == "Anthony" && Neighbours(l0) == ["Bluff_City", "Kiowa", "Attica", "Harper"] by {
      ExampleNamesAreWords0();
      LineOfEntry(["Anthony", "Bluff_City", "Kiowa", "Attica", "Harper"]);
    }
    ParseAdjAppend([], l0, map[], "Anthony", ["Bluff_City", "Kiowa", "Attica", "Harper"]);
    assert [] + [l0] == [l0];
  }

  lemma ExamplePrefix2()
    ensures ParseAdj([
      LineOf(["Anthony", "Bluff_City", "Kiowa", "Attica", "Harper"]),
      LineOf(["Attica", "Medicine_Lodge"])
    ]) == Success(map["Anthony" := ["Bluff_City", "Kiowa", "Attica", "Harper"], "Attica" := ["Medicine_Lodge"]])
  {
    var l0, l1 := LineOf(["Anthony", "Bluff_City", "Kiowa", "Attica", "Harper"]), LineOf(["Attica", "Medicine_Lodge"]);
    assert IsEntry(l1) && Node(l1) == "Attica" && Neighbours(l1) == ["Medicine_Lodge"] by {
      ExampleNamesAreWords1();
      LineOfEntry(["Attica", "Medicine_Lodge"]);
    }
    ExamplePrefix1();
    ParseAdjAppendSecond(l0, l1, map["Anthony" := ["Bluff_City", "Kiowa", "Attica", "Harper"]], "Attica", ["Medicine_Lodge"]);
  }

  /** `ParseAdjAppend` for a second line after one. */
  lemma ParseAdjAppendSecond(l0: string, l1: string, adj: AdjacencyMap, k: string, v: seq<string>)
    requires ParseAdj([l0]) == Success(adj)
    requires IsEntry(l1) && Node(l1) == k && Neighbours(l1) == v
    ensures ParseAdj([l0, l1]) == Success(adj[k := v])
  {
    ParseAdjAppend([l0], l1, adj, k, v);
    assert [l0] + [l1] == [l0, l1];
  }

  /** The dictionary of the docstring (main.py:12-17) and of test.py:10-18.
      The input file is not shown there; these lines are reconstructed from
      the expected dictionary, one node per line with its neighbours after
      it, each ended by a line feed. */
  lemma ParseAdjExample()
    ensures ParseAdj([
      LineOf(["Anthony", "Bluff_City", "Kiowa", "Attica", "Harper"]),
      LineOf(["Attica", "Medicine_Lodge"]),
      LineOf(["Augusta", "Winfield", "Andover", "Leon", "Wichita"])
    ]) == Success(map[
      "Anthony" := ["Bluff_City", "Kiowa", "Attica", "Harper"],
      "Attica" := ["Medicine_Lodge"],
      "Augusta" := ["Winfield", "Andover", "Leon", "Wichita"]
    ])
  {
    var l2 := LineOf(["Augusta", "Winfield", "Andover", "Leon", "Wichita"]);
    assert IsEntry(l2) && Node(l2) == "Augusta" && Neighbours(l2) == ["Winfield", "Andover", "Leon", "Wichita"] by {
      ExampleNamesAreWords2();
      LineOfEntry(["Augusta", "Winfield", "Andover", "Leon", "Wichita"]);
    }
    ExamplePrefix2();
    ParseAdjAppendThird(LineOf(["Anthony", "Bluff_City", "Kiowa", "Attica", "Harper"]), LineOf(["Attica", "Medicine_Lodge"]), l2,
      map["Anthony" := ["Bluff_City", "Kiowa", "Attica", "Harper"], "Attica" := ["Medicine_Lodge"]],
      "Augusta", ["Winfield", "Andover", "Leon", "Wichita"]);
  }

  /** `ParseAdjAppend` for a third line after two. */
  lemma ParseAdjAppendThird(l0: string, l1: string, l2: string, adj: AdjacencyMap, k: string, v: seq<string>)
    requires ParseAdj([l0, l1]) == Success(adj)
    requires IsEntry(l2) && Node(l2) == k && Neighbours(l2) == v
    ensures ParseAdj([l0, l1, l2]) == Success(adj[k := v])
  {
    ParseAdjAppend([l0, l1], l2, adj, k, v);
    assert [l0, l1] + [l2] == [l0, l1, l2];
  }

  /** Last write wins: of two lines naming the same node, the later one
      decides that node's neighbours, and every other entry is as before. */
  lemma ParseAdjOverwrite(lines: seq<string>, adj: AdjacencyMap, l1: string, l2: string)
    requires ParseAdj(lines) == Success(adj)
    requires IsEntry(l1) && IsEntry(l2) && Node(l1) == Node(l2)
    ensures ParseAdj(lines + [l1, l2]) == Success(adj[Node(l2) := Neighbours(l2)])
  {
    var k := Node(l2);
    ParseAdjAppend(lines, l1, adj, k, Neighbours(l1));
    ParseAdjAppend(lines + [l1], l2, adj[k := Neighbours(l1)], k, Neighbours(l2));
    assert lines + [l1] + [l2] == lines + [l1, l2];
    assert adj[k := Neighbours(l1)][k := Neighbours(l2)] == adj[k := Neighbours(l2)];
  }

  /** The length filter drops a one-character line, so a last line holding
      a one-character name without a line feed is lost, while the same name
      followed by a line feed is stored with no neighbours. */
  lemma ParseAdjShortLastLine(lines: seq<string>, adj: AdjacencyMap, c: char)
    requires ParseAdj(lines) == Success(adj) && !IsSpace(c)
    ensures ParseAdj(lines + [[c]]) == Success(adj)
    ensures ParseAdj(lines + [[c] + "\n"]) == Success(adj[[c] := []])
  {
    assert (lines + [[c]])[..|lines|] == lines;
    assert IsWord([c]);
    assert LineOf([[c]]) == [c] + "\n";
    ParseAdjNodeAlone(lines, adj, [c]);
  }
}
