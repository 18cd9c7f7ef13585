/** `get_coord` (main.py:35-64): reads the coordinate table, one node per
    line as its name and two numbers, into a dictionary from name to the
    pair of numbers. Python's `float()` is not modelled: it is a parameter
    `toFloat` that either gives a number of type `F` or fails (ValueError). */
module Coordinates {
  import opened Results
  import opened PyStr
  import opened Lines

  /** The entry one kept line stores:
      `coord_dict[split_line[0]] = (float(split_line[1]), float(split_line[2]))`.
      Python evaluates the right-hand side first, left to right, so a
      missing second token, an unparsable second token, a missing third
      token and an unparsable third token are reported in that order, and
      tokens after the third are ignored. */
  function CoordRow<F>(toFloat: string -> Option<F>, ts: seq<string>): (r: Result<(string, (F, F)), ParseError>)
    ensures r.Success? <==> |ts| >= 3 && toFloat(ts[1]).Some? && toFloat(ts[2]).Some?
    ensures r.Success? ==> r.value == (ts[0], (toFloat(ts[1]).value, toFloat(ts[2]).value))
    ensures r.Failure? && r.error.ValueError? ==> |ts| >= 2 && r.error.token in ts[1..] && toFloat(r.error.token).None?
  {
    if |ts| < 2 then Failure(IndexError)
    else if toFloat(ts[1]).None? then Failure(ValueError(ts[1]))
    else if |ts| < 3 then Failure(IndexError)
    else if toFloat(ts[2]).None? then Failure(ValueError(ts[2]))
    else Success((ts[0], (toFloat(ts[1]).value, toFloat(ts[2]).value)))
  }

  function CoordRowOf<F>(toFloat: string -> Option<F>): seq<string> -> Result<(string, (F, F)), ParseError> {
    ts => CoordRow(toFloat, ts)
  }

  /** What `get_coord` returns for these lines, or the exception it raises. */
  function ParseCoord<F>(lines: seq<string>, toFloat: string -> Option<F>): Result<map<string, (F, F)>, ParseError> {
    Fold(lines, CoordRowOf(toFloat))
  }

  /** A kept line whose tokens make a complete entry. */
  predicate IsCoordLine<F>(line: string, toFloat: string -> Option<F>) {
    var ts := Tokens(line);
    Kept(line) && |ts| >= 3 && toFloat(ts[1]).Some? && toFloat(ts[2]).Some?
  }

  /** The loop of main.py:52-64, with the file's lines as input. */
  method GetCoord<F>(lines: seq<string>, toFloat: string -> Option<F>) returns (r: Result<map<string, (F, F)>, ParseError>)
    ensures r == ParseCoord(lines, toFloat)
  {
    var coord: map<string, (F, F)> := map[];
    var i := 0;
    while i < |lines|
      invariant i <= |lines|
      invariant Fold(lines[..i], CoordRowOf(toFloat)) == Success(coord)
    {
      var line := lines[i];
      assert lines[..i + 1][..i] == lines[..i];
      if |line| > 1 {
        var splitLine := Tokens(line);
        if |splitLine| < 2 {
          FoldFailurePersists(lines, i + 1, CoordRowOf(toFloat));
          return Failure(IndexError);
        }
        var longitude := toFloat(splitLine[1]);
        if longitude.None? {
          FoldFailurePersists(lines, i + 1, CoordRowOf(toFloat));
          return Failure(ValueError(splitLine[1]));
        }
        if |splitLine| < 3 {
          FoldFailurePersists(lines, i + 1, CoordRowOf(toFloat));
          return Failure(IndexError);
        }
        var latitude := toFloat(splitLine[2]);
        if latitude.None? {
          FoldFailurePersists(lines, i + 1, CoordRowOf(toFloat));
          return Failure(ValueError(splitLine[2]));
        }
        coord := coord[splitLine[0] := (longitude.value, latitude.value)];
      }
      i := i + 1;
    }
    assert lines[..i] == lines;
    r := Success(coord);
  }

  /** `get_coord` completes exactly when every kept line has at least three
      tokens whose second and third parse as numbers; otherwise it raises
      the error of the first line that does not. */
  lemma ParseCoordErrors<F>(lines: seq<string>, toFloat: string -> Option<F>)
    ensures ParseCoord(lines, toFloat).Success? <==>
      forall i :: 0 <= i < |lines| && Kept(lines[i]) ==> IsCoordLine(lines[i], toFloat)
    ensures ParseCoord(lines, toFloat).Failure? ==>
      exists k :: 0 <= k < |lines| && Kept(lines[k]) && !IsCoordLine(lines[k], toFloat)
        && CoordRow(toFloat, Tokens(lines[k])).error == ParseCoord(lines, toFloat).error
        && forall i :: 0 <= i < k && Kept(lines[i]) ==> IsCoordLine(lines[i], toFloat)
  {
    var row := CoordRowOf(toFloat);
    FoldErrors(lines, row);
    assert forall i :: 0 <= i < |lines| ==> (Fails(row, lines[i]) <==> Kept(lines[i]) && !IsCoordLine(lines[i], toFloat));
  }

  /** The dictionary `get_coord` returns: every kept line's first token is a
      key, every key is the first token of some line, and the value under a
      key is the parsed second and third tokens of the last line naming
      that node. */
  lemma ParseCoordEntries<F>(lines: seq<string>, toFloat: string -> Option<F>, coord: map<string, (F, F)>)
    requires ParseCoord(lines, toFloat) == Success(coord)
    ensures forall i :: 0 <= i < |lines| && Kept(lines[i]) ==> IsCoordLine(lines[i], toFloat) && Tokens(lines[i])[0] in coord
    ensures forall k :: k in coord ==> exists i :: 0 <= i < |lines| && Kept(lines[i]) && Tokens(lines[i]) != [] && Tokens(lines[i])[0] == k
    ensures forall i :: 0 <= i < |lines| && IsCoordLine(lines[i], toFloat) && LastCoordLine(lines, i, toFloat) ==>
      coord[Tokens(lines[i])[0]] == CoordEntry(lines[i], toFloat).1
  {
    var row := CoordRowOf(toFloat);
    ParseCoordErrors(lines, toFloat);
    FoldEntries(lines, row, coord);
    forall i | 0 <= i < |lines| && Kept(lines[i])
      ensures IsCoordLine(lines[i], toFloat) && Writes(row, lines[i])
      ensures Written(row, lines[i]) == CoordEntry(lines[i], toFloat)
    {
    }
    forall k | k in coord
      ensures exists i :: 0 <= i < |lines| && Kept(lines[i]) && Tokens(lines[i]) != [] && Tokens(lines[i])[0] == k
    {
      var i :| 0 <= i < |lines| && Writes(row, lines[i]) && Written(row, lines[i]).0 == k;
      assert Kept(lines[i]) && Tokens(lines[i]) != [];
    }
    forall i | 0 <= i < |lines| && IsCoordLine(lines[i], toFloat) && LastCoordLine(lines, i, toFloat)
      ensures coord[Tokens(lines[i])[0]] == CoordEntry(lines[i], toFloat).1
    {
      forall j | i < j < |lines| && Writes(row, lines[j])
        ensures Written(row, lines[j]).0 != Written(row, lines[i]).0
      {
        assert IsCoordLine(lines[j], toFloat);
      }
      assert LastWriter(row, lines, i, Written(row, lines[i]).0);
    }
  }

  /** The key and the pair of numbers a complete line stores. */
  function CoordEntry<F>(line: string, toFloat: string -> Option<F>): (string, (F, F))
    requires IsCoordLine(line, toFloat)
  {
    var ts := Tokens(line);
    (ts[0], (toFloat(ts[1]).value, toFloat(ts[2]).value))
  }

  /** No line after index `i` gives coordinates for the node of line `i`. */
  predicate LastCoordLine<F>(lines: seq<string>, i: nat, toFloat: string -> Option<F>)
    requires i < |lines| && IsCoordLine(lines[i], toFloat)
  {
    forall j :: i < j < |lines| && IsCoordLine(lines[j], toFloat) ==> Tokens(lines[j])[0] != Tokens(lines[i])[0]
  }

  /** One more complete line sets (or replaces) that node's coordinates and
      leaves every other entry as it was. */
  lemma ParseCoordAppend<F>(lines: seq<string>, line: string, toFloat: string -> Option<F>, coord: map<string, (F, F)>, k: string, v: (F, F))
    requires ParseCoord(lines, toFloat) == Success(coord)
    requires IsCoordLine(line, toFloat) && CoordEntry(line, toFloat) == (k, v)
    ensures ParseCoord(lines + [line], toFloat) == Success(coord[k := v])
  {
    assert (lines + [line])[..|lines|] == lines;
  }

  /** A line of a name and two numbers stores the name and the two parsed
      numbers. */
  lemma LineOfCoord<F>(tokens: seq<string>, toFloat: string -> Option<F>)
    requires AllWords(tokens) && |tokens| >= 3
    requires toFloat(tokens[1]).Some? && toFloat(tokens[2]).Some?
    ensures IsCoordLine(LineOf(tokens), toFloat)
    ensures CoordEntry(LineOf(tokens), toFloat) == (tokens[0], (toFloat(tokens[1]).value, toFloat(tokens[2]).value))
  {
    LineOfTokens(tokens);
  }

  /** A line with a name and only one more token fails: with ValueError
      when that token does not parse (the second token is converted before
      the third is looked up), with IndexError otherwise. */
  lemma ParseCoordErrorOrder<F>(name: string, token: string, toFloat: string -> Option<F>)
    requires IsWord(name) && IsWord(token)
    ensures ParseCoord([LineOf([name, token])], toFloat)
      == if toFloat(token).None? then Failure(ValueError(token)) else Failure(IndexError)
  {
    var line := LineOf([name, token]);
    assert AllWords([name, token]);
    LineOfTokens([name, token]);
    assert [line][..0] == [] && [line][0] == line;
    assert Kept(line) && Tokens(line) == [name, token];
    assert CoordRowOf(toFloat)(Tokens(line)) == CoordRow(toFloat, [name, token]);
    assert Fold([line][..0], CoordRowOf(toFloat)) == Success(map[]);
    assert CoordRow(toFloat, [name, token]).Failure?;
    assert Fold([line], CoordRowOf(toFloat)) == Failure(CoordRow(toFloat, [name, token]).error);
  }

  lemma CoordExampleTokens0()
    ensures AllWords(["Abilene", "38.9220277", "-97.2666667"])
  {
    assert IsWord("Abilene") && IsWord("38.9220277") && IsWord("-97.2666667");
  }

  lemma CoordExampleTokens1()
    ensures AllWords(["Andover", "37.6868403", "-97.1657752"])
  {
    assert IsWord("Andover") && IsWord("37.6868403") && IsWord("-97.1657752");
  }

  lemma CoordExampleTokens2()
    ensures AllWords(["Anthony", "37.1575168", "-98.0728946"])
  {
    assert IsWord("Anthony") && IsWord("37.1575168") && IsWord("-98.0728946");
  }

  lemma CoordExamplePrefix1<F>(toFloat: string -> Option<F>, x0: F, y0: F)
    requires toFloat("38.9220277") == Some(x0) && toFloat("-97.2666667") == Some(y0)
    ensures ParseCoord([LineOf(["Abilene", "38.9220277", "-97.2666667"])], toFloat) == Success(map["Abilene" := (x0, y0)])
  {
    var l0 := LineOf(["Abilene", "38.9220277", "-97.2666667"]);
    assert IsCoordLine(l0, toFloat) && CoordEntry(l0, toFloat) == ("Abilene", (x0, y0)) by {
      CoordExampleTokens0();
      LineOfCoord(["Abilene", "38.9220277", "-97.2666667"], toFloat);
    }
    ParseCoordAppend([], l0, toFloat, map[], "Abilene", (x0, y0));
    assert [] + [l0] == [l0];
  }

  lemma CoordExamplePrefix2<F>(toFloat: string -> Option<F>, x0: F, y0: F, x1: F, y1: F)
    requires toFloat("38.9220277") == Some(x0) && toFloat("-97.2666667") == Some(y0)
    requires toFloat("37.6868403") == Some(x1) && toFloat("-97.1657752") == Some(y1)
    ensures ParseCoord([
      LineOf(["Abilene", "38.9220277", "-97.2666667"]),
      LineOf(["Andover", "37.6868403", "-97.1657752"])
    ], toFloat) == Success(map["Abilene" := (x0, y0), "Andover" := (x1, y1)])
  {
    var l0, l1 := LineOf(["Abilene", "38.9220277", "-97.2666667"]), LineOf(["Andover", "37.6868403", "-97.1657752"]);
    CoordExamplePrefix1(toFloat, x0, y0);
    assert IsCoordLine(l1, toFloat) && CoordEntry(l1, toFloat) == ("Andover", (x1, y1)) by {
      CoordExampleTokens1();
      LineOfCoord(["Andover", "37.6868403", "-97.1657752"], toFloat);
    }
    ParseCoordAppendSecond(l0, l1, toFloat, map["Abilene" := (x0, y0)], "Andover", (x1, y1));
  }

  /** `ParseCoordAppend` for a second line after one. */
  lemma ParseCoordAppendSecond<F>(l0: string, l1: string, toFloat: string -> Option<F>, coord: map<string, (F, F)>, k: string, v: (F, F))
    requires ParseCoord([l0], toFloat) == Success(coord)
    requires IsCoordLine(l1, toFloat) && CoordEntry(l1, toFloat) == (k, v)
    ensures ParseCoord([l0, l1], toFloat) == Success(coord[k := v])
  {
    ParseCoordAppend([l0], l1, toFloat, coord, k, v);
    assert [l0] + [l1] == [l0, l1];
  }

  /** The expectation of test.py:20-30, for any `float()` that reads the six
      numbers of the expected dictionary as the given values. The input file
      is not shown there; these lines are reconstructed from the expected
      dictionary, a name and its two numbers per line, each ended by a line
      feed. */
  lemma ParseCoordExample<F>(toFloat: string -> Option<F>, x0: F, y0: F, x1: F, y1: F, x2: F, y2: F)
    requires toFloat("38.9220277") == Some(x0) && toFloat("-97.2666667") == Some(y0)
    requires toFloat("37.6868403") == Some(x1) && toFloat("-97.1657752") == Some(y1)
    requires toFloat("37.1575168") == Some(x2) && toFloat("-98.0728946") == Some(y2)
    ensures ParseCoord([
      LineOf(["Abilene", "38.9220277", "-97.2666667"]),
      LineOf(["Andover", "37.6868403", "-97.1657752"]),
      LineOf(["Anthony", "37.1575168", "-98.0728946"])
    ], toFloat) == Success(map["Abilene" := (x0, y0), "Andover" := (x1, y1), "Anthony" := (x2, y2)])
  {
    var l2 := LineOf(["Anthony", "37.1575168", "-98.0728946"]);
    CoordExamplePrefix2(toFloat, x0, y0, x1, y1);
    assert IsCoordLine(l2, toFloat) && CoordEntry(l2, toFloat) == ("Anthony", (x2, y2)) by {
      CoordExampleTokens2();
      LineOfCoord(["Anthony", "37.1575168", "-98.0728946"], toFloat);
    }
    ParseCoordAppendThird(LineOf(["Abilene", "38.9220277", "-97.2666667"]), LineOf(["Andover", "37.6868403", "-97.1657752"]), l2,
      toFloat, map["Abilene" := (x0, y0), "Andover" := (x1, y1)], "Anthony", (x2, y2));
  }

  /** `ParseCoordAppend` for a third line after two. */
  lemma ParseCoordAppendThird<F>(l0: string, l1: string, l2: string, toFloat: string -> Option<F>, coord: map<string, (F, F)>, k: string, v: (F, F))
    requires ParseCoord([l0, l1], toFloat) == Success(coord)
    requires IsCoordLine(l2, toFloat) && CoordEntry(l2, toFloat) == (k, v)
    ensures ParseCoord([l0, l1, l2], toFloat) == Success(coord[k := v])
  {
    ParseCoordAppend([l0, l1], l2, toFloat, coord, k, v);
    assert [l0, l1] + [l2] == [l0, l1, l2];
  }
}
