# Best-first path finding: the input parsers

This project models the two file parsers of `main.py` in the
best-first-path-finding repository and proves what they return.

- `get_adj` reads the adjacency list: one node per line, the node's name
  first and its neighbours' names after it. It returns a dictionary from
  name to the ordered list of neighbour names.
- `get_coord` reads the coordinate table: one node per line, its name and
  two numbers. It returns a dictionary from name to the pair of numbers.

Both run the same loop over the file's lines:

1. Start from an empty dictionary.
2. Skip every line of length 0 or 1.
3. Split every other line on whitespace.
4. Store one entry built from the tokens, so a later line for the same name
   replaces an earlier one.

Building the entry can raise an exception: `IndexError` when a token is
missing, and `ValueError` when `float()` rejects a token. The exception ends
the whole parse.

Modules:

- `Results` (results.dfy): the `Option` and `Result` datatypes.
- `PyStr` (pystr.dfy): the parts of Python's `str` that the parsers use.
  - `Tokens` is `str.split()` with no separator. Its whitespace set is the
    one Python's `str.isspace` uses.
  - `Strip` is `str.strip()`.
  - The lemmas prove that `split()` yields non-empty, whitespace-free
    tokens and that it drops exactly the whitespace.
  - They also prove that splitting words joined by spaces gives the words
    back, and that `strip()` leaves every token unchanged.
- `Lines` (lines.dfy): the shared loop as a specification function
  `Fold(lines, row)`. `row` builds the entry of one kept line or fails.
  The module proves, once for both parsers:
  - when the loop fails and with which error;
  - that short lines are ignored;
  - which keys the dictionary holds;
  - that the last line for a key decides its value.
- `Adjacency` (adjacency.dfy): `get_adj`.
  - `GetAdj` is the loop as a method, proved equal to `ParseAdj`.
  - The lemmas state the result in the parser's own terms: nodes,
    neighbours and the example of the docstring and the test.
- `Coordinates` (coordinates.dfy): `get_coord`.
  - `GetCoord` is the loop as a method, proved equal to `ParseCoord`.
  - Python's `float()` is not modelled. It is a parameter
    `toFloat: string -> Option<F>`, where `None` stands for `ValueError`.

The file is not opened here. Each parser receives the list of its lines as
`readlines()` returns them, each one usually ending in a line feed.

## Model

| member | source | states |
|---|---|---|
| PyStr.IsSpace | main.py:29 | the characters `split()` and `strip()` with no argument treat as whitespace: tab, line feed, vertical tab, form feed, carriage return, U+001C..U+001F, space, U+0085, U+00A0, U+1680, U+2000..U+200A, U+2028, U+2029, U+202F, U+205F and U+3000 |
| PyStr.Tokens | main.py:29 | `line.split()`: skips whitespace, and otherwise takes the leading word up to the next whitespace and continues after it; the lemmas below characterise it |
| PyStr.Strip | main.py:31 | `adj.strip()`: `rstrip()` applied to the result of `lstrip()` |
| PyStr.StripAll | main.py:31 | the comprehension `[adj.strip() for adj in ...]`: each element stripped, in order |
| PyStr.WordEnd | main.py:29 | the leading word of text that starts with a non-whitespace character ends at the first whitespace or at the end: the prefix is a non-empty run of non-whitespace, followed by whitespace or nothing |
| PyStr.WordEndUnique | main.py:29 | that boundary is the only whitespace-free prefix ending at whitespace or at the end |
| PyStr.TokensAreWords | main.py:29 | every token `split()` returns is non-empty and contains no whitespace |
| PyStr.TokensKeepNonSpace | main.py:29 | gluing the tokens back together gives exactly the non-whitespace characters of the line, in order: nothing but whitespace is dropped |
| PyStr.TokensAfterWord | main.py:29 | text made of a word and then nothing or whitespace splits into that word followed by the split of the rest |
| PyStr.TokensAfterSpace | main.py:29 | leading whitespace does not change the split |
| PyStr.TokensOfWord | main.py:29 | a single word splits into itself alone |
| PyStr.TokensOfJoin | main.py:29 | round trip: words joined by single spaces split back into the same words |
| PyStr.TokensOfJoinedLine | main.py:25-29 | a line of words joined by spaces and ended by a line feed splits back into those words |
| PyStr.TrimStart | main.py:31 | `lstrip()` returns a suffix of its input, what it cuts off is all whitespace, and the result does not start with whitespace |
| PyStr.TrimEnd | main.py:31 | `rstrip()` returns a prefix of its input, what it cuts off is all whitespace, and the result does not end with whitespace |
| PyStr.StripIsTrimmedSlice | main.py:31 | `strip()` returns a slice of its input whose cut-off ends are whitespace and whose own ends are not |
| PyStr.StripWord | main.py:31 | `strip()` leaves text without whitespace unchanged |
| PyStr.StripIdempotent | main.py:31 | applying `strip()` twice is the same as once |
| PyStr.StripAllWords | main.py:31 | stripping each token of a `split()` result changes nothing, so the comprehension copies the tokens |
| Lines.Kept | main.py:27 | `len(line) > 1`: the only test a line must pass to be split |
| Lines.Fold | main.py:21-33 | the loop shared by both parsers: from an empty dictionary, each kept line in order either stores the entry its tokens build or raises, and a raise ends the loop |
| Lines.LineOfTokens | main.py:25-29 | a line built from tokens splits back into them, and it passes the length filter whenever it has a token |
| Lines.FoldFailurePersists | main.py:25-31 | once a line raises, the lines after it do not change the outcome |
| Lines.FoldSkipsShortLine | main.py:27 | a line of length 0 or 1 has no effect, wherever it stands in the file |
| Lines.FoldErrors | main.py:25-31 | the loop completes if and only if no kept line fails, and a raised error is that of the first kept line that fails |
| Lines.FoldEntries | main.py:21-33 | after a completed loop, every writing line's key is in the dictionary, every key comes from some line, and a key's value is the one written by the last line with that key |
| Adjacency.AdjRow | main.py:29-31 | the entry of one kept line: no tokens gives IndexError (from `split_line[0]`); otherwise the key is token 0 and the value the other tokens, stripped, one per token |
| Adjacency.ParseAdj | main.py:21-33 | what `get_adj` returns for a list of lines: the shared loop with `AdjRow` as the entry of a line |
| Adjacency.GetAdj | main.py:5-33 | the loop returns exactly `ParseAdj` of the lines, including the IndexError of a whitespace-only kept line |
| Adjacency.AdjRowOfLine | main.py:29-31 | a kept line with a token stores its first token as the key and its remaining tokens, unchanged and in order, as the value |
| Adjacency.ParseAdjErrors | main.py:27-31 | `get_adj` raises if and only if some line longer than one character holds only whitespace, and the exception is then IndexError |
| Adjacency.ParseAdjEntries | main.py:21-33 | the keys are exactly the first tokens of the kept lines, each value is the neighbour list of the last line naming that node, and no neighbour name is empty or holds whitespace |
| Adjacency.ParseAdjAppend | main.py:25-31 | one more line naming a node sets or replaces that node's neighbours and leaves every other entry as it was |
| Adjacency.LineOfEntry | main.py:29-31 | a line listing a node and then its neighbours describes exactly that node and those neighbours |
| Adjacency.ParseAdjNodeAlone | main.py:31 | a line holding only a node's name stores that node with an empty neighbour list |
| Adjacency.ParseAdjExample | main.py:12-17 | the dictionary of the docstring (also expected at test.py:10-18) is exactly what `get_adj` returns for three lines reconstructed from it, one node and its neighbours per line, each ended by a line feed; the input file itself is not shown in the source |
| Adjacency.ParseAdjOverwrite | main.py:25-31 | last write wins: after any parsed lines, two more lines naming the same node leave that node with the later line's neighbours and every other entry as before |
| Adjacency.ParseAdjShortLastLine | main.py:27 | after any parsed lines, a last line holding a one-character name without a line feed is dropped by the length filter, while the same name followed by a line feed is stored with no neighbours |
| Coordinates.CoordRow | main.py:60-62 | the entry of one kept line, in Python's evaluation order: a missing second token gives IndexError, an unconvertible second token ValueError, a missing third token IndexError, an unconvertible third token ValueError; it succeeds exactly when three tokens are there and the second and third convert, storing token 0 with the two converted values, and a ValueError always names an unconvertible token |
| Coordinates.ParseCoord | main.py:52-64 | what `get_coord` returns for a list of lines: the shared loop with `CoordRow` as the entry of a line |
| Coordinates.GetCoord | main.py:35-64 | the loop returns exactly `ParseCoord` of the lines, with each of its four error exits |
| Coordinates.ParseCoordErrors | main.py:58-62 | `get_coord` completes if and only if every kept line has at least three tokens whose second and third convert, and otherwise it raises the error of the first kept line that does not |
| Coordinates.ParseCoordEntries | main.py:52-64 | the keys are exactly the first tokens of the kept lines, and each value is the converted second and third tokens of the last line naming that node |
| Coordinates.ParseCoordAppend | main.py:56-62 | one more complete line sets or replaces that node's coordinates and leaves every other entry as it was |
| Coordinates.LineOfCoord | main.py:60-62 | a line of a name and two convertible numbers stores the name and the two converted numbers |
| Coordinates.ParseCoordErrorOrder | main.py:62 | a line with a name and only one more token raises ValueError when that token does not convert and IndexError otherwise, because the second token is converted before the third is looked up |
| Coordinates.ParseCoordExample | test.py:20-30 | the expected dictionary is exactly what `get_coord` returns for three lines reconstructed from it, a name and its two numbers per line, each ended by a line feed, for any `float()` that reads the six numbers as the given values; the test's input file itself is not shown in the source |

## Left out

- `get_best_first_path` is imported at test.py:2 and exercised at test.py:32-45, but main.py does not define it. It is not part of this model.
- `float()` is a parameter, because floating-point parsing and arithmetic are not modelled. The model fixes only when it is called and what its failure does.
- Coordinates.ParseCoordExample: does not prove that `float()` reads "38.9220277" and the other test numbers as the expected values. It assumes those values as parameters.
- `get_node_index_input` (main.py:66-83) is not modelled, because it is an interactive `input()`/`print` retry loop. It also never returns the index it reads.
- `main` (main.py:85-95) and the file-path constants (main.py:2-3) are not modelled, because they are console and file I/O glue.
- `open` and `readlines()` (main.py:23-25, 54-56) are not modelled, because they are file I/O. Each parser receives the list of lines instead. The errors `open` can raise and the newline translation of text mode are not modelled either.
- Adjacency.GetAdj: does not model the insertion order of the Python dictionary, because a Dafny `map` has no order.
- Coordinates.GetCoord: does not model the insertion order of the Python dictionary, because a Dafny `map` has no order. That order matters to the program: main.py:91 numbers the city menu by `enumerate(coord_dict.keys())`, but `main` is not part of this model.
- Adjacency.ParseAdjErrors: the exception is modelled without its message or a line number.
