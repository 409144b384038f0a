/** Parsing the output of `ps` into titles and rows. */
module Top {
  import opened Prelude
  import opened Words

  predicate IsCommandTitle(t: string) {
    t == "CMD" || t == "COMMAND" || t == "ARGS"
  }

  /** The position of the first command title, or the number of titles. */
  function CommandIndex(titles: seq<string>): (c: nat)
    ensures c <= |titles| && (c < |titles| ==> IsCommandTitle(titles[c]))
    ensures forall i :: 0 <= i < c ==> !IsCommandTitle(titles[i])
  {
    if titles == [] || IsCommandTitle(titles[0]) then 0 else 1 + CommandIndex(titles[1..])
  }

  /** The row has a command, which takes the rest of the line. */
  predicate Commanded(titles: seq<string>, fields: seq<string>) {
    CommandIndex(titles) < |titles| && |fields| > CommandIndex(titles)
  }

  /** How many titles get a value. */
  function Filled(titles: seq<string>, fields: seq<string>): (m: nat)
    ensures m <= |titles| && m <= |fields|
  {
    if Commanded(titles, fields) then CommandIndex(titles) + 1
    else if |fields| < |titles| then |fields| else |titles|
  }

  function Value(titles: seq<string>, fields: seq<string>, i: nat): string
    requires i < Filled(titles, fields)
  {
    if Commanded(titles, fields) && i == CommandIndex(titles) then Join(fields[i..]) else fields[i]
  }

  /** The last position below `m` with this title. */
  function LastAt(titles: seq<string>, title: string, m: nat): (r: Option<nat>)
    requires m <= |titles|
    ensures r.Some? ==> r.value < m && titles[r.value] == title && forall i :: r.value < i < m ==> titles[i] != title
    ensures r.None? ==> forall i :: 0 <= i < m ==> titles[i] != title
  {
    if m == 0 then None else if titles[m - 1] == title then Some(m - 1) else LastAt(titles, title, m - 1)
  }

  /** A cell goes by its title, so of several equal titles the last filled one counts. */
  function Cell(titles: seq<string>, fields: seq<string>, i: nat): string
    requires i < |titles|
  {
    match LastAt(titles, titles[i], Filled(titles, fields))
    case None => ""
    case Some(j) => Value(titles, fields, j)
  }

  function Row(titles: seq<string>, fields: seq<string>): seq<string> {
    seq(|titles|, i requires 0 <= i < |titles| => Cell(titles, fields, i))
  }

  /** `c` is the position of the first command title. */
  predicate FirstCommand(titles: seq<string>, c: nat) {
    && c < |titles| && titles[c] in {"CMD", "COMMAND", "ARGS"}
    && forall i :: 0 <= i < c ==> titles[i] !in {"CMD", "COMMAND", "ARGS"}
  }

  /** `j` is the last position with this title that has a value. */
  predicate LastWithTitle(titles: seq<string>, values: seq<string>, title: string, j: nat) {
    && j < |titles| && j < |values| && titles[j] == title
    && forall q :: j < q < |titles| && q < |values| ==> titles[q] != title
  }

  /** Values go by title: a cell has the last value of its title, or is empty if there is none. */
  ghost predicate Assigned(titles: seq<string>, values: seq<string>, row: seq<string>) {
    && |row| == |titles|
    && forall i :: 0 <= i < |titles| ==>
         && (forall j: nat :: LastWithTitle(titles, values, titles[i], j) ==> row[i] == values[j])
         && ((forall j: nat :: !LastWithTitle(titles, values, titles[i], j)) ==> row[i] == "")
  }

  /** The cells of a row, from the words of its line: if the command column is reached, it takes the
      remaining words, joined by single spaces; other columns take one word each. */
  ghost predicate CellsAre(titles: seq<string>, words: seq<string>, row: seq<string>) {
    && (forall c: nat :: FirstCommand(titles, c) && c < |words| ==> Assigned(titles, words[..c] + [Join(words[c..])], row))
    && ((forall c: nat :: FirstCommand(titles, c) ==> |words| <= c) ==> Assigned(titles, words, row))
  }

  /** One row per line that has a word, in order. */
  function Rows(titles: seq<string>, lines: seq<string>): seq<seq<string>> {
    if lines == [] then []
    else
      var last := lines[|lines| - 1];
      Rows(titles, lines[..|lines| - 1]) + (if Fields(last) == [] then [] else [Row(titles, Fields(last))])
  }

  /** The words of the lines that have any. */
  function WordsOf(lines: seq<string>): seq<seq<string>> {
    if lines == [] then []
    else
      var last := lines[|lines| - 1];
      WordsOf(lines[..|lines| - 1]) + (if Fields(last) == [] then [] else [Fields(last)])
  }

  /** One row per line that has a word, in order, with the words of the line in their cells. */
  ghost predicate TableIs(titles: seq<string>, rows: seq<seq<string>>, lines: seq<string>) {
    && |rows| == |WordsOf(lines)|
    && forall k :: 0 <= k < |rows| ==> CellsAre(titles, WordsOf(lines)[k], rows[k])
  }

  /** Row by row, the table has one cell per title, and its words are those of the lines it is meant to keep. */
  ghost predicate KeepsWords(titles: seq<string>, rows: seq<seq<string>>, lines: seq<string>) {
    && |rows| == |WordsOf(lines)|
    && forall k :: 0 <= k < |rows| ==>
         |rows[k]| == |titles| && Fields(Join(rows[k])) == Shown(titles, WordsOf(lines)[k])
  }

  /** The map holds the values of the first `k` filled titles. */
  ghost predicate MapsTo(pm: map<string, string>, titles: seq<string>, fields: seq<string>, k: nat) {
    k <= Filled(titles, fields) && forall t ::
      match LastAt(titles, t, k)
      case None => t !in pm
      case Some(j) => t in pm && pm[t] == Value(titles, fields, j)
  }

  lemma MapStep(pm: map<string, string>, titles: seq<string>, fields: seq<string>, k: nat)
    requires MapsTo(pm, titles, fields, k) && k < Filled(titles, fields)
    ensures MapsTo(pm[titles[k] := Value(titles, fields, k)], titles, fields, k + 1)
  {
  }

  method FillMap(titles: seq<string>, commandIndex: int, fields: seq<string>) returns (processMap: map<string, string>)
    requires commandIndex == if CommandIndex(titles) < |titles| then CommandIndex(titles) else -1
    ensures MapsTo(processMap, titles, fields, Filled(titles, fields))
  {
    processMap := map[];
    ghost var m := Filled(titles, fields);
    if commandIndex != -1 && |fields| > commandIndex {
      for i := 0 to commandIndex
        invariant MapsTo(processMap, titles, fields, i)
      {
        MapStep(processMap, titles, fields, i);
        processMap := processMap[titles[i] := fields[i]];
      }
      MapStep(processMap, titles, fields, commandIndex);
      processMap := processMap[titles[commandIndex] := Join(fields[commandIndex..])];
    } else {
      for i := 0 to |fields|
        invariant MapsTo(processMap, titles, fields, if i < m then i else m)
      {
        if i < |titles| {
          MapStep(processMap, titles, fields, i);
          processMap := processMap[titles[i] := fields[i]];
        }
      }
    }
  }

  method ParseRow(titles: seq<string>, commandIndex: int, fields: seq<string>) returns (process: seq<string>)
    requires commandIndex == if CommandIndex(titles) < |titles| then CommandIndex(titles) else -1
    ensures process == Row(titles, fields)
    ensures CellsAre(titles, fields, process)
    ensures forall i, j :: 0 <= i < j < |titles| && titles[i] == titles[j] ==> process[i] == process[j]
  {
    var processMap := FillMap(titles, commandIndex, fields);
    process := [];
    for i := 0 to |titles|
      invariant |process| == i && forall j :: 0 <= j < i ==> process[j] == Cell(titles, fields, j)
    {
      var value := if titles[i] in processMap then processMap[titles[i]] else "";
      process := process + [value];
    }
    assert process == Row(titles, fields);
    RowCellsAre(titles, fields);
    EqualTitles(titles, fields);
  }

  method ParseTopOutput(lines: seq<string>) returns (r: Option<(seq<string>, seq<seq<string>>)>)
    ensures r.None? <==> |lines| < 2 || Fields(lines[0]) == []
    ensures r.Some? ==> r.value == (Fields(lines[0]), Rows(Fields(lines[0]), lines[1..]))
    ensures r.Some? ==> TableIs(r.value.0, r.value.1, lines[1..])
    ensures r.Some? && FillableTitlesUnique(r.value.0) ==> KeepsWords(r.value.0, r.value.1, lines[1..])
  {
    if |lines| < 2 {
      return None;
    }
    var titles := Fields(lines[0]);
    if |titles| == 0 {
      return None;
    }
    var commandIndex := -1;
    for i := 0 to |titles|
      invariant commandIndex == -1 && forall j :: 0 <= j < i ==> !IsCommandTitle(titles[j])
    {
      if IsCommandTitle(titles[i]) {
        commandIndex := i;
        break;
      }
    }
    assert commandIndex == if CommandIndex(titles) < |titles| then CommandIndex(titles) else -1;
    var rest, processes := lines[1..], [];
    for i := 0 to |rest|
      invariant processes == Rows(titles, rest[..i])
    {
      assert rest[..i + 1][..i] == rest[..i];
      var line := Trim(rest[i]);
      FieldsTrim(rest[i]);
      if |line| == 0 {
        continue;
      }
      var fields := Fields(line);
      if |fields| == 0 {
        continue;
      }
      var process := ParseRow(titles, commandIndex, fields);
      processes := processes + [process];
    }
    assert rest[..|rest|] == rest;
    RowsAre(titles, rest);
    if FillableTitlesUnique(titles) {
      RowsKeepWords(titles, rest);
    }
    return Some((titles, processes));
  }

  lemma CommandPosition(titles: seq<string>)
    ensures CommandIndex(titles) < |titles| ==> FirstCommand(titles, CommandIndex(titles))
    ensures forall c: nat :: FirstCommand(titles, c) ==> c == CommandIndex(titles)
  {
  }

  /** The values of a row, by position. */
  function Values(titles: seq<string>, fields: seq<string>): seq<string> {
    if Commanded(titles, fields) then fields[..CommandIndex(titles)] + [Join(fields[CommandIndex(titles)..])] else fields
  }

  lemma CellIsLast(titles: seq<string>, fields: seq<string>, i: nat)
    requires i < |titles|
    ensures forall j: nat :: LastWithTitle(titles, Values(titles, fields), titles[i], j) ==> Cell(titles, fields, i) == Values(titles, fields)[j]
    ensures (forall j: nat :: !LastWithTitle(titles, Values(titles, fields), titles[i], j)) ==> Cell(titles, fields, i) == ""
  {
    var r := LastAt(titles, titles[i], Filled(titles, fields));
    if r.Some? {
      assert LastWithTitle(titles, Values(titles, fields), titles[i], r.value);
    }
  }

  lemma RowCellsAre(titles: seq<string>, fields: seq<string>)
    ensures CellsAre(titles, fields, Row(titles, fields))
  {
    CommandPosition(titles);
    forall i | 0 <= i < |titles|
      ensures forall j: nat :: LastWithTitle(titles, Values(titles, fields), titles[i], j) ==> Row(titles, fields)[i] == Values(titles, fields)[j]
      ensures (forall j: nat :: !LastWithTitle(titles, Values(titles, fields), titles[i], j)) ==> Row(titles, fields)[i] == ""
    {
      CellIsLast(titles, fields, i);
    }
    assert Assigned(titles, Values(titles, fields), Row(titles, fields));
  }

  lemma EqualTitles(titles: seq<string>, fields: seq<string>)
    ensures forall i, j :: 0 <= i < j < |titles| && titles[i] == titles[j] ==> Row(titles, fields)[i] == Row(titles, fields)[j]
  {
  }

  lemma {:induction false} RowsAre(titles: seq<string>, lines: seq<string>)
    ensures TableIs(titles, Rows(titles, lines), lines)
  {
    if lines != [] {
      RowsAre(titles, lines[..|lines| - 1]);
      RowCellsAre(titles, Fields(lines[|lines| - 1]));
    }
  }

  /** With no title repeated that can be filled, every value is in the cell of its own title: word i
      before the command column, the rest of the words in it, and nothing after them. */
  lemma UniqueCells(titles: seq<string>, words: seq<string>, row: seq<string>)
    requires CellsAre(titles, words, row)
    requires forall i, j :: 0 <= i < j < |titles| && titles[i] == titles[j] ==> exists c: nat :: c < i && FirstCommand(titles, c)
    ensures |row| == |titles|
    ensures forall c: nat :: FirstCommand(titles, c) && c < |words| ==>
      && (forall i :: 0 <= i < c ==> row[i] == words[i]) && row[c] == Join(words[c..])
      && (forall i :: c < i < |titles| ==> row[i] == "")
    ensures (forall c: nat :: FirstCommand(titles, c) ==> |words| <= c) ==>
      forall i :: 0 <= i < |titles| ==> row[i] == if i < |words| then words[i] else ""
  {
    CommandPosition(titles);
    var c := CommandIndex(titles);
    if c < |titles| && c < |words| {
      InPlace(titles, words[..c] + [Join(words[c..])], row);
    } else {
      InPlace(titles, words, row);
    }
  }

  lemma InPlace(titles: seq<string>, values: seq<string>, row: seq<string>)
    requires Assigned(titles, values, row) && (CommandIndex(titles) < |titles| ==> |values| <= CommandIndex(titles) + 1)
    requires forall i, j :: 0 <= i < j < |titles| && titles[i] == titles[j] ==> CommandIndex(titles) < i
    ensures forall i :: 0 <= i < |titles| ==> row[i] == if i < |values| then values[i] else ""
  {
    forall i | 0 <= i < |titles| ensures row[i] == if i < |values| then values[i] else "" {
      if i < |values| {
        assert LastWithTitle(titles, values, titles[i], i);
      }
    }
  }

  /** The words of the lines, line by line and without the blank ones. */
  lemma {:induction false} WordsOfParts(a: seq<string>, line: string, b: seq<string>)
    ensures WordsOf([]) == [] && WordsOf([line]) == if Fields(line) == [] then [] else [Fields(line)]
    ensures WordsOf(a + b) == WordsOf(a) + WordsOf(b)
    decreases |b|
  {
    assert [line][..0] == [];
    if b == [] {
      assert a + b == a;
    } else {
      var n, last := |b| - 1, b[|b| - 1];
      assert (a + b)[..|a| + n] == a + b[..n] && (a + b)[|a| + n] == last;
      WordsOfParts(a, line, b[..n]);
    }
  }

  /** The part of a line that the table is meant to keep: all of it if there is a command
      column, else one word per title. */
  function Shown(titles: seq<string>, fields: seq<string>): seq<string> {
    if CommandIndex(titles) < |titles| || |fields| <= |titles| then fields else fields[..|titles|]
  }

  /** No title that can be filled occurs again. */
  ghost predicate FillableTitlesUnique(titles: seq<string>) {
    forall i, j :: 0 <= i < j < |titles| && i <= CommandIndex(titles) ==> titles[i] != titles[j]
  }

  lemma CellOfUnique(titles: seq<string>, fields: seq<string>, i: nat)
    requires FillableTitlesUnique(titles) && i < |titles|
    ensures Cell(titles, fields, i) == if i < Filled(titles, fields) then Value(titles, fields, i) else ""
  {
  }

  lemma CommandRow(before: seq<string>, command: seq<string>, blanks: seq<string>)
    requires forall i :: 0 <= i < |before| ==> IsWord(before[i])
    requires forall i :: 0 <= i < |command| ==> IsWord(command[i])
    requires forall i :: 0 <= i < |blanks| ==> blanks[i] == ""
    ensures AllFields(before + ([Join(command)] + blanks)) == before + command
  {
    AllFieldsAppend(before, [Join(command)] + blanks);
    AllFieldsOfWords(before);
    FieldsThenBlanks(Join(command), blanks);
    JoinedWords(command);
  }

  lemma PlainRow(row: seq<string>, fields: seq<string>, m: nat)
    requires m <= |fields| && m <= |row| && forall i :: 0 <= i < |fields| ==> IsWord(fields[i])
    requires row[..m] == fields[..m] && forall i :: m <= i < |row| ==> row[i] == ""
    ensures AllFields(row) == fields[..m]
  {
    assert row == row[..m] + row[m..];
    AllFieldsAppend(row[..m], row[m..]);
    AllFieldsOfWords(fields[..m]);
    AllFieldsOfBlanks(row[m..]);
  }

  /** With unique titles, the words of a space-joined row are exactly the shown words of its line. */
  lemma RowKeepsFields(titles: seq<string>, fields: seq<string>)
    requires FillableTitlesUnique(titles)
    requires forall i :: 0 <= i < |fields| ==> IsWord(fields[i])
    ensures Fields(Join(Row(titles, fields))) == Shown(titles, fields)
  {
    FieldsOfJoin(Row(titles, fields));
    RowCells(titles, fields);
    if Commanded(titles, fields) {
      CommandedRow(titles, fields);
    } else {
      PlainRow(Row(titles, fields), fields, Filled(titles, fields));
    }
  }

  lemma RowCells(titles: seq<string>, fields: seq<string>)
    requires FillableTitlesUnique(titles)
    ensures forall i :: 0 <= i < |titles| ==>
      Row(titles, fields)[i] == if i < Filled(titles, fields) then Value(titles, fields, i) else ""
  {
    forall i | 0 <= i < |titles|
      ensures Row(titles, fields)[i] == if i < Filled(titles, fields) then Value(titles, fields, i) else ""
    {
      CellOfUnique(titles, fields, i);
    }
  }

  lemma CommandedRow(titles: seq<string>, fields: seq<string>)
    requires FillableTitlesUnique(titles) && Commanded(titles, fields)
    requires forall i :: 0 <= i < |fields| ==> IsWord(fields[i])
    ensures AllFields(Row(titles, fields)) == fields
  {
    var row, c := Row(titles, fields), CommandIndex(titles);
    RowCells(titles, fields);
    CommandRow(fields[..c], fields[c..], row[c + 1..]);
    assert row == fields[..c] + ([Join(fields[c..])] + row[c + 1..]);
    assert fields[..c] + fields[c..] == fields;
  }

  /** A line that tells the word at position `i` from all others. */
  function Marked(n: nat, i: nat): seq<string> {
    seq(n, k => if k == i then "x" else "y")
  }

  lemma {:induction false} FieldInCell(row: seq<string>, w: string) returns (k: nat)
    requires w in AllFields(row)
    ensures k < |row| && w in Fields(row[k])
  {
    if w in Fields(row[0]) {
      k := 0;
    } else {
      k := FieldInCell(row[1..], w);
      k := k + 1;
    }
  }

  lemma {:induction false} CellInFields(row: seq<string>, k: nat, w: string)
    requires k < |row| && w in Fields(row[k])
    ensures w in AllFields(row)
  {
    if k > 0 {
      CellInFields(row[1..], k - 1, w);
    }
  }

  lemma MarkedWords(n: nat, i: nat)
    ensures forall k :: 0 <= k < n ==> IsWord(Marked(n, i)[k])
  {
  }

  lemma MarkedValue(titles: seq<string>, i: nat, k: nat)
    requires i <= CommandIndex(titles) && i < |titles| && k < Filled(titles, Marked(|titles|, i))
    ensures "x" in Fields(Value(titles, Marked(|titles|, i), k)) <==> k == i
  {
    var fields := Marked(|titles|, i);
    MarkedWords(|titles|, i);
    if Commanded(titles, fields) && k == CommandIndex(titles) {
      MarkedTail(|titles|, i, k);
    } else {
      WordIsOneField(fields[k]);
    }
  }

  lemma MarkedTail(n: nat, i: nat, k: nat)
    requires i <= k < n
    ensures "x" in Fields(Join(Marked(n, i)[k..])) <==> k == i
  {
    var tail := Marked(n, i)[k..];
    MarkedWords(n, i);
    JoinedWords(tail);
    assert tail[0] == Marked(n, i)[k];
    assert forall q :: 0 <= q < |tail| ==> tail[q] == Marked(n, i)[k + q];
  }

  /** The last filled position of the title of a cell that shows the marked word is the marked one. */
  lemma ShownOnlyThere(titles: seq<string>, i: nat, k: nat)
    requires i <= CommandIndex(titles) && i < |titles| && k < |titles|
    ensures "x" in Fields(Cell(titles, Marked(|titles|, i), k)) <==>
            LastAt(titles, titles[k], Filled(titles, Marked(|titles|, i))) == Some(i)
  {
    var r := LastAt(titles, titles[k], Filled(titles, Marked(|titles|, i)));
    if r.Some? {
      MarkedValue(titles, i, r.value);
    }
  }

  lemma TwiceInConcatenation(a: seq<string>, b: seq<string>, w: string)
    requires w in a && w in b
    ensures exists p, q :: 0 <= p < q < |a + b| && (a + b)[p] == w && (a + b)[q] == w
  {
    var p :| 0 <= p < |a| && a[p] == w;
    var q :| 0 <= q < |b| && b[q] == w;
    assert (a + b)[p] == w && (a + b)[|a| + q] == w;
  }

  /** A word shown in two cells is a word that occurs twice. */
  lemma ShownTwice(row: seq<string>, i: nat, j: nat, w: string)
    requires i < j < |row| && w in Fields(row[i]) && w in Fields(row[j])
    ensures exists p, q :: 0 <= p < q < |AllFields(row)| && AllFields(row)[p] == w && AllFields(row)[q] == w
  {
    CellInFields(row[..j], i, w);
    CellInFields(row[j..], 0, w);
    AllFieldsAppend(row[..j], row[j..]);
    TwiceInConcatenation(AllFields(row[..j]), AllFields(row[j..]), w);
    assert row[..j] + row[j..] == row;
  }

  /** A marked word shown in two cells has been doubled. */
  lemma Doubled(row: seq<string>, n: nat, i: nat, a: nat, b: nat)
    requires a < b < |row| && "x" in Fields(row[a]) && "x" in Fields(row[b])
    ensures AllFields(row) != Marked(n, i)
  {
    ShownTwice(row, a, b, "x");
    var p, q :| 0 <= p < q < |AllFields(row)| && AllFields(row)[p] == "x" && AllFields(row)[q] == "x";
    if |AllFields(row)| == n {
      assert Marked(n, i)[p] == "y" || Marked(n, i)[q] == "y";
    }
  }

  /** A marked word shown in no cell has been lost. */
  lemma Lost(row: seq<string>, n: nat, i: nat)
    requires i < n && forall k :: 0 <= k < |row| ==> "x" !in Fields(row[k])
    ensures AllFields(row) != Marked(n, i)
  {
    assert Marked(n, i)[i] == "x";
    if "x" in AllFields(row) {
      var k := FieldInCell(row, "x");
    }
  }

  /** A repeated title loses or doubles a word of some line. */
  lemma RepeatedTitleBreaks(titles: seq<string>, i: nat, j: nat)
    requires i < j < |titles| && i <= CommandIndex(titles) && titles[i] == titles[j]
    ensures AllFields(Row(titles, Marked(|titles|, i))) != Marked(|titles|, i)
  {
    var n := |titles|;
    var row := Row(titles, Marked(n, i));
    ShownOnlyThere(titles, i, i);
    ShownOnlyThere(titles, i, j);
    if "x" in Fields(row[i]) {
      Doubled(row, n, i, i, j);
    } else {
      forall k | 0 <= k < n ensures "x" !in Fields(row[k]) {
        ShownOnlyThere(titles, i, k);
      }
      Lost(row, n, i);
    }
  }

  /** The table keeps the words of every line if and only if no fillable title is repeated. */
  lemma RoundTripExactly(titles: seq<string>)
    ensures FillableTitlesUnique(titles) <==>
      forall fields: seq<string> | (forall i :: 0 <= i < |fields| ==> IsWord(fields[i])) ::
        Fields(Join(Row(titles, fields))) == Shown(titles, fields)
  {
    if FillableTitlesUnique(titles) {
      forall fields: seq<string> | forall i :: 0 <= i < |fields| ==> IsWord(fields[i])
        ensures Fields(Join(Row(titles, fields))) == Shown(titles, fields)
      {
        RowKeepsFields(titles, fields);
      }
    } else {
      var i, j :| 0 <= i < j < |titles| && i <= CommandIndex(titles) && titles[i] == titles[j];
      RepeatedTitleBreaks(titles, i, j);
      MarkedWords(|titles|, i);
      FieldsOfJoin(Row(titles, Marked(|titles|, i)));
      assert Shown(titles, Marked(|titles|, i)) == Marked(|titles|, i);
    }
  }

  /** With unique titles, every line of the output is kept. */
  lemma {:induction false} RowsKeepWords(titles: seq<string>, lines: seq<string>)
    requires FillableTitlesUnique(titles)
    ensures KeepsWords(titles, Rows(titles, lines), lines)
  {
    if lines != [] {
      var last := lines[|lines| - 1];
      RowsKeepWords(titles, lines[..|lines| - 1]);
      FieldsAreWords(last);
      RowKeepsFields(titles, Fields(last));
    }
  }

  lemma OneLine(titles: seq<string>, fields: seq<string>)
    requires fields != [] && forall i :: 0 <= i < |fields| ==> IsWord(fields[i])
    ensures Rows(titles, [Join(fields)]) == [Row(titles, fields)] && WordsOf([Join(fields)]) == [fields]
  {
    JoinedWords(fields);
    var lines := [Join(fields)];
    assert lines[..0] == [];
    assert Rows(titles, lines[..0]) == [] && WordsOf(lines[..0]) == [];
  }

  /** The table keeps every output if and only if no fillable title is repeated. */
  lemma TableKeepsExactly(titles: seq<string>)
    ensures FillableTitlesUnique(titles) <==> forall lines :: KeepsWords(titles, Rows(titles, lines), lines)
  {
    if FillableTitlesUnique(titles) {
      forall lines ensures KeepsWords(titles, Rows(titles, lines), lines) {
        RowsKeepWords(titles, lines);
      }
    } else {
      var i, j :| 0 <= i < j < |titles| && i <= CommandIndex(titles) && titles[i] == titles[j];
      var fields := Marked(|titles|, i);
      RepeatedTitleBreaks(titles, i, j);
      MarkedWords(|titles|, i);
      FieldsOfJoin(Row(titles, fields));
      assert Shown(titles, fields) == fields;
      OneLine(titles, fields);
      assert Rows(titles, [Join(fields)])[0] == Row(titles, fields);
      assert !KeepsWords(titles, Rows(titles, [Join(fields)]), [Join(fields)]);
    }
  }
}
