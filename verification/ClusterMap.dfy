/** The cluster map of the configuration page: a list of editable rows, the text they are saved as, the
    text's way back into rows, and the form check. */
module ClusterMap {
  import opened Basics

  /** What a row's field can hold. A row that was just added has neither name. */
  datatype Name = Undefined | Null | Text(text: string)

  /** A deleted row stays in the list, so that the rows below it keep their places. */
  datatype Row = Row(origin: Name, current: Name, deleted: bool)

  // ----- Joining and splitting

  function Join(parts: seq<string>, sep: char): string {
    if parts == [] then ""
    else if |parts| == 1 then parts[0]
    else Join(parts[..|parts| - 1], sep) + [sep] + parts[|parts| - 1]
  }

  /** The library's `split` on one character: the empty text has one empty part. */
  function Split(text: string, sep: char): (parts: seq<string>)
    ensures |parts| >= 1
    ensures forall i :: 0 <= i < |parts| ==> sep !in parts[i]
  {
    if text == "" then [""]
    else
      var before, c := Split(text[..|text| - 1], sep), text[|text| - 1];
      if c == sep then before + [""]
      else before[..|before| - 1] + [before[|before| - 1] + [c]]
  }

  lemma {:induction false} SplitAppendsWord(text: string, word: string, sep: char)
    requires sep !in word
    ensures
      var before := Split(text, sep);
      Split(text + word, sep) == before[..|before| - 1] + [before[|before| - 1] + word]
  {
    var before := Split(text, sep);
    if word == "" {
      assert text + word == text && before[|before| - 1] + word == before[|before| - 1];
    } else {
      var n := |word| - 1;
      SplitAppendsWord(text, word[..n], sep);
      assert (text + word)[..|text + word| - 1] == text + word[..n];
      assert word[n] in word;
      assert before[|before| - 1] + word == before[|before| - 1] + word[..n] + [word[n]];
    }
  }

  /** Splitting undoes joining when no part holds the separator and there is a part. */
  lemma {:induction false} SplitOfJoin(parts: seq<string>, sep: char)
    requires |parts| >= 1 && forall i :: 0 <= i < |parts| ==> sep !in parts[i]
    ensures Split(Join(parts, sep), sep) == parts
  {
    var n := |parts| - 1;
    if n == 0 {
      SplitAppendsWord("", parts[0], sep);
      assert "" + parts[0] == parts[0];
    } else {
      SplitOfJoin(parts[..n], sep);
      SplitAppendsPart(Join(parts[..n], sep), parts[n], sep);
      assert parts == parts[..n] + [parts[n]];
    }
  }

  lemma SplitAppendsPart(text: string, word: string, sep: char)
    requires sep !in word
    ensures Split(text + [sep] + word, sep) == Split(text, sep) + [word]
  {
    var head := text + [sep];
    assert head[..|head| - 1] == text;
    assert Split(head, sep) == Split(text, sep) + [""];
    SplitAppendsWord(head, word, sep);
    assert "" + word == word;
  }

  /** Joining undoes splitting, always. */
  lemma {:induction false} JoinOfSplit(text: string, sep: char)
    ensures Join(Split(text, sep), sep) == text
  {
    if text != "" {
      var n := |text| - 1;
      var before, all := Split(text[..n], sep), Split(text, sep);
      JoinOfSplit(text[..n], sep);
      assert text == text[..n] + [text[n]];
      assert all[..|all| - 1] == if text[n] == sep then before else before[..|before| - 1];
    }
  }

  // ----- Rows and their text

  /** The rows that were not deleted. */
  function Live(rows: seq<Row>): seq<Row> {
    if rows == [] then []
    else Live(rows[..|rows| - 1]) + if rows[|rows| - 1].deleted then [] else [rows[|rows| - 1]]
  }

  /** A name in a text: a missing one is spelled out. */
  function Spelled(n: Name): string {
    match n
    case Undefined => "undefined"
    case Null => "null"
    case Text(t) => t
  }

  function Cell(r: Row): string {
    Spelled(r.origin) + ":" + Spelled(r.current)
  }

  function Cells(rows: seq<Row>): (cells: seq<string>)
    ensures |cells| == |rows| && forall i :: 0 <= i < |rows| ==> cells[i] == Cell(rows[i])
  {
    seq(|rows|, i requires 0 <= i < |rows| => Cell(rows[i]))
  }

  function TextOf(rows: seq<Row>): string {
    Join(Cells(rows), ',')
  }

  /** The text that is saved: the rows that were not deleted, in order. */
  function Printed(rows: seq<Row>): string {
    TextOf(Live(rows))
  }

  function ReadCell(cell: string): Row {
    var names := Split(cell, ':');
    Row(Text(names[0]), if |names| > 1 then Text(names[1]) else Undefined, false)
  }

  function Parsed(text: string): (rows: seq<Row>)
    ensures |rows| == |Split(text, ',')|
    ensures forall i :: 0 <= i < |rows| ==> rows[i] == ReadCell(Split(text, ',')[i])
  {
    var cells := Split(text, ',');
    seq(|cells|, i requires 0 <= i < |cells| => ReadCell(cells[i]))
  }

  // ----- The round trip

  predicate Free(n: Name) {
    n.Text? ==> ',' !in n.text && ':' !in n.text
  }

  /** No name of the rows holds a character that separates. */
  predicate AllFree(rows: seq<Row>) {
    forall i :: 0 <= i < |rows| ==> Free(rows[i].origin) && Free(rows[i].current)
  }

  predicate AllNamed(rows: seq<Row>) {
    forall i :: 0 <= i < |rows| ==> rows[i].origin.Text? && rows[i].current.Text?
  }

  function SpelledOut(r: Row): Row {
    Row(Text(Spelled(r.origin)), Text(Spelled(r.current)), false)
  }

  lemma CellIsRead(r: Row)
    requires Free(r.origin) && Free(r.current)
    ensures ',' !in Cell(r)
    ensures ReadCell(Cell(r)) == SpelledOut(r)
  {
    var names := [Spelled(r.origin), Spelled(r.current)];
    assert names[..1] == [names[0]];
    assert Join(names, ':') == Join(names[..1], ':') + [':'] + names[1] == Cell(r);
    SplitOfJoin(names, ':');
  }

  lemma {:induction false} PiecesAreFree(text: string, sep: char, other: char)
    requires other !in text
    ensures forall i :: 0 <= i < |Split(text, sep)| ==> other !in Split(text, sep)[i]
  {
    if text != "" {
      PiecesAreFree(text[..|text| - 1], sep, other);
      assert text[|text| - 1] in text;
    }
  }

  lemma ReadNamesAreFree(text: string)
    ensures AllFree(Parsed(text)) && forall i :: 0 <= i < |Parsed(text)| ==> Parsed(text)[i].origin.Text?
  {
    forall i | 0 <= i < |Parsed(text)| ensures Free(Parsed(text)[i].origin) && Free(Parsed(text)[i].current) {
      PiecesAreFree(Split(text, ',')[i], ':', ',');
    }
  }

  /** Rows whose names do not hold a separator come back with their names spelled out. */
  lemma ReadBack(rows: seq<Row>)
    requires rows != [] && AllFree(rows)
    ensures Split(TextOf(rows), ',') == Cells(rows)
    ensures |Parsed(TextOf(rows))| == |rows|
    ensures forall i :: 0 <= i < |rows| ==> Parsed(TextOf(rows))[i] == SpelledOut(rows[i])
  {
    forall i | 0 <= i < |rows|
      ensures ',' !in Cells(rows)[i] && ReadCell(Cells(rows)[i]) == SpelledOut(rows[i])
    {
      CellIsRead(rows[i]);
    }
    SplitOfJoin(Cells(rows), ',');
  }

  lemma {:induction false} LiveAreLive(rows: seq<Row>)
    ensures forall i :: 0 <= i < |Live(rows)| ==> !Live(rows)[i].deleted
  {
    if rows != [] {
      LiveAreLive(rows[..|rows| - 1]);
    }
  }

  /** The saved text reads back as the rows that were not deleted, in order, exactly when there is one and
      all names are texts without ',' and ':'. */
  lemma RoundTrip(rows: seq<Row>)
    ensures Parsed(Printed(rows)) == Live(rows) <==>
            Live(rows) != [] && AllNamed(Live(rows)) && AllFree(Live(rows))
  {
    LiveAreLive(rows);
    ReadNamesAreFree(Printed(rows));
    if Live(rows) != [] && AllFree(Live(rows)) {
      ReadBack(Live(rows));
      NamedIsSpelled(Live(rows), Parsed(Printed(rows)));
    }
  }

  lemma NamedIsSpelled(rows: seq<Row>, back: seq<Row>)
    requires |back| == |rows| && forall i :: 0 <= i < |rows| ==> back[i] == SpelledOut(rows[i]) && !rows[i].deleted
    ensures back == rows <==> AllNamed(rows)
  {
    assert AllNamed(rows) ==> forall i :: 0 <= i < |rows| ==> back[i] == rows[i];
    assert back == rows ==> forall i :: 0 <= i < |rows| ==> rows[i] == SpelledOut(rows[i]);
  }

  predicate OneColonEach(text: string) {
    var cells := Split(text, ',');
    forall i :: 0 <= i < |cells| ==> |Split(cells[i], ':')| == 2
  }

  /** A text that was loaded is saved unchanged exactly when each of its parts has one ':'. */
  lemma TextRoundTrip(text: string)
    ensures Printed(Parsed(text)) == text <==> OneColonEach(text)
  {
    AllLive(Parsed(text));
    CellsRewritten(text);
    SameText(Cells(Parsed(text)), Split(text, ','));
    JoinOfSplit(text, ',');
  }

  lemma CellsRewritten(text: string)
    ensures forall i :: 0 <= i < |Parsed(text)| ==> ',' !in Cells(Parsed(text))[i]
    ensures Cells(Parsed(text)) == Split(text, ',') <==> OneColonEach(text)
  {
    var rows, cells := Parsed(text), Split(text, ',');
    ReadNamesAreFree(text);
    forall i | 0 <= i < |rows|
      ensures ',' !in Cells(rows)[i] && (Cells(rows)[i] == cells[i] <==> |Split(cells[i], ':')| == 2)
    {
      CellIsRead(rows[i]);
      CellUnchanged(cells[i]);
    }
    assert Cells(rows) == cells <==> forall i :: 0 <= i < |cells| ==> Cells(rows)[i] == cells[i];
  }

  lemma SameText(a: seq<string>, b: seq<string>)
    requires |a| == |b| >= 1 && forall i :: 0 <= i < |a| ==> ',' !in a[i] && ',' !in b[i]
    ensures Join(a, ',') == Join(b, ',') <==> a == b
  {
    SplitOfJoin(a, ',');
    SplitOfJoin(b, ',');
  }

  lemma {:induction false} AllLive(rows: seq<Row>)
    requires forall i :: 0 <= i < |rows| ==> !rows[i].deleted
    ensures Live(rows) == rows
  {
    if rows != [] {
      AllLive(rows[..|rows| - 1]);
    }
  }

  lemma CellUnchanged(cell: string)
    ensures Cell(ReadCell(cell)) == cell <==> |Split(cell, ':')| == 2
  {
    var names := Split(cell, ':');
    JoinOfSplit(cell, ':');
    if |names| == 2 {
      assert names[..1] == [names[0]];
      assert Join(names, ':') == Join(names[..1], ':') + [':'] + names[1];
    } else {
      var r := ReadCell(cell);
      var two := [Spelled(r.origin), Spelled(r.current)];
      assert two[..1] == [two[0]];
      assert Join(two, ':') == Join(two[..1], ':') + [':'] + two[1] == Cell(r);
      SplitOfJoin(two, ':');
    }
  }

  /** The text that is saved has one part for each row that was not deleted, in order: its origin, a colon,
      and its target. */
  lemma SavedParts(rows: seq<Row>)
    requires Live(rows) != []
    requires forall r :: r in Live(rows) ==> r.origin.Text? && r.current.Text? && ',' !in r.origin.text && ',' !in r.current.text
    ensures var live, parts := Live(rows), Split(Printed(rows), ',');
            |parts| == |live| && forall i :: 0 <= i < |live| ==> parts[i] == live[i].origin.text + ":" + live[i].current.text
  {
    var live := Live(rows);
    forall i | 0 <= i < |live| ensures ',' !in Cells(live)[i] {
      assert live[i] in live;
    }
    SplitOfJoin(Cells(live), ',');
  }

  /** Exactly the rows that were not deleted are live. */
  lemma {:induction false} LiveExactly(rows: seq<Row>, r: Row)
    ensures r in Live(rows) <==> r in rows && !r.deleted
  {
    if rows != [] {
      LiveExactly(rows[..|rows| - 1], r);
      assert rows == rows[..|rows| - 1] + [rows[|rows| - 1]];
    }
  }

  // ----- The check

  datatype Answer = Incomplete | Repeated | Fine

  /** The name is a text that is not empty. */
  predicate Filled(n: Name) {
    n != Undefined && n != Null && n != Text("")
  }

  /** Every row has two names that are texts and not empty, and no two rows have one origin. */
  lemma ProperExactly(rows: seq<Row>)
    ensures Proper(rows) <==>
            && (forall i :: 0 <= i < |rows| ==> Filled(rows[i].origin) && Filled(rows[i].current))
            && (forall i, j :: 0 <= i < j < |rows| ==> rows[i].origin != rows[j].origin)
  {
    assert forall i :: 0 <= i < |rows| ==> (Complete(rows[i]) <==> Filled(rows[i].origin) && Filled(rows[i].current));
    assert forall i :: 0 <= i < |rows| ==> Origins(rows)[i] == rows[i].origin;
    if Distinct(Origins(rows)) {
      forall i, j | 0 <= i < j < |rows| ensures rows[i].origin != rows[j].origin {
        assert Origins(rows)[i] != Origins(rows)[j];
      }
    }
  }

  predicate Complete(r: Row) {
    r.origin.Text? && r.origin.text != "" && r.current.Text? && r.current.text != ""
  }

  function IncompleteRows(rows: seq<Row>): seq<Row> {
    if rows == [] then []
    else IncompleteRows(rows[..|rows| - 1]) + if Complete(rows[|rows| - 1]) then [] else [rows[|rows| - 1]]
  }

  function Origins(rows: seq<Row>): (names: seq<Name>)
    ensures |names| == |rows| && forall i :: 0 <= i < |rows| ==> names[i] == rows[i].origin
  {
    seq(|rows|, i requires 0 <= i < |rows| => rows[i].origin)
  }

  /** The form accepts the rows: the answer is never an error. */
  predicate Accepts(answers: seq<Answer>) {
    forall a :: a in answers ==> a == Fine
  }

  predicate AllComplete(rows: seq<Row>) {
    forall i :: 0 <= i < |rows| ==> Complete(rows[i])
  }

  /** What the form check asks of the rows that were not deleted. */
  predicate Proper(rows: seq<Row>) {
    Distinct(Origins(rows)) && AllComplete(rows)
  }

  /** With names that can be written and a row to save, acceptance is a property of the saved text alone:
      read back, it gives every origin once, with a target. */
  lemma AcceptedTextIsAFunction(rows: seq<Row>)
    requires Live(rows) != [] && AllNamed(Live(rows)) && AllFree(Live(rows))
    ensures Proper(Live(rows)) <==> Proper(Parsed(Printed(rows)))
  {
    RoundTrip(rows);
  }

  /** The rows as a table; of two rows with one origin the later one counts. */
  function Table(rows: seq<Row>): map<string, string>
    requires AllNamed(rows)
  {
    if rows == [] then map[]
    else
      var last := rows[|rows| - 1];
      Table(rows[..|rows| - 1])[last.origin.text := last.current.text]
  }

  /** The last row with an origin decides what the table says of it. */
  lemma {:induction false} TableHas(rows: seq<Row>, i: nat)
    requires AllNamed(rows) && i < |rows|
    requires forall j :: i < j < |rows| ==> rows[j].origin != rows[i].origin
    ensures rows[i].origin.text in Table(rows) && Table(rows)[rows[i].origin.text] == rows[i].current.text
  {
    if i < |rows| - 1 {
      TableHas(rows[..|rows| - 1], i);
    }
  }

  lemma {:induction false} TableOnly(rows: seq<Row>, name: string)
    requires AllNamed(rows) && name in Table(rows)
    ensures exists i :: 0 <= i < |rows| && rows[i].origin == Text(name)
  {
    if rows[|rows| - 1].origin.text != name {
      TableOnly(rows[..|rows| - 1], name);
      var i :| 0 <= i < |rows| - 1 && rows[..|rows| - 1][i].origin == Text(name);
      assert rows[i].origin == Text(name);
    }
  }

  /** The table has an entry for exactly the origins of the rows, each with its row's target. */
  predicate Tabulates(table: map<string, string>, rows: seq<Row>)
    requires AllNamed(rows)
  {
    && (forall i :: 0 <= i < |rows| ==>
         rows[i].origin.text in table && table[rows[i].origin.text] == rows[i].current.text)
    && (forall name :: name in table ==> exists i :: 0 <= i < |rows| && rows[i].origin == Text(name))
  }

  lemma TableTabulates(rows: seq<Row>)
    requires AllNamed(rows) && Distinct(Origins(rows))
    ensures Tabulates(Table(rows), rows)
  {
    forall i | 0 <= i < |rows|
      ensures rows[i].origin.text in Table(rows) && Table(rows)[rows[i].origin.text] == rows[i].current.text
    {
      forall j | i < j < |rows| ensures rows[j].origin != rows[i].origin {
        assert Origins(rows)[i] != Origins(rows)[j];
      }
      TableHas(rows, i);
    }
    forall name | name in Table(rows) ensures exists i :: 0 <= i < |rows| && rows[i].origin == Text(name) {
      TableOnly(rows, name);
    }
  }

  /** What an accepted form saves is read back as a table from each origin to its target. */
  lemma SavedTable(rows: seq<Row>)
    requires Proper(Live(rows)) && Live(rows) != [] && AllFree(Live(rows))
    ensures Parsed(Printed(rows)) == Live(rows) && AllNamed(Live(rows))
    ensures Tabulates(Table(Parsed(Printed(rows))), Live(rows))
  {
    assert forall i :: 0 <= i < |Live(rows)| ==> Complete(Live(rows)[i]);
    RoundTrip(rows);
    TableTabulates(Live(rows));
  }

  // ----- Deleted rows

  lemma {:induction false} LiveJoin(a: seq<Row>, b: seq<Row>)
    ensures Live(a + b) == Live(a) + Live(b)
  {
    if b == [] {
      assert a + b == a;
    } else {
      assert (a + b)[..|a + b| - 1] == a + b[..|b| - 1];
      LiveJoin(a, b[..|b| - 1]);
    }
  }

  /** Deleting by place is deleting from the list that the user sees. */
  lemma DeleteIsRemoval(rows: seq<Row>, i: nat)
    requires i < |rows|
    ensures
      var live, at := Live(rows), |Live(rows[..i])|;
      var after := Live(rows[i := rows[i].(deleted := true)]);
      if rows[i].deleted then after == live
      else at < |live| && live[at] == rows[i] && after == live[..at] + live[at + 1..]
  {
    LiveAround(rows, i, rows[i]);
    LiveAround(rows, i, rows[i].(deleted := true));
    CutOut(Live(rows[..i]), rows[i], Live(rows[i + 1..]));
  }

  lemma CutOut(a: seq<Row>, r: Row, b: seq<Row>)
    ensures var all := a + [r] + b; all[..|a|] + all[|a| + 1..] == a + [] + b && all[|a|] == r && a + [] + b == a + b
  {
  }

  lemma LiveAround(rows: seq<Row>, i: nat, r: Row)
    requires i < |rows|
    ensures Live(rows[i := r]) == Live(rows[..i]) + (if r.deleted then [] else [r]) + Live(rows[i + 1..])
    ensures rows[i := rows[i]] == rows
  {
    assert rows[i := r] == rows[..i] + [r] + rows[i + 1..];
    LiveJoin(rows[..i] + [r], rows[i + 1..]);
    LiveSnoc(rows[..i], r);
  }

  lemma LiveSnoc(rows: seq<Row>, r: Row)
    ensures Live(rows + [r]) == if r.deleted then Live(rows) else Live(rows) + [r]
  {
    assert (rows + [r])[..|rows|] == rows;
  }

  /** The text under construction: a comma before every row. */
  function WithComma(live: seq<Row>): string {
    if live == [] then "" else "," + TextOf(live)
  }

  lemma WithCommaSnoc(live: seq<Row>, r: Row)
    ensures WithComma(live + [r]) == WithComma(live) + "," + Cell(r)
  {
    JoinCell(live, r);
    Regroup(TextOf(live), Cell(r));
  }

  lemma SaveStep(rows: seq<Row>, i: nat)
    requires i < |rows|
    ensures WithComma(Live(rows[..i + 1])) ==
            if rows[i].deleted then WithComma(Live(rows[..i])) else WithComma(Live(rows[..i])) + "," + Cell(rows[i])
  {
    assert rows[..i + 1] == rows[..i] + [rows[i]];
    LiveSnoc(rows[..i], rows[i]);
    if !rows[i].deleted {
      WithCommaSnoc(Live(rows[..i]), rows[i]);
    }
  }

  lemma DropComma(live: seq<Row>)
    ensures var arrs := WithComma(live); (if |arrs| > 0 then arrs[1..] else arrs) == TextOf(live)
  {
    if live != [] {
      assert ("," + TextOf(live))[1..] == TextOf(live);
    }
  }

  lemma Regroup(text: string, cell: string)
    ensures "," + (text + "," + cell) == "," + text + "," + cell && "" + "," + cell == "," + cell
  {
  }

  lemma JoinCell(live: seq<Row>, r: Row)
    ensures TextOf(live + [r]) == if live == [] then Cell(r) else TextOf(live) + "," + Cell(r)
  {
    var cells := Cells(live + [r]);
    assert cells[..|live|] == Cells(live) && cells[|live|] == Cell(r);
  }

  // ----- The page

  class ConfigPage {
    var clusterMapData: seq<Row>

    constructor ()
      ensures clusterMapData == []
    {
      clusterMapData := [];
    }

    /** Loads the rows from a saved text; without one the rows stay. */
    method LoadClusterMap(currentValue: Option<string>)
      modifies this
      ensures clusterMapData == if currentValue.None? then old(clusterMapData) else Parsed(currentValue.value)
    {
      if currentValue.None? {
        return;
      }
      clusterMapData := [];
      var values := Split(currentValue.value, ',');
      for i := 0 to |values|
        invariant clusterMapData == Parsed(currentValue.value)[..i]
      {
        var names := Split(values[i], ':');
        var originCluster := Text(names[0]);
        var currentCluster := if |names| > 1 then Text(names[1]) else Undefined;
        clusterMapData := clusterMapData + [Row(originCluster, currentCluster, false)];
      }
    }

    method RemoveClusterMap(index: nat)
      requires index < |clusterMapData|
      modifies this
      ensures clusterMapData == old(clusterMapData)[index := old(clusterMapData)[index].(deleted := true)]
      ensures
        var before, at := old(Live(clusterMapData)), |Live(old(clusterMapData)[..index])|;
        if old(clusterMapData)[index].deleted then Live(clusterMapData) == before
        else at < |before| && Live(clusterMapData) == before[..at] + before[at + 1..]
    {
      DeleteIsRemoval(clusterMapData, index);
      clusterMapData := clusterMapData[index := clusterMapData[index].(deleted := true)];
    }

    method AddClusterMap()
      modifies this
      ensures clusterMapData == old(clusterMapData) + [Row(Undefined, Undefined, false)]
      ensures Live(clusterMapData) == old(Live(clusterMapData)) + [Row(Undefined, Undefined, false)]
    {
      LiveSnoc(clusterMapData, Row(Undefined, Undefined, false));
      clusterMapData := clusterMapData + [Row(Undefined, Undefined, false)];
    }

    /** Another environment is chosen: all origins are cleared, those of deleted rows too. */
    method RadioChange()
      modifies this
      ensures |clusterMapData| == |old(clusterMapData)|
      ensures forall i :: 0 <= i < |clusterMapData| ==> clusterMapData[i] == old(clusterMapData)[i].(origin := Null)
    {
      for i := 0 to |clusterMapData|
        invariant |clusterMapData| == |old(clusterMapData)|
        invariant forall j :: 0 <= j < i ==> clusterMapData[j] == old(clusterMapData)[j].(origin := Null)
        invariant forall j :: i <= j < |clusterMapData| ==> clusterMapData[j] == old(clusterMapData)[j]
      {
        clusterMapData := clusterMapData[i := clusterMapData[i].(origin := Null)];
      }
    }

    /** The text to save, built with a comma before every row; the first comma is then dropped. */
    method Save() returns (text: string)
      ensures text == Printed(clusterMapData)
    {
      var arrs := "";
      for i := 0 to |clusterMapData|
        invariant arrs == WithComma(Live(clusterMapData[..i]))
      {
        var row := clusterMapData[i];
        SaveStep(clusterMapData, i);
        if row.deleted {
          continue;
        }
        arrs := arrs + "," + (Spelled(row.origin) + ":" + Spelled(row.current));
      }
      assert clusterMapData[..|clusterMapData|] == clusterMapData;
      DropComma(Live(clusterMapData));
      text := if |arrs| > 0 then arrs[1..] else arrs;
    }

    /** The form check. It may answer several times; each answer but `Fine` is an error. */
    method CheckClusterMap() returns (answers: seq<Answer>)
      ensures Accepts(answers) <==> Proper(Live(clusterMapData))
      ensures |answers| == |IncompleteRows(Live(clusterMapData))| + 1
      ensures |answers| >= 1 && forall i :: 0 <= i < |answers| - 1 ==> answers[i] == Incomplete
      ensures answers[|answers| - 1] == if Distinct(Origins(Live(clusterMapData))) then Fine else Repeated
    {
      var live := Live(clusterMapData);
      var clusterSet;
      answers, clusterSet := ExamineRows(live);
      IncompleteOrNot(live);
      DistinctBySize(Origins(live));
      if |clusterSet| != |live| {
        answers := answers + [Repeated];
      } else {
        answers := answers + [Fine];
      }
      assert answers[|answers| - 1] in answers;
      assert |answers| > 1 ==> answers[0] in answers;
    }

    /** The loop of the check: one answer for each incomplete row, and the set of the origins. */
    method ExamineRows(live: seq<Row>) returns (answers: seq<Answer>, clusterSet: set<Name>)
      ensures |answers| == |IncompleteRows(live)| && forall k :: 0 <= k < |answers| ==> answers[k] == Incomplete
      ensures clusterSet == SetOf(Origins(live))
    {
      answers, clusterSet := [], {};
      for i := 0 to |live|
        invariant forall k :: 0 <= k < |answers| ==> answers[k] == Incomplete
        invariant |answers| == |IncompleteRows(live[..i])|
        invariant clusterSet == SetOf(Origins(live)[..i])
      {
        assert live[..i + 1][..i] == live[..i];
        if !Complete(live[i]) {
          answers := answers + [Incomplete];
        }
        assert Origins(live)[..i + 1] == Origins(live)[..i] + [live[i].origin];
        clusterSet := clusterSet + {live[i].origin};
      }
      assert Origins(live)[..|live|] == Origins(live) && live[..|live|] == live;
    }
  }

  lemma {:induction false} IncompleteOrNot(rows: seq<Row>)
    ensures IncompleteRows(rows) == [] <==> AllComplete(rows)
  {
    if rows != [] {
      var n := |rows| - 1;
      IncompleteOrNot(rows[..n]);
      if AllComplete(rows) {
        assert Complete(rows[n]);
        forall i | 0 <= i < n ensures Complete(rows[..n][i]) { assert Complete(rows[i]); }
      }
    }
  }

  /** The page accepts a map whose rows have all been deleted, for the test that should refuse it compares
      a list with 0; saved and read back, that map is one row with an empty origin and no target, which
      the page would refuse. */
  lemma EmptyMapIsAccepted(rows: seq<Row>)
    requires Live(rows) == []
    ensures Proper(Live(rows)) && Printed(rows) == ""
    ensures Parsed(Printed(rows)) == [Row(Text(""), Undefined, false)] && !Proper(Parsed(Printed(rows)))
  {
    var back := Parsed("");
    assert Split("", ':') == [""];
    assert back == [Row(Text(""), Undefined, false)] && !Complete(back[0]);
  }
}
