/**
 The JSONL staging file of the K150K extractor.

 A file is a sequence of pieces: the whole text of one row's JSON object, a
 non-empty proper prefix of such a text (left by a crash), or a newline.  A
 line parses exactly when it is one whole object.  That is all the model needs
 to know of JSON: a proper prefix of an object is not a JSON text, and neither
 is an object glued to anything else (RFC 8259, sections 2 and 4).
 */
module StagingLog {
  type Name = string

  /** One extracted row; `payload` stands for its feature columns. */
  datatype Row = Row(clip: Name, payload: int)

  datatype Piece = Object(row: Row) | Cut | Newline

  type Line = seq<Piece>

  type Text = seq<Piece>

  function Names(rows: seq<Row>): set<Name> {
    set row | row in rows :: row.clip
  }

  lemma NamesSnoc(rows: seq<Row>, row: Row)
    ensures Names(rows + [row]) == Names(rows) + {row.clip}
  {}

  // ----- Splitting and parsing

  datatype Pages = Pages(closed: seq<Line>, tail: Line)

  /** The newline-terminated lines of a file, and what follows the last newline. */
  function Split(text: Text): Pages {
    if text == [] then Pages([], [])
    else
      var before := Split(text[..|text| - 1]);
      var piece := text[|text| - 1];
      if piece.Newline? then Pages(before.closed + [before.tail], [])
      else before.(tail := before.tail + [piece])
  }

  /** The lines a reader of the file iterates over. */
  function FileLines(text: Text): seq<Line> {
    var pages := Split(text);
    if pages.tail == [] then pages.closed else pages.closed + [pages.tail]
  }

  predicate Parses(line: Line) {
    |line| == 1 && line[0].Object?
  }

  /** The rows whose whole object text occurs among some pieces, in order. */
  function Objects(pieces: seq<Piece>): seq<Row> {
    if pieces == [] then []
    else
      var before := Objects(pieces[..|pieces| - 1]);
      var piece := pieces[|pieces| - 1];
      if piece.Object? then before + [piece.row] else before
  }

  function ParsedRows(lines: seq<Line>): seq<Row> {
    if lines == [] then []
    else
      var before := ParsedRows(lines[..|lines| - 1]);
      var line := lines[|lines| - 1];
      if Parses(line) then before + [line[0].row] else before
  }

  /** The rows written in full to a line that nevertheless does not parse. */
  function SpoiledRows(lines: seq<Line>): seq<Row> {
    if lines == [] then []
    else
      var before := SpoiledRows(lines[..|lines| - 1]);
      var line := lines[|lines| - 1];
      if Parses(line) then before else before + Objects(line)
  }

  function MalformedLines(lines: seq<Line>): nat {
    if lines == [] then 0
    else
      var line := lines[|lines| - 1];
      MalformedLines(lines[..|lines| - 1]) + if line == [] || Parses(line) then 0 else 1
  }

  function Load(text: Text): seq<Row> {
    ParsedRows(FileLines(text))
  }

  function Spoiled(text: Text): seq<Row> {
    SpoiledRows(FileLines(text))
  }

  /** The clips whose row was written in full, readable or not. */
  function Written(text: Text): set<Name> {
    set piece | piece in text && piece.Object? :: piece.row.clip
  }

  /** The non-blank lines among the first n that are not one whole object. */
  function MalformedAt(lines: seq<Line>, n: nat): set<nat>
    requires n <= |lines|
  {
    set i: nat | i < n && lines[i] != [] && !Parses(lines[i])
  }

  lemma NextMalformed(lines: seq<Line>, n: nat)
    requires n < |lines|
    ensures MalformedAt(lines, n + 1) ==
            if lines[n] == [] || Parses(lines[n]) then MalformedAt(lines, n) else MalformedAt(lines, n) + {n}
  {}

  lemma NextCount(lines: seq<Line>, n: nat)
    requires n < |lines|
    ensures MalformedLines(lines[..n + 1]) ==
            MalformedLines(lines[..n]) + if lines[n] == [] || Parses(lines[n]) then 0 else 1
  {
    assert lines[..n + 1][..n] == lines[..n];
  }

  /** Those are the lines that are skipped. */
  lemma {:induction false} MalformedLinesAre(lines: seq<Line>, n: nat)
    requires n <= |lines|
    ensures MalformedLines(lines[..n]) == |MalformedAt(lines, n)|
  {
    if n > 0 {
      MalformedLinesAre(lines, n - 1);
      NextMalformed(lines, n - 1);
      NextCount(lines, n - 1);
    }
  }

  /** Reading the file back, line by line, skipping what does not parse. */
  method LoadStagingRows(text: Text) returns (rows: seq<Row>, skipped: nat)
    ensures rows == Load(text)
    ensures skipped == MalformedLines(FileLines(text))
  {
    rows, skipped := [], 0;
    var lines := FileLines(text);
    for i := 0 to |lines|
      invariant rows == ParsedRows(lines[..i])
      invariant skipped == MalformedLines(lines[..i])
    {
      assert lines[..i + 1][..i] == lines[..i];
      if lines[i] == [] {
        continue;
      }
      if Parses(lines[i]) {
        rows := rows + [lines[i][0].row];
      } else {
        skipped := skipped + 1;
      }
    }
    assert lines[..|lines|] == lines;
  }

  // ----- Writes

  function AppendRow(text: Text, row: Row): Text {
    text + [Object(row), Newline]
  }

  lemma SplitSnoc(text: Text, piece: Piece)
    ensures var before := Split(text);
            Split(text + [piece]) ==
            if piece.Newline? then Pages(before.closed + [before.tail], [])
            else before.(tail := before.tail + [piece])
  {}

  lemma ObjectsSnoc(pieces: seq<Piece>, piece: Piece)
    ensures Objects(pieces + [piece]) ==
            if piece.Object? then Objects(pieces) + [piece.row] else Objects(pieces)
  {}

  lemma LinesSnoc(lines: seq<Line>, line: Line)
    ensures ParsedRows(lines + [line]) ==
            ParsedRows(lines) + if Parses(line) then [line[0].row] else []
    ensures SpoiledRows(lines + [line]) ==
            SpoiledRows(lines) + if Parses(line) then [] else Objects(line)
  {}

  lemma SplitAppend(text: Text, row: Row)
    ensures var before := Split(text);
            Split(AppendRow(text, row)) == Pages(before.closed + [before.tail + [Object(row)]], [])
  {
    SplitSnoc(text, Object(row));
    SplitSnoc(text + [Object(row)], Newline);
    assert text + [Object(row)] + [Newline] == AppendRow(text, row);
  }

  lemma ReadingOfSplit(text: Text)
    ensures var pages := Split(text);
            && Load(text) == ParsedRows(pages.closed) + (if Parses(pages.tail) then [pages.tail[0].row] else [])
            && Spoiled(text) == SpoiledRows(pages.closed) + (if Parses(pages.tail) then [] else Objects(pages.tail))
  {}

  /** Appending to a file that ends with a newline adds exactly that row. */
  lemma AppendToCleanTail(text: Text, row: Row)
    requires Split(text).tail == []
    ensures Load(AppendRow(text, row)) == Load(text) + [row]
    ensures Spoiled(AppendRow(text, row)) == Spoiled(text)
    ensures Split(AppendRow(text, row)).tail == []
  {
    SplitAppend(text, row);
    LinesSnoc(Split(text).closed, [Object(row)]);
  }

  /**
   Appending after a torn line loses the new row and whatever stood on the
   torn line, and no row of an earlier line.
   */
  lemma AppendToTornTail(text: Text, row: Row)
    requires Split(text).tail != []
    ensures Load(AppendRow(text, row)) == ParsedRows(Split(text).closed)
    ensures Spoiled(AppendRow(text, row)) ==
            SpoiledRows(Split(text).closed) + (Objects(Split(text).tail) + [row])
    ensures Split(AppendRow(text, row)).tail == []
  {
    var pages := Split(text);
    var line := pages.tail + [Object(row)];
    SplitAppend(text, row);
    LinesSnoc(pages.closed, line);
    ObjectsSnoc(pages.tail, Object(row));
    assert !Parses(line);
  }

  // ----- What a reader recovers

  predicate Subsequence(rows: seq<Row>, all: seq<Row>) {
    if rows == [] then true
    else if all == [] then false
    else
      || (rows[|rows| - 1] == all[|all| - 1] && Subsequence(rows[..|rows| - 1], all[..|all| - 1]))
      || Subsequence(rows, all[..|all| - 1])
  }

  lemma {:induction false} SubsequenceExtend(rows: seq<Row>, all: seq<Row>, more: seq<Row>)
    requires Subsequence(rows, all)
    ensures Subsequence(rows, all + more)
  {
    if more == [] {
      assert all + more == all;
    } else {
      SubsequenceExtend(rows, all, more[..|more| - 1]);
      assert (all + more)[..|all + more| - 1] == all + more[..|more| - 1];
    }
  }

  /** `all` lists, in order, the rows parsed from `lines` and the spoiled ones. */
  ghost predicate Accounts(all: seq<Row>, lines: seq<Line>) {
    && Subsequence(ParsedRows(lines), all)
    && multiset(all) == multiset(ParsedRows(lines)) + multiset(SpoiledRows(lines))
  }

  lemma AccountsParsed(all: seq<Row>, lines: seq<Line>, line: Line)
    requires Accounts(all, lines) && Parses(line)
    ensures Accounts(all + Objects(line), lines + [line])
  {}

  lemma AccountsSpoiled(all: seq<Row>, lines: seq<Line>, line: Line)
    requires Accounts(all, lines) && !Parses(line)
    ensures Accounts(all + Objects(line), lines + [line])
  {
    var rows, spoiled, more := ParsedRows(lines), SpoiledRows(lines), Objects(line);
    LinesSnoc(lines, line);
    assert rows + [] == rows;
    SubsequenceExtend(rows, all, more);
    assert multiset(all + more) == multiset(rows) + multiset(spoiled + more);
  }

  lemma AccountsSnoc(all: seq<Row>, lines: seq<Line>, line: Line)
    requires Accounts(all, lines)
    ensures Accounts(all + Objects(line), lines + [line])
  {
    if Parses(line) {
      AccountsParsed(all, lines, line);
    } else {
      AccountsSpoiled(all, lines, line);
    }
  }

  lemma {:induction false} ObjectsOfSplit(text: Text) returns (closed: seq<Row>)
    ensures Objects(text) == closed + Objects(Split(text).tail)
    ensures Accounts(closed, Split(text).closed)
  {
    if text == [] {
      closed := [];
    } else {
      var before, piece := text[..|text| - 1], text[|text| - 1];
      assert before + [piece] == text;
      var pages := Split(before);
      closed := ObjectsOfSplit(before);
      ObjectsSnoc(before, piece);
      if piece.Newline? {
        AccountsSnoc(closed, pages.closed, pages.tail);
        closed := closed + Objects(pages.tail);
        assert Objects(Split(text).tail) == [];
      } else {
        ObjectsSnoc(pages.tail, piece);
      }
    }
  }

  /**
   What a reload yields: the rows written in full, in the order they were
   written, without exactly the spoiled ones.
   */
  lemma LoadIsUnspoiledInOrder(text: Text)
    ensures Subsequence(Load(text), Objects(text))
    ensures multiset(Objects(text)) == multiset(Load(text)) + multiset(Spoiled(text))
  {
    var pages := Split(text);
    var closed := ObjectsOfSplit(text);
    AccountsSnoc(closed, pages.closed, pages.tail);
    LinesSnoc(pages.closed, pages.tail);
    ReadingOfSplit(text);
  }

  lemma {:induction false} ObjectsAreWritten(text: Text)
    ensures Names(Objects(text)) == Written(text)
  {
    if text != [] {
      var before, piece := text[..|text| - 1], text[|text| - 1];
      assert before + [piece] == text;
      ObjectsAreWritten(before);
      if piece.Object? {
        assert Objects(text) == Objects(before) + [piece.row];
        assert Written(text) == Written(before) + {piece.row.clip};
        assert Names(Objects(text)) == Names(Objects(before)) + {piece.row.clip};
      } else {
        assert Written(text) == Written(before);
      }
    }
  }

  lemma WrittenIsLoadedOrSpoiled(text: Text)
    ensures Written(text) == Names(Load(text)) + Names(Spoiled(text))
  {
    ObjectsAreWritten(text);
    LoadIsUnspoiledInOrder(text);
    assert forall row :: row in Objects(text) <==> row in multiset(Objects(text));
    assert forall row :: row in Load(text) <==> row in multiset(Load(text));
    assert forall row :: row in Spoiled(text) <==> row in multiset(Spoiled(text));
  }

  // ----- How much a torn write can spoil

  /**
   The rows already spoiled on closed lines, plus those the next append would
   spoil: the objects on the torn line and the appended row itself.
   */
  function Debt(text: Text): nat {
    var pages := Split(text);
    |SpoiledRows(pages.closed)| + if pages.tail == [] then 0 else |Objects(pages.tail)| + 1
  }

  lemma DebtCoversSpoiled(text: Text)
    ensures |Spoiled(text)| <= Debt(text)
    ensures Debt(text) == 0 <==> Split(text).tail == [] && Spoiled(text) == []
  {}

  lemma DebtOfAppend(text: Text, row: Row)
    ensures Debt(AppendRow(text, row)) == Debt(text)
  {
    var pages := Split(text);
    SplitAppend(text, row);
    LinesSnoc(pages.closed, pages.tail + [Object(row)]);
    ObjectsSnoc(pages.tail, Object(row));
  }

  /** A cut prefix costs at most one row; an object without its newline, two. */
  lemma DebtOfTear(text: Text, piece: Piece)
    requires !piece.Newline?
    ensures Debt(text) <= Debt(text + [piece]) <= Debt(text) + if piece.Object? then 2 else 1
  {
    SplitSnoc(text, piece);
    ObjectsSnoc(Split(text).tail, piece);
  }
}
