/**
 * The hand-written CSV tokenizer `parseCSV`. `Scan` is the tokenizer as a
 * function on the unread text; `ParseCsv` is the source's index loop, proved
 * to compute `Parse`. The lemmas say what the quoting and row rules mean:
 * quoted and plain fields read back as written, trailing or CRLF line breaks
 * add no rows, every row has a cell and every cell is trimmed.
 */
module Csv {
  import opened Strings

  type Row = seq<string>

  /** The loop's variables: finished rows, cells of the current row, the pending cell, the in-quotes flag. */
  datatype Scanner = Scanner(rows: seq<Row>, current: Row, value: string, inQuotes: bool)

  const Start := Scanner([], [], "", false)

  predicate IsLineBreak(c: char) {
    c == '\n' || c == '\r'
  }

  /** A row break (or the end of the input): the row is emitted only if it has a pending value or cells. */
  function EndRow(st: Scanner): Scanner {
    if st.value != "" || st.current != [] then Scanner(st.rows + [st.current + [st.value]], [], "", st.inQuotes)
    else st.(current := [], value := "")
  }

  /** The scan of the unread text `s` from the state `st`. */
  function Scan(s: string, st: Scanner): Scanner
    decreases |s|
  {
    if s == [] then st
    else if s[0] == '"' then
      if st.inQuotes && |s| > 1 && s[1] == '"' then Scan(s[2..], st.(value := st.value + ['"']))
      else Scan(s[1..], st.(inQuotes := !st.inQuotes))
    else if s[0] == ',' && !st.inQuotes then Scan(s[1..], st.(current := st.current + [st.value], value := ""))
    else if IsLineBreak(s[0]) && !st.inQuotes then Scan(s[1..], EndRow(st))
    else Scan(s[1..], st.(value := st.value + [s[0]]))
  }

  /** `rows.map((row) => row.map((cell) => cell.trim()))` */
  function TrimCells(rows: seq<Row>): seq<Row> {
    seq(|rows|, i requires 0 <= i < |rows| => seq(|rows[i]|, j requires 0 <= j < |rows[i]| => Trim(rows[i][j])))
  }

  /** What `parseCSV(text)` returns. */
  function Parse(text: string): seq<Row> {
    TrimCells(EndRow(Scan(text, Start)).rows)
  }

  /** `parseCSV`: one pass over the text with an in-quotes flag and a skip-ahead on `""`. */
  method ParseCsv(text: string) returns (parsed: seq<Row>)
    ensures parsed == Parse(text)
  {
    var rows: seq<Row> := [];
    var current: Row := [];
    var value := "";
    var inQuotes := false;
    var i := 0;
    while i < |text|
      invariant 0 <= i <= |text|
      invariant Scan(text[i..], Scanner(rows, current, value, inQuotes)) == Scan(text, Start)
    {
      var c := text[i];
      ghost var rest := text[i..];
      assert rest[0] == c && rest[1..] == text[i + 1..];
      if c == '"' {
        if inQuotes && i + 1 < |text| && text[i + 1] == '"' {
          assert rest[1] == text[i + 1] && rest[2..] == text[i + 2..];
          value := value + ['"'];
          i := i + 1;
        } else {
          assert |rest| > 1 ==> rest[1] == text[i + 1];
          inQuotes := !inQuotes;
        }
      } else if c == ',' && !inQuotes {
        current := current + [value];
        value := "";
      } else if (c == '\n' || c == '\r') && !inQuotes {
        if value != "" || current != [] {
          current := current + [value];
          rows := rows + [current];
        }
        current := [];
        value := "";
      } else {
        value := value + [c];
      }
      i := i + 1;
    }
    assert text[i..] == [];
    if value != "" || current != [] {
      current := current + [value];
      rows := rows + [current];
    }
    parsed := TrimCells(rows);
  }

  // ---------------------------------------------------------------------
  // Where the text can be split

  /** The scan of `a + b` is the scan of `a` continued on `b`, unless `b` starts with a quote that could pair with one at the end of `a`. */
  lemma {:induction false} ScanAppend(a: string, b: string, st: Scanner)
    requires b == [] || b[0] != '"'
    ensures Scan(a + b, st) == Scan(b, Scan(a, st))
    decreases |a|
  {
    if a == [] {
      assert a + b == b;
    } else {
      var s := a + b;
      assert s[0] == a[0] && s[1..] == a[1..] + b;
      if a[0] == '"' && st.inQuotes && |a| > 1 && a[1] == '"' {
        assert s[1] == a[1] && s[2..] == a[2..] + b;
        ScanAppend(a[2..], b, st.(value := st.value + ['"']));
      } else if a[0] == '"' {
        assert |s| > 1 && s[1] == '"' ==> |a| > 1 && a[1] == '"';
        ScanAppend(a[1..], b, st.(inQuotes := !st.inQuotes));
      } else if a[0] == ',' && !st.inQuotes {
        ScanAppend(a[1..], b, st.(current := st.current + [st.value], value := ""));
      } else if IsLineBreak(a[0]) && !st.inQuotes {
        ScanAppend(a[1..], b, EndRow(st));
      } else {
        ScanAppend(a[1..], b, st.(value := st.value + [a[0]]));
      }
    }
  }

  // ---------------------------------------------------------------------
  // Fields as a writer would put them

  /** A character that has a meaning to the tokenizer outside quotes. */
  predicate IsSpecial(c: char) {
    c == '"' || c == ',' || IsLineBreak(c)
  }

  /** A field written as it is, or between quotes with every quote doubled. */
  datatype Field = Plain(text: string) | Quoted(text: string)

  predicate WellFormed(f: Field) {
    f.Quoted? || forall k :: 0 <= k < |f.text| ==> !IsSpecial(f.text[k])
  }

  function Escape(s: string): string
    decreases |s|
  {
    if s == [] then []
    else if s[0] == '"' then "\"\"" + Escape(s[1..])
    else [s[0]] + Escape(s[1..])
  }

  function Encode(f: Field): string {
    match f
    case Plain(t) => t
    case Quoted(t) => "\"" + Escape(t) + "\""
  }

  /** The fields joined by commas. */
  function EncodeRow(fields: seq<Field>): string
    requires fields != []
    decreases |fields|
  {
    if |fields| == 1 then Encode(fields[0]) else Encode(fields[0]) + "," + EncodeRow(fields[1..])
  }

  /** Each row followed by a line terminator: LF, CR or CRLF. */
  predicate IsTerminator(eol: string) {
    eol == "\n" || eol == "\r" || eol == "\r\n"
  }

  function EncodeTable(table: seq<seq<Field>>, eol: string): string
    requires forall i :: 0 <= i < |table| ==> table[i] != []
    decreases |table|
  {
    if table == [] then [] else EncodeRow(table[0]) + eol + EncodeTable(table[1..], eol)
  }

  function Texts(fields: seq<Field>): (r: Row)
    ensures |r| == |fields| && forall k :: 0 <= k < |r| ==> r[k] == fields[k].text
  {
    if fields == [] then [] else [fields[0].text] + Texts(fields[1..])
  }

  function TableTexts(table: seq<seq<Field>>): (r: seq<Row>)
    ensures |r| == |table| && forall i :: 0 <= i < |r| ==> r[i] == Texts(table[i])
  {
    seq(|table|, i requires 0 <= i < |table| => Texts(table[i]))
  }

  /** Rows a writer can produce: every field well formed, every row emitted. */
  predicate WellFormedTable(table: seq<seq<Field>>) {
    forall i :: 0 <= i < |table| ==> WellFormedRow(table[i])
  }

  predicate WellFormedRow(fields: seq<Field>) {
    fields != [] && Emitted(fields) && forall k :: 0 <= k < |fields| ==> WellFormed(fields[k])
  }

  /** A row is emitted when it has two cells or a non-empty first cell (before trimming). */
  predicate Emitted(fields: seq<Field>) {
    |fields| > 1 || (|fields| == 1 && fields[0].text != "")
  }

  lemma {:induction false} ScanPlain(t: string, st: Scanner)
    requires !st.inQuotes && forall k :: 0 <= k < |t| ==> !IsSpecial(t[k])
    ensures Scan(t, st) == st.(value := st.value + t)
    decreases |t|
  {
    if t != [] {
      ScanPlain(t[1..], st.(value := st.value + [t[0]]));
      assert st.value + [t[0]] + t[1..] == st.value + t;
    }
  }

  /** Inside quotes, an escaped text and its closing quote read back as the text. */
  lemma {:induction false} ScanQuotedBody(t: string, st: Scanner)
    requires st.inQuotes
    ensures Scan(Escape(t) + "\"", st) == st.(value := st.value + t, inQuotes := false)
    decreases |t|
  {
    var s := Escape(t) + "\"";
    if t == [] {
      assert s == "\"";
    } else if t[0] == '"' {
      assert s[0] == '"' && s[1] == '"' && s[2..] == Escape(t[1..]) + "\"";
      ScanQuotedBody(t[1..], st.(value := st.value + ['"']));
      assert st.value + ['"'] + t[1..] == st.value + t;
    } else {
      assert s[0] == t[0] && s[1..] == Escape(t[1..]) + "\"";
      ScanQuotedBody(t[1..], st.(value := st.value + [t[0]]));
      assert st.value + [t[0]] + t[1..] == st.value + t;
    }
  }

  lemma ScanField(f: Field, st: Scanner)
    requires WellFormed(f) && !st.inQuotes
    ensures Scan(Encode(f), st) == st.(value := st.value + f.text)
  {
    match f
    case Plain(t) =>
      ScanPlain(t, st);
    case Quoted(t) =>
      var s := Encode(f);
      assert s[0] == '"' && s[1..] == Escape(t) + "\"";
      ScanQuotedBody(t, st.(inQuotes := true));
  }

  /** A comma outside quotes closes the pending cell. */
  lemma ScanComma(tail: string, st: Scanner)
    requires !st.inQuotes
    ensures Scan("," + tail, st) == Scan(tail, st.(current := st.current + [st.value], value := ""))
  {
    assert ("," + tail)[0] == ',' && ("," + tail)[1..] == tail;
  }

  /** A field followed by a comma, from the start of a cell, closes that cell. */
  lemma ScanFieldComma(f: Field, tail: string, st: Scanner)
    requires WellFormed(f) && !st.inQuotes && st.value == ""
    ensures Scan(Encode(f) + ("," + tail), st) == Scan(tail, st.(current := st.current + [f.text]))
  {
    ScanAppend(Encode(f), "," + tail, st);
    ScanField(f, st);
    assert st.value + f.text == f.text;
    ScanComma(tail, st.(value := f.text));
  }

  lemma TextsCons(fields: seq<Field>, cells: Row)
    requires fields != []
    ensures cells + [fields[0].text] + Texts(fields[1..]) == cells + Texts(fields)
  {
    assert Texts(fields) == [fields[0].text] + Texts(fields[1..]);
  }

  /** What a scanned row leaves: its cells so far in `current`, its last text pending. */
  predicate RowScanned(fields: seq<Field>, st: Scanner, r: Scanner)
    requires fields != []
  {
    r.rows == st.rows && !r.inQuotes && r.value == fields[|fields| - 1].text
    && r.current + [r.value] == st.current + Texts(fields)
  }

  /** A row of fields, from the start of a row, leaves its cells in `current` and `value`. */
  lemma {:induction false} ScanRow(fields: seq<Field>, st: Scanner)
    requires fields != [] && forall k :: 0 <= k < |fields| ==> WellFormed(fields[k])
    requires !st.inQuotes && st.value == ""
    ensures RowScanned(fields, st, Scan(EncodeRow(fields), st))
    decreases |fields|
  {
    if |fields| == 1 {
      ScanField(fields[0], st);
      assert st.value + fields[0].text == fields[0].text;
    } else {
      var tail := EncodeRow(fields[1..]);
      assert EncodeRow(fields) == Encode(fields[0]) + ("," + tail);
      ScanFieldComma(fields[0], tail, st);
      var st' := st.(current := st.current + [fields[0].text]);
      ScanRow(fields[1..], st');
      ScanRowStep(fields, st, st', Scan(tail, st'));
    }
  }

  /** The cells of the first field and of the rest make the cells of the row. */
  lemma ScanRowStep(fields: seq<Field>, st: Scanner, st': Scanner, r: Scanner)
    requires |fields| > 1 && st' == st.(current := st.current + [fields[0].text])
    requires RowScanned(fields[1..], st', r)
    ensures RowScanned(fields, st, r)
  {
    assert fields[1..][|fields| - 2] == fields[|fields| - 1];
    TextsCons(fields, st.current);
  }

  /** A line terminator outside quotes ends the row; the LF of a CRLF then finds nothing to emit. */
  lemma ScanTerminator(eol: string, rest: string, st: Scanner)
    requires IsTerminator(eol) && !st.inQuotes
    ensures Scan(eol + rest, st) == Scan(rest, EndRow(st))
  {
    var s := eol + rest;
    if eol == "\r\n" {
      assert s[0] == '\r' && s[1..] == "\n" + rest;
      assert ("\n" + rest)[0] == '\n' && ("\n" + rest)[1..] == rest;
      assert EndRow(EndRow(st)) == EndRow(st);
    } else {
      assert IsLineBreak(s[0]) && s[1..] == rest;
    }
  }

  /** An emitted row of fields and its terminator, from the start of a row, add the row's cells to the finished rows. */
  lemma ScanRowBreak(fields: seq<Field>, eol: string, rest: string, done: seq<Row>)
    requires WellFormedRow(fields) && IsTerminator(eol)
    ensures Scan(EncodeRow(fields) + (eol + rest), Scanner(done, [], "", false))
         == Scan(rest, Scanner(done + [Texts(fields)], [], "", false))
  {
    var st := Scanner(done, [], "", false);
    ScanAppend(EncodeRow(fields), eol + rest, st);
    ScanRow(fields, st);
    var r := Scan(EncodeRow(fields), st);
    assert [] + Texts(fields) == Texts(fields);
    assert |r.current| + 1 == |fields|;
    assert EndRow(r) == Scanner(done + [Texts(fields)], [], "", false);
    ScanTerminator(eol, rest, r);
  }

  lemma TableTextsCons(table: seq<seq<Field>>, done: seq<Row>)
    requires table != []
    ensures done + [Texts(table[0])] + TableTexts(table[1..]) == done + TableTexts(table)
  {
    assert TableTexts(table) == [Texts(table[0])] + TableTexts(table[1..]);
  }

  lemma EncodeTableCons(table: seq<seq<Field>>, eol: string)
    requires table != [] && WellFormedTable(table)
    ensures EncodeTable(table, eol) == EncodeRow(table[0]) + (eol + EncodeTable(table[1..], eol))
  {
    WellFormedTail(table);
  }

  lemma WellFormedTail(table: seq<seq<Field>>)
    requires table != [] && WellFormedTable(table)
    ensures WellFormedTable(table[1..])
  {
    forall i | 0 <= i < |table| - 1
      ensures table[1..][i] == table[i + 1]
    {
    }
  }

  /** Rows of fields, each followed by a terminator, are appended to the finished rows; the scan then goes on with `rest`. */
  lemma {:induction false} ScanTable(table: seq<seq<Field>>, eol: string, rest: string, done: seq<Row>)
    requires WellFormedTable(table) && IsTerminator(eol)
    ensures Scan(EncodeTable(table, eol) + rest, Scanner(done, [], "", false))
         == Scan(rest, Scanner(done + TableTexts(table), [], "", false))
    decreases |table|
  {
    if table == [] {
      assert EncodeTable(table, eol) + rest == rest;
      assert done + TableTexts(table) == done;
    } else {
      var tail := EncodeTable(table[1..], eol);
      EncodeTableCons(table, eol);
      AssocThree(EncodeRow(table[0]), eol, tail, rest);
      WellFormedTail(table);
      ScanRowBreak(table[0], eol, tail + rest, done);
      ScanTable(table[1..], eol, rest, done + [Texts(table[0])]);
      TableTextsCons(table, done);
    }
  }

  lemma AssocThree(a: string, eol: string, tail: string, rest: string)
    ensures (a + (eol + tail)) + rest == a + (eol + (tail + rest))
  {
  }

  /**
   * Round trip: a table written with quoted or plain fields and any one of
   * the three line terminators parses back to its cell texts, trimmed.
   */
  lemma TableRoundTrip(table: seq<seq<Field>>, eol: string)
    requires WellFormedTable(table) && IsTerminator(eol)
    ensures Parse(EncodeTable(table, eol)) == TrimCells(TableTexts(table))
  {
    ScanTable(table, eol, [], []);
    assert EncodeTable(table, eol) + [] == EncodeTable(table, eol);
    assert [] + TableTexts(table) == TableTexts(table);
  }

  /**
   * The same round trip when the last row has no terminator: the final
   * flush at the end of the text emits it.
   */
  lemma TableThenRowRoundTrip(table: seq<seq<Field>>, eol: string, last: seq<Field>)
    requires WellFormedTable(table) && IsTerminator(eol) && WellFormedRow(last)
    ensures Parse(EncodeTable(table, eol) + EncodeRow(last)) == TrimCells(TableTexts(table) + [Texts(last)])
  {
    ScanTable(table, eol, EncodeRow(last), []);
    assert [] + TableTexts(table) == TableTexts(table);
    LastRowCells(last, TableTexts(table));
  }

  /** A single emitted row after finished rows, flushed at the end of the text. */
  lemma LastRowCells(fields: seq<Field>, done: seq<Row>)
    requires WellFormedRow(fields)
    ensures EndRow(Scan(EncodeRow(fields), Scanner(done, [], "", false))).rows == done + [Texts(fields)]
  {
    var st := Scanner(done, [], "", false);
    ScanRow(fields, st);
    assert [] + Texts(fields) == Texts(fields);
    EndRowOf(Scan(EncodeRow(fields), st), Texts(fields));
  }

  /** Cells that are already trimmed come back exactly. */
  lemma TrimCellsOfTrimmed(rows: seq<Row>)
    requires forall r, c :: r in rows && c in r ==> IsTrimmed(c)
    ensures TrimCells(rows) == rows
  {
    forall i | 0 <= i < |rows|
      ensures TrimCells(rows)[i] == rows[i]
    {
      assert forall j :: 0 <= j < |rows[i]| ==> rows[i][j] in rows[i];
    }
  }

  /** The end of a row whose cells so far, with the pending value, are `cells`. */
  lemma EndRowOf(st: Scanner, cells: Row)
    requires st.current + [st.value] == cells
    requires |cells| > 1 || cells[0] != ""
    ensures EndRow(st) == Scanner(st.rows + [cells], [], "", st.inQuotes)
  {
  }

  lemma RowCells(fields: seq<Field>)
    requires Emitted(fields) && forall k :: 0 <= k < |fields| ==> WellFormed(fields[k])
    ensures EndRow(Scan(EncodeRow(fields), Start)).rows == [Texts(fields)]
  {
    LastRowCells(fields, []);
  }

  /**
   * The single-row case, without a terminator: a field in quotes keeps its
   * commas and line breaks, and `""` inside quotes stands for one `"`.
   */
  lemma RowRoundTrip(fields: seq<Field>)
    requires Emitted(fields) && forall k :: 0 <= k < |fields| ==> WellFormed(fields[k])
    ensures Parse(EncodeRow(fields)) == TrimCells([Texts(fields)])
  {
    RowCells(fields);
  }

  // ---------------------------------------------------------------------
  // Row breaks


  lemma {:induction false} ScanBreaks(breaks: string, st: Scanner)
    requires !st.inQuotes && forall k :: 0 <= k < |breaks| ==> IsLineBreak(breaks[k])
    ensures EndRow(Scan(breaks, st)) == EndRow(st)
    decreases |breaks|
  {
    if breaks != [] {
      ScanBreaks(breaks[1..], EndRow(st));
    }
  }

  /**
   * Line breaks after text that ends outside quotes add no rows: a trailing
   * newline, a CRLF or a run of blank lines all leave the result unchanged.
   */
  lemma TrailingBreaksAddNoRows(text: string, breaks: string)
    requires !Scan(text, Start).inQuotes
    requires forall k :: 0 <= k < |breaks| ==> IsLineBreak(breaks[k])
    ensures Parse(text + breaks) == Parse(text)
  {
    ScanAppend(text, breaks, Start);
    ScanBreaks(breaks, Scan(text, Start));
  }

  // ---------------------------------------------------------------------
  // Shape of the result

  predicate RowsNonEmpty(rows: seq<Row>) {
    forall r :: r in rows ==> r != []
  }

  lemma {:induction false} ScanKeepsRowsNonEmpty(s: string, st: Scanner)
    requires RowsNonEmpty(st.rows)
    ensures RowsNonEmpty(Scan(s, st).rows) && RowsNonEmpty(EndRow(Scan(s, st)).rows)
    decreases |s|
  {
    if s == [] {
    } else if s[0] == '"' {
      if st.inQuotes && |s| > 1 && s[1] == '"' {
        ScanKeepsRowsNonEmpty(s[2..], st.(value := st.value + ['"']));
      } else {
        ScanKeepsRowsNonEmpty(s[1..], st.(inQuotes := !st.inQuotes));
      }
    } else if s[0] == ',' && !st.inQuotes {
      ScanKeepsRowsNonEmpty(s[1..], st.(current := st.current + [st.value], value := ""));
    } else if IsLineBreak(s[0]) && !st.inQuotes {
      ScanKeepsRowsNonEmpty(s[1..], EndRow(st));
    } else {
      ScanKeepsRowsNonEmpty(s[1..], st.(value := st.value + [s[0]]));
    }
  }

  /** Every row of the result has at least one cell and every cell is trimmed; no input yields no rows. */
  lemma ParseShape(text: string)
    ensures forall r :: r in Parse(text) ==> r != [] && forall c :: c in r ==> IsTrimmed(c)
    ensures text == "" ==> Parse(text) == []
  {
    ScanKeepsRowsNonEmpty(text, Start);
    var rows := EndRow(Scan(text, Start)).rows;
    forall r | r in Parse(text)
      ensures r != [] && forall c :: c in r ==> IsTrimmed(c)
    {
      var i :| 0 <= i < |rows| && Parse(text)[i] == r;
      assert rows[i] in rows;
    }
  }

  // ---------------------------------------------------------------------
  // The two quoting examples

  lemma QuotedCommaEncoding()
    ensures EncodeRow([Plain("a"), Quoted("b,c"), Plain("d")]) == "a,\"b,c\",d"
  {
    var fields := [Plain("a"), Quoted("b,c"), Plain("d")];
    assert Escape("b,c") == "b,c" by {
      assert Escape("c") == "c";
      assert Escape(",c") == ",c";
    }
    assert EncodeRow(fields[2..]) == "d";
    assert EncodeRow(fields[1..]) == "\"b,c\",d";
  }

  /** A one-row text written from `fields` parses to the row of their texts, when those are trimmed. */
  lemma RowExample(fields: seq<Field>, text: string, cells: Row)
    requires WellFormedRow(fields) && EncodeRow(fields) == text && Texts(fields) == cells
    requires forall k :: 0 <= k < |cells| ==> IsTrimmed(cells[k])
    ensures Parse(text) == [cells]
  {
    RowRoundTrip(fields);
    TrimCellsOfTrimmed([cells]);
  }

  lemma QuotedCommaFields()
    ensures var fields := [Plain("a"), Quoted("b,c"), Plain("d")];
            WellFormedRow(fields) && Texts(fields) == ["a", "b,c", "d"]
  {
  }

  /** `a,"b,c",d` is three cells: the comma between quotes stays in the second. */
  lemma QuotedCommaExample()
    ensures Parse("a,\"b,c\",d") == [["a", "b,c", "d"]]
  {
    QuotedCommaEncoding();
    QuotedCommaFields();
    var cells := ["a", "b,c", "d"];
    assert IsTrimmed(cells[0]) && IsTrimmed(cells[1]) && IsTrimmed(cells[2]);
    RowExample([Plain("a"), Quoted("b,c"), Plain("d")], "a,\"b,c\",d", cells);
  }

  lemma EscapedQuoteEncoding()
    ensures EncodeRow([Plain("a"), Quoted("b\"c"), Plain("d")]) == "a,\"b\"\"c\",d"
  {
    var fields := [Plain("a"), Quoted("b\"c"), Plain("d")];
    assert Escape("b\"c") == "b\"\"c" by {
      assert Escape("c") == "c";
      assert Escape("\"c") == "\"\"c";
    }
    assert EncodeRow(fields[2..]) == "d";
    assert EncodeRow(fields[1..]) == "\"b\"\"c\",d";
  }

  lemma EscapedQuoteFields()
    ensures var fields := [Plain("a"), Quoted("b\"c"), Plain("d")];
            WellFormedRow(fields) && Texts(fields) == ["a", "b\"c", "d"]
  {
  }

  /** `a,"b""c",d` is three cells: the doubled quote inside quotes is one `"`. */
  lemma EscapedQuoteExample()
    ensures Parse("a,\"b\"\"c\",d") == [["a", "b\"c", "d"]]
  {
    EscapedQuoteEncoding();
    EscapedQuoteFields();
    var cells := ["a", "b\"c", "d"];
    assert IsTrimmed(cells[0]) && IsTrimmed(cells[1]) && IsTrimmed(cells[2]);
    RowExample([Plain("a"), Quoted("b\"c"), Plain("d")], "a,\"b\"\"c\",d", cells);
  }
}
