/** The rows of an SQL export, written and read back. */
module SqlRows {
  import opened Results
  import opened Strings
  import opened Quoting
  import opened SqlRead
  import opened SqlExport
  import opened SqlFile
  import opened SqlSplit
  import Decimals
  import Seqs

  /** What the reader makes of a value: text and encoded values are strings, and a number that is printed
      as an integer is one. */
  function CellOf(v: Value): Cell {
    match v
    case Null => NullCell
    case Bool(b) => BoolCell(b)
    case Int(n) => IntCell(n)
    case Float(t) => if Integer(t).Some? then IntCell(Integer(t).value) else NumberCell(t)
    case Text(s) => StringCell(s)
    case Json(s) => StringCell(s)
  }

  function Cells(row: seq<Value>): (cells: seq<Cell>)
    ensures |cells| == |row|
  {
    seq(|row|, i requires 0 <= i < |row| => CellOf(row[i]))
  }

  // ---- Integers --------------------------------------------------------------------------------

  lemma DecimalDigits(n: nat)
    ensures AllDigits(Decimals.Decimal(n))
  {
    var d := Decimals.Decimal(n);
    forall i | 0 <= i < |d| ensures '0' <= d[i] <= '9' {
      assert d[i] in d;
    }
  }

  lemma DigitsSnoc(t: string, c: char)
    requires AllDigits(t) && '0' <= c <= '9'
    ensures AllDigits(t + [c]) && DigitsValue(t + [c]) == 10 * DigitsValue(t) + (c as int - '0' as int)
  {
    Seqs.InitOfSnoc(t, c);
  }

  lemma OneDigit(n: nat)
    requires n < 10
    ensures DigitsValue([Decimals.Digit(n)]) == n && Decimals.Digit(n) as int == '0' as int + n
  {
    assert [Decimals.Digit(n)][..0] == "";
  }

  lemma {:induction false} DecimalValue(n: nat)
    ensures AllDigits(Decimals.Decimal(n)) && DigitsValue(Decimals.Decimal(n)) == n
  {
    hide AllDigits;
    hide Decimals.Digit;
    DecimalDigits(n);
    OneDigit(n % 10);
    if n >= 10 {
      DecimalValue(n / 10);
      hide DigitsValue;
      DigitsSnoc(Decimals.Decimal(n / 10), Decimals.Digit(n % 10));
    }
  }

  lemma IntegerOfInt(n: int)
    ensures Integer(IntText(n)) == Some(n)
  {
    DecimalValue(if n < 0 then -n else n);
    if n < 0 {
      assert IntText(n)[1..] == Decimals.Decimal(-n);
    }
  }

  // ---- Values ----------------------------------------------------------------------------------

  /** What follows an item of a list. */
  predicate EndsItem(rest: string) {
    rest != "" && EndsWord(rest[0])
  }

  lemma {:induction false} WordEnds(t: string, rest: string)
    requires (forall i | 0 <= i < |t| :: !EndsWord(t[i])) && EndsItem(rest)
    ensures WordLength(t + rest) == |t|
  {
    if t == "" {
      Seqs.Empty(rest);
    } else {
      Seqs.TailOfConcat(t, rest);
      WordEnds(t[1..], rest);
    }
  }

  lemma WordReadsBack(t: string, cell: Cell, rest: string)
    requires t != "" && t[0] != '\'' && (forall i | 0 <= i < |t| :: !EndsWord(t[i])) && EndsItem(rest)
    requires WordCell(t) == Some(cell)
    ensures ReadCell(t + rest) == Some(Piece(cell, rest))
  {
    hide WordCell;
    WordEnds(t, rest);
    assert (t + rest)[0] == t[0] && (t + rest)[..|t|] == t && (t + rest)[|t|..] == rest;
  }

  lemma IntegerWord(n: int)
    ensures var t := IntText(n);
      t != "" && WordCell(t) == Some(IntCell(n)) && forall i | 0 <= i < |t| :: IsNumberByte(t[i])
  {
    IntegerOfInt(n);
    var d := Decimals.Decimal(if n < 0 then -n else n);
    DecimalDigits(if n < 0 then -n else n);
    hide Integer;
    hide DigitsValue;
    hide Decimals.Decimal;
    var t := IntText(n);
    forall i | 0 <= i < |t| ensures IsNumberByte(t[i]) && t[i] != 'T' && t[i] != 'F' && t[i] != 'U' && t[i] != 'N' {
      assert n < 0 && i > 0 ==> t[i] == d[i - 1];
    }
    assert t != "NULL" && t != "TRUE" && t != "FALSE";
  }

  lemma FloatWord(t: NumberText)
    ensures WordCell(t) == Some(CellOf(Float(t)))
  {
    assert IsNumberByte(t[0]);
    assert |t| > 1 ==> IsNumberByte(t[1]);
  }

  lemma QuotedReadsBack(s: string, q: char, rest: string)
    requires rest == "" || rest[0] != q
    ensures var t := Quoted(s, q) + rest;
      t != "" && t[0] == q && ReadQuoted(t[1..], q) == Some(Piece(s, rest))
  {
    QuotedOpens(s, q, rest);
    Seqs.Cons(q, Doubled(s, q) + [q] + rest);
    QuotedRoundTrip(s, q, rest);
  }

  /** Every literal reads back as its value. */
  lemma LiteralReadsBack(v: Value, rest: string)
    requires EndsItem(rest)
    ensures ReadCell(SqlLiteral(v) + rest) == Some(Piece(CellOf(v), rest))
    ensures SqlLiteral(v) != ""
  {
    hide ReadQuoted;
    hide Quoted;
    match v {
      case Null => WordReadsBack("NULL", NullCell, rest);
      case Bool(b) => WordReadsBack(if b then "TRUE" else "FALSE", BoolCell(b), rest);
      case Int(n) =>
        IntegerWord(n);
        WordReadsBack(IntText(n), IntCell(n), rest);
      case Float(t) =>
        FloatWord(t);
        WordReadsBack(t, CellOf(v), rest);
      case Text(s) => QuotedReadsBack(s, '\'', rest);
      case Json(s) => QuotedReadsBack(s, '\'', rest);
    }
  }

  // ---- Lists -----------------------------------------------------------------------------------

  /** These texts read back as these items, in front of anything that ends an item. */
  ghost predicate ReadBack<T(!new)>(one: string -> Option<Piece<T>>, texts: seq<string>, items: seq<T>) {
    && |texts| == |items|
    && forall i, rest | 0 <= i < |texts| && EndsItem(rest) ::
         texts[i] != "" && one(texts[i] + rest) == Some(Piece(items[i], rest))
  }

  lemma {:induction false} ListReadsBack<T(!new)>(one: string -> Option<Piece<T>>, texts: seq<string>, items: seq<T>,
                                                  rest: string)
    requires texts != [] && ReadBack(one, texts, items)
    ensures ReadList(one, Join(texts, ", ") + (")" + rest)) == Some(Piece(items, rest))
    decreases |texts|
  {
    if |texts| == 1 {
      var after := ")" + rest;
      assert EndsItem(after) && one(texts[0] + after) == Some(Piece(items[0], after));
      assert after[..1] == ")" && after[1..] == rest && items == [items[0]];
    } else {
      var later := Join(texts[1..], ", ") + (")" + rest);
      var after := ", " + later;
      assert EndsItem(after) && one(texts[0] + after) == Some(Piece(items[0], after));
      assert Join(texts, ", ") + (")" + rest) == texts[0] + after;
      assert after[..2] == ", " && after[2..] == later && after[..1] == ",";
      assert ReadBack(one, texts[1..], items[1..]) by {
        forall i, r | 0 <= i < |texts[1..]| && EndsItem(r)
          ensures texts[1..][i] != "" && one(texts[1..][i] + r) == Some(Piece(items[1..][i], r))
        {
          assert texts[1..][i] == texts[i + 1] && items[1..][i] == items[i + 1];
        }
      }
      ListReadsBack(one, texts[1..], items[1..], rest);
      Seqs.HeadTail(items);
    }
  }

  lemma ItemsReadBack<T(!new)>(one: string -> Option<Piece<T>>, texts: seq<string>, items: seq<T>, rest: string)
    requires ReadBack(one, texts, items) && forall i | 0 <= i < |texts| :: texts[i] != "" && texts[i][0] != ')'
    ensures ReadItems(one, Join(texts, ", ") + (")" + rest)) == Some(Piece(items, rest))
  {
    var s := Join(texts, ", ") + (")" + rest);
    if texts == [] {
      assert s == ")" + rest && s[..1] == ")" && s[1..] == rest && items == [];
    } else {
      assert s[0] == texts[0][0];
      ListReadsBack(one, texts, items, rest);
    }
  }

  lemma NamesReadBack(cols: seq<string>, rest: string)
    ensures ReadItems(ReadName, Join(Names(cols), ", ") + (")" + rest)) == Some(Piece(cols, rest))
  {
    var names := Names(cols);
    forall i, r | 0 <= i < |names| && EndsItem(r)
      ensures names[i] != "" && ReadName(names[i] + r) == Some(Piece(cols[i], r))
    {
      QuotedReadsBack(cols[i], '"', r);
    }
    assert ReadBack(ReadName, names, cols);
    ItemsReadBack(ReadName, names, cols, rest);
  }

  lemma ValuesReadBack(row: seq<Value>, rest: string)
    ensures ReadItems(ReadCell, Join(Literals(row), ", ") + (")" + rest)) == Some(Piece(Cells(row), rest))
  {
    hide ReadCell;
    hide SqlLiteral;
    var texts := Literals(row);
    forall i, r | 0 <= i < |texts| && EndsItem(r)
      ensures texts[i] != "" && ReadCell(texts[i] + r) == Some(Piece(Cells(row)[i], r))
    {
      LiteralReadsBack(row[i], r);
    }
    assert ReadBack(ReadCell, texts, Cells(row));
    forall i | 0 <= i < |texts| ensures texts[i] != "" && texts[i][0] != ')' {
      LiteralReadsBack(row[i], ")");
      NoParenthesis(row[i]);
    }
    ItemsReadBack(ReadCell, texts, Cells(row), rest);
  }

  lemma NoParenthesis(v: Value)
    requires SqlLiteral(v) != ""
    ensures SqlLiteral(v)[0] != ')'
  {
    if v.Int? {
      IntegerWord(v.n);
    }
  }

  // ---- Rows ------------------------------------------------------------------------------------

  lemma BehindFixed(fixed: string, rest: string)
    ensures Behind(fixed, fixed + rest) == Some(rest)
  {
    assert (fixed + rest)[..|fixed|] == fixed && (fixed + rest)[|fixed|..] == rest;
  }

  /** Columns and values read back in their order, whatever the names and values hold, and the text behind
      the row is left alone. */
  lemma TailReadsBack(cols: seq<string>, row: seq<Value>, rest: string)
    ensures ReadTail(RowTail(cols, row, "\n") + rest) == Some(Piece((cols, Cells(row)), rest))
  {
    var names, values := Join(Names(cols), ", "), Join(Literals(row), ", ");
    TailAppends(names, values, "\n", rest);
    var s3 := ";" + ("\n" + rest);
    var s2 := values + (")" + s3);
    var s1 := names + (") VALUES (" + s2);
    assert TailFormat(names, values, "\n" + rest) == " (" + s1;
    assert ") VALUES (" + s2 == ")" + (" VALUES (" + s2) && s3 == ";\n" + rest;
    NamesReadBack(cols, " VALUES (" + s2);
    ValuesReadBack(row, s3);
    hide ReadItems;
    hide Behind;
    hide Names;
    hide Literals;
    BehindFixed(" (", s1);
    BehindFixed(" VALUES (", s2);
    BehindFixed(";\n", rest);
  }

  lemma NameReadsBack(name: string, rest: string)
    requires '"' !in name && (rest == "" || rest[0] != '"')
    ensures ReadName(Raw(name) + rest) == Some(Piece(name, rest))
  {
    UnquotedNameUnchanged(name);
    QuotedReadsBack(name, '"', rest);
    assert Quoted(name, '"') == Raw(name);
  }

  function Quotes(k: nat): string {
    if k == 0 then "" else "\"" + Quotes(k - 1)
  }

  lemma {:induction false} QuotesSnoc(k: nat, x: string)
    ensures Quotes(k) + ("\"" + x) == Quotes(k + 1) + x
  {
    if k > 0 {
      QuotesSnoc(k - 1, x);
      Seqs.Assoc("\"", Quotes(k - 1), "\"" + x);
      Seqs.Assoc("\"", Quotes(k), x);
    } else {
      Seqs.Empty("\"" + x);
      Seqs.Empty("\"");
    }
  }

  lemma LastQuote(k: nat, r1: string, r2: string)
    requires Quotes(k) + ("\"" + r1) == "\"" + r2 && r2 != "" && r2[0] != '"'
    ensures k == 0
  {
    var s := Quotes(k) + ("\"" + r1);
    assert s[1] == r2[0];
    QuotesAhead(k, "\"" + r1);
  }

  lemma QuotesAhead(k: nat, x: string)
    requires k > 0 ==> x != "" && x[0] == '"'
    ensures k > 0 ==> (Quotes(k) + x)[1] == '"'
  {
  }

  /** A name that stands as it is where its quotes should be doubled has no quote. */
  lemma {:induction false} NotDoubled(k: nat, s: string, r1: string, r2: string)
    requires Quotes(k) + (Doubled(s, '"') + "\"" + r1) == s + ("\"" + r2) && r2 != "" && r2[0] != '"'
    ensures k == 0 && '"' !in s
    decreases |s|
  {
    if s == "" {
      Seqs.Empty("\"" + r2);
      assert Doubled(s, '"') + "\"" + r1 == "\"" + r1;
      LastQuote(k, r1, r2);
    } else {
      DoubledOpens(s, '"', r1);
      Seqs.TailOfConcat(s, "\"" + r2);
      Seqs.HeadTail(s);
      hide Quotes;
      hide Doubled;
      var tail, more := Doubled(s[1..], '"') + "\"" + r1, s[1..] + ("\"" + r2);
      if s[0] == '"' {
        assert ['"', '"'] + tail == "\"" + ("\"" + tail);
        QuoteHead(k, tail, more);
        NotDoubled(k + 1, s[1..], r1, r2);
      } else {
        PlainHead(k, [s[0]] + tail, s[0], more);
        Seqs.Cons(s[0], tail);
        Seqs.Cons(s[0], more);
        NoQuotes(tail);
        NotDoubled(0, s[1..], r1, r2);
      }
    }
  }

  lemma NoQuotes(x: string)
    ensures Quotes(0) + x == x
  {
  }

  lemma QuoteHead(k: nat, x: string, more: string)
    requires Quotes(k) + ("\"" + ("\"" + x)) == "\"" + more
    ensures Quotes(k + 1) + x == more
  {
    QuotesSnoc(k, "\"" + x);
    QuotesSnoc(k + 1, x);
    Seqs.Assoc("\"", Quotes(k + 1), x);
    Seqs.Cons('"', Quotes(k + 1) + x);
    Seqs.Cons('"', more);
  }

  lemma FirstQuote(k: nat, x: string)
    ensures k > 0 ==> Quotes(k) + x != "" && (Quotes(k) + x)[0] == '"'
  {
  }

  lemma PlainHead(k: nat, x: string, c: char, more: string)
    requires Quotes(k) + x == [c] + more && c != '"'
    ensures k == 0 && x == [c] + more
  {
    Seqs.Cons(c, more);
    FirstQuote(k, x);
    NoQuotes(x);
  }

  /** A name read from between its quotes as it is has none inside, and is read up to its end. */
  lemma NameReadExactly(name: string, rest: string)
    requires rest != "" && rest[0] != '"'
    ensures (ReadName(Raw(name) + rest).Some? && ReadName(Raw(name) + rest).value.value == name) <==> '"' !in name
    ensures '"' !in name ==> ReadName(Raw(name) + rest) == Some(Piece(name, rest))
  {
    hide ReadQuoted;
    var s := Raw(name) + rest;
    if '"' !in name {
      NameReadsBack(name, rest);
    } else if ReadName(s).Some? && ReadName(s).value.value == name {
      var body := name + ("\"" + rest);
      assert s == "\"" + body && s[1..] == body;
      ReadIsDoubled(body, '"');
      var r1 := ReadQuoted(body, '"').value.rest;
      Seqs.Empty(Doubled(name, '"') + "\"" + r1);
      NotDoubled(0, name, r1, rest);
    }
  }

  /** The table's name reads back exactly when neither part of it holds a double quote. */
  lemma HeadReadsBack(schema: string, table: string, rest: string)
    requires rest != "" && rest[0] != '"'
    ensures var head := ReadHead(RowHead(schema, table) + rest);
      && (head.Some? && head.value.value == (schema, table) <==> '"' !in schema && '"' !in table)
      && ('"' !in schema && '"' !in table ==> head.value.rest == rest)
  {
    hide ReadName;
    var s2 := Raw(table) + rest;
    var s1 := Raw(schema) + ("." + s2);
    assert RowHead(schema, table) + rest == "INSERT INTO " + s1;
    BehindFixed("INSERT INTO ", s1);
    BehindFixed(".", s2);
    NameReadExactly(schema, "." + s2);
    NameReadExactly(table, rest);
  }

  /** A row reads back as its table, columns and values exactly when neither part of the table's name holds
      a double quote. */
  lemma RowReadsBackExactly(schema: string, table: string, cols: seq<string>, row: seq<Value>, rest: string)
    ensures ReadRow(InsertRow(schema, table, cols, row) + rest)
         == Some(Piece(Row(schema, table, cols, Cells(row)), rest))
       <==> '"' !in schema && '"' !in table
  {
    var head, tail := RowHead(schema, table), RowTail(cols, row, "\n") + rest;
    Seqs.Assoc(head, RowTail(cols, row, "\n"), rest);
    assert tail != "" && tail[0] == ' ';
    HeadReadsBack(schema, table, tail);
    TailReadsBack(cols, row, rest);
  }

  lemma WrittenReadsBack(schema: string, table: string, cols: seq<string>, row: seq<Value>, out: string)
    requires out == InsertRow(schema, table, cols, row)
    ensures |RowHead(schema, table)| <= |out|
    ensures forall rest :: ReadTail(out[|RowHead(schema, table)|..] + rest) == Some(Piece((cols, Cells(row)), rest))
    ensures '"' !in schema && '"' !in table ==>
      forall rest :: ReadRow(out + rest) == Some(Piece(Row(schema, table, cols, Cells(row)), rest))
  {
    hide ReadTail;
    hide ReadRow;
    hide RowTail;
    hide RowHead;
    var head := RowHead(schema, table);
    assert out[|head|..] == RowTail(cols, row, "\n");
    forall rest ensures ReadTail(out[|head|..] + rest) == Some(Piece((cols, Cells(row)), rest)) {
      TailReadsBack(cols, row, rest);
    }
    forall rest | '"' !in schema && '"' !in table
      ensures ReadRow(out + rest) == Some(Piece(Row(schema, table, cols, Cells(row)), rest))
    {
      RowReadsBackExactly(schema, table, cols, row, rest);
    }
  }

  /** Writes one row; the two loops render the values and the column names. */
  method WriteInsertRow(schema: string, table: string, cols: seq<string>, row: seq<Value>) returns (out: string)
    ensures out == InsertRow(schema, table, cols, row)
    ensures NamesClosed(schema, table) ==> !MultipleStatements(out)
    ensures forall rest :: ReadTail(out[|RowHead(schema, table)|..] + rest) == Some(Piece((cols, Cells(row)), rest))
    ensures '"' !in schema && '"' !in table ==>
      forall rest :: ReadRow(out + rest) == Some(Piece(Row(schema, table, cols, Cells(row)), rest))
  {
    var quoted: seq<string> := [];
    for i := 0 to |row|
      invariant quoted == Literals(row[..i])
    {
      assert Literals(row[..i + 1]) == Literals(row[..i]) + [SqlLiteral(row[i])];
      quoted := quoted + [SqlLiteral(row[i])];
    }
    var names: seq<string> := [];
    for i := 0 to |cols|
      invariant names == Names(cols[..i])
    {
      assert Names(cols[..i + 1]) == Names(cols[..i]) + [Quoted(cols[i], '"')];
      names := names + [Quoted(cols[i], '"')];
    }
    assert row[..|row|] == row && cols[..|cols|] == cols;
    out := RowHead(schema, table) + TailFormat(Join(names, ", "), Join(quoted, ", "), "\n");
    assert out == InsertRow(schema, table, cols, row);
    if NamesClosed(schema, table) {
      RowIsOneStatement(schema, table, cols, row);
    }
    WrittenReadsBack(schema, table, cols, row, out);
  }

  // ---- Files -------------------------------------------------------------------------------------

  function RowsOf(schema: string, table: string, cols: seq<string>, rows: seq<seq<Value>>): seq<Row> {
    seq(|rows|, i requires 0 <= i < |rows| => Row(schema, table, cols, Cells(rows[i])))
  }

  lemma {:induction false} ScriptReadsBack(schema: string, table: string, cols: seq<string>, rows: seq<seq<Value>>)
    requires '"' !in schema && '"' !in table
    ensures ReadRows(Script(schema, table, cols, rows)) == Some(RowsOf(schema, table, cols, rows))
    decreases |rows|
  {
    hide ReadRow;
    hide InsertRow;
    if rows == [] {
      assert RowsOf(schema, table, cols, rows) == [];
    } else {
      var first, later := InsertRow(schema, table, cols, rows[0]), Script(schema, table, cols, rows[1..]);
      RowReadsBackExactly(schema, table, cols, rows[0], later);
      RowNotEmpty(schema, table, cols, rows[0]);
      ScriptReadsBack(schema, table, cols, rows[1..]);
      assert |first + later| > |later|;
      assert RowsOf(schema, table, cols, rows)
          == [Row(schema, table, cols, Cells(rows[0]))] + RowsOf(schema, table, cols, rows[1..]);
    }
  }

  lemma RowNotEmpty(schema: string, table: string, cols: seq<string>, row: seq<Value>)
    ensures InsertRow(schema, table, cols, row) != ""
  {
  }

  /** A whole export of a table whose name holds no double quote and no line feed reads back as all its
      rows in their order. */
  lemma FileReadsBack(schema: string, table: string, stamp: string, cols: seq<string>, rows: seq<seq<Value>>)
    requires '"' !in schema && '"' !in table && '\n' !in schema && '\n' !in table && '\n' !in stamp
    ensures ReadFile(ExportFile(schema, table, stamp, cols, rows)) == Some(RowsOf(schema, table, cols, rows))
  {
    hide ReadRows;
    hide IndexOf;
    var script, header := Script(schema, table, cols, rows), ExportHeader(schema, table, stamp);
    ScriptReadsBack(schema, table, cols, rows);
    if rows != [] {
      var line := "--" + (" export of " + schema + "." + HeaderTail(table, stamp));
      hide Script;
      assert header == line + "\n" && '\n' !in line && line[..2] == "--";
      hide ExportHeader;
      hide HeaderTail;
      CommentRead(line, script);
    }
  }

  lemma CommentRead(line: string, more: string)
    requires '\n' !in line && HasPrefix(line, "--")
    ensures ReadFile(line + "\n" + more) == ReadRows(more)
  {
    hide ReadRows;
    hide IndexOf;
    var file := line + "\n" + more;
    assert file[|line|] == '\n' && file[..2] == line[..2];
    IndexOfByte(file, '\n');
    assert forall k | 0 <= k < |line| :: file[k] == line[k];
    assert IndexOf(file, "\n") == |line|;
    assert file[|line| + 1..] == more;
  }
}
