/** A whole SQL export: a comment line with the table's name, then the rows. */
module SqlFile {
  import opened Strings
  import opened SqlScan
  import opened SqlSplit
  import opened SqlExport
  import Seqs

  function Script(schema: string, table: string, cols: seq<string>, rows: seq<seq<Value>>): string {
    if rows == [] then ""
    else InsertRow(schema, table, cols, rows[0]) + Script(schema, table, cols, rows[1..])
  }

  /** How many statements the splitter terminates in a text. */
  function Terminated(s: string): nat { Scan(Plain, s).terms }

  lemma RowEndsClean(pre: string, schema: string, table: string, cols: seq<string>, row: seq<Value>, x: string)
    ensures CleanCut(pre + InsertRow(schema, table, cols, row), x)
  {
    var tail := RowTail(cols, row, "\n");
    assert tail[|tail| - 1] == '\n' by {
      TailAppends(Join(Names(cols), ", "), Join(Literals(row), ", "), "", "\n");
    }
  }

  /** Rows behind any text from which the splitter comes out of the first head in plain text: they
      end one statement each. */
  lemma {:induction false} ScriptAfter(pre: string, schema: string, table: string, cols: seq<string>,
                                       rows: seq<seq<Value>>)
    requires NamesClosed(schema, table) && rows != []
    requires Scan(Plain, pre + RowHead(schema, table)) == Run(0, Plain)
    ensures Scan(Plain, pre + Script(schema, table, cols, rows)) == Run(|rows|, Plain)
    decreases |rows|
  {
    hide Scan;
    hide InsertRow;
    hide RowHead;
    var first, rest := InsertRow(schema, table, cols, rows[0]), Script(schema, table, cols, rows[1..]);
    RowAfter(pre, schema, table, cols, rows[0]);
    Seqs.Assoc(pre, first, rest);
    RowEndsClean(pre, schema, table, cols, rows[0], rest);
    ScanOn(Plain, pre + first, rest);
    if rows[1..] == [] {
      NothingScanned();
    } else {
      Seqs.Empty(RowHead(schema, table));
      ScriptAfter("", schema, table, cols, rows[1..]);
      Seqs.Empty(rest);
    }
  }

  lemma NothingScanned()
    ensures Scan(Plain, "") == Run(0, Plain)
  {
  }

  /** Rows for closed names hold exactly one statement each. */
  lemma OneStatementPerRow(schema: string, table: string, cols: seq<string>, rows: seq<seq<Value>>)
    requires NamesClosed(schema, table)
    ensures Terminated(Script(schema, table, cols, rows)) == |rows|
  {
    hide Scan;
    if rows == [] {
      NothingScanned();
    } else {
      Seqs.Empty(RowHead(schema, table));
      ScriptAfter("", schema, table, cols, rows);
      Seqs.Empty(Script(schema, table, cols, rows));
    }
  }

  // ---- The header ---------------------------------------------------------------------------

  function HeaderTail(table: string, stamp: string): string { table + ", generated " + stamp }

  /** A comment line with the unescaped names, written before the first row. */
  function ExportHeader(schema: string, table: string, stamp: string): string {
    "--" + (" export of " + schema + "." + HeaderTail(table, stamp)) + "\n"
  }

  function ExportFile(schema: string, table: string, stamp: string, cols: seq<string>, rows: seq<seq<Value>>): string {
    if rows == [] then "" else ExportHeader(schema, table, stamp) + Script(schema, table, cols, rows)
  }

  /** What of the header lies outside its comment: the text behind its first line feed. */
  function HeaderRest(schema: string, table: string, stamp: string): string {
    var h := ExportHeader(schema, table, stamp);
    h[IndexOf(h, "\n") + 1..]
  }

  /** The splitter, run from plain text over what is left of the header and over the head of the first
      row, meets no terminator and is back in plain text; and so over the head of a later row. */
  predicate FileClosed(schema: string, table: string, stamp: string) {
    && NamesClosed(schema, table)
    && Scan(Plain, HeaderRest(schema, table, stamp) + RowHead(schema, table)) == Run(0, Plain)
  }

  lemma CommentLineSkipped(h: string, x: string)
    requires HasPrefix(h, "--") && IndexOf(h, "\n") >= 0
    ensures AfterTerminator(Plain, h + x) == AfterTerminator(Plain, h[IndexOf(h, "\n") + 1..] + x)
  {
    hide AfterTerminator;
    hide IndexOf;
    var s, i := h + x, IndexOf(h, "\n");
    assert s[0..] == s && s[0] == h[..2][0] && s[1] == h[..2][1] && h[0] == '-' && h[1] == '-';
    assert h[i..i + 1][0] == h[i];
    LineCommentStep(s, 0);
    IndexOfExtends(h, x, "\n");
    DropIndexOf(s, "\n", 2);
    Seqs.DropOfConcat(h, x, i + 1);
  }

  lemma SameScan(s: string, t: string)
    requires AfterTerminator(Plain, s) == AfterTerminator(Plain, t)
    ensures Scan(Plain, s) == Scan(Plain, t)
  {
  }

  lemma HeaderSkipped(schema: string, table: string, stamp: string, x: string)
    ensures Scan(Plain, ExportHeader(schema, table, stamp) + x) == Scan(Plain, HeaderRest(schema, table, stamp) + x)
  {
    hide AfterTerminator;
    hide Scan;
    hide IndexOf;
    var h := ExportHeader(schema, table, stamp);
    assert h[..2] == "--" && h[|h| - 1] == '\n';
    IndexOfByte(h, '\n');
    CommentLineSkipped(h, x);
    SameScan(h + x, HeaderRest(schema, table, stamp) + x);
  }

  /** A whole export of n rows holds n statements for every choice of columns and rows exactly when its
      names leave the splitter in plain text. */
  lemma FileCountExactly(schema: string, table: string, stamp: string)
    ensures (forall cols, rows :: Terminated(ExportFile(schema, table, stamp, cols, rows)) == |rows|)
       <==> FileClosed(schema, table, stamp)
  {
    hide Terminated;
    hide ExportFile;
    if FileClosed(schema, table, stamp) {
      forall cols, rows ensures Terminated(ExportFile(schema, table, stamp, cols, rows)) == |rows| {
        FileHoldsItsRows(schema, table, stamp, cols, rows);
      }
    } else {
      var cols, rows := BadFile(schema, table, stamp);
      assert Terminated(ExportFile(schema, table, stamp, cols, rows)) != |rows|;
    }
  }

  lemma FileHoldsItsRows(schema: string, table: string, stamp: string, cols: seq<string>, rows: seq<seq<Value>>)
    requires FileClosed(schema, table, stamp)
    ensures Terminated(ExportFile(schema, table, stamp, cols, rows)) == |rows|
  {
    hide Scan;
    hide Script;
    hide HeaderRest;
    hide ExportHeader;
    if rows == [] {
      NothingScanned();
    } else {
      HeaderSkipped(schema, table, stamp, Script(schema, table, cols, rows));
      ScriptAfter(HeaderRest(schema, table, stamp), schema, table, cols, rows);
    }
  }

  /** A file that does not hold what its rows say: one row is enough when the header spills over, and
      two when the names do. */
  lemma BadFile(schema: string, table: string, stamp: string) returns (cols: seq<string>, rows: seq<seq<Value>>)
    requires !FileClosed(schema, table, stamp)
    ensures Terminated(ExportFile(schema, table, stamp, cols, rows)) != |rows|
  {
    hide Scan;
    hide HeaderRest;
    hide ExportHeader;
    hide InsertRow;
    var pre := HeaderRest(schema, table, stamp);
    if Scan(Plain, pre + RowHead(schema, table)) != Run(0, Plain) {
      cols := BadRow(pre, schema, table);
      rows := [[]];
      OneRowScript(schema, table, cols, []);
      HeaderSkipped(schema, table, stamp, Script(schema, table, cols, rows));
    } else {
      Seqs.Empty(RowHead(schema, table));
      cols := BadRow("", schema, table);
      rows := [[], []];
      TwoRowFile(pre, schema, table, cols);
      HeaderSkipped(schema, table, stamp, Script(schema, table, cols, rows));
    }
  }

  lemma OneRowScript(schema: string, table: string, cols: seq<string>, row: seq<Value>)
    ensures Script(schema, table, cols, [row]) == InsertRow(schema, table, cols, row)
  {
    hide InsertRow;
    assert [row][1..] == [];
    Seqs.Empty(InsertRow(schema, table, cols, row));
  }

  /** Behind a text that leaves the splitter elsewhere, some row does not add exactly one statement. */
  lemma BadRow(pre: string, schema: string, table: string) returns (cols: seq<string>)
    requires Scan(Plain, pre + RowHead(schema, table)) != Run(0, Plain)
    ensures Scan(Plain, pre + InsertRow(schema, table, cols, [])).terms != 1
  {
    hide Scan;
    hide InsertRow;
    hide RowHead;
    var m := Scan(Plain, pre + RowHead(schema, table)).mode;
    if m == Plain {
      cols := [];
      RowAfter(pre, schema, table, cols, []);
    } else {
      cols := [BreakingName(m)];
      RowBroken(pre, schema, table, []);
    }
  }

  lemma TwoRowFile(pre: string, schema: string, table: string, cols: seq<string>)
    requires Scan(Plain, pre + RowHead(schema, table)) == Run(0, Plain)
    requires Scan(Plain, "" + InsertRow(schema, table, cols, [])).terms != 1
    ensures Scan(Plain, pre + Script(schema, table, cols, [[], []])).terms != 2
  {
    hide Scan;
    hide InsertRow;
    hide RowHead;
    var row := InsertRow(schema, table, cols, []);
    var rows: seq<seq<Value>> := [[], []];
    assert rows[1..] == [[]];
    OneRowScript(schema, table, cols, []);
    Seqs.Empty(row);
    Seqs.Assoc(pre, row, row);
    RowAfter(pre, schema, table, cols, []);
    RowEndsClean(pre, schema, table, cols, [], row);
    ScanOn(Plain, pre + row, row);
  }

  /** In particular names without double quotes and line feeds. */
  lemma PlainNamesClosed(schema: string, table: string, stamp: string)
    requires '"' !in schema && '"' !in table && '\n' !in schema && '\n' !in table && '\n' !in stamp
    ensures FileClosed(schema, table, stamp)
  {
    hide Scan;
    QuotelessNamesClosed(schema, table);
    var h := ExportHeader(schema, table, stamp);
    var line := "--" + (" export of " + schema + "." + HeaderTail(table, stamp));
    assert h == line + "\n" && '\n' !in line;
    hide IndexOf;
    IndexOfByte(h, '\n');
    assert IndexOf(h, "\n") == |h| - 1 by {
      assert h[|h| - 1] == '\n';
      assert forall k | 0 <= k < |line| :: h[k] == line[k];
    }
    assert HeaderRest(schema, table, stamp) == "";
    Seqs.Empty(RowHead(schema, table));
  }

  lemma CommentLine(line: string, x: string)
    requires '\n' !in line
    ensures AfterTerminator(Plain, "--" + line + "\n" + x) == AfterTerminator(Plain, x)
  {
    hide AfterTerminator;
    hide IndexOf;
    var h := "--" + line + "\n";
    assert h[..2] == "--";
    IndexOfByte(h, '\n');
    assert h[|h| - 1] == '\n' && forall k | 0 <= k < |h| - 1 :: h[k] == if k < 2 then '-' else line[k - 2];
    CommentLineSkipped(h, x);
    assert h[|h|..] + x == x;
  }

  /** A line feed alone does no harm; a terminator behind it does, in every export that has a row. */
  lemma LineFeedInName(mark: string, schema: string, stamp: string, cols: seq<string>, rows: seq<seq<Value>>)
    requires '"' !in schema && '\n' !in schema && Inert(stamp) && rows != [] && (mark == "" || mark == ";")
    ensures Terminated(ExportFile(schema, "a\n" + mark + "b", stamp, cols, rows)) == |rows| + |mark|
  {
    hide Script;
    hide AfterTerminator;
    var table := "a\n" + mark + "b";
    var script := Script(schema, table, cols, rows);
    QuotelessNamesClosed(schema, table);
    OneStatementPerRow(schema, table, cols, rows);
    FileOf(mark, schema, stamp, script);
    hide ExportHeader;
    var tail := "b, generated " + (stamp + ("\n" + script));
    CommentLine(" export of " + schema + ".a", mark + tail);
    InertSkipped("b, generated ", stamp + ("\n" + script));
    InertSkipped(stamp, "\n" + script);
    InertSkipped("\n", script);
    SameScan(tail, script);
    if mark == "" {
      Seqs.Empty(tail);
    } else {
      PlainTerminator(tail);
    }
  }

  lemma FileOf(mark: string, schema: string, stamp: string, script: string)
    ensures ExportHeader(schema, "a\n" + mark + "b", stamp) + script
         == "--" + (" export of " + schema + ".a") + "\n" + (mark + ("b, generated " + (stamp + ("\n" + script))))
  {
    var r := " export of " + schema;
    assert r + "." + HeaderTail("a\n" + mark + "b", stamp) == r + ".a" + ("\n" + (mark + ("b, generated " + stamp)));
    assert "--" + (r + ".a" + ("\n" + (mark + ("b, generated " + stamp)))) + "\n" + script
        == "--" + (r + ".a") + "\n" + (mark + ("b, generated " + (stamp + ("\n" + script))));
  }
}
