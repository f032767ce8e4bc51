/** SQL export: literals and INSERT rows, and what the scanners make of them. */
module SqlExport {
  import opened Results
  import opened Strings
  import opened SqlRead
  import opened SqlScan
  import opened SqlStrip
  import opened SqlSplit
  import Decimals
  import Seqs

  /** What holds of the text of printed numbers: no quotes, no terminator, no comment opening, and a
      minus sign only in front of a digit or letter. */
  predicate Inert(t: string) {
    forall i | 0 <= i < |t| :: InertAt(t, i)
  }

  predicate InertAt(t: string, i: int)
    requires 0 <= i < |t|
  {
    && Opened(t[i]).None? && t[i] != ';' && t[i] != '/'
    && (t[i] == '-' ==> i + 1 < |t| && t[i + 1] != '-')
  }

  /** Printed numbers consist of digits, signs, points and exponents, or spell NaN or Inf. */
  type NumberText = t: string | t != "" && Inert(t) && forall i | 0 <= i < |t| :: IsNumberByte(t[i]) witness "0"

  datatype Value = Null | Bool(b: bool) | Int(n: int) | Float(text: NumberText) | Text(s: string)
    | Json(encoded: string)

  function Quoted(s: string, q: char): string {
    [q] + Doubled(s, q) + [q]
  }

  function IntText(n: int): string {
    if n < 0 then "-" + Decimals.Decimal(-n) else Decimals.Decimal(n)
  }

  function SqlLiteral(v: Value): string {
    match v
    case Null => "NULL"
    case Bool(b) => if b then "TRUE" else "FALSE"
    case Int(n) => IntText(n)
    case Float(t) => t
    case Text(s) => Quoted(s, '\'')
    case Json(s) => Quoted(s, '\'')
  }

  function Literals(row: seq<Value>): seq<string> {
    seq(|row|, i requires 0 <= i < |row| => SqlLiteral(row[i]))
  }

  function Names(cols: seq<string>): seq<string> {
    seq(|cols|, i requires 0 <= i < |cols| => Quoted(cols[i], '"'))
  }

  function Raw(name: string): string { "\"" + name + "\"" }

  /** The two table names as they stand in a row: between quotes, but not escaped. */
  function NamesText(schema: string, table: string): string { Raw(schema) + "." + Raw(table) }

  function RowHead(schema: string, table: string): string { "INSERT INTO " + NamesText(schema, table) }

  /** The rest of a row, followed by whatever comes next in the stream. */
  function TailFormat(names: string, values: string, rest: string): string {
    " (" + (names + (") VALUES (" + (values + (")" + (";" + rest)))))
  }

  function RowTail(cols: seq<string>, row: seq<Value>, rest: string): string {
    TailFormat(Join(Names(cols), ", "), Join(Literals(row), ", "), rest)
  }

  function InsertRow(schema: string, table: string, cols: seq<string>, row: seq<Value>): string {
    RowHead(schema, table) + RowTail(cols, row, "\n")
  }

  lemma TailAppends(names: string, values: string, a: string, b: string)
    ensures TailFormat(names, values, a) + b == TailFormat(names, values, a + b)
  {
    Seqs.Assoc(";", a, b);
    var t := ";" + a;
    Seqs.Assoc(")", t, b);
    t := ")" + t;
    Seqs.Assoc(values, t, b);
    t := values + t;
    Seqs.Assoc(") VALUES (", t, b);
    t := ") VALUES (" + t;
    Seqs.Assoc(names, t, b);
    t := names + t;
    Seqs.Assoc(" (", t, b);
  }

  // ---- Literals as the keyword scan sees them -----------------------------------------------

  lemma QuotedOpens(s: string, q: char, rest: string)
    ensures Quoted(s, q) + rest == [q] + (Doubled(s, q) + [q] + rest)
    ensures |Quoted(s, q)| == |Doubled(s, q)| + 2
  {
    hide Doubled;
  }

  lemma BlanksPrepend(n: nat, rest: string)
    ensures " " + (Blanks(n) + rest) == Blanks(n + 1) + rest
    ensures "  " + (Blanks(n) + rest) == Blanks(n + 2) + rest
  {
    assert Blanks(n + 1) == " " + Blanks(n) && Blanks(n + 2) == " " + Blanks(n + 1);
    assert "  " + Blanks(n) == Blanks(n + 2);
  }

  lemma QuotedStepBlanked(m: Mode, c: char, body: string)
    requires m.Single? || m.Double? || m.Backtick?
    ensures c != QuoteOf(m) ==> Blanked(m, [c] + body) == " " + Blanked(m, body)
    ensures Blanked(m, [QuoteOf(m), QuoteOf(m)] + body) == "  " + Blanked(m, body)
    ensures body == [] || body[0] != QuoteOf(m) ==> Blanked(m, [QuoteOf(m)] + body) == " " + Blanked(Plain, body)
  {
    assert ([c] + body)[1..] == body && ([QuoteOf(m)] + body)[1..] == body;
    assert ([QuoteOf(m), QuoteOf(m)] + body)[2..] == body;
  }

  lemma DoubledSplits(s: string, q: char, rest: string)
    requires s != []
    ensures Doubled(s, q) + [q] + rest
            == (if s[0] == q then [q, q] else [s[0]]) + (Doubled(s[1..], q) + [q] + rest)
    ensures |Doubled(s, q)| == |Doubled(s[1..], q)| + if s[0] == q then 2 else 1
  {
  }

  lemma NothingDoubled(q: char, rest: string)
    ensures Doubled("", q) == "" && Doubled("", q) + [q] + rest == [q] + rest
  {
  }

  lemma OneBlank()
    ensures Blanks(1) == " "
  {
    assert Blanks(0) == "";
  }

  lemma {:induction false} QuotedBodyBlanked(m: Mode, s: string, rest: string)
    requires m.Single? || m.Double? || m.Backtick?
    requires rest == [] || rest[0] != QuoteOf(m)
    ensures Blanked(m, Doubled(s, QuoteOf(m)) + [QuoteOf(m)] + rest)
            == Blanks(|Doubled(s, QuoteOf(m))| + 1) + Blanked(Plain, rest)
    decreases s
  {
    hide Blanked;
    hide Blanks;
    hide Doubled;
    var q := QuoteOf(m);
    if s == [] {
      NothingDoubled(q, rest);
      QuotedStepBlanked(m, q, rest);
      OneBlank();
    } else {
      var tail, n := Doubled(s[1..], q) + [q] + rest, |Doubled(s[1..], q)| + 1;
      var head := if s[0] == q then [q, q] else [s[0]];
      calc {
        Blanked(m, Doubled(s, q) + [q] + rest);
        { DoubledSplits(s, q, rest); }
        Blanked(m, head + tail);
        { QuotedStepBlanked(m, s[0], tail); }
        (if s[0] == q then "  " else " ") + Blanked(m, tail);
        { QuotedBodyBlanked(m, s[1..], rest); }
        (if s[0] == q then "  " else " ") + (Blanks(n) + Blanked(Plain, rest));
        { BlanksPrepend(n, Blanked(Plain, rest)); }
        Blanks(n + |head|) + Blanked(Plain, rest);
        { DoubledSplits(s, q, rest); }
        Blanks(|Doubled(s, q)| + 1) + Blanked(Plain, rest);
      }
    }
  }

  /** The keyword scan turns any quoted string into exactly as many blanks as it has bytes and goes
      on in its default state; so nothing inside a literal is ever seen as a keyword. */
  lemma LiteralBlanked(m: Mode, s: string, rest: string)
    requires m.Single? || m.Double? || m.Backtick?
    requires rest == [] || rest[0] != QuoteOf(m)
    ensures Blanked(Plain, Quoted(s, QuoteOf(m)) + rest) == Blanks(|Quoted(s, QuoteOf(m))|) + Blanked(Plain, rest)
  {
    hide Blanked;
    hide Blanks;
    hide Doubled;
    var q := QuoteOf(m);
    QuotedOpens(s, q, rest);
    hide Quoted;
    var body, n := Doubled(s, q) + [q] + rest, |Doubled(s, q)| + 1;
    OpenQuoteBlanked(m, body);
    QuotedBodyBlanked(m, s, rest);
    BlanksPrepend(n, Blanked(Plain, rest));
  }

  /** The scan leaves no quote of any kind behind. */
  lemma {:induction false} NoQuotesLeft(m: Mode, s: string)
    ensures forall c | c in Blanked(m, s) :: c != '\'' && c != '"' && c != '`'
    decreases |s|, m == Line
  {
    if s != [] {
      match m {
        case Plain =>
          if HasPrefix(s, "--") {
            NoQuotesLeft(Line, s[2..]);
          } else if HasPrefix(s, "/*") {
            NoQuotesLeft(Block, s[1..]);
          } else {
            NoQuotesLeft(if Opened(s[0]).Some? then Opened(s[0]).value else Plain, s[1..]);
          }
        case Line =>
          NoQuotesLeft(if s[0] == '\n' then Plain else Line, if s[0] == '\n' then s else s[1..]);
        case Block =>
          if |s| > 1 {
            NoQuotesLeft(Plain, s[2..]);
            NoQuotesLeft(Block, s[1..]);
          }
        case _ =>
          NoQuotesLeft(m, s[1..]);
          NoQuotesLeft(Plain, s[1..]);
          if |s| > 1 {
            NoQuotesLeft(m, s[2..]);
          }
      }
    }
  }

  // ---- Rows as the statement splitter sees them ---------------------------------------------

  lemma InertTail(t: string)
    requires Inert(t) && t != []
    ensures Inert(t[1..])
    ensures t[0] == '-' ==> |t| > 1 && t[1] != '-'
  {
    assert InertAt(t, 0);
    forall i | 0 <= i < |t[1..]| ensures InertAt(t[1..], i) {
      assert InertAt(t, i + 1);
    }
  }

  lemma {:induction false} InertSkipped(t: string, rest: string)
    requires Inert(t)
    ensures AfterTerminator(Plain, t + rest) == AfterTerminator(Plain, rest)
  {
    hide AfterTerminator;
    if t == [] {
      Seqs.Empty(rest);
    } else {
      var tail := t[1..];
      InertTail(t);
      assert InertAt(t, 0);
      assert |t| > 1 ==> (tail + rest)[0] == t[1];
      PlainByte(t[0], tail + rest);
      InertSkipped(tail, rest);
      Seqs.TailOfConcat(t, rest);
    }
  }

  lemma ByteTo(m: Mode, c: char, z: string, next: Mode)
    requires StepOf(m, [c] + z) == Go(1, next)
    ensures AfterTerminator(m, [c] + z) == AfterTerminator(next, z)
  {
    assert ([c] + z)[1..] == z;
  }

  /** A quote closes its string, or, doubled, closes and reopens it. */
  lemma QuoteEnds(m: Mode, z: string)
    requires m.Single? || m.Double? || m.Backtick?
    ensures AfterTerminator(m, [QuoteOf(m)] + z) == AfterTerminator(Plain, z)
  {
    var s := [QuoteOf(m)] + z;
    assert s[0] == QuoteOf(m) && (z != "" ==> s[1] == z[0]);
    if m == Single && z != "" && z[0] == '\'' {
      ClosedAndReopened(z);
    } else {
      ByteTo(m, QuoteOf(m), z, Plain);
    }
  }

  lemma PairStays(m: Mode, z: string)
    requires m.Single? || m.Double? || m.Backtick?
    ensures AfterTerminator(m, [QuoteOf(m), QuoteOf(m)] + z) == AfterTerminator(m, z)
  {
    hide AfterTerminator;
    var q := QuoteOf(m);
    assert [q, q] + z == [q] + ([q] + z);
    QuoteEnds(m, [q] + z);
    OpenQuote(m, z);
  }

  lemma {:induction false} QuotedBodySkipped(m: Mode, s: string, rest: string)
    requires m.Single? || m.Double? || m.Backtick?
    ensures AfterTerminator(m, Doubled(s, QuoteOf(m)) + [QuoteOf(m)] + rest) == AfterTerminator(Plain, rest)
    decreases |s|
  {
    hide AfterTerminator;
    var q := QuoteOf(m);
    if s == [] {
      assert Doubled(s, q) + [q] + rest == [q] + rest;
      QuoteEnds(m, rest);
    } else {
      var tail := Doubled(s[1..], q) + [q] + rest;
      DoubledSplits(s, q, rest);
      hide Doubled;
      if s[0] == q {
        PairStays(m, tail);
      } else {
        QuotedByte(m, [s[0]] + tail);
        assert ([s[0]] + tail)[1..] == tail;
      }
      QuotedBodySkipped(m, s[1..], rest);
    }
  }

  /** Any quoted string is one closed token for the splitter. */
  lemma QuotedSkipped(m: Mode, s: string, rest: string)
    requires m.Single? || m.Double? || m.Backtick?
    ensures AfterTerminator(Plain, Quoted(s, QuoteOf(m)) + rest) == AfterTerminator(Plain, rest)
  {
    hide AfterTerminator;
    hide Doubled;
    var q := QuoteOf(m);
    QuotedBodySkipped(m, s, rest);
    OpenQuote(m, Doubled(s, q) + [q] + rest);
    QuotedOpens(s, q, rest);
  }

  lemma {:induction false} UnquotedNameUnchanged(s: string)
    requires '"' !in s
    ensures Doubled(s, '"') == s
  {
    if s != [] {
      UnquotedNameUnchanged(s[1..]);
      assert s == [s[0]] + s[1..];
    }
  }

  lemma DecimalInert(n: nat)
    ensures Inert(Decimals.Decimal(n)) && Inert("-" + Decimals.Decimal(n))
  {
    var d := Decimals.Decimal(n);
    forall i | 0 <= i < |d| ensures '0' <= d[i] <= '9' && InertAt(d, i) {
      assert d[i] in d;
    }
    var t := "-" + d;
    forall i | 0 <= i < |t| ensures InertAt(t, i) {
      assert i > 0 ==> t[i] == d[i - 1];
      assert t[1] == d[0];
    }
  }

  lemma WordsInert()
    ensures Inert("NULL") && Inert("TRUE") && Inert("FALSE")
  {
  }

  /** The statement splitter reads any literal as one closed token. */
  lemma LiteralSkipped(v: Value, rest: string)
    ensures AfterTerminator(Plain, SqlLiteral(v) + rest) == AfterTerminator(Plain, rest)
  {
    hide AfterTerminator;
    hide Quoted;
    hide Inert;
    WordsInert();
    match v {
      case Null => InertSkipped("NULL", rest);
      case Bool(b) => InertSkipped(SqlLiteral(v), rest);
      case Int(n) =>
        DecimalInert(if n < 0 then -n else n);
        InertSkipped(IntText(n), rest);
      case Float(t) => InertSkipped(t, rest);
      case Text(s) => QuotedSkipped(Single, s, rest);
      case Json(s) => QuotedSkipped(Single, s, rest);
    }
  }

  lemma {:induction false} LiteralsSkipped(row: seq<Value>, rest: string)
    ensures AfterTerminator(Plain, Join(Literals(row), ", ") + rest) == AfterTerminator(Plain, rest)
  {
    hide AfterTerminator;
    hide SqlLiteral;
    if row == [] {
      assert "" + rest == rest;
    } else if |row| == 1 {
      LiteralSkipped(row[0], rest);
    } else {
      assert Literals(row)[1..] == Literals(row[1..]);
      var tail := Join(Literals(row[1..]), ", ") + rest;
      assert Join(Literals(row), ", ") + rest == SqlLiteral(row[0]) + (", " + tail);
      LiteralSkipped(row[0], ", " + tail);
      InertSkipped(", ", tail);
      LiteralsSkipped(row[1..], rest);
    }
  }

  lemma {:induction false} NamesSkipped(cols: seq<string>, rest: string)
    ensures AfterTerminator(Plain, Join(Names(cols), ", ") + rest) == AfterTerminator(Plain, rest)
  {
    hide AfterTerminator;
    if cols == [] {
      assert "" + rest == rest;
    } else if |cols| == 1 {
      QuotedSkipped(Double, cols[0], rest);
    } else {
      assert Names(cols)[1..] == Names(cols[1..]);
      var tail := Join(Names(cols[1..]), ", ") + rest;
      assert Join(Names(cols), ", ") + rest == Quoted(cols[0], '"') + (", " + tail);
      QuotedSkipped(Double, cols[0], ", " + tail);
      InertSkipped(", ", tail);
      NamesSkipped(cols[1..], rest);
    }
  }

  lemma RawIsQuoted(name: string)
    requires '"' !in name
    ensures Raw(name) == Quoted(name, '"')
  {
    UnquotedNameUnchanged(name);
  }

  lemma TailTerminates(cols: seq<string>, row: seq<Value>, rest: string)
    ensures AfterTerminator(Plain, RowTail(cols, row, rest)) == Hit(rest)
  {
    hide AfterTerminator;
    hide Join;
    var e := ";" + rest;
    PlainTerminator(rest);
    InertSkipped(")", e);
    e := ")" + e;
    LiteralsSkipped(row, e);
    e := Join(Literals(row), ", ") + e;
    InertSkipped(") VALUES (", e);
    e := ") VALUES (" + e;
    NamesSkipped(cols, e);
    e := Join(Names(cols), ", ") + e;
    InertSkipped(" (", e);
  }

  // ---- Which names are safe -----------------------------------------------------------------

  /** The splitter, run over the two names as they stand in a row, meets no terminator and is back in
      plain text. */
  predicate NamesClosed(schema: string, table: string) {
    Scan(Plain, RowHead(schema, table)) == Run(0, Plain)
  }

  /** The fixed words in front of the names do not matter. */
  lemma OnlyNamesMatter(schema: string, table: string)
    ensures NamesClosed(schema, table) <==> Scan(Plain, NamesText(schema, table)) == Run(0, Plain)
  {
    hide AfterTerminator;
    hide NamesText;
    InertSkipped("INSERT INTO ", NamesText(schema, table));
  }

  lemma QuotelessNamesClosed(schema: string, table: string)
    requires '"' !in schema && '"' !in table
    ensures NamesClosed(schema, table)
  {
    hide AfterTerminator;
    RawIsQuoted(schema);
    RawIsQuoted(table);
    hide Quoted;
    Seqs.Empty(Raw(table));
    QuotedSkipped(Double, table, "");
    InertSkipped(".", Raw(table));
    QuotedSkipped(Double, schema, "." + Raw(table));
    hide Raw;
    Seqs.Assoc(Raw(schema), ".", Raw(table));
    InertSkipped("INSERT INTO ", NamesText(schema, table));
    NoTerminatorAtEnd("");
    assert ""[0..] == "";
  }

  lemma HeadEndsInQuote(pre: string, schema: string, table: string, x: string)
    ensures CleanCut(pre + RowHead(schema, table), x)
  {
    var h := RowHead(schema, table);
    assert h[|h| - 1] == '"';
  }

  /** The first terminator the splitter finds in an exported row is the row's own, whatever the
      values and column names hold and whatever follows. */
  lemma RowTerminatesItself(schema: string, table: string, cols: seq<string>, row: seq<Value>, rest: string)
    requires NamesClosed(schema, table)
    ensures AfterTerminator(Plain, InsertRow(schema, table, cols, row) + rest) == Hit("\n" + rest)
  {
    hide AfterTerminator;
    hide RowHead;
    var head, tail := RowHead(schema, table), RowTail(cols, row, "\n" + rest);
    TailAppends(Join(Names(cols), ", "), Join(Literals(row), ", "), "\n", rest);
    Seqs.Assoc(head, RowTail(cols, row, "\n"), rest);
    HeadEndsInQuote("", schema, table, tail);
    Seqs.Empty(head);
    Continue(Plain, head, tail);
    TailTerminates(cols, row, "\n" + rest);
  }

  /** Hence an exported row is a single statement. */
  lemma RowIsOneStatement(schema: string, table: string, cols: seq<string>, row: seq<Value>)
    requires NamesClosed(schema, table)
    ensures !MultipleStatements(InsertRow(schema, table, cols, row))
  {
    hide AfterTerminator;
    hide OnlyGaps;
    var text := InsertRow(schema, table, cols, row);
    RowTerminatesItself(schema, table, cols, row, "");
    Seqs.Empty(text);
    Seqs.Empty("\n");
    AllSpaceStrips("\n");
    NothingLeft("\n");
  }

  /** Text that starts visibly is not stripped away. */
  lemma VisibleFirst(s: string)
    requires s != "" && !IsSpace(s[0]) && s[0] != '-' && s[0] != '/'
    ensures StripLeading(s) != ""
  {
    assert !HasPrefix(s, "--") && !HasPrefix(s, "/*") by {
      assert |s| > 1 ==> s[..2][0] == s[0];
    }
    PlainStrips(s);
    hide StripLeading;
    hide TrimSpace;
    TrimsToNothing(s);
    assert s[0] in s;
  }

  // ---- Names that break a row ---------------------------------------------------------------

  /** What ends a mode that a row's head has left open. */
  function Closer(m: Mode): string {
    match m
    case Single => "'"
    case Backtick => "`"
    case Line => "\n"
    case Block => "*/"
    case _ => ""
  }

  lemma OpenByte(m: Mode, c: char, z: string)
    requires m != Plain && Opened(c).None? && c != '\n' && c != '*'
    ensures AfterTerminator(m, [c] + z) == AfterTerminator(m, z)
  {
    var s := [c] + z;
    assert s[0] == c && (|s| > 1 ==> s[..2][0] == c);
    ByteTo(m, c, z, m);
  }

  /** The bytes between the head and the first column name: they only move a double quote on. */
  lemma ToColumn(m: Mode, z: string)
    requires m != Plain
    ensures AfterTerminator(m, " (\"" + z) == AfterTerminator(if m == Double then Plain else m, z)
  {
    hide AfterTerminator;
    assert " (\"" + z == " " + ("(" + ("\"" + z));
    OpenByte(m, ' ', "(" + ("\"" + z));
    OpenByte(m, '(', "\"" + z);
    if m == Double {
      QuoteEnds(m, z);
    } else {
      var s := "\"" + z;
      assert s[0] == '"' && (|s| > 1 ==> s[..2][0] == '"');
      ByteTo(m, '"', z, m);
    }
  }

  lemma CloserCloses(m: Mode, z: string)
    requires m != Plain && z != "" && z[0] != '\''
    ensures AfterTerminator(if m == Double then Plain else m, Closer(m) + z) == AfterTerminator(Plain, z)
  {
    hide AfterTerminator;
    var s := Closer(m) + z;
    if m == Double {
      Seqs.Empty(z);
    } else if m == Block {
      BlockCloses(z);
    } else {
      assert s[0] == Closer(m)[0] && s[1] == z[0];
      assert s == [Closer(m)[0]] + z;
      ByteTo(m, Closer(m)[0], z, Plain);
    }
  }

  lemma BlockCloses(z: string)
    ensures AfterTerminator(Block, "*/" + z) == AfterTerminator(Plain, z)
  {
    var s := "*/" + z;
    assert s[..2] == "*/" && s[2..] == z;
    assert StepOf(Block, s) == Go(2, Plain);
  }

  /** A column name that closes what the head has left open, and then ends the statement twice. */
  function BreakingName(m: Mode): string { Closer(m) + ";;" }

  lemma OneColumn(name: string, row: seq<Value>, rest: string) returns (more: string)
    requires '"' !in name
    ensures RowTail([name], row, rest) == " (\"" + (name + more)
  {
    UnquotedNameUnchanged(name);
    assert Names([name]) == [Quoted(name, '"')];
    assert Join(Names([name]), ", ") == "\"" + name + "\"";
    hide Join;
    hide Literals;
    var after := ") VALUES (" + (Join(Literals(row), ", ") + (")" + (";" + rest)));
    more := "\"" + after;
    assert "\"" + name + "\"" + after == "\"" + (name + more);
    assert " (" + ("\"" + (name + more)) == " (\"" + (name + more);
  }

  /** From any open mode such a column makes the row end two statements. */
  lemma BrokenTail(m: Mode, row: seq<Value>, rest: string)
    requires m != Plain
    ensures var v := AfterTerminator(m, RowTail([BreakingName(m)], row, rest));
      v.Hit? && v.rest != "" && v.rest[0] == ';'
    ensures Scan(m, RowTail([BreakingName(m)], row, rest)).terms >= 2
  {
    hide AfterTerminator;
    hide Closer;
    var name := BreakingName(m);
    assert '"' !in name by {
      NoQuoteInCloser(m);
    }
    var more := OneColumn(name, row, rest);
    assert name + more == Closer(m) + (";" + (";" + more));
    ToColumn(m, name + more);
    CloserCloses(m, ";" + (";" + more));
    PlainTerminator(";" + more);
    PlainTerminator(more);
  }

  lemma NoQuoteInCloser(m: Mode)
    ensures '"' !in Closer(m)
  {
  }

  /** A row behind any text, when the splitter comes out of its head in plain text. */
  lemma RowAfter(pre: string, schema: string, table: string, cols: seq<string>, row: seq<Value>)
    requires Scan(Plain, pre + RowHead(schema, table)).mode == Plain
    ensures Scan(Plain, pre + InsertRow(schema, table, cols, row))
         == Run(Scan(Plain, pre + RowHead(schema, table)).terms + 1, Plain)
  {
    hide AfterTerminator;
    hide RowHead;
    var head, tail := pre + RowHead(schema, table), RowTail(cols, row, "\n");
    Seqs.Assoc(pre, RowHead(schema, table), tail);
    HeadEndsInQuote(pre, schema, table, tail);
    ScanOn(Plain, head, tail);
    TailTerminates(cols, row, "\n");
    LineFeedScans();
  }

  lemma LineFeedScans()
    ensures Scan(Plain, "\n") == Run(0, Plain)
  {
    assert "\n"[1..] == "";
  }

  /** And when it does not. */
  lemma RowBroken(pre: string, schema: string, table: string, row: seq<Value>)
    requires Scan(Plain, pre + RowHead(schema, table)).mode != Plain
    ensures var name := BreakingName(Scan(Plain, pre + RowHead(schema, table)).mode);
      Scan(Plain, pre + InsertRow(schema, table, [name], row)).terms >= 2
  {
    hide AfterTerminator;
    hide RowHead;
    hide BreakingName;
    hide RowTail;
    var head := pre + RowHead(schema, table);
    var m := Scan(Plain, head).mode;
    var tail := RowTail([BreakingName(m)], row, "\n");
    Seqs.Assoc(pre, RowHead(schema, table), tail);
    HeadEndsInQuote(pre, schema, table, tail);
    ScanOn(Plain, head, tail);
    BrokenTail(m, row, "\n");
  }

  /** Whatever precedes it, closing both kinds of comment makes what follows visible. */
  lemma {:induction false} VisibleStays(r: string, more: string)
    ensures StripLeading(r + ("*/\nx" + more)) != ""
    decreases |r|
  {
    hide StripLeading;
    var mark := "*/\nx" + more;
    var s := r + mark;
    if r == "" {
      Seqs.Empty(mark);
      VisibleFirst(s);
    } else if IsSpaceOrTab(r[0]) {
      assert s[1..] == r[1..] + mark;
      StripSpace(s);
      VisibleStays(r[1..], more);
    } else if HasPrefix(s, "--") {
      CommentBeforeMark(r, more, "--", "\n");
    } else if HasPrefix(s, "/*") {
      CommentBeforeMark(r, more, "/*", "*/");
    } else {
      NotStripped(s, r[0]);
    }
  }

  lemma NotStripped(s: string, c: char)
    requires s != "" && s[0] == c && !IsSpaceOrTab(c) && !HasPrefix(s, "--") && !HasPrefix(s, "/*") && 'x' in s
    ensures StripLeading(s) != ""
  {
    PlainStrips(s);
    TrimsToNothing(s);
  }

  lemma {:induction false} CommentBeforeMark(r: string, more: string, open: string, close: string)
    requires r != "" && HasPrefix(r + ("*/\nx" + more), open)
    requires (open == "--" && close == "\n") || (open == "/*" && close == "*/")
    ensures StripLeading(r + ("*/\nx" + more)) != ""
    decreases |r|, 0
  {
    hide StripLeading;
    hide IndexOf;
    var mark := "*/\nx" + more;
    var s := r + mark;
    var k := |r| + if open == "--" then 2 else 0;
    assert s[k..k + |close|] == close;
    assert OccursAt(s, close, k);
    var i := IndexOf(s, close);
    var n := i + |close|;
    ClosingGap(s, i, close);
    assert s[..n] + s[n..] == s;
    GapStripped(s[..n], s[n..]);
    if n <= |r| {
      assert s[n..] == r[n..] + mark;
      VisibleStays(r[n..], more);
    } else {
      BehindMark(r, more, close, i);
    }
  }

  /** A comment that ends in the mark ends at its star and slash, or at its line feed. */
  lemma BehindMark(r: string, more: string, close: string, i: nat)
    requires r != "" && (close == "\n" || close == "*/")
    requires OccursAt(r + ("*/\nx" + more), close, i)
      && i <= |r| + (if close == "\n" then 2 else 0) && i + |close| > |r|
    ensures StripLeading((r + ("*/\nx" + more))[i + |close|..]) != ""
  {
    hide StripLeading;
    var mark := "*/\nx" + more;
    var s := r + mark;
    assert s[|r|] == '*' && s[|r| + 1] == '/' && s[|r| + 2] == '\n' && s[|r| + 3] == 'x';
    var n := i + |close|;
    assert s[n - 1] == close[|close| - 1] by {
      assert s[i..n][|close| - 1] == s[n - 1];
    }
    if close == "\n" {
      assert n == |r| + 3;
      VisibleFirst(s[n..]);
    } else {
      assert n == |r| + 2;
      StripSpace(s[n..]);
      assert s[n..][1..] == s[n + 1..];
      VisibleFirst(s[n + 1..]);
    }
  }

  /** Every row for two names is a single statement exactly when the names are closed. */
  lemma RowsSingleExactly(schema: string, table: string)
    ensures (forall cols, row :: !MultipleStatements(InsertRow(schema, table, cols, row)))
       <==> NamesClosed(schema, table)
  {
    hide MultipleStatements;
    if NamesClosed(schema, table) {
      forall cols, row ensures !MultipleStatements(InsertRow(schema, table, cols, row)) {
        RowIsOneStatement(schema, table, cols, row);
      }
    } else {
      var cols := UnsafeNames(schema, table, []);
      assert MultipleStatements(InsertRow(schema, table, cols, []));
    }
  }

  lemma UnsafeNames(schema: string, table: string, row: seq<Value>) returns (cols: seq<string>)
    requires !NamesClosed(schema, table)
    ensures MultipleStatements(InsertRow(schema, table, cols, row))
  {
    hide AfterTerminator;
    hide RowHead;
    hide OnlyGaps;
    hide RowTail;
    var head := RowHead(schema, table);
    Seqs.Empty(head);
    match AfterTerminator(Plain, head) {
      case Ended(m) =>
        cols := [BreakingName(m)];
        var tail := RowTail(cols, row, "\n");
        HeadEndsInQuote("", schema, table, tail);
        Continue(Plain, head, tail);
        BrokenTail(m, row, "\n");
        var rest := AfterTerminator(m, tail).rest;
        VisibleFirst(rest);
        NothingLeft(rest);
      case Hit(r) =>
        cols := ["*/\nx"];
        var tail := RowTail(cols, row, "\n");
        HeadEndsInQuote("", schema, table, tail);
        Continue(Plain, head, tail);
        var more := OneColumn("*/\nx", row, "\n");
        Seqs.Assoc(r, " (\"", "*/\nx" + more);
        VisibleStays(r + " (\"", more);
        NothingLeft(r + tail);
    }
  }

  /** A name for which every row is broken, without any help from the columns. */
  lemma UnescapedSchemaName(table: string, cols: seq<string>, row: seq<Value>)
    ensures MultipleStatements(InsertRow("a\";b", table, cols, row))
  {
    hide OnlyGaps;
    hide AfterTerminator;
    var tail := RowTail(cols, row, "\n");
    hide RowTail;
    var rest := "b\"." + (Raw(table) + tail);
    assert InsertRow("a\";b", table, cols, row) == "INSERT INTO " + (Raw("a") + (";" + rest));
    RawIsQuoted("a");
    QuotedSkipped(Double, "a", ";" + rest);
    PlainTerminator(rest);
    InertSkipped("INSERT INTO ", Raw("a") + (";" + rest));
    VisibleFirst(rest);
    NothingLeft(rest);
  }
}
