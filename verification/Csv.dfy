/** CSV export, and a reader for section 2 of RFC 4180 with LF as the record separator. */
module Csv {
  import opened Quoting
  import opened Results
  import opened Strings
  import Seqs

  predicate NeedsQuotes(s: string) {
    ',' in s || '"' in s || '\n' in s || '\r' in s
  }

  function CsvEscape(s: string): string {
    if !NeedsQuotes(s) then s else "\"" + Doubled(s, '"') + "\""
  }

  /** A field stays as it is exactly when it holds no comma, double quote, line feed or carriage return. */
  lemma EscapedExactly(s: string)
    ensures CsvEscape(s) == s <==> forall i | 0 <= i < |s| :: s[i] as int !in {10, 13, 34, 44}
  {
    hide Doubled;
    if NeedsQuotes(s) {
      DoubledLength(s, '"');
      assert |CsvEscape(s)| > |s|;
    } else {
      forall i | 0 <= i < |s| ensures s[i] as int !in {10, 13, 34, 44} {
        assert s[i] in s;
      }
    }
  }

  lemma {:induction false} DoubledLength(s: string, q: char)
    ensures |Doubled(s, q)| >= |s|
  {
    if s != [] {
      DoubledLength(s[1..], q);
    }
  }

  /** One exported record: escaped fields, commas between them, and a line feed. */
  function Record(fields: seq<string>): string {
    Join(seq(|fields|, i requires 0 <= i < |fields| => CsvEscape(fields[i])), ",") + "\n"
  }

  // ---- The reader ---------------------------------------------------------------------------

  /** An unquoted field runs to the next comma or line end and holds no quote or carriage return. */
  function ReadBare(s: string): Option<Piece<string>> {
    if s == [] || s[0] == '"' || s[0] == '\r' then None
    else if s[0] == ',' || s[0] == '\n' then Some(Piece("", s))
    else Prepend(s[0], ReadBare(s[1..]))
  }

  function ReadField(s: string): (p: Option<Piece<string>>)
    ensures p.Some? ==> |p.value.rest| <= |s|
  {
    if s != [] && s[0] == '"' then
      QuotedShrinks(s[1..], '"'); ReadQuoted(s[1..], '"')
    else
      BareShrinks(s); ReadBare(s)
  }

  lemma BareShrinks(s: string)
    ensures ReadBare(s).Some? ==> |ReadBare(s).value.rest| <= |s|
  {
  }

  function ReadRecord(s: string): (p: Option<Piece<seq<string>>>)
    ensures p.Some? ==> |p.value.rest| < |s|
    decreases |s|
  {
    match ReadField(s)
    case None => None
    case Some(f) =>
      if f.rest == [] then None
      else if f.rest[0] == '\n' then Some(Piece([f.value], f.rest[1..]))
      else if f.rest[0] == ',' then
        match ReadRecord(f.rest[1..])
        case None => None
        case Some(r) => Some(Piece([f.value] + r.value, r.rest))
      else None
  }

  function ReadTable(s: string): Option<seq<seq<string>>>
    decreases |s|
  {
    if s == [] then Some([])
    else match ReadRecord(s)
      case None => None
      case Some(r) =>
        match ReadTable(r.rest)
        case None => None
        case Some(t) => Some([r.value] + t)
  }

  // ---- Round trip ---------------------------------------------------------------------------

  lemma {:induction false} BareRoundTrip(v: string, rest: string)
    requires !NeedsQuotes(v) && rest != [] && (rest[0] == ',' || rest[0] == '\n')
    ensures ReadBare(v + rest) == Some(Piece(v, rest))
  {
    if v == [] {
      assert v + rest == rest;
    } else {
      BareRoundTrip(v[1..], rest);
      assert (v + rest)[1..] == v[1..] + rest && v == [v[0]] + v[1..];
    }
  }

  lemma FieldRoundTrip(v: string, rest: string)
    requires rest != [] && (rest[0] == ',' || rest[0] == '\n')
    ensures ReadField(CsvEscape(v) + rest) == Some(Piece(v, rest))
  {
    hide ReadQuoted;
    hide ReadBare;
    hide Doubled;
    if NeedsQuotes(v) {
      var body := Doubled(v, '"') + "\"" + rest;
      QuotedRoundTrip(v, '"', rest);
      assert CsvEscape(v) + rest == "\"" + body;
      Seqs.Cons('"', body);
    } else {
      BareRoundTrip(v, rest);
      assert (v + rest)[0] == if v == [] then rest[0] else v[0];
    }
  }

  lemma RecordSplits(fields: seq<string>)
    requires |fields| > 1
    ensures Record(fields) == CsvEscape(fields[0]) + "," + Record(fields[1..])
  {
    var escaped := seq(|fields|, i requires 0 <= i < |fields| => CsvEscape(fields[i]));
    var tail := fields[1..];
    assert escaped[1..] == seq(|tail|, i requires 0 <= i < |tail| => CsvEscape(tail[i]));
  }

  /** A record with at least one column reads back as its fields, and nothing after it is touched. */
  lemma {:induction false} RecordRoundTrip(fields: seq<string>, rest: string)
    requires fields != []
    ensures ReadRecord(Record(fields) + rest) == Some(Piece(fields, rest))
  {
    if |fields| == 1 {
      assert Record(fields) + rest == CsvEscape(fields[0]) + ("\n" + rest);
      FieldRoundTrip(fields[0], "\n" + rest);
      assert fields == [fields[0]];
    } else {
      RecordSplits(fields);
      var tail := Record(fields[1..]) + rest;
      assert Record(fields) + rest == CsvEscape(fields[0]) + ("," + tail);
      FieldRoundTrip(fields[0], "," + tail);
      RecordRoundTrip(fields[1..], rest);
      assert ("," + tail)[1..] == tail && fields == [fields[0]] + fields[1..];
    }
  }

  function Exported(table: seq<seq<string>>): string {
    if table == [] then "" else Record(table[0]) + Exported(table[1..])
  }

  lemma {:induction false} ExportedSnoc(table: seq<seq<string>>, row: seq<string>)
    ensures Exported(table + [row]) == Exported(table) + Record(row)
  {
    hide Record;
    if table == [] {
      Seqs.Empty([row]);
      Seqs.Empty(Record(row));
    } else {
      ExportedSnoc(table[1..], row);
      Seqs.TailOfConcat(table, [row]);
      Seqs.Assoc(Record(table[0]), Exported(table[1..]), Record(row));
    }
  }

  /** A record without columns is written like one with a single empty field. */
  function AsWritten(row: seq<string>): seq<string> {
    if row == [] then [""] else row
  }

  function AllAsWritten(table: seq<seq<string>>): seq<seq<string>> {
    seq(|table|, i requires 0 <= i < |table| => AsWritten(table[i]))
  }

  lemma EmptyRecordWritten()
    ensures Record([]) == Record([""])
  {
    assert seq(1, i requires 0 <= i < 1 => CsvEscape([""][i])) == [""];
  }

  /** What any table reads back as, whatever its fields hold. */
  lemma {:induction false} TableReadsBack(table: seq<seq<string>>)
    ensures ReadTable(Exported(table)) == Some(AllAsWritten(table))
  {
    if table != [] {
      var rest, later := table[1..], Exported(table[1..]);
      EmptyRecordWritten();
      RecordRoundTrip(AsWritten(table[0]), later);
      TableReadsBack(rest);
      assert AllAsWritten(table) == [AsWritten(table[0])] + AllAsWritten(rest);
      assert Exported(table) == Record(AsWritten(table[0])) + later;
    } else {
      assert AllAsWritten(table) == [];
    }
  }

  /** A table reads back unchanged exactly when every record has a column. */
  lemma TableRoundTrip(table: seq<seq<string>>)
    ensures ReadTable(Exported(table)) == Some(table) <==> forall i | 0 <= i < |table| :: table[i] != []
  {
    TableReadsBack(table);
    var back := AllAsWritten(table);
    if forall i | 0 <= i < |table| :: table[i] != [] {
      assert back == table;
    }
    if back == table {
      forall i | 0 <= i < |table| ensures table[i] != [] {
        assert back[i] == AsWritten(table[i]);
      }
    }
  }

  /** The response stream of one CSV export. */
  class CsvExport {
    var out: string
    ghost var table: seq<seq<string>>

    ghost predicate Valid()
      reads this
    {
      out == Exported(table)
    }

    constructor ()
      ensures Valid() && table == []
    {
      out, table := "", [];
    }

    method WriteRecord(values: seq<string>)
      requires Valid()
      modifies this
      ensures Valid() && table == old(table) + [values]
      ensures ReadTable(out) == Some(AllAsWritten(table))
    {
      var fields: seq<string> := [];
      for i := 0 to |values|
        invariant fields == seq(i, k requires 0 <= k < i => CsvEscape(values[k]))
      {
        fields := fields + [CsvEscape(values[i])];
      }
      out := out + Join(fields, ",") + "\n";
      ExportedSnoc(table, values);
      assert out == old(out) + Record(values);
      table := table + [values];
      TableReadsBack(table);
    }
  }
}
