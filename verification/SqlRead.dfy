/** A reader for the INSERT rows of an SQL export. It knows nothing of how they are written. */
module SqlRead {
  import opened Results
  import opened Strings
  import opened Quoting

  /** A value as the reader sees it. A number that is not spelled as an integer keeps its text. */
  datatype Cell = NullCell | BoolCell(b: bool) | IntCell(n: int) | NumberCell(text: string) | StringCell(s: string)

  datatype Row = Row(schema: string, table: string, cols: seq<string>, cells: seq<Cell>)

  // ---- Integers --------------------------------------------------------------------------------

  predicate AllDigits(t: string) {
    t != "" && forall i | 0 <= i < |t| :: '0' <= t[i] <= '9'
  }

  function DigitsValue(t: string): nat
    requires forall i | 0 <= i < |t| :: '0' <= t[i] <= '9'
  {
    if t == "" then 0 else 10 * DigitsValue(t[..|t| - 1]) + (t[|t| - 1] as int - '0' as int)
  }

  /** The integer that a text spells, with a minus sign in front or without. */
  function Integer(t: string): Option<int> {
    if AllDigits(t) then Some(DigitsValue(t))
    else if t != "" && t[0] == '-' && AllDigits(t[1..]) then Some(0 - DigitsValue(t[1..]))
    else None
  }

  // ---- Values ----------------------------------------------------------------------------------

  /** The bytes of which printed numbers consist. */
  predicate IsNumberByte(c: char) {
    ('0' <= c <= '9') || c == '+' || c == '-' || c == '.' || c == 'e' || c == 'N' || c == 'a' || c == 'I'
    || c == 'n' || c == 'f'
  }

  function WordCell(t: string): Option<Cell> {
    if t == "NULL" then Some(NullCell)
    else if t == "TRUE" then Some(BoolCell(true))
    else if t == "FALSE" then Some(BoolCell(false))
    else if Integer(t).Some? then Some(IntCell(Integer(t).value))
    else if t != "" && forall i | 0 <= i < |t| :: IsNumberByte(t[i]) then Some(NumberCell(t))
    else None
  }

  predicate EndsWord(c: char) { c == ',' || c == ')' }

  function WordLength(s: string): (n: nat)
    ensures n <= |s|
  {
    if s == "" || EndsWord(s[0]) then 0 else 1 + WordLength(s[1..])
  }

  function ReadCell(s: string): Option<Piece<Cell>> {
    if s != "" && s[0] == '\'' then
      match ReadQuoted(s[1..], '\'')
      case None => None
      case Some(p) => Some(Piece(StringCell(p.value), p.rest))
    else
      match WordCell(s[..WordLength(s)])
      case None => None
      case Some(cell) => Some(Piece(cell, s[WordLength(s)..]))
  }

  function ReadName(s: string): Option<Piece<string>> {
    if s != "" && s[0] == '"' then ReadQuoted(s[1..], '"') else None
  }

  // ---- Rows ------------------------------------------------------------------------------------

  /** Items with a comma and a blank between them, up to the closing parenthesis. */
  function ReadList<T>(one: string -> Option<Piece<T>>, s: string): Option<Piece<seq<T>>>
    decreases |s|
  {
    match one(s)
    case None => None
    case Some(p) =>
      if |p.rest| >= |s| then None
      else if HasPrefix(p.rest, ")") then Some(Piece([p.value], p.rest[1..]))
      else if HasPrefix(p.rest, ", ") then
        match ReadList(one, p.rest[2..])
        case None => None
        case Some(more) => Some(Piece([p.value] + more.value, more.rest))
      else None
  }

  function ReadItems<T>(one: string -> Option<Piece<T>>, s: string): Option<Piece<seq<T>>> {
    if HasPrefix(s, ")") then Some(Piece([], s[1..])) else ReadList(one, s)
  }

  /** The text behind a fixed one. */
  function Behind(fixed: string, s: string): Option<string> {
    if HasPrefix(s, fixed) then Some(s[|fixed|..]) else None
  }

  /** A row from behind the table's name on: the columns, the values, and the text behind the row. */
  function ReadTail(s: string): Option<Piece<(seq<string>, seq<Cell>)>> {
    match Behind(" (", s)
    case None => None
    case Some(s1) =>
      match ReadItems(ReadName, s1)
      case None => None
      case Some(names) =>
        match Behind(" VALUES (", names.rest)
        case None => None
        case Some(s2) =>
          match ReadItems(ReadCell, s2)
          case None => None
          case Some(cells) =>
            match Behind(";\n", cells.rest)
            case None => None
            case Some(rest) => Some(Piece((names.value, cells.value), rest))
  }

  /** The two names of the table, and the text behind them. */
  function ReadHead(s: string): Option<Piece<(string, string)>> {
    match Behind("INSERT INTO ", s)
    case None => None
    case Some(s1) =>
      match ReadName(s1)
      case None => None
      case Some(schema) =>
        match Behind(".", schema.rest)
        case None => None
        case Some(s2) =>
          match ReadName(s2)
          case None => None
          case Some(table) => Some(Piece((schema.value, table.value), table.rest))
  }

  function ReadRow(s: string): Option<Piece<Row>> {
    match ReadHead(s)
    case None => None
    case Some(head) =>
      match ReadTail(head.rest)
      case None => None
      case Some(tail) => Some(Piece(Row(head.value.0, head.value.1, tail.value.0, tail.value.1), tail.rest))
  }

  function ReadRows(s: string): Option<seq<Row>>
    decreases |s|
  {
    if s == "" then Some([])
    else match ReadRow(s)
      case None => None
      case Some(row) =>
        if |row.rest| >= |s| then None
        else match ReadRows(row.rest)
          case None => None
          case Some(more) => Some([row.value] + more)
  }

  /** The rows of a file, behind a comment line if it starts with one. */
  function ReadFile(s: string): Option<seq<Row>> {
    if HasPrefix(s, "--") && '\n' in s then ReadRows(s[IndexOf(s, "\n") + 1..]) else ReadRows(s)
  }
}
