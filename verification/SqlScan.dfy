/** The keyword scan: SQL text with quotes and comments blanked and the rest upper-cased. Text is a
    string whose characters stand for bytes. */
module SqlScan {
  import opened Results
  import opened Strings
  import Seqs

  datatype Mode = Plain | Single | Double | Backtick | Line | Block

  /** The first byte of the upper-cased UTF-8 form of a byte taken as a code point. */
  function UpperByte(c: char): char {
    var n := c as int;
    if 'a' <= c <= 'z' then (n - 32) as char
    else if n < 0x80 || n > 0xFF then c
    else if n == 0xB5 then 0xCE as char
    else if n == 0xFF then 0xC5 as char
    else if n < 0xC0 then 0xC2 as char
    else 0xC3 as char
  }

  function Blanks(n: nat): (s: string)
    ensures |s| == n && forall c | c in s :: c == ' '
  {
    if n == 0 then "" else " " + Blanks(n - 1)
  }

  // ---- What the keyword scan sees -----------------------------------------------------------

  function QuoteOf(m: Mode): char
    requires m.Single? || m.Double? || m.Backtick?
  {
    match m case Single => '\'' case Double => '"' case Backtick => '`'
  }

  function Opened(c: char): Option<Mode> {
    if c == '\'' then Some(Single) else if c == '"' then Some(Double) else if c == '`' then Some(Backtick) else None
  }

  /** Quoted text and comments turned into blanks, everything else upper-cased. A block comment is
      entered at its star, so a slash right after the opening closes it, and closing it emits one
      blank more than it has characters. */
  function Blanked(m: Mode, s: string): string
    decreases |s|, m == Line
  {
    if s == [] then []
    else match m
      case Plain =>
        if HasPrefix(s, "--") then "  " + Blanked(Line, s[2..])
        else if HasPrefix(s, "/*") then "  " + Blanked(Block, s[1..])
        else
          (match Opened(s[0])
           case Some(q) => " " + Blanked(q, s[1..])
           case None => [UpperByte(s[0])] + Blanked(Plain, s[1..]))
      case Line =>
        if s[0] == '\n' then Blanked(Plain, s) else " " + Blanked(Line, s[1..])
      case Block =>
        if |s| == 1 then []
        else if HasPrefix(s, "*/") then "  " + Blanked(Plain, s[2..])
        else " " + Blanked(Block, s[1..])
      case _ =>
        if s[0] != QuoteOf(m) then " " + Blanked(m, s[1..])
        else if |s| > 1 && s[1] == QuoteOf(m) then "  " + Blanked(m, s[2..])
        else " " + Blanked(Plain, s[1..])
  }

  /** The line-comment loop, entered after the two dashes: blanks up to the line end. */
  method BlankLine(s: string, from: nat) returns (blanks: string, i: nat)
    requires from <= |s|
    ensures from <= i <= |s| && Blanked(Line, s[from..]) == blanks + Blanked(Plain, s[i..])
  {
    i, blanks := from, "";
    while i < |s| && s[i] != '\n'
      invariant from <= i <= |s|
      invariant Blanked(Line, s[from..]) == blanks + Blanked(Line, s[i..])
    {
      assert s[i..][1..] == s[i + 1..];
      assert blanks + (" " + Blanked(Line, s[i + 1..])) == (blanks + " ") + Blanked(Line, s[i + 1..]);
      i := i + 1;
      blanks := blanks + " ";
    }
  }

  /** The block-comment loop, entered at the star of the opening. */
  method BlankBlock(s: string, from: nat) returns (blanks: string, i: nat)
    requires from < |s|
    ensures from < i <= |s| && Blanked(Block, s[from..]) == blanks + Blanked(Plain, s[i..])
  {
    hide Blanked;
    i, blanks := from, "";
    ghost var all := Blanked(Block, s[from..]);
    while i + 1 < |s|
      invariant from <= i < |s|
      invariant blanks + Blanked(Block, s[i..]) == all
    {
      BlockStep(s, i);
      var closing := s[i] == '*' && s[i + 1] == '/';
      var piece := if closing then "  " else " ";
      Seqs.Assoc(blanks, piece, if closing then Blanked(Plain, s[i + 2..]) else Blanked(Block, s[i + 1..]));
      blanks := blanks + piece;
      if closing {
        i := i + 2;
        return;
      }
      i := i + 1;
    }
    i := i + 1;
    BlockEnd(s);
  }

  lemma BlockEnd(s: string)
    requires s != ""
    ensures Blanked(Block, s[|s| - 1..]) == [] == Blanked(Plain, s[|s|..])
  {
  }

  lemma BlockStep(s: string, i: nat)
    requires i + 1 < |s|
    ensures Blanked(Block, s[i..]) == if s[i] == '*' && s[i + 1] == '/' then "  " + Blanked(Plain, s[i + 2..])
                                      else " " + Blanked(Block, s[i + 1..])
  {
    var t := s[i..];
    assert t[1..] == s[i + 1..] && t[2..] == s[i + 2..];
    assert HasPrefix(t, "*/") <==> s[i] == '*' && s[i + 1] == '/';
  }

  /** One step outside comments: what is written, and where and how the scan goes on. */
  lemma QuotedBlankedStep(m: Mode, s: string, i: nat)
    requires i < |s| && (m.Single? || m.Double? || m.Backtick?)
    ensures Blanked(m, s[i..]) ==
      if s[i] != QuoteOf(m) then " " + Blanked(m, s[i + 1..])
      else if i + 1 < |s| && s[i + 1] == QuoteOf(m) then "  " + Blanked(m, s[i + 2..])
      else " " + Blanked(Plain, s[i + 1..])
  {
    var t := s[i..];
    assert t[1..] == s[i + 1..] && (|t| > 1 ==> t[1] == s[i + 1] && t[2..] == s[i + 2..]);
  }

  lemma PlainBlankedStep(s: string, i: nat)
    requires i < |s|
    ensures Blanked(Plain, s[i..]) ==
      if i + 1 < |s| && s[i] == '-' && s[i + 1] == '-' then "  " + Blanked(Line, s[i + 2..])
      else if i + 1 < |s| && s[i] == '/' && s[i + 1] == '*' then "  " + Blanked(Block, s[i + 1..])
      else match Opened(s[i])
        case Some(q) => " " + Blanked(q, s[i + 1..])
        case None => [UpperByte(s[i])] + Blanked(Plain, s[i + 1..])
  {
    var t := s[i..];
    assert t[1..] == s[i + 1..] && (|t| > 1 ==> t[1] == s[i + 1] && t[2..] == s[i + 2..]);
    assert HasPrefix(t, "--") <==> i + 1 < |s| && s[i] == '-' && s[i + 1] == '-';
    assert HasPrefix(t, "/*") <==> i + 1 < |s| && s[i] == '/' && s[i + 1] == '*';
  }

  lemma NothingBlankedAtEnd(s: string)
    ensures forall m :: Blanked(m, s[|s|..]) == []
  {
    assert s[|s|..] == [];
  }

  method NormaliseSQLForKeywordScan(s: string) returns (b: string)
    ensures b == Blanked(Plain, s)
  {
    assert s[0..] == s;
    NothingBlankedAtEnd(s);
    hide Blanked;
    hide UpperByte;
    b := "";
    var mode := Plain;
    var i := 0;
    ghost var all := Blanked(Plain, s);
    while i < |s|
      invariant 0 <= i <= |s|
      invariant !mode.Line? && !mode.Block?
      invariant b + Blanked(mode, s[i..]) == all
      decreases |s| - i
    {
      var ch := s[i];
      var piece: string;
      if mode != Plain {
        QuotedBlankedStep(mode, s, i);
        piece := " ";
        i := i + 1;
        if ch == QuoteOf(mode) {
          if i < |s| && s[i] == QuoteOf(mode) {
            piece := "  ";
            i := i + 1;
          } else {
            mode := Plain;
          }
        }
      } else if ch == '-' && i + 1 < |s| && s[i + 1] == '-' {
        PlainBlankedStep(s, i);
        var blanks, next := BlankLine(s, i + 2);
        piece := "  " + blanks;
        Seqs.Assoc("  ", blanks, Blanked(Plain, s[next..]));
        i := next;
      } else if ch == '/' && i + 1 < |s| && s[i + 1] == '*' {
        PlainBlankedStep(s, i);
        var blanks, next := BlankBlock(s, i + 1);
        piece := "  " + blanks;
        Seqs.Assoc("  ", blanks, Blanked(Plain, s[next..]));
        i := next;
      } else {
        PlainBlankedStep(s, i);
        i := i + 1;
        match Opened(ch) {
          case Some(q) =>
            mode := q;
            piece := " ";
          case None =>
            piece := [UpperByte(ch)];
        }
      }
      Seqs.Assoc(b, piece, Blanked(mode, s[i..]));
      b := b + piece;
    }
    Seqs.Empty(b);
  }

  lemma OpenQuoteBlanked(m: Mode, body: string)
    requires m.Single? || m.Double? || m.Backtick?
    ensures Blanked(Plain, [QuoteOf(m)] + body) == " " + Blanked(m, body)
  {
    var s := [QuoteOf(m)] + body;
    Seqs.Cons(QuoteOf(m), body);
    assert !HasPrefix(s, "--") && !HasPrefix(s, "/*") && Opened(s[0]) == Some(m);
  }

  lemma PlainByteBlanked(c: char, body: string)
    requires Opened(c).None? && c != '/'
    requires c == '-' ==> body != [] && body[0] != '-'
    ensures Blanked(Plain, [c] + body) == [UpperByte(c)] + Blanked(Plain, body)
  {
    hide Blanked;
    var s := [c] + body;
    assert s[0..] == s && s[1..] == body;
    PlainBlankedStep(s, 0);
  }
}
