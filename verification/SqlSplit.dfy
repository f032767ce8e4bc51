/** The statement splitter, what it finds, and its run over a text in parts. */
module SqlSplit {
  import opened Results
  import opened Strings
  import opened SqlScan
  import opened SqlStrip
  import Seqs

  /** One step of the splitter: the terminator, or so many bytes that lead into a mode. */
  datatype Step = Stop | Go(width: nat, mode: Mode)

  /** Doubled quotes are an escape only inside single quotes. */
  function StepOf(m: Mode, s: string): (step: Step)
    requires s != []
    ensures step.Go? ==> 1 <= step.width <= |s|
  {
    match m
    case Plain =>
      if HasPrefix(s, "--") then Go(2, Line)
      else if HasPrefix(s, "/*") then Go(2, Block)
      else if s[0] == ';' then Stop
      else (match Opened(s[0]) case Some(q) => Go(1, q) case None => Go(1, Plain))
    case Line => Go(1, if s[0] == '\n' then Plain else Line)
    case Block => if HasPrefix(s, "*/") then Go(2, Plain) else Go(1, Block)
    case Single =>
      if s[0] != '\'' then Go(1, Single)
      else if |s| > 1 && s[1] == '\'' then Go(2, Single)
      else Go(1, Plain)
    case _ => Go(1, if s[0] != QuoteOf(m) then m else Plain)
  }

  datatype Verdict = Hit(rest: string) | Ended(mode: Mode)

  /** What follows the first statement terminator outside quotes and comments, or in what mode the
      text ends without one. */
  function AfterTerminator(m: Mode, s: string): (v: Verdict)
    ensures v.Hit? ==> |v.rest| < |s|
    decreases |s|
  {
    if s == [] then Ended(m)
    else match StepOf(m, s)
      case Stop => Hit(s[1..])
      case Go(k, next) => AfterTerminator(next, s[k..])
  }

  lemma SkipLine(s: string, idx: int)
    requires idx == IndexOf(s, "\n")
    ensures AfterTerminator(Line, s) == if idx >= 0 then AfterTerminator(Plain, s[idx + 1..]) else Ended(Line)
  {
    if s != [] {
      if s[0] == '\n' {
        assert OccursAt(s, "\n", 0);
      } else if idx >= 0 {
        assert OccursAt(s, "\n", idx) && s[idx..idx + 1][0] == '\n';
        assert s[..1] != "\n";
        SkipLine(s[1..], idx - 1);
        assert s[1..][idx - 1 + 1..] == s[idx + 1..];
      } else {
        assert s[..1] != "\n";
        SkipLine(s[1..], -1);
      }
    }
  }

  lemma SkipBlock(s: string, idx: int)
    requires idx == IndexOf(s, "*/")
    ensures AfterTerminator(Block, s) == if idx >= 0 then AfterTerminator(Plain, s[idx + 2..]) else Ended(Block)
  {
    if |s| >= 2 && s[..2] != "*/" {
      SkipBlock(s[1..], IndexOf(s[1..], "*/"));
      if idx >= 0 {
        assert s[1..][idx - 1 + 2..] == s[idx + 2..];
      }
    } else if |s| == 1 {
      assert AfterTerminator(Block, s) == AfterTerminator(Block, s[1..]);
    }
  }

  // One step of the splitter, in terms of positions in the full text.
  lemma QuotedStep(m: Mode, s: string, i: nat)
    requires i < |s| && (m.Single? || m.Double? || m.Backtick?)
    ensures AfterTerminator(m, s[i..]) ==
      if s[i] != QuoteOf(m) then AfterTerminator(m, s[i + 1..])
      else if m == Single && i + 1 < |s| && s[i + 1] == '\'' then AfterTerminator(m, s[i + 2..])
      else AfterTerminator(Plain, s[i + 1..])
  {
    var t := s[i..];
    assert t[1..] == s[i + 1..] && (|t| > 1 ==> t[1] == s[i + 1] && t[2..] == s[i + 2..]);
  }

  lemma PlainStep(s: string, i: nat)
    requires i < |s|
    ensures AfterTerminator(Plain, s[i..]) ==
      if i + 1 < |s| && s[i] == '-' && s[i + 1] == '-' then AfterTerminator(Line, s[i + 2..])
      else if i + 1 < |s| && s[i] == '/' && s[i + 1] == '*' then AfterTerminator(Block, s[i + 2..])
      else if s[i] == ';' then Hit(s[i + 1..])
      else match Opened(s[i])
        case Some(q) => AfterTerminator(q, s[i + 1..])
        case None => AfterTerminator(Plain, s[i + 1..])
  {
    var t := s[i..];
    assert t[1..] == s[i + 1..] && (|t| > 1 ==> t[1] == s[i + 1] && t[2..] == s[i + 2..]);
    assert HasPrefix(t, "--") <==> i + 1 < |s| && s[i] == '-' && s[i + 1] == '-';
    assert HasPrefix(t, "/*") <==> i + 1 < |s| && s[i] == '/' && s[i + 1] == '*';
  }

  lemma LineCommentStep(s: string, i: nat)
    requires i + 1 < |s| && s[i] == '-' && s[i + 1] == '-'
    ensures var idx := IndexOf(s[i + 2..], "\n");
      AfterTerminator(Plain, s[i..]) == if idx >= 0 then AfterTerminator(Plain, s[i + idx + 3..]) else Ended(Line)
  {
    hide AfterTerminator;
    hide IndexOf;
    var rest := s[i + 2..];
    var idx := IndexOf(rest, "\n");
    assert AfterTerminator(Plain, s[i..]) == AfterTerminator(Line, rest) by {
      PlainStep(s, i);
    }
    SkipLine(rest, idx);
    if idx >= 0 {
      Seqs.DropDrop(s, i + 2, idx + 1);
    }
  }

  lemma BlockCommentStep(s: string, i: nat)
    requires i + 1 < |s| && s[i] == '/' && s[i + 1] == '*'
    ensures var idx := IndexOf(s[i + 2..], "*/");
      AfterTerminator(Plain, s[i..]) == if idx >= 0 then AfterTerminator(Plain, s[i + idx + 4..]) else Ended(Block)
  {
    hide AfterTerminator;
    hide IndexOf;
    var rest := s[i + 2..];
    var idx := IndexOf(rest, "*/");
    assert AfterTerminator(Plain, s[i..]) == AfterTerminator(Block, rest) by {
      PlainStep(s, i);
    }
    SkipBlock(rest, idx);
    if idx >= 0 {
      Seqs.DropDrop(s, i + 2, idx + 2);
    }
  }

  lemma NoTerminatorAtEnd(s: string)
    ensures forall m :: AfterTerminator(m, s[|s|..]) == Ended(m)
  {
    assert s[|s|..] == [];
  }

  predicate OpensComment(s: string, i: nat) {
    i + 1 < |s| && ((s[i] == '-' && s[i + 1] == '-') || (s[i] == '/' && s[i + 1] == '*'))
  }

  /** The position after the comment that opens here, or -1 if it never ends. */
  method SkipComment(s: string, i: nat) returns (next: int)
    requires OpensComment(s, i)
    ensures next == -1 || i < next <= |s|
    ensures if next < 0 then AfterTerminator(Plain, s[i..]).Ended?
            else AfterTerminator(Plain, s[i..]) == AfterTerminator(Plain, s[next..])
  {
    hide AfterTerminator;
    if s[i] == '-' {
      LineCommentStep(s, i);
      var idx := IndexOf(s[i + 2..], "\n");
      return if idx >= 0 then i + idx + 3 else -1;
    }
    BlockCommentStep(s, i);
    var idx := IndexOf(s[i + 2..], "*/");
    return if idx >= 0 then i + idx + 4 else -1;
  }

  // What the splitter looks for, without the scan: pieces it passes over, then a terminator.

  /** One byte that opens nothing in front of `after`, a closed comment, or a quoted string. A doubled
      quote is two strings side by side. */
  predicate Piece(p: string, after: string) {
    || PlainByteBefore(p, after)
    || Closes(p, "--", "\n")
    || (|p| >= 4 && HasPrefix(p, "/*") && IndexOf(p[2..], "*/") == |p| - 4)
    || QuotedPiece(p)
  }

  predicate PlainByteBefore(p: string, after: string) {
    && |p| == 1 && Opened(p[0]).None? && p[0] != ';'
    && (p[0] == '-' ==> !HasPrefix(after, "-")) && (p[0] == '/' ==> !HasPrefix(after, "*"))
  }

  predicate QuotedPiece(p: string) {
    |p| >= 2 && Opened(p[0]).Some? && p[|p| - 1] == p[0] && p[0] !in p[1..|p| - 1]
  }

  predicate Pieces(ps: seq<string>, after: string) {
    ps == [] || (Piece(ps[0], Concat(ps[1..]) + after) && Pieces(ps[1..], after))
  }

  /** The first terminator outside quotes and comments is followed by `rest`. */
  ghost predicate Terminates(s: string, rest: string) {
    exists ps :: Pieces(ps, ";" + rest) && s == Concat(ps) + (";" + rest)
  }

  lemma {:induction false} QuoteCloses(m: Mode, s: string, i: nat)
    requires m.Single? || m.Double? || m.Backtick?
    requires i < |s| && s[i] == QuoteOf(m) && QuoteOf(m) !in s[..i]
    ensures AfterTerminator(m, s) == AfterTerminator(Plain, s[i + 1..])
  {
    if i > 0 {
      assert s[0] in s[..i];
      QuotedByte(m, s);
      hide AfterTerminator;
      Seqs.SliceOfDrop(s, 1, 0, i - 1);
      Seqs.TakeOfConcat([s[0]], s[1..], i);
      Seqs.HeadTail(s);
      Seqs.DropDrop(s, 1, i);
      QuoteCloses(m, s[1..], i - 1);
    } else if m == Single && |s| > 1 && s[1] == '\'' {
      var t := s[1..];
      assert t[1..] == s[2..];
      assert StepOf(Plain, t) == Go(1, Single) && StepOf(m, s) == Go(2, Single);
    } else {
      assert StepOf(m, s) == Go(1, Plain);
    }
  }

  lemma QuotedByte(m: Mode, s: string)
    requires (m.Single? || m.Double? || m.Backtick?) && s != "" && s[0] != QuoteOf(m)
    ensures AfterTerminator(m, s) == AfterTerminator(m, s[1..])
  {
    assert StepOf(m, s) == Go(1, m);
  }

  lemma {:induction false} QuoteStays(m: Mode, s: string)
    requires (m.Single? || m.Double? || m.Backtick?) && QuoteOf(m) !in s
    ensures AfterTerminator(m, s) == Ended(m)
  {
    if s != "" {
      QuotedByte(m, s);
      QuoteStays(m, s[1..]);
    }
  }

  lemma PieceSkipped(p: string, after: string)
    requires Piece(p, after)
    ensures AfterTerminator(Plain, p + after) == AfterTerminator(Plain, after)
  {
    var s := p + after;
    hide AfterTerminator;
    hide IndexOf;
    assert s[0..] == s;
    if PlainByteBefore(p, after) {
      assert s[1..] == after;
      PlainStep(s, 0);
    } else if Closes(p, "--", "\n") {
      LinePieceSkipped(p, after);
    } else if QuotedPiece(p) {
      QuotedPieceSkipped(p, after);
    } else {
      BlockPieceSkipped(p, after);
    }
  }

  lemma LinePieceSkipped(p: string, after: string)
    requires Closes(p, "--", "\n")
    ensures AfterTerminator(Plain, p + after) == AfterTerminator(Plain, after)
  {
    var s, body := p + after, p[2..] + after;
    hide AfterTerminator;
    hide IndexOf;
    assert p[0] == p[..2][0] && p[1] == p[..2][1] && p[|p| - 1..][0] == '\n';
    assert s[0..] == s && s[2..] == body;
    LineCommentStep(s, 0);
    DropIndexOf(p, "\n", 2);
    IndexOfExtends(p[2..], after, "\n");
    assert s[|p|..] == after;
  }

  /** What is not at the front can be looked for behind it. */
  lemma DropIndexOf(s: string, sub: string, n: nat)
    requires n <= IndexOf(s, sub)
    ensures IndexOf(s[n..], sub) == IndexOf(s, sub) - n
  {
    hide IndexOf;
    var i, j := IndexOf(s, sub), IndexOf(s[n..], sub);
    Seqs.SliceOfDrop(s, n, i - n, i - n + |sub|);
    assert OccursAt(s[n..], sub, i - n);
    Seqs.SliceOfDrop(s, n, j, j + |sub|);
    assert OccursAt(s, sub, n + j);
  }

  lemma BlockPieceSkipped(p: string, after: string)
    requires |p| >= 4 && HasPrefix(p, "/*") && IndexOf(p[2..], "*/") == |p| - 4
    ensures AfterTerminator(Plain, p + after) == AfterTerminator(Plain, after)
  {
    var s := p + after;
    hide AfterTerminator;
    hide IndexOf;
    assert p[0] == p[..2][0] && p[1] == p[..2][1];
    assert s[0..] == s && s[2..] == p[2..] + after;
    BlockCommentStep(s, 0);
    IndexOfExtends(p[2..], after, "*/");
    assert s[|p|..] == after;
  }

  lemma QuotedPieceSkipped(p: string, after: string)
    requires QuotedPiece(p)
    ensures AfterTerminator(Plain, p + after) == AfterTerminator(Plain, after)
  {
    hide AfterTerminator;
    var m, q, n := Opened(p[0]).value, p[0], |p|;
    var body := p[1..] + after;
    assert p + after == [q] + body;
    OpenQuote(m, body);
    assert body[..n - 2] == p[1..n - 1];
    QuoteCloses(m, body, n - 2);
    assert body[n - 1..] == after;
  }

  lemma {:induction false} PiecesSkipped(ps: seq<string>, after: string)
    requires Pieces(ps, after)
    ensures AfterTerminator(Plain, Concat(ps) + after) == AfterTerminator(Plain, after)
  {
    hide AfterTerminator;
    hide Piece;
    if ps == [] {
      Seqs.Empty(after);
    } else {
      PieceSkipped(ps[0], Concat(ps[1..]) + after);
      PiecesSkipped(ps[1..], after);
      Seqs.Assoc(ps[0], Concat(ps[1..]), after);
    }
  }

  lemma OneMorePiece(p: string, s: string, rest: string)
    requires Piece(p, s) && Terminates(s, rest)
    ensures Terminates(p + s, rest)
  {
    hide Piece;
    var ps :| Pieces(ps, ";" + rest) && s == Concat(ps) + (";" + rest);
    var more := [p] + ps;
    assert more[1..] == ps;
    Seqs.Assoc(p, Concat(ps), ";" + rest);
    assert Pieces(more, ";" + rest);
  }

  /** The front of a text from which the splitter goes on in plain text. */
  lemma FirstPiece(s: string) returns (n: nat)
    requires AfterTerminator(Plain, s).Hit? && s[0] != ';'
    ensures 0 < n <= |s| && Piece(s[..n], s[n..]) && AfterTerminator(Plain, s) == AfterTerminator(Plain, s[n..])
  {
    assert s[0..] == s;
    if HasPrefix(s, "--") {
      n := LineAhead(s);
    } else if HasPrefix(s, "/*") {
      n := BlockAhead(s);
    } else if Opened(s[0]).Some? {
      n := QuoteAhead(s);
    } else {
      n := 1;
      var p, after := s[..1], s[1..];
      assert after != "" ==> after[..1][0] == s[1] && s[..2] == [s[0], s[1]];
      assert PlainByteBefore(p, after);
    }
  }

  lemma LineAhead(s: string) returns (n: nat)
    requires AfterTerminator(Plain, s).Hit? && HasPrefix(s, "--")
    ensures 0 < n <= |s| && Closes(s[..n], "--", "\n") && AfterTerminator(Plain, s) == AfterTerminator(Plain, s[n..])
  {
    hide AfterTerminator;
    hide IndexOf;
    assert s[0..] == s && s[0] == s[..2][0] && s[1] == s[..2][1];
    LineCommentStep(s, 0);
    var i := IndexOf(s[2..], "\n");
    n := i + 3;
    var p := s[..n];
    assert p[2..] == s[2..][..i + 1] && p[..2] == s[..2];
    IndexOfPrefix(s[2..], "\n", i + 1);
    Prepended(p, "\n");
  }

  /** Two bytes that are not the one looked for do not matter in front. */
  lemma Prepended(s: string, sub: string)
    requires |s| >= 2 && |sub| == 1 && s[0] != sub[0] && s[1] != sub[0] && IndexOf(s[2..], sub) >= 0
    ensures IndexOf(s, sub) == IndexOf(s[2..], sub) + 2
  {
    hide IndexOf;
    var i := IndexOf(s, sub);
    var j := IndexOf(s[2..], sub);
    Seqs.SliceOfDrop(s, 2, j, j + 1);
    assert OccursAt(s, sub, j + 2);
    assert s[i] == sub[0] by {
      assert s[i..i + 1][0] == s[i];
    }
    DropIndexOf(s, sub, 2);
  }

  lemma BlockAhead(s: string) returns (n: nat)
    requires AfterTerminator(Plain, s).Hit? && HasPrefix(s, "/*")
    ensures 0 < n <= |s| && Piece(s[..n], s[n..]) && AfterTerminator(Plain, s) == AfterTerminator(Plain, s[n..])
  {
    hide AfterTerminator;
    hide IndexOf;
    assert s[0..] == s && s[0] == s[..2][0] && s[1] == s[..2][1];
    BlockCommentStep(s, 0);
    var i := IndexOf(s[2..], "*/");
    InRange(s[2..], "*/");
    n := i + 4;
    var p := s[..n];
    assert p[2..] == s[2..][..i + 2] && p[..2] == s[..2];
    IndexOfPrefix(s[2..], "*/", i + 2);
  }

  lemma QuoteAhead(s: string) returns (n: nat)
    requires AfterTerminator(Plain, s).Hit? && Opened(s[0]).Some?
    ensures 0 < n <= |s| && QuotedPiece(s[..n]) && AfterTerminator(Plain, s) == AfterTerminator(Plain, s[n..])
  {
    hide AfterTerminator;
    hide IndexOf;
    var m, body := Opened(s[0]).value, s[1..];
    Seqs.HeadTail(s);
    OpenQuote(m, body);
    IndexOfByte(body, s[0]);
    var i := IndexOf(body, [s[0]]);
    if i == -1 {
      QuoteStays(m, body);
    }
    QuoteCloses(m, body, i);
    n := i + 2;
    QuotedPieceAt(s, i);
    Seqs.DropDrop(s, 1, i + 1);
  }

  lemma QuotedPieceAt(s: string, i: nat)
    requires s != "" && Opened(s[0]).Some? && i + 1 < |s| && s[1..][i] == s[0] && s[0] !in s[1..][..i]
    ensures QuotedPiece(s[..i + 2])
  {
    assert s[..i + 2][1..i + 1] == s[1..][..i];
  }

  /** The splitter finds exactly the terminators behind pieces. */
  lemma {:induction false} HitTerminates(s: string)
    requires AfterTerminator(Plain, s).Hit?
    ensures Terminates(s, AfterTerminator(Plain, s).rest)
    decreases |s|
  {
    hide Piece;
    var rest := AfterTerminator(Plain, s).rest;
    if s[0] == ';' {
      assert s[..1] == ";" && !HasPrefix(s, "--") && !HasPrefix(s, "/*") by {
        assert |s| > 1 ==> s[..2][0] == ';';
      }
      assert rest == s[1..];
      Seqs.HeadTail(s);
      var none: seq<string> := [];
      Seqs.Empty(s);
      assert Pieces(none, ";" + rest) && s == Concat(none) + (";" + rest);
    } else {
      var n := FirstPiece(s);
      HitTerminates(s[n..]);
      OneMorePiece(s[..n], s[n..], rest);
      assert s[..n] + s[n..] == s;
    }
  }

  lemma SplitterFinds(s: string, rest: string)
    ensures AfterTerminator(Plain, s) == Hit(rest) <==> Terminates(s, rest)
  {
    if AfterTerminator(Plain, s) == Hit(rest) {
      HitTerminates(s);
    }
    if Terminates(s, rest) {
      var ps :| Pieces(ps, ";" + rest) && s == Concat(ps) + (";" + rest);
      PiecesSkipped(ps, ";" + rest);
      PlainTerminator(rest);
    }
  }

  /** Something other than gaps follows the first terminator. */
  ghost predicate MultipleStatements(s: string) {
    AfterTerminator(Plain, s).Hit? && !OnlyGaps(AfterTerminator(Plain, s).rest)
  }

  lemma MultipleMeans(s: string)
    ensures MultipleStatements(s) <==> exists rest :: Terminates(s, rest) && !OnlyGaps(rest)
  {
    hide OnlyGaps;
    hide Terminates;
    if MultipleStatements(s) {
      SplitterFinds(s, AfterTerminator(Plain, s).rest);
    }
    forall rest | Terminates(s, rest) ensures AfterTerminator(Plain, s) == Hit(rest) {
      SplitterFinds(s, rest);
    }
  }

  method HasMultipleStatements(s: string) returns (r: bool)
    ensures r <==> MultipleStatements(s)
    ensures r <==> exists rest :: Terminates(s, rest) && !OnlyGaps(rest)
  {
    MultipleMeans(s);
    hide Terminates;
    hide OnlyGaps;
    assert s[0..] == s;
    NoTerminatorAtEnd(s);
    hide AfterTerminator;
    hide StripLeading;
    hide IndexOf;
    var mode := Plain;
    var i := 0;
    while i < |s|
      invariant 0 <= i <= |s|
      invariant !mode.Line? && !mode.Block?
      invariant AfterTerminator(mode, s[i..]) == AfterTerminator(Plain, s)
      decreases |s| - i
    {
      var ch := s[i];
      if mode != Plain {
        QuotedStep(mode, s, i);
        if ch == QuoteOf(mode) {
          if mode == Single && i + 1 < |s| && s[i + 1] == '\'' {
            i := i + 2;
            continue;
          }
          mode := Plain;
        }
        i := i + 1;
        continue;
      }
      if OpensComment(s, i) {
        i := SkipComment(s, i);
        if i < 0 {
          return false;
        }
        continue;
      }
      PlainStep(s, i);
      if ch == ';' {
        var tail := StripLeadingSQLComments(s[i + 1..]);
        return tail != "";
      }
      match Opened(ch) {
        case Some(q) => mode := q;
        case None =>
      }
      i := i + 1;
    }
    return false;
  }

  // ---- Single steps at the head of a text ---------------------------------------------------

  lemma OpenQuote(m: Mode, body: string)
    requires m.Single? || m.Double? || m.Backtick?
    ensures AfterTerminator(Plain, [QuoteOf(m)] + body) == AfterTerminator(m, body)
  {
    hide AfterTerminator;
    var s := [QuoteOf(m)] + body;
    assert s[0..] == s && s[1..] == body;
    PlainStep(s, 0);
  }

  /** A byte that opens nothing is passed over. */
  lemma PlainByte(c: char, body: string)
    requires Opened(c).None? && c != ';' && c != '/'
    requires c == '-' ==> body != [] && body[0] != '-'
    ensures AfterTerminator(Plain, [c] + body) == AfterTerminator(Plain, body)
  {
    hide AfterTerminator;
    var s := [c] + body;
    assert s[0..] == s && s[1..] == body;
    PlainStep(s, 0);
  }

  lemma PlainTerminator(rest: string)
    ensures AfterTerminator(Plain, ";" + rest) == Hit(rest)
  {
    hide AfterTerminator;
    var s := ";" + rest;
    assert s[0..] == s && s[1..] == rest;
    PlainStep(s, 0);
  }

  // ---- Scanning on ---------------------------------------------------------------------------

  /** Two bytes that form a comment mark. */
  predicate Joins(a: char, b: char) {
    (a == '-' && b == '-') || (a == '/' && b == '*') || (a == '*' && b == '/')
  }

  /** Cutting here cuts no comment mark in two. */
  predicate CleanCut(p: string, x: string) {
    p == "" || x == "" || !Joins(p[|p| - 1], x[0])
  }

  /** Nor does cutting in front of a slash in plain text. */
  predicate SafeCut(m: Mode, p: string, x: string) {
    CleanCut(p, x) || (x[0] == '/' && AfterTerminator(m, p) == Ended(Plain))
  }

  lemma StepWithMore(m: Mode, p: string, x: string)
    requires p != "" && SafeCut(m, p, x)
    requires !(m == Single && p == "'" && x != "" && x[0] == '\'')
    ensures StepOf(m, p + x) == StepOf(m, p)
  {
    var s := p + x;
    assert s[0] == p[0] && (|p| > 1 ==> s[1] == p[1] && s[..2] == p[..2]);
    if x != "" && |p| == 1 {
      assert s[1] == x[0] && s[..2] == [p[0], x[0]];
      assert p[1..] == "";
      assert m == Block ==> AfterTerminator(m, p) == Ended(Block);
      assert m == Single && x[0] == '\'' ==> p[0] != '\'' by {
        assert p == [p[0]];
      }
    } else if x == "" {
      assert s == p;
    }
  }

  /** The splitter's run over a text is its run over the first part, continued over the second. */
  lemma {:induction false} Continue(m: Mode, p: string, x: string)
    requires SafeCut(m, p, x)
    ensures AfterTerminator(m, p + x) ==
      match AfterTerminator(m, p) case Hit(r) => Hit(r + x) case Ended(n) => AfterTerminator(n, x)
    decreases |p|
  {
    if p == "" {
      Seqs.Empty(x);
    } else if m == Single && p == "'" && x != "" && x[0] == '\'' {
      ClosedAndReopened(x);
    } else {
      StepWithMore(m, p, x);
      hide StepOf;
      match StepOf(m, p) {
        case Stop =>
          Seqs.DropOfConcat(p, x, 1);
        case Go(k, next) =>
          Seqs.DropOfConcat(p, x, k);
          Continue(next, p[k..], x);
      }
    }
  }

  lemma ClosedAndReopened(x: string)
    requires x != "" && x[0] == '\''
    ensures AfterTerminator(Single, "'" + x) == AfterTerminator(Plain, x)
    ensures AfterTerminator(Single, "'") == Ended(Plain)
  {
    var t := "'" + x;
    assert t[2..] == x[1..];
    assert |t| > 1 && t[0] == '\'' && t[1] == x[0];
    assert |x| > 1 ==> x[..2][0] == x[0];
    assert StepOf(Single, t) == Go(2, Single) && StepOf(Plain, x) == Go(1, Single);
    assert "'"[1..] == "";
  }

  /** How many statements the splitter terminates in a text when it starts over after each, and in what
      mode the text ends. */
  datatype Run = Run(terms: nat, mode: Mode)

  function Scan(m: Mode, s: string): Run
    decreases |s|
  {
    match AfterTerminator(m, s)
    case Ended(n) => Run(0, n)
    case Hit(rest) => var r := Scan(Plain, rest); Run(1 + r.terms, r.mode)
  }

  lemma {:induction false} HitIsSuffix(m: Mode, s: string)
    requires AfterTerminator(m, s).Hit?
    ensures var r := AfterTerminator(m, s).rest; r == s[|s| - |r|..]
    decreases |s|
  {
    if StepOf(m, s).Go? {
      var k, next := StepOf(m, s).width, StepOf(m, s).mode;
      HitIsSuffix(next, s[k..]);
      var r := AfterTerminator(m, s).rest;
      assert s[k..][|s| - k - |r|..] == s[|s| - |r|..];
    }
  }

  lemma {:induction false} ScanOn(m: Mode, p: string, x: string)
    requires CleanCut(p, x)
    ensures var a := Scan(m, p); var b := Scan(a.mode, x);
      Scan(m, p + x) == Run(a.terms + b.terms, b.mode)
    decreases |p|
  {
    hide AfterTerminator;
    Continue(m, p, x);
    if AfterTerminator(m, p).Hit? {
      var r := AfterTerminator(m, p).rest;
      HitIsSuffix(m, p);
      assert r != "" ==> r[|r| - 1] == p[|p| - 1];
      ScanOn(Plain, r, x);
    }
  }
}
