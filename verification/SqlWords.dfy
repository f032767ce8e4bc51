/** The keyword search over scanned text with quoted strings in it. */
module SqlWords {
  import opened Strings
  import opened Keywords
  import opened SqlScan
  import opened SqlExport
  import Seqs

  // ---- Where the keyword scan of a text ends -------------------------------------------------

  /** One turn of the keyword scan: what it writes, how much it reads, and the state it goes on in. */
  datatype Turn = Turn(piece: string, width: nat, next: Mode)

  function TurnOf(m: Mode, s: string): Turn
    requires s != []
  {
    match m
    case Plain =>
      if HasPrefix(s, "--") then Turn("  ", 2, Line)
      else if HasPrefix(s, "/*") then Turn("  ", 1, Block)
      else (match Opened(s[0]) case Some(q) => Turn(" ", 1, q) case None => Turn([UpperByte(s[0])], 1, Plain))
    case Line => if s[0] == '\n' then Turn("\n", 1, Plain) else Turn(" ", 1, Line)
    case Block =>
      if |s| == 1 then Turn("", 1, Block)
      else if HasPrefix(s, "*/") then Turn("  ", 2, Plain)
      else Turn(" ", 1, Block)
    case _ =>
      if s[0] != QuoteOf(m) then Turn(" ", 1, m)
      else if |s| > 1 && s[1] == QuoteOf(m) then Turn("  ", 2, m)
      else Turn(" ", 1, Plain)
  }

  lemma TurnBlanked(m: Mode, s: string)
    requires s != []
    ensures var (piece, k, next) := (TurnOf(m, s).piece, TurnOf(m, s).width, TurnOf(m, s).next);
      k <= |s| && Blanked(m, s) == piece + Blanked(next, s[k..])
  {
    if m == Line && s[0] == '\n' {
      assert |s| > 1 ==> s[..2][0] == '\n';
      assert Blanked(Plain, s) == "\n" + Blanked(Plain, s[1..]);
    }
  }

  /** In the default state with nothing pending; in it, but behind a byte that the next one may turn into
      a comment mark; or inside a quote or a comment. */
  datatype End = Clean | HalfMark(c: char) | Inside

  function EndOf(m: Mode, s: string): End
    decreases |s|
  {
    if s == [] then (if m == Plain then Clean else Inside)
    else if m == Plain && |s| == 1 && (s[0] == '-' || s[0] == '/') then HalfMark(s[0])
    else
      TurnBlanked(m, s);
      EndOf(TurnOf(m, s).next, s[TurnOf(m, s).width..])
  }

  /** A turn looks at two bytes at most. */
  lemma TurnWithMore(m: Mode, s: string, rest: string)
    requires |s| > 1 || (|s| == 1 && (m == Line || (m == Plain && s[0] != '-' && s[0] != '/')))
    ensures TurnOf(m, s + rest) == TurnOf(m, s)
  {
    assert |s| > 1 ==> (s + rest)[..2] == s[..2];
    assert |s + rest| > 1 ==> (s + rest)[..2][0] == s[0];
  }

  lemma SplitTurn(m: Mode, s: string, rest: string)
    requires s != [] && TurnOf(m, s + rest) == TurnOf(m, s)
    ensures var (piece, k, next) := (TurnOf(m, s).piece, TurnOf(m, s).width, TurnOf(m, s).next);
      && k <= |s| && Blanked(m, s) == piece + Blanked(next, s[k..])
      && Blanked(m, s + rest) == piece + Blanked(next, s[k..] + rest)
  {
    TurnBlanked(m, s);
    TurnBlanked(m, s + rest);
    Seqs.DropOfConcat(s, rest, TurnOf(m, s).width);
  }

  // ---- In the default state --------------------------------------------------------------------

  /** The bytes that complete a half mark. */
  predicate Completes(rest: string) {
    rest != [] && (rest[0] == '-' || rest[0] == '*')
  }

  lemma {:induction false} ScanOn(m: Mode, s: string, rest: string)
    requires EndOf(m, s) == Clean || (EndOf(m, s).HalfMark? && !Completes(rest))
    ensures Blanked(m, s + rest) == Blanked(m, s) + Blanked(Plain, rest)
    decreases |s|
  {
    hide Blanked;
    hide UpperByte;
    if s == [] {
      NothingBlankedAtEnd("");
      assert ""[0..] == "";
      Seqs.Empty(rest);
      Seqs.Empty(Blanked(Plain, rest));
    } else if |s| == 1 {
      LastTurn(m, s, rest);
    } else {
      TurnWithMore(m, s, rest);
      SplitTurn(m, s, rest);
      var turn := TurnOf(m, s);
      ScanOn(turn.next, s[turn.width..], rest);
      Seqs.Assoc(turn.piece, Blanked(turn.next, s[turn.width..]), Blanked(Plain, rest));
    }
  }

  /** A closing quote with the same quote behind it reads as a doubled quote, which blanks as much as
      closing and opening again. */
  lemma LastTurn(m: Mode, s: string, rest: string)
    requires |s| == 1 && (EndOf(m, s) == Clean || (EndOf(m, s).HalfMark? && !Completes(rest)))
    ensures Blanked(m, s + rest) == Blanked(m, s) + Blanked(Plain, rest)
  {
    assert s[1..] == [];
    if m.Single? || m.Double? || m.Backtick? {
      QuoteClosed(m, s, rest);
    } else {
      hide Blanked;
      LastTurnAlike(m, s, rest);
      SplitTurn(m, s, rest);
      var turn := TurnOf(m, s);
      NothingBlanked(s[turn.width..], turn.next);
      Seqs.Empty(rest);
    }
  }

  lemma LastTurnAlike(m: Mode, s: string, rest: string)
    requires |s| == 1 && (m == Line || m == Plain)
    requires EndOf(m, s) == Clean || (EndOf(m, s).HalfMark? && !Completes(rest))
    ensures TurnOf(m, s + rest) == TurnOf(m, s)
    ensures TurnOf(m, s).next == Plain && TurnOf(m, s).width == 1
  {
    var t := s + rest;
    assert s[1..] == [] && (|t| > 1 ==> t[..2] == [s[0], rest[0]]);
    assert EndOf(Line, "") == Inside;
  }

  lemma NothingBlanked(s: string, m: Mode)
    requires s == ""
    ensures Blanked(m, s) == ""
  {
  }

  lemma QuoteClosed(m: Mode, s: string, rest: string)
    requires (m.Single? || m.Double? || m.Backtick?) && s == [QuoteOf(m)]
    ensures Blanked(m, s + rest) == Blanked(m, s) + Blanked(Plain, rest)
  {
    hide Blanked;
    Closing(m, s, "");
    NothingBlanked("", Plain);
    Seqs.Empty(s);
    Seqs.Empty(" ");
    if rest == "" || rest[0] != QuoteOf(m) {
      Closing(m, s, rest);
    } else {
      Seqs.HeadTail(rest);
      Reopening(m, s, rest[1..]);
      OpenQuoteBlanked(m, rest[1..]);
      Seqs.Assoc(" ", " ", Blanked(m, rest[1..]));
    }
  }

  lemma Closing(m: Mode, s: string, rest: string)
    requires (m.Single? || m.Double? || m.Backtick?) && s == [QuoteOf(m)]
    requires rest == "" || rest[0] != QuoteOf(m)
    ensures Blanked(m, s + rest) == " " + Blanked(Plain, rest)
  {
    hide Blanked;
    var t := s + rest;
    assert t[0..] == t && t[1..] == rest;
    QuotedBlankedStep(m, t, 0);
  }

  lemma Reopening(m: Mode, s: string, rest: string)
    requires (m.Single? || m.Double? || m.Backtick?) && s == [QuoteOf(m)]
    ensures Blanked(m, s + ([QuoteOf(m)] + rest)) == "  " + Blanked(m, rest)
  {
    hide Blanked;
    var t := s + ([QuoteOf(m)] + rest);
    assert t[0..] == t && t[2..] == rest;
    QuotedBlankedStep(m, t, 0);
  }

  // ---- Inside a quote or a comment -------------------------------------------------------------

  function As(n: nat): string
    ensures |As(n)| == n && forall c | c in As(n) :: c == 'A'
  {
    if n == 0 then "" else ['A'] + As(n - 1)
  }

  lemma {:induction false} AsBlanked(n: nat)
    ensures Blanked(Plain, As(n)) == As(n)
  {
    if n == 0 {
      NothingBlankedAtEnd("");
      assert ""[0..] == "";
    } else {
      PlainByteBlanked('A', As(n - 1));
      AsBlanked(n - 1);
    }
  }

  predicate AllBlank(s: string, from: nat) {
    forall i | from <= i < |s| :: s[i] == ' '
  }

  /** No byte of the text ends a quote or a comment of this kind. */
  predicate NoExit(m: Mode, t: string) {
    && m != Plain && (m == Line ==> '\n' !in t) && (m == Block ==> '*' !in t)
    && (m.Single? || m.Double? || m.Backtick? ==> QuoteOf(m) !in t)
  }

  lemma {:induction false} StaysHidden(m: Mode, t: string)
    requires NoExit(m, t)
    ensures AllBlank(Blanked(m, t), 0)
    decreases |t|
  {
    if t != [] {
      assert t[0] in t && forall c | c in t[1..] :: c in t;
      assert m == Block && |t| > 1 ==> t[..2][0] == t[0];
      StaysHidden(m, t[1..]);
    }
  }

  /** An empty literal and letters, which show neither in a quote nor in a comment. */
  function Probe(q: char, n: nat): string {
    [q, q] + As(n)
  }

  lemma ProbeHidden(m: Mode, q: char, n: nat)
    requires m != Plain && Opened(q).Some?
    ensures AllBlank(Blanked(m, Probe(q, n)), 0)
  {
    var t := Probe(q, n);
    assert forall c | c in t :: c == q || c in As(n);
    if (m.Single? || m.Double? || m.Backtick?) && q == QuoteOf(m) {
      assert t[2..] == As(n);
      StaysHidden(m, As(n));
    } else {
      StaysHidden(m, t);
    }
  }

  lemma {:induction false} HiddenTail(m: Mode, s: string, q: char, n: nat)
    requires EndOf(m, s) == Inside && Opened(q).Some?
    ensures AllBlank(Blanked(m, s + Probe(q, n)), 2 * |s|)
    decreases |s|
  {
    hide Blanked;
    hide AllBlank;
    var tail := Probe(q, n);
    if s == [] {
      ProbeHidden(m, q, n);
      Seqs.Empty(tail);
    } else if m == Block && |s| == 1 {
      PendingByte(s, q, n);
    } else {
      var turn := TurnOf(m, s);
      ProbeTurn(m, s, q, n);
      SplitTurn(m, s, tail);
      HiddenTail(turn.next, s[turn.width..], q, n);
      BlankBehind(turn.piece, Blanked(turn.next, s[turn.width..] + tail), 2 * |s[turn.width..]|, 2 * |s|);
    }
  }

  lemma ProbeTurn(m: Mode, s: string, q: char, n: nat)
    requires s != [] && EndOf(m, s) == Inside && !(m == Block && |s| == 1)
    ensures TurnOf(m, s + Probe(q, n)) == TurnOf(m, s) && 1 <= TurnOf(m, s).width && |TurnOf(m, s).piece| <= 2
  {
    if |s| == 1 {
      LastInside(m, s);
    }
    hide EndOf;
    TurnBounds(m, s);
    if m.Single? || m.Double? || m.Backtick? {
      QuotedTurn(m, s, Probe(q, n));
    } else {
      hide TurnOf;
      TurnWithMore(m, s, Probe(q, n));
    }
  }

  lemma TurnBounds(m: Mode, s: string)
    requires s != []
    ensures 1 <= TurnOf(m, s).width && |TurnOf(m, s).piece| <= 2
  {
  }

  lemma QuotedTurn(m: Mode, s: string, rest: string)
    requires m.Single? || m.Double? || m.Backtick?
    requires |s| > 1 || (|s| == 1 && s[0] != QuoteOf(m))
    ensures TurnOf(m, s + rest) == TurnOf(m, s)
  {
    assert (s + rest)[0] == s[0] && (|s| > 1 ==> (s + rest)[1] == s[1]);
  }

  lemma LastInside(m: Mode, s: string)
    requires |s| == 1 && EndOf(m, s) == Inside
    ensures m == Plain ==> s[0] != '-' && s[0] != '/'
    ensures m.Single? || m.Double? || m.Backtick? ==> s[0] != QuoteOf(m)
  {
    assert s[1..] == [];
  }

  lemma PendingByte(s: string, q: char, n: nat)
    requires |s| == 1 && Opened(q).Some?
    ensures AllBlank(Blanked(Block, s + Probe(q, n)), 2)
  {
    var t := s + Probe(q, n);
    assert t[1..] == Probe(q, n) && t[..2] == [s[0], q];
    ProbeHidden(Block, q, n);
  }

  lemma BlankBehind(a: string, b: string, from: nat, to: nat)
    requires AllBlank(b, from) && |a| + from <= to
    ensures AllBlank(a + b, to)
  {
  }

  /** A half mark is completed by its second byte, which is blanked then. */
  lemma {:induction false} MarkCompleted(m: Mode, s: string)
    requires EndOf(m, s).HalfMark?
    ensures var b := Blanked(m, s + if EndOf(m, s).c == '-' then "-" else "*");
      b != [] && b[|b| - 1] == ' '
    decreases |s|
  {
    hide Blanked;
    var x := if EndOf(m, s).c == '-' then "-" else "*";
    if |s| == 1 {
      LastHalf(m, s);
      MarkBlanked(s, x);
    } else {
      TurnWithMore(m, s, x);
      SplitTurn(m, s, x);
      MarkCompleted(TurnOf(m, s).next, s[TurnOf(m, s).width..]);
    }
  }

  lemma LastHalf(m: Mode, s: string)
    requires |s| == 1 && EndOf(m, s).HalfMark?
    ensures m == Plain && s[0] == EndOf(m, s).c && (s[0] == '-' || s[0] == '/')
  {
    assert s[1..] == [];
  }

  lemma MarkBlanked(s: string, x: string)
    requires |s| == 1 && ((s[0] == '-' && x == "-") || (s[0] == '/' && x == "*"))
    ensures Blanked(Plain, s + x) == "  "
  {
    var t := s + x;
    assert t == [s[0], x[0]] && t[..2] == t && t[2..] == "" && t[1..] == x;
  }

  // ---- Closed texts ----------------------------------------------------------------------------

  /** The keyword scan reads what follows this text as if nothing stood before it. */
  ghost predicate Closed(pre: string) {
    forall rest: string :: Blanked(Plain, pre + rest) == Blanked(Plain, pre) + Blanked(Plain, rest)
  }

  /** That is so exactly when the scan of the text ends in the default state with no half mark pending. */
  lemma ClosedExactly(pre: string)
    ensures Closed(pre) <==> EndOf(Plain, pre) == Clean
  {
    hide Blanked;
    hide EndOf;
    match EndOf(Plain, pre) {
      case Clean =>
        forall rest: string ensures Blanked(Plain, pre + rest) == Blanked(Plain, pre) + Blanked(Plain, rest) {
          ScanOn(Plain, pre, rest);
        }
      case HalfMark(c) =>
        var x := if c == '-' then "-" else "*";
        MarkCompleted(Plain, pre);
        LoneByte(x);
        var b := Blanked(Plain, pre) + Blanked(Plain, x);
        assert b[|b| - 1] == x[0];
      case Inside =>
        var n := 2 * |pre| + 1;
        HiddenTail(Plain, pre, '\'', n);
        ProbeShows(Single, n);
        var b := Blanked(Plain, pre) + ("  " + As(n));
        assert b[|b| - 1] == As(n)[n - 1] && As(n)[n - 1] in As(n);
    }
  }

  lemma LoneByte(x: string)
    requires x == "-" || x == "*"
    ensures Blanked(Plain, x) == x
  {
    assert x[1..] == [];
  }

  lemma ProbeShows(m: Mode, n: nat)
    requires m.Single? || m.Double? || m.Backtick?
    ensures Blanked(Plain, Probe(QuoteOf(m), n)) == "  " + As(n)
  {
    hide Blanked;
    hide As;
    var q, word := QuoteOf(m), As(n);
    var t := [q] + word;
    assert [q, q] + word == [q] + t && t[0..] == t && t[1..] == word;
    assert n > 0 ==> word[0] in word;
    OpenQuoteBlanked(m, t);
    QuotedBlankedStep(m, t, 0);
    AsBlanked(n);
    Seqs.Assoc(" ", " ", word);
  }

  /** Ordinary text without quotes and comments is one such text. */
  lemma InertCloses(pre: string)
    requires Inert(pre)
    ensures Closed(pre)
  {
    InertEnds(pre);
    ClosedExactly(pre);
  }

  lemma {:induction false} InertEnds(pre: string)
    requires Inert(pre)
    ensures EndOf(Plain, pre) == Clean
  {
    if pre != [] {
      InertTail(pre);
      assert InertAt(pre, 0);
      assert |pre| > 1 ==> pre[..2] == [pre[0], pre[1]];
      InertEnds(pre[1..]);
    }
  }

  // ---- Words around a literal ------------------------------------------------------------------

  /** Blanks between two texts neither make nor hide a whole word. */
  lemma WordsAroundBlanks(a: string, n: nat, c: string, keyword: string, i: int)
    requires IsKeyword(keyword) && n > 0
    ensures var s := a + (Blanks(n) + c);
      WholeWordAt(s, keyword, i) <==> WholeWordAt(a, keyword, i) || WholeWordAt(c, keyword, i - |a| - n)
  {
    hide Blanks;
    var s, from := a + (Blanks(n) + c), |a| + n;
    assert forall k | |a| <= k < from :: s[k] == ' ' by {
      forall k | |a| <= k < from ensures s[k] == ' ' {
        assert s[k] == Blanks(n)[k - |a|] && s[k] in Blanks(n);
      }
    }
    if OccursAt(s, keyword, i) {
      forall k | i <= k < i + |keyword| ensures s[k] != ' ' {
        assert s[i..i + |keyword|][k - i] == s[k] && s[k] in keyword;
      }
      assert s[|a|] == ' ' && s[i] != ' ';
      assert i + |keyword| <= |a| || i >= from;
    }
    var j := i + |keyword|;
    if 0 <= i && j <= |s| {
      Seqs.SliceOfConcat(a, Blanks(n) + c, i, j);
    }
    if from <= i && j <= |s| {
      Seqs.SliceOfConcat(Blanks(n), c, i - |a|, j - |a|);
    }
  }

  /** The keyword search sees nothing of what a quoted string holds: a keyword is found exactly when it
      stands before or behind the string. */
  ghost predicate LiteralHidden(m: Mode, pre: string, s: string, rest: string, keyword: string)
    requires m.Single? || m.Double? || m.Backtick?
  {
    HasWord(Blanked(Plain, pre + (Quoted(s, QuoteOf(m)) + rest)), keyword)
    <==> HasWord(Blanked(Plain, pre), keyword) || HasWord(Blanked(Plain, rest), keyword)
  }

  /** So it is behind any text that does not end inside a quote or a comment. */
  lemma LiteralInvisible(m: Mode, pre: string, s: string, rest: string, keyword: string)
    requires m.Single? || m.Double? || m.Backtick?
    requires IsKeyword(keyword) && EndOf(Plain, pre) != Inside && (rest == [] || rest[0] != QuoteOf(m))
    ensures LiteralHidden(m, pre, s, rest, keyword)
  {
    hide Blanked;
    hide EndOf;
    hide Quoted;
    hide WholeWordAt;
    LiteralBlanked(m, s, rest);
    var lit := Quoted(s, QuoteOf(m));
    var a, n, c := Blanked(Plain, pre), |lit|, Blanked(Plain, rest);
    assert n > 0 && !Completes(lit + rest) by {
      QuotedOpens(s, QuoteOf(m), rest);
    }
    var all := a + (Blanks(n) + c);
    ScanOn(Plain, pre, lit + rest);
    forall i ensures WholeWordAt(all, keyword, i)
       <==> WholeWordAt(a, keyword, i) || WholeWordAt(c, keyword, i - |a| - n) {
      WordsAroundBlanks(a, n, c, keyword, i);
    }
    if HasWord(a, keyword) {
      var j :| WholeWordAt(a, keyword, j);
      assert WholeWordAt(all, keyword, j);
    }
    if HasWord(c, keyword) {
      var j :| WholeWordAt(c, keyword, j);
      assert WholeWordAt(all, keyword, j + |a| + n);
    }
  }

  /** Whatever the string holds, whatever follows and whichever keyword is searched, this is so exactly when
      the text in front does not end inside a quote or a comment. */
  lemma LiteralInvisibleExactly(m: Mode, pre: string)
    requires m.Single? || m.Double? || m.Backtick?
    ensures (forall s, rest, keyword | IsKeyword(keyword) && (rest == [] || rest[0] != QuoteOf(m)) ::
               LiteralHidden(m, pre, s, rest, keyword))
       <==> EndOf(Plain, pre) != Inside
  {
    hide EndOf;
    if EndOf(Plain, pre) != Inside {
      hide LiteralHidden;
      forall s, rest, keyword | IsKeyword(keyword) && (rest == [] || rest[0] != QuoteOf(m))
        ensures LiteralHidden(m, pre, s, rest, keyword) {
        LiteralInvisible(m, pre, s, rest, keyword);
      }
    } else {
      LiteralConcealed(m, pre);
    }
  }

  lemma LiteralConcealed(m: Mode, pre: string)
    requires m.Single? || m.Double? || m.Backtick?
    requires EndOf(Plain, pre) == Inside
    ensures var word := As(2 * |pre| + 1);
      IsKeyword(word) && word[0] != QuoteOf(m) && !LiteralHidden(m, pre, "", word, word)
  {
    hide Blanked;
    hide EndOf;
    hide As;
    hide IsSQLIdent;
    hide WholeWordAt;
    hide AllBlank;
    var q, n := QuoteOf(m), 2 * |pre| + 1;
    var word := As(n);
    AIsLetter(n);
    HiddenTail(Plain, pre, q, n);
    EmptyQuoted(q);
    assert Quoted("", q) + word == Probe(q, n);
    hide Quoted;
    hide Probe;
    AsBlanked(n);
    NotAmongBlanks(Blanked(Plain, pre + Probe(q, n)), n);
  }

  lemma EmptyQuoted(q: char)
    ensures Quoted("", q) == [q, q]
  {
  }

  lemma AIsLetter(n: nat)
    requires n > 0
    ensures IsKeyword(As(n)) && As(n)[0] == 'A' && HasWord(As(n), As(n))
  {
    hide As;
    var word := As(n);
    assert word[0] in word;
    assert word[0..0 + |word|] == word && WholeWordAt(word, word, 0);
  }

  lemma OccurrenceByte(s: string, sub: string, i: int, k: nat)
    requires OccursAt(s, sub, i) && k < |sub|
    ensures s[i + k] == sub[k]
  {
    assert s[i..i + |sub|][k] == s[i + k];
  }

  lemma NotAmongBlanks(b: string, n: nat)
    requires n > 0 && AllBlank(b, n - 1)
    ensures !HasWord(b, As(n))
  {
    hide As;
    var word := As(n);
    assert word[n - 1] in word;
    forall i ensures !WholeWordAt(b, word, i) {
      if OccursAt(b, word, i) {
        OccurrenceByte(b, word, i, n - 1);
      }
    }
  }
}
