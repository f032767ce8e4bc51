/** Which keywords the search finds through the keyword scan, in terms of the text itself. */
module SqlSpelling {
  import opened Strings
  import opened Keywords
  import opened SqlScan
  import opened SqlWords
  import Seqs

  predicate IsWordByte(c: char) {
    ('a' <= c <= 'z') || ('A' <= c <= 'Z') || ('0' <= c <= '9') || c == '_'
  }

  /** A small letter spells its capital, any other byte itself. */
  predicate Spells(c: char, k: char) {
    if 'a' <= c <= 'z' then c as int == k as int + 32 else c == k
  }

  /** The keyword stands at this place in any mix of cases, with no word byte on either side. */
  predicate SpelledAt(s: string, keyword: string, i: int) {
    SpelledBehind(false, s, keyword, i)
  }

  /** The same in a text that stands behind a word byte, or does not. */
  predicate SpelledBehind(word: bool, s: string, keyword: string, i: int) {
    && 0 <= i <= |s| - |keyword|
    && (forall j | 0 <= j < |keyword| :: Spells(s[i + j], keyword[j]))
    && (if i == 0 then !word else !IsWordByte(s[i - 1]))
    && (i + |keyword| == |s| || !IsWordByte(s[i + |keyword|]))
  }

  // ---- Single bytes ----------------------------------------------------------------------------

  /** The capital of a code point below 256. */
  function Capital(n: nat): nat {
    if n == 0xB5 then 0x39C
    else if n == 0xFF then 0x178
    else if ('a' as int <= n <= 'z' as int) || (0xE0 <= n <= 0xFE && n != 0xF7) then n - 32
    else n
  }

  /** Outside quotes and comments a small letter is written as the letter 32 below it and every other
      ASCII byte as it is; a byte above is taken for a code point, and the first byte of its capital in
      UTF-8 is written. */
  lemma ByteShown(pre: string, c: char, rest: string)
    requires c as int <= 0xFF && EndOf(Plain, pre) == Clean && c != '\'' && c != '"' && c != '`'
    requires c == '-' ==> rest == "" || rest[0] != '-'
    requires c == '/' ==> rest == "" || rest[0] != '*'
    ensures exists b: char ::
      && Blanked(Plain, pre + ([c] + rest)) == Blanked(Plain, pre) + ([b] + Blanked(Plain, rest))
      && ('a' <= c <= 'z' ==> b as int == c as int - 32)
      && (!('a' <= c <= 'z') && c as int < 0x80 ==> b == c)
      && (c as int >= 0x80 ==> b as int == 0xC0 + Capital(c as int) / 64)
  {
    hide Blanked;
    var s := [c] + rest;
    ScanOn(Plain, pre, s);
    assert s[0..] == s && s[1..] == rest;
    PlainBlankedStep(s, 0);
  }

  /** The scan leaves no small letter behind. */
  lemma {:induction false} NoSmallLetterLeft(m: Mode, s: string)
    ensures forall c | c in Blanked(m, s) :: !('a' <= c <= 'z')
    decreases |s|
  {
    if s != [] {
      hide Blanked;
      var turn := TurnOf(m, s);
      TurnBlanked(m, s);
      NoSmallLetterLeft(turn.next, s[turn.width..]);
    }
  }

  lemma ShownWordByte(c: char, k: char)
    requires IsSQLIdent(k)
    ensures UpperByte(c) == k <==> Spells(c, k)
    ensures IsSQLIdent(UpperByte(c)) <==> IsWordByte(c)
    ensures Spells(c, k) ==> IsWordByte(c)
  {
  }

  // ---- Words -----------------------------------------------------------------------------------

  predicate WordBehind(word: bool, b: string, keyword: string, j: int) {
    && OccursAt(b, keyword, j)
    && (if j == 0 then !word else !IsSQLIdent(b[j - 1]))
    && (j + |keyword| >= |b| || !IsSQLIdent(b[j + |keyword|]))
  }

  lemma FirstByte(s: string)
    requires s != ""
    ensures var b, c := Blanked(Plain, s), UpperByte(s[0]);
      && b != "" && (IsSQLIdent(b[0]) <==> IsWordByte(s[0]))
      && (IsWordByte(s[0]) ==> b == [c] + Blanked(Plain, s[1..]))
      && (forall k | IsSQLIdent(k) :: b[0] == k <==> Spells(s[0], k))
  {
    hide Blanked;
    hide UpperByte;
    assert s[0..] == s;
    PlainBlankedStep(s, 0);
    forall k | IsSQLIdent(k)
      ensures (UpperByte(s[0]) == k <==> Spells(s[0], k)) && (Spells(s[0], k) ==> IsWordByte(s[0]))
    {
      ShownWordByte(s[0], k);
    }
    ShownWordByte(s[0], 'A');
  }

  lemma {:induction false} FirstWord(s: string, keyword: string)
    requires forall c | c in keyword :: IsSQLIdent(c)
    ensures WordBehind(false, Blanked(Plain, s), keyword, 0) <==> SpelledBehind(false, s, keyword, 0)
    decreases |keyword|
  {
    hide Blanked;
    hide IsSQLIdent;
    hide IsWordByte;
    hide Spells;
    var b := Blanked(Plain, s);
    if s == "" {
      NothingBlanked(s, Plain);
    } else {
      FirstByte(s);
      if keyword != "" {
        assert keyword[0] in keyword && forall c | c in keyword[1..] :: c in keyword;
        if Spells(s[0], keyword[0]) {
          assert IsWordByte(s[0]) by {
            ShownWordByte(s[0], keyword[0]);
          }
          FirstWord(s[1..], keyword[1..]);
          FirstShift(s, b, keyword);
        } else {
          assert OccursAt(b, keyword, 0) ==> b[0] == keyword[0] by {
            OccursFirst(b, keyword);
          }
        }
      } else {
        OccursFirst(b, keyword);
      }
    }
  }

  /** Taking the first byte off text, scan and keyword. */
  lemma FirstShift(s: string, b: string, keyword: string)
    requires s != "" && b != "" && keyword != "" && Spells(s[0], keyword[0]) && b[0] == keyword[0]
    ensures WordBehind(false, b, keyword, 0) <==> WordBehind(false, b[1..], keyword[1..], 0)
    ensures SpelledBehind(false, s, keyword, 0) <==> SpelledBehind(false, s[1..], keyword[1..], 0)
  {
    hide IsSQLIdent;
    hide IsWordByte;
    hide Spells;
    Seqs.HeadTail(b);
    Seqs.HeadTail(keyword);
    OccursFirst(b, keyword);
    OccursFirst(b[1..], keyword[1..]);
    if |keyword| <= |b| {
      assert b[..|keyword|] == [b[0]] + b[1..][..|keyword| - 1];
    }
    if SpelledBehind(false, s[1..], keyword[1..], 0) {
      forall j | 0 <= j < |keyword| ensures Spells(s[j], keyword[j]) {
        assert j > 0 ==> Spells(s[1..][j - 1], keyword[1..][j - 1]);
      }
    }
  }

  lemma NoFirstWord(m: Mode, s: string, keyword: string)
    requires m != Plain && IsKeyword(keyword)
    ensures !OccursAt(Blanked(m, s), keyword, 0)
  {
    var b := Blanked(m, s);
    if s != "" {
      TurnBlanked(m, s);
      hide Blanked;
      assert keyword[0] in keyword;
      var rest := Blanked(TurnOf(m, s).next, s[TurnOf(m, s).width..]);
      if TurnOf(m, s).piece == "" {
        NothingBlanked(s[1..], Block);
      }
      assert b != "" ==> b[0] == ' ' || b[0] == '\n';
      if OccursAt(b, keyword, 0) {
        OccurrenceHead(b, keyword, 0);
      }
    }
  }

  /** Past one turn, words of the scan are words of the scan of what follows. */
  lemma WordShift(word: bool, piece: string, rest: string, keyword: string, j: int, behind: bool)
    requires IsKeyword(keyword) && j > 0
    requires |piece| == 1 || piece == "  "
    requires OccursAt(rest, keyword, 0) ==> behind == IsSQLIdent(piece[|piece| - 1])
    ensures WordBehind(word, piece + rest, keyword, j)
       <==> j >= |piece| && WordBehind(behind, rest, keyword, j - |piece|)
  {
    var b, n := piece + rest, |piece|;
    assert keyword[0] in keyword && !IsSQLIdent(' ');
    hide IsSQLIdent;
    if j < n {
      if OccursAt(b, keyword, j) {
        OccurrenceHead(b, keyword, j);
      }
    } else {
      if j + |keyword| <= |b| {
        Seqs.SliceOfConcat(piece, rest, j, j + |keyword|);
      }
      assert OccursAt(b, keyword, j) <==> OccursAt(rest, keyword, j - n);
    }
  }

  // ---- Places in the text ------------------------------------------------------------------------

  predicate Visible(word: bool, m: Mode, s: string, keyword: string, i: int) {
    SpelledBehind(word, s, keyword, i) && EndOf(m, s[..i]) != Inside
  }

  /** Past one turn, it makes no difference whether the text before a word byte starts before the turn. */
  lemma EndShift(m: Mode, s: string, i: nat)
    requires 0 < i < |s| && IsWordByte(s[i])
    ensures var (k, next) := (TurnOf(m, s).width, TurnOf(m, s).next);
      i >= k && (EndOf(m, s[..i]) == Inside <==> EndOf(next, s[k..][..i - k]) == Inside)
  {
    var p, turn := s[..i], TurnOf(m, s);
    assert |s| > 1 ==> s[..2] == [s[0], s[1]];
    assert i >= turn.width;
    if i == 1 {
      EndShiftOne(m, s);
    } else {
      assert s == p + s[i..];
      TurnWithMore(m, p, s[i..]);
      assert p[turn.width..] == s[turn.width..][..i - turn.width];
    }
  }

  lemma EndShiftOne(m: Mode, s: string)
    requires |s| > 1 && IsWordByte(s[1])
    ensures TurnOf(m, s).width == 1
    ensures EndOf(m, s[..1]) == Inside <==> TurnOf(m, s).next != Plain
    ensures s[1..][..0] == "" && (EndOf(TurnOf(m, s).next, "") == Inside <==> TurnOf(m, s).next != Plain)
  {
    var p := s[..1];
    assert s[..2] == [s[0], s[1]] && p[1..] == "" && s[1..][..0] == "";
    assert EndOf(TurnOf(m, p).next, p[1..]) == if TurnOf(m, p).next == Plain then Clean else Inside;
  }

  lemma VisibleShift(word: bool, m: Mode, s: string, keyword: string, i: int)
    requires IsKeyword(keyword) && s != "" && i > 0
    ensures var (k, next) := (TurnOf(m, s).width, TurnOf(m, s).next);
      && 0 < k <= |s|
      && (Visible(word, m, s, keyword, i)
          <==> i >= k && Visible(IsWordByte(s[k - 1]), next, s[k..], keyword, i - k))
  {
    TurnBlanked(m, s);
    hide EndOf;
    var k := TurnOf(m, s).width;
    TurnBounds(m, s);
    hide IsWordByte;
    hide Spells;
    assert keyword[0] in keyword;
    if i + |keyword| <= |s| {
      if Spells(s[i], keyword[0]) {
        ShownWordByte(s[i], keyword[0]);
        EndShift(m, s, i);
        SpelledShift(word, s, keyword, i, k);
      } else {
        assert !SpelledBehind(word, s, keyword, i) by {
          assert Spells(s[i + 0], keyword[0]) || !SpelledBehind(word, s, keyword, i);
        }
        if i >= k {
          assert s[k..][i - k + 0] == s[i];
        }
      }
    }
  }

  lemma SpelledShift(word: bool, s: string, keyword: string, i: nat, k: nat)
    requires 0 < k <= i <= |s| - |keyword|
    ensures SpelledBehind(word, s, keyword, i) <==> SpelledBehind(IsWordByte(s[k - 1]), s[k..], keyword, i - k)
  {
    hide IsWordByte;
    hide Spells;
    var t := s[k..];
    forall j | 0 <= j < |keyword| ensures Spells(t[i - k + j], keyword[j]) <==> Spells(s[i + j], keyword[j]) {
      assert t[i - k + j] == s[i + j];
    }
    assert i > k ==> t[i - k - 1] == s[i - 1];
    assert i + |keyword| < |s| ==> t[i - k + |keyword|] == s[i + |keyword|];
  }

  // ---- What the search finds ---------------------------------------------------------------------

  ghost predicate FoundBehind(word: bool, b: string, keyword: string) {
    exists j :: WordBehind(word, b, keyword, j)
  }

  ghost predicate SpelledSomewhere(word: bool, m: Mode, s: string, keyword: string) {
    exists i :: Visible(word, m, s, keyword, i)
  }

  lemma FirstPlace(word: bool, m: Mode, s: string, keyword: string)
    requires IsKeyword(keyword)
    ensures WordBehind(word, Blanked(m, s), keyword, 0) <==> Visible(word, m, s, keyword, 0)
  {
    assert s[..0] == "";
    if m == Plain {
      FirstWord(s, keyword);
    } else {
      NoFirstWord(m, s, keyword);
    }
  }

  /** What a turn writes last is an identifier byte exactly when what it reads last is a word byte, if it
      leaves the scan in its default state. */
  lemma TurnBehind(m: Mode, s: string)
    requires s != "" && TurnOf(m, s).next == Plain
    ensures var (piece, k) := (TurnOf(m, s).piece, TurnOf(m, s).width);
      0 < k <= |s| && piece != "" && (IsSQLIdent(piece[|piece| - 1]) <==> IsWordByte(s[k - 1]))
  {
    assert |s| > 1 ==> s[..2] == [s[0], s[1]];
    ShownWordByte(s[0], 'A');
  }

  lemma FoundSplit(word: bool, m: Mode, s: string, keyword: string, behind: bool)
    requires IsKeyword(keyword) && s != "" && 0 < TurnOf(m, s).width <= |s|
    requires behind == IsWordByte(s[TurnOf(m, s).width - 1])
    ensures FoundBehind(word, Blanked(m, s), keyword) <==>
      || WordBehind(word, Blanked(m, s), keyword, 0)
      || FoundBehind(behind, Blanked(TurnOf(m, s).next, s[TurnOf(m, s).width..]), keyword)
  {
    hide Blanked;
    hide WordBehind;
    hide IsWordByte;
    TurnBlanked(m, s);
    var turn := TurnOf(m, s);
    var b, rest := Blanked(m, s), Blanked(turn.next, s[turn.width..]);
    if turn.piece == "" {
      assert b == rest;
      NoWords(m, s, word, behind, keyword);
    } else {
      LastWritten(m, s, keyword);
      forall j | j > 0
        ensures WordBehind(word, b, keyword, j)
           <==> j >= |turn.piece| && WordBehind(behind, rest, keyword, j - |turn.piece|)
      {
        WordShift(word, turn.piece, rest, keyword, j, behind);
      }
      hide TurnOf;
      ShiftedPlaces(word, b, rest, keyword, |turn.piece|, behind);
    }
  }

  lemma ShiftedPlaces(word: bool, b: string, rest: string, keyword: string, n: nat, behind: bool)
    requires n > 0
    requires forall j | j > 0 :: WordBehind(word, b, keyword, j) <==> j >= n && WordBehind(behind, rest, keyword, j - n)
    ensures FoundBehind(word, b, keyword) <==> WordBehind(word, b, keyword, 0) || FoundBehind(behind, rest, keyword)
  {
    if j :| WordBehind(word, b, keyword, j) {
      assert j >= 0;
      assert j == 0 || WordBehind(behind, rest, keyword, j - n);
    }
    if j :| WordBehind(behind, rest, keyword, j) {
      assert j >= 0 && j + n - n == j;
      assert WordBehind(word, b, keyword, j + n);
    }
  }

  /** The last byte of an unclosed comment writes nothing. */
  lemma NoWords(m: Mode, s: string, word: bool, behind: bool, keyword: string)
    requires s != "" && TurnOf(m, s).piece == "" && IsKeyword(keyword)
    ensures !FoundBehind(word, Blanked(m, s), keyword)
    ensures !FoundBehind(behind, Blanked(TurnOf(m, s).next, s[TurnOf(m, s).width..]), keyword)
  {
    assert s[1..] == "";
  }

  lemma LastWritten(m: Mode, s: string, keyword: string)
    requires IsKeyword(keyword) && s != "" && TurnOf(m, s).piece != ""
    ensures var (piece, k, next) := (TurnOf(m, s).piece, TurnOf(m, s).width, TurnOf(m, s).next);
      && 0 < k <= |s| && (|piece| == 1 || piece == "  ")
      && (OccursAt(Blanked(next, s[k..]), keyword, 0) ==> IsWordByte(s[k - 1]) == IsSQLIdent(piece[|piece| - 1]))
  {
    TurnBlanked(m, s);
    hide Blanked;
    var turn := TurnOf(m, s);
    if turn.next == Plain {
      TurnBehind(m, s);
    } else {
      NoFirstWord(turn.next, s[turn.width..], keyword);
    }
  }

  lemma SpelledSplit(word: bool, m: Mode, s: string, keyword: string)
    requires IsKeyword(keyword) && s != ""
    ensures 0 < TurnOf(m, s).width <= |s|
    ensures SpelledSomewhere(word, m, s, keyword) <==>
      || Visible(word, m, s, keyword, 0)
      || SpelledSomewhere(IsWordByte(s[TurnOf(m, s).width - 1]), TurnOf(m, s).next, s[TurnOf(m, s).width..], keyword)
  {
    TurnBlanked(m, s);
    TurnBounds(m, s);
    var k, next := TurnOf(m, s).width, TurnOf(m, s).next;
    hide TurnOf;
    hide IsWordByte;
    var behind := IsWordByte(s[k - 1]);
    forall i | i > 0
      ensures Visible(word, m, s, keyword, i) <==> i >= k && Visible(behind, next, s[k..], keyword, i - k)
    {
      VisibleShift(word, m, s, keyword, i);
    }
    if i :| Visible(word, m, s, keyword, i) {
      assert i == 0 || Visible(behind, next, s[k..], keyword, i - k);
    }
    if i :| Visible(behind, next, s[k..], keyword, i) {
      assert i + k - k == i;
      assert Visible(word, m, s, keyword, i + k);
    }
  }

  lemma {:induction false} FoundIsSpelled(word: bool, m: Mode, s: string, keyword: string)
    requires IsKeyword(keyword)
    ensures FoundBehind(word, Blanked(m, s), keyword) <==> SpelledSomewhere(word, m, s, keyword)
    decreases |s|
  {
    if s == "" {
      NothingBlanked(s, m);
    } else {
      SpelledSplit(word, m, s, keyword);
      var k, next := TurnOf(m, s).width, TurnOf(m, s).next;
      var behind := IsWordByte(s[k - 1]);
      FirstPlace(word, m, s, keyword);
      FoundSplit(word, m, s, keyword, behind);
      hide *;
      FoundIsSpelled(behind, next, s[k..], keyword);
    }
  }

  /** The search finds a keyword in the scanned text exactly when the text spells it, in any mix of cases
      and as a whole word, outside quotes and comments. */
  lemma FoundExactly(s: string, keyword: string)
    requires IsKeyword(keyword)
    ensures HasWord(Blanked(Plain, s), keyword)
       <==> exists i :: SpelledAt(s, keyword, i) && EndOf(Plain, s[..i]) != Inside
  {
    hide Blanked;
    FoundIsSpelled(false, Plain, s, keyword);
    var b := Blanked(Plain, s);
    assert forall j :: WordBehind(false, b, keyword, j) <==> WholeWordAt(b, keyword, j);
    assert forall i :: Visible(false, Plain, s, keyword, i) <==>
      SpelledAt(s, keyword, i) && EndOf(Plain, s[..i]) != Inside;
  }
}
