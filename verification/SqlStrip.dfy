/** Stripping leading SQL comments, and what it means. */
module SqlStrip {
  import opened Strings
  import Seqs

  predicate IsSpaceOrTab(c: char) { c == ' ' || c == '\t' || c == '\n' || c == '\r' }

  /** ASCII white space as strings.TrimSpace sees it. */
  predicate IsSpace(c: char) { c == ' ' || '\t' <= c <= '\r' }

  function TrimLeft(s: string): (t: string)
    ensures |t| <= |s|
  {
    if s != [] && IsSpaceOrTab(s[0]) then TrimLeft(s[1..]) else s
  }

  function TrimSpace(s: string): string
    decreases |s|
  {
    if s == [] then []
    else if IsSpace(s[0]) then TrimSpace(s[1..])
    else if IsSpace(s[|s| - 1]) then TrimSpace(s[..|s| - 1])
    else s
  }

  function StripLeading(s: string): string
    decreases |s|
  {
    var t := TrimLeft(s);
    if HasPrefix(t, "--") then
      var i := IndexOf(t, "\n");
      if i >= 0 then StripLeading(t[i + 1..]) else ""
    else if HasPrefix(t, "/*") then
      var i := IndexOf(t, "*/");
      if i >= 0 then StripLeading(t[i + 2..]) else ""
    else TrimSpace(t)
  }

  // What stripping means, without the loop: a run of gaps goes, then white space at both ends.

  function Concat(pieces: seq<string>): string {
    if pieces == [] then "" else pieces[0] + Concat(pieces[1..])
  }

  predicate AllSpace(s: string) {
    forall c | c in s :: IsSpace(c)
  }

  /** Begins with the one mark and ends with the first occurrence of the other in it. */
  predicate Closes(p: string, open: string, close: string) {
    HasPrefix(p, open) && IndexOf(p, close) == |p| - |close|
  }

  predicate Unclosed(t: string, open: string, close: string) {
    HasPrefix(t, open) && IndexOf(t, close) == -1
  }

  /** One byte of white space, or one closed comment. A slash right behind the star of an opening
      closes the comment. */
  predicate Gap(p: string) {
    (|p| == 1 && IsSpaceOrTab(p[0])) || Closes(p, "--", "\n") || Closes(p, "/*", "*/")
  }

  predicate OpenComment(t: string) {
    Unclosed(t, "--", "\n") || Unclosed(t, "/*", "*/")
  }

  predicate NoGapAhead(t: string) {
    t == "" || (!IsSpaceOrTab(t[0]) && !HasPrefix(t, "--") && !HasPrefix(t, "/*"))
  }

  predicate NoSpaceAtEnds(r: string) {
    r == "" || (!IsSpace(r[0]) && !IsSpace(r[|r| - 1]))
  }

  /** `r` is `t` without the white space at its ends. */
  ghost predicate IsTrimmed(t: string, r: string) {
    exists before, after :: t == before + r + after && AllSpace(before) && AllSpace(after)
      && NoSpaceAtEnds(r)
  }

  /** `r` is what stripping leaves of `s`: behind a run of gaps either nothing, in a comment that never
      ends, or the trimmed text. */
  ghost predicate IsStripped(s: string, r: string) {
    exists gaps: seq<string>, t ::
      && (forall g | g in gaps :: Gap(g)) && s == Concat(gaps) + t
      && ((OpenComment(t) && r == "") || (NoGapAhead(t) && IsTrimmed(t, r)))
  }

  /** Nothing but gaps, and behind them white space or a comment that never ends. */
  ghost predicate OnlyGaps(s: string) {
    exists gaps: seq<string>, t ::
      (forall g | g in gaps :: Gap(g)) && s == Concat(gaps) + t && (OpenComment(t) || AllSpace(t))
  }

  lemma TrimmedBy(before: string, r: string, after: string)
    requires AllSpace(before) && AllSpace(after) && NoSpaceAtEnds(r)
    ensures IsTrimmed(before + r + after, r)
  {
  }

  lemma MoreSpace(c: char, t: string, r: string)
    requires IsSpace(c) && IsTrimmed(t, r)
    ensures IsTrimmed([c] + t, r) && IsTrimmed(t + [c], r)
  {
    hide NoSpaceAtEnds;
    hide IsSpace;
    var before, after :| t == before + r + after && AllSpace(before) && AllSpace(after) && NoSpaceAtEnds(r);
    TrimmedBy([c] + before, r, after);
    Seqs.Assoc([c], before + r, after);
    Seqs.Assoc([c], before, r);
    TrimmedBy(before, r, after + [c]);
    Seqs.Assoc(before + r, after, [c]);
  }

  lemma {:induction false} TrimSpaceTrims(t: string)
    ensures IsTrimmed(t, TrimSpace(t))
    decreases |t|
  {
    hide IsTrimmed;
    if t == [] {
      TrimmedBy("", "", "");
    } else if IsSpace(t[0]) {
      TrimSpaceTrims(t[1..]);
      MoreSpace(t[0], t[1..], TrimSpace(t));
      Seqs.HeadTail(t);
    } else if IsSpace(t[|t| - 1]) {
      TrimSpaceTrims(t[..|t| - 1]);
      MoreSpace(t[|t| - 1], t[..|t| - 1], TrimSpace(t));
      Seqs.InitLast(t);
    } else {
      TrimmedBy("", t, "");
      assert "" + t + "" == t;
    }
  }

  lemma {:induction false} SpacesTrimmed(before: string, r: string, after: string)
    requires AllSpace(before) && AllSpace(after) && NoSpaceAtEnds(r)
    ensures TrimSpace(before + r + after) == r
    decreases |before| + |after|, |after|
  {
    var t := before + r + after;
    if before != "" {
      assert t[1..] == before[1..] + r + after;
      SpacesTrimmed(before[1..], r, after);
    } else if after != "" {
      var init := after[..|after| - 1];
      if r == "" {
        assert t == after + "" + "" && t == after;
        SpacesTrimmed(after, "", "");
      } else {
        assert t[..|t| - 1] == before + r + init && t[|t| - 1] in after;
        SpacesTrimmed(before, r, init);
      }
    } else {
      assert t == r;
    }
  }

  lemma TrimmedIsUnique(t: string, r: string)
    requires IsTrimmed(t, r)
    ensures TrimSpace(t) == r
  {
    hide TrimSpace;
    var before, after :| t == before + r + after && AllSpace(before) && AllSpace(after) && NoSpaceAtEnds(r);
    SpacesTrimmed(before, r, after);
  }

  lemma TrimsToNothing(t: string)
    ensures TrimSpace(t) == "" <==> AllSpace(t)
  {
    hide TrimSpace;
    if AllSpace(t) {
      assert t + "" + "" == t;
      SpacesTrimmed(t, "", "");
    }
    if TrimSpace(t) == "" {
      TrimSpaceTrims(t);
      var before, after :| t == before + "" + after && AllSpace(before) && AllSpace(after) && NoSpaceAtEnds("");
    }
  }

  lemma StripSpace(s: string)
    requires s != [] && IsSpaceOrTab(s[0])
    ensures StripLeading(s) == StripLeading(s[1..])
  {
    hide IndexOf;
    hide TrimSpace;
    hide HasPrefix;
    hide IsSpaceOrTab;
    assert TrimLeft(s) == TrimLeft(s[1..]);
  }

  /** A gap in front changes nothing. */
  lemma GapStripped(g: string, rest: string)
    requires Gap(g)
    ensures StripLeading(g + rest) == StripLeading(rest)
  {
    var s := g + rest;
    hide IndexOf;
    if |g| == 1 {
      assert s[1..] == rest;
      assert IsSpaceOrTab(g[0]) by {
        assert !HasPrefix(g, "--") && !HasPrefix(g, "/*");
      }
      StripSpace(s);
    } else {
      assert s[0] == g[0] && s[1] == g[1];
      assert TrimLeft(s) == s;
      var dashes := Closes(g, "--", "\n");
      var close := if dashes then "\n" else "*/";
      IndexOfExtends(g, rest, close);
      assert g[..2] == s[..2];
      assert s[|g|..] == rest;
    }
  }

  lemma {:induction false} GapsStripped(gaps: seq<string>, rest: string)
    requires forall g | g in gaps :: Gap(g)
    ensures StripLeading(Concat(gaps) + rest) == StripLeading(rest)
  {
    hide StripLeading;
    hide Gap;
    if gaps == [] {
      assert Concat(gaps) + rest == rest;
    } else {
      GapStripped(gaps[0], Concat(gaps[1..]) + rest);
      GapsStripped(gaps[1..], rest);
      Seqs.Assoc(gaps[0], Concat(gaps[1..]), rest);
    }
  }

  lemma StrippedBy(gaps: seq<string>, t: string, r: string)
    requires forall g | g in gaps :: Gap(g)
    requires (OpenComment(t) && r == "") || (NoGapAhead(t) && IsTrimmed(t, r))
    ensures IsStripped(Concat(gaps) + t, r)
  {
  }

  lemma OneMoreGap(g: string, s: string, r: string)
    requires Gap(g) && IsStripped(s, r)
    ensures IsStripped(g + s, r)
  {
    hide Gap;
    hide OpenComment;
    hide NoGapAhead;
    hide IsTrimmed;
    var gaps: seq<string>, t :|
      && (forall x | x in gaps :: Gap(x)) && s == Concat(gaps) + t
      && ((OpenComment(t) && r == "") || (NoGapAhead(t) && IsTrimmed(t, r)));
    var more := [g] + gaps;
    assert more[1..] == gaps;
    Seqs.Assoc(g, Concat(gaps), t);
    StrippedBy(more, t, r);
  }

  lemma NoMoreGaps(t: string, r: string)
    requires (OpenComment(t) && r == "") || (NoGapAhead(t) && IsTrimmed(t, r))
    ensures IsStripped(t, r)
  {
    hide OpenComment;
    hide NoGapAhead;
    hide IsTrimmed;
    Seqs.Empty(t);
    StrippedBy([], t, r);
  }

  lemma PlainStrips(t: string)
    requires NoGapAhead(t)
    ensures StripLeading(t) == TrimSpace(t)
  {
    hide TrimSpace;
    hide IndexOf;
    assert TrimLeft(t) == t;
  }

  lemma OpenStrips(t: string)
    requires OpenComment(t)
    ensures StripLeading(t) == ""
  {
    hide TrimSpace;
    hide IndexOf;
    assert TrimLeft(t) == t;
  }

  lemma {:induction false} StripLeadingStrips(s: string)
    ensures IsStripped(s, StripLeading(s))
    decreases |s|
  {
    hide IsStripped;
    hide IsTrimmed;
    hide IndexOf;
    hide TrimSpace;
    var r := StripLeading(s);
    if s != [] && IsSpaceOrTab(s[0]) {
      StripSpace(s);
      StripLeadingStrips(s[1..]);
      OneMoreGap([s[0]], s[1..], r);
      Seqs.HeadTail(s);
    } else if HasPrefix(s, "--") || HasPrefix(s, "/*") {
      CommentStrips(s, if HasPrefix(s, "--") then "\n" else "*/");
    } else {
      PlainStrips(s);
      TrimSpaceTrims(s);
      NoMoreGaps(s, r);
    }
  }

  lemma {:induction false} CommentStrips(s: string, close: string)
    requires (HasPrefix(s, "--") && close == "\n") || (HasPrefix(s, "/*") && close == "*/")
    ensures IsStripped(s, StripLeading(s))
    decreases |s|, 0
  {
    hide IsStripped;
    hide IsTrimmed;
    hide IndexOf;
    hide TrimSpace;
    var i := IndexOf(s, close);
    if i >= 0 {
      var n := i + |close|;
      ClosingGap(s, i, close);
      assert s[..n] + s[n..] == s;
      GapStripped(s[..n], s[n..]);
      StripLeadingStrips(s[n..]);
      OneMoreGap(s[..n], s[n..], StripLeading(s));
    } else {
      OpenStrips(s);
      NoMoreGaps(s, "");
    }
  }

  lemma ClosingGap(s: string, i: nat, close: string)
    requires (HasPrefix(s, "--") && close == "\n") || (HasPrefix(s, "/*") && close == "*/")
    requires IndexOf(s, close) == i
    ensures 2 <= i + |close| <= |s| && Gap(s[..i + |close|])
  {
    hide IndexOf;
    assert s[i] == close[0] by {
      assert s[i..i + |close|][0] == s[i];
    }
    assert s[0] == s[..2][0];
    var n := i + |close|;
    IndexOfPrefix(s, close, n);
    Seqs.SliceOfTake(s, n, 0, 2);
  }

  /** And only one text fits: what stripping leaves is determined by its meaning. */
  lemma StrippedIsUnique(s: string, r: string)
    requires IsStripped(s, r)
    ensures r == StripLeading(s)
  {
    hide Gap;
    hide OpenComment;
    hide NoGapAhead;
    hide IsTrimmed;
    hide StripLeading;
    var gaps: seq<string>, t :|
      && (forall g | g in gaps :: Gap(g)) && s == Concat(gaps) + t
      && ((OpenComment(t) && r == "") || (NoGapAhead(t) && IsTrimmed(t, r)));
    GapsStripped(gaps, t);
    if OpenComment(t) && r == "" {
      OpenStrips(t);
    } else {
      PlainStrips(t);
      TrimmedIsUnique(t, r);
    }
  }

  lemma {:induction false} AllSpaceStrips(t: string)
    requires AllSpace(t)
    ensures StripLeading(t) == ""
  {
    if t != [] && IsSpaceOrTab(t[0]) {
      StripSpace(t);
      AllSpaceStrips(t[1..]);
    } else {
      hide StripLeading;
      hide TrimSpace;
      assert t != [] ==> t[0] in t && t[0] != '-' && t[0] != '/';
      PlainStrips(t);
      TrimsToNothing(t);
    }
  }

  /** Nothing is left exactly of a run of white space and closed comments, with more white space or
      an unclosed comment behind it. */
  lemma NothingLeft(s: string)
    ensures StripLeading(s) == "" <==> OnlyGaps(s)
  {
    hide StripLeading;
    hide TrimSpace;
    hide Gap;
    hide OpenComment;
    hide NoGapAhead;
    if StripLeading(s) == "" {
      StripLeadingStrips(s);
      var gaps: seq<string>, t :|
        && (forall g | g in gaps :: Gap(g)) && s == Concat(gaps) + t
        && (OpenComment(t) || (NoGapAhead(t) && IsTrimmed(t, "")));
      hide IsTrimmed;
      if IsTrimmed(t, "") {
        TrimmedIsUnique(t, "");
        TrimsToNothing(t);
      }
    }
    if OnlyGaps(s) {
      var gaps: seq<string>, t :|
        (forall g | g in gaps :: Gap(g)) && s == Concat(gaps) + t && (OpenComment(t) || AllSpace(t));
      GapsStripped(gaps, t);
      if OpenComment(t) {
        OpenStrips(t);
      } else {
        AllSpaceStrips(t);
      }
    }
  }

  lemma LineThenX(s: string, i: nat)
    requires i + 2 == |s| && HasPrefix(s, "--") && s[i] == '\n' && s[i + 1] == 'x' && '\n' !in s[..i]
    ensures StripLeading(s) == "x"
  {
    hide IndexOf;
    FirstByteAt(s, '\n', i);
    assert s[i + 1..] == "x" && s[0] == s[..2][0];
    assert StripLeading("x") == "x";
  }

  lemma OtherByteStays(c: char)
    requires !IsSpaceOrTab(c) && c != '-'
    ensures StripLeading([c] + "--\nx") != "x"
  {
    var s := [c] + "--\nx";
    assert s[1..] == "--\nx" && s[..2] == [c, '-'] && |s| == 5;
    PlainStrips(s);
    hide StripLeading;
    var m := "--\nx";
    assert TrimSpace(m) == m;
  }

  /** Which bytes are white space: four in front of a comment, and two more at the ends of what is left. */
  lemma WhiteSpaceExactly(c: char)
    ensures StripLeading([c] + "--\nx") == "x" <==> c == ' ' || c == '\t' || c == '\n' || c == '\r' || c == '-'
    ensures StripLeading("x" + [c]) == "x" <==> c == ' ' || 9 <= c as int <= 13
  {
    var m, s, t := "--\nx", [c] + "--\nx", "x" + [c];
    assert s[1..] == m && m[..2] == "--" && t[..1] == "x" && t[..2][0] == 'x' && t[1] == c;
    PlainStrips(t);
    hide StripLeading;
    if IsSpaceOrTab(c) {
      StripSpace(s);
      LineThenX(m, 2);
    } else if c == '-' {
      assert s == "---\nx" && s[..2] == "--";
      LineThenX(s, 3);
    } else {
      OtherByteStays(c);
    }
    if IsSpace(c) {
      assert TrimSpace(t[..1]) == "x";
      assert TrimSpace(t) == TrimSpace(t[..1]);
    } else {
      assert TrimSpace(t) == t;
    }
  }

  method StripLeadingSQLComments(text: string) returns (r: string)
    ensures r == StripLeading(text)
    ensures IsStripped(text, r) && (r == "" <==> OnlyGaps(text))
  {
    StripLeadingStrips(text);
    NothingLeft(text);
    hide IsStripped;
    hide OnlyGaps;
    var s := text;
    while true
      invariant StripLeading(s) == StripLeading(text)
      decreases |s|
    {
      s := TrimLeft(s);
      if HasPrefix(s, "--") {
        var idx := IndexOf(s, "\n");
        if idx >= 0 {
          s := s[idx + 1..];
          continue;
        }
        return "";
      }
      if HasPrefix(s, "/*") {
        var idx := IndexOf(s, "*/");
        if idx >= 0 {
          s := s[idx + 2..];
          continue;
        }
        return "";
      }
      return TrimSpace(s);
    }
  }
}
