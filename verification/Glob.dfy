/** Column-name patterns with "*" wildcards. */
module Glob {
  import opened Strings
  import Seqs

  /** Case folding and white-space trimming, which are library functions of the source. */
  datatype Fold = Fold(lower: string -> string, trim: string -> string)

  // ---- What a pattern means -----------------------------------------------------------------

  function Stars(pat: string): nat {
    if pat == [] then 0 else (if pat[0] == '*' then 1 else 0) + Stars(pat[1..])
  }

  /** The pattern with its stars replaced, in order, by the given strings. */
  function Filled(pat: string, fills: seq<string>): string
    requires |fills| == Stars(pat)
  {
    if pat == [] then ""
    else if pat[0] == '*' then fills[0] + Filled(pat[1..], fills[1..])
    else [pat[0]] + Filled(pat[1..], fills)
  }

  /** A name matches when each star can stand for some, possibly empty, string. */
  ghost predicate Matches(pat: string, name: string) {
    exists fills: seq<string> :: |fills| == Stars(pat) && Filled(pat, fills) == name
  }

  // ---- The same meaning by segments ---------------------------------------------------------

  /** The segments that follow a first star, placed anywhere in order, with the last one at the end. */
  ghost predicate Placed(segs: seq<string>, s: string)
    requires segs != []
  {
    if |segs| == 1 then HasSuffix(s, segs[0])
    else exists k :: OccursAt(s, segs[0], k) && Placed(segs[1..], s[k + |segs[0]|..])
  }

  ghost predicate MatchesParts(parts: seq<string>, s: string)
    requires parts != []
  {
    if |parts| == 1 then s == parts[0]
    else HasPrefix(s, parts[0]) && Placed(parts[1..], s[|parts[0]|..])
  }

  /** Text in front does not hurt a placement: why the leftmost choice never loses. */
  lemma {:induction false} PlacedLater(segs: seq<string>, s: string, k: nat)
    requires segs != [] && k <= |s| && Placed(segs, s[k..])
    ensures Placed(segs, s)
    decreases |segs|
  {
    if |segs| == 1 {
      assert s[|s| - |segs[0]|..] == s[k..][|s| - k - |segs[0]|..];
    } else {
      var j :| OccursAt(s[k..], segs[0], j) && Placed(segs[1..], s[k..][j + |segs[0]|..]);
      assert s[k..][j..j + |segs[0]|] == s[k + j..k + j + |segs[0]|];
      assert s[k..][j + |segs[0]|..] == s[k + j + |segs[0]|..];
      assert OccursAt(s, segs[0], k + j);
    }
  }

  /** The greedy step: a segment may be put at its leftmost occurrence. */
  lemma LeftmostSuffices(segs: seq<string>, s: string)
    requires |segs| > 1
    ensures var k := IndexOf(s, segs[0]);
      Placed(segs, s) <==> k >= 0 && Placed(segs[1..], s[k + |segs[0]|..])
  {
    hide IndexOf;
    var k := IndexOf(s, segs[0]);
    if Placed(segs, s) {
      var j :| OccursAt(s, segs[0], j) && Placed(segs[1..], s[j + |segs[0]|..]);
      Seqs.DropDrop(s, k + |segs[0]|, j - k);
      hide Placed;
      PlacedLater(segs[1..], s[k + |segs[0]|..], j - k);
    }
  }

  lemma EmptySegment(segs: seq<string>, s: string)
    requires |segs| > 1 && segs[0] == ""
    ensures Placed(segs, s) <==> Placed(segs[1..], s)
  {
    LeftmostSuffices(segs, s);
    assert OccursAt(s, "", 0);
    assert s[0..] == s;
  }

  lemma {:induction false} SplitCount(pat: string)
    ensures |Split(pat, '*')| == Stars(pat) + 1
  {
    if pat != [] {
      SplitCount(pat[1..]);
    }
  }

  /** Filling a pattern is laying its segments out with the fills between them. */
  function Laid(parts: seq<string>, fills: seq<string>): string
    requires |parts| == |fills| + 1
  {
    if |parts| == 1 then parts[0] else parts[0] + fills[0] + Laid(parts[1..], fills[1..])
  }

  lemma {:induction false} FilledIsLaid(pat: string, fills: seq<string>)
    requires |fills| == Stars(pat)
    ensures |Split(pat, '*')| == |fills| + 1 && Filled(pat, fills) == Laid(Split(pat, '*'), fills)
  {
    SplitCount(pat);
    if pat != [] {
      var rest := Split(pat[1..], '*');
      SplitCount(pat[1..]);
      if pat[0] == '*' {
        FilledIsLaid(pat[1..], fills[1..]);
        assert ([""] + rest)[1..] == rest;
        assert "" + fills[0] == fills[0];
      } else {
        FilledIsLaid(pat[1..], fills);
        var head := [pat[0]] + rest[0];
        assert ([head] + rest[1..])[1..] == rest[1..];
        if |rest| > 1 {
          assert head + fills[0] + Laid(rest[1..], fills[1..])
            == [pat[0]] + (rest[0] + fills[0] + Laid(rest[1..], fills[1..]));
        }
      }
    }
  }

  /** From a placement to the fills: the text skipped before each segment. */
  lemma {:induction false} PlacedGivesFills(segs: seq<string>, s: string) returns (fills: seq<string>)
    requires segs != [] && Placed(segs, s)
    ensures |fills| == |segs| && s == Laid([""] + segs, fills)
    decreases |segs|
  {
    var parts := [""] + segs;
    assert parts[1..] == segs;
    if |segs| == 1 {
      fills := [s[..|s| - |segs[0]|]];
      assert parts[1..][0] == segs[0] && Laid(parts[1..], fills[1..]) == segs[0];
    } else {
      var k :| OccursAt(s, segs[0], k) && Placed(segs[1..], s[k + |segs[0]|..]);
      var tail := s[k + |segs[0]|..];
      var more := PlacedGivesFills(segs[1..], tail);
      fills := [s[..k]] + more;
      assert fills[1..] == more;
      HeadMoves(segs[0], segs[1..], more);
      Seqs.HeadTail(segs);
      assert s == s[..k] + (segs[0] + tail);
    }
  }

  lemma HeadMoves(head: string, segs: seq<string>, fills: seq<string>)
    requires |segs| == |fills| && segs != []
    ensures Laid([head] + segs, fills) == head + Laid([""] + segs, fills)
  {
    assert ([head] + segs)[1..] == segs && ([""] + segs)[1..] == segs;
    assert "" + fills[0] == fills[0];
  }

  lemma MiddleOccurs(a: string, b: string, c: string)
    ensures OccursAt(a + (b + c), b, |a|) && (a + (b + c))[|a| + |b|..] == c
  {
    var s := a + (b + c);
    assert s[|a|..|a| + |b|] == b;
  }

  lemma {:induction false} FillsGivePlaced(segs: seq<string>, fills: seq<string>)
    requires segs != [] && |fills| == |segs|
    ensures Placed(segs, Laid([""] + segs, fills))
    decreases |segs|
  {
    var s := Laid([""] + segs, fills);
    assert ([""] + segs)[1..] == segs;
    if |segs| == 1 {
      assert Laid(segs, fills[1..]) == segs[0] && "" + fills[0] == fills[0];
      assert s == fills[0] + segs[0];
    } else {
      FillsGivePlaced(segs[1..], fills[1..]);
      HeadMoves(segs[0], segs[1..], fills[1..]);
      assert [segs[0]] + segs[1..] == segs;
      var tail := Laid([""] + segs[1..], fills[1..]);
      Seqs.Empty(fills[0]);
      assert s == fills[0] + (segs[0] + tail);
      MiddleOccurs(fills[0], segs[0], tail);
    }
  }

  lemma OnePart(pat: string, s: string)
    requires |Split(pat, '*')| == 1
    ensures Matches(pat, s) <==> s == Split(pat, '*')[0]
  {
    SplitCount(pat);
    FilledIsLaid(pat, []);
    hide Filled;
    hide Split;
    assert forall fills: seq<string> | |fills| == 0 :: fills == [];
    if s == Split(pat, '*')[0] {
      assert Filled(pat, []) == s;
    }
  }

  lemma FilledIsPlaced(pat: string, fills: seq<string>)
    requires |fills| == Stars(pat) > 0
    ensures MatchesParts(Split(pat, '*'), Filled(pat, fills))
  {
    var parts := Split(pat, '*');
    var head, segs := parts[0], parts[1..];
    FilledIsLaid(pat, fills);
    hide Split;
    hide Filled;
    hide Laid;
    hide Placed;
    Seqs.HeadTail(parts);
    HeadMoves(head, segs, fills);
    FillsGivePlaced(segs, fills);
    var rest := Laid([""] + segs, fills);
    Seqs.TakeOfConcat(head, rest, |head|);
    assert (head + rest)[|head|..] == rest;
  }

  lemma PlacedIsFilled(pat: string, s: string)
    requires |Split(pat, '*')| > 1 && MatchesParts(Split(pat, '*'), s)
    ensures Matches(pat, s)
  {
    var parts := Split(pat, '*');
    var head, segs := parts[0], parts[1..];
    SplitCount(pat);
    hide Split;
    hide Filled;
    hide Laid;
    hide Placed;
    var fills := PlacedGivesFills(segs, s[|head|..]);
    Seqs.HeadTail(parts);
    HeadMoves(head, segs, fills);
    FilledIsLaid(pat, fills);
    assert s == head + s[|head|..];
    assert Filled(pat, fills) == s;
  }

  lemma PartsDecide(pat: string, s: string)
    ensures Matches(pat, s) <==> MatchesParts(Split(pat, '*'), s)
  {
    SplitCount(pat);
    if |Split(pat, '*')| == 1 {
      OnePart(pat, s);
    } else {
      hide Split;
      hide MatchesParts;
      hide Filled;
      if Matches(pat, s) {
        var fills :| |fills| == Stars(pat) && Filled(pat, fills) == s;
        FilledIsPlaced(pat, fills);
      }
      if MatchesParts(Split(pat, '*'), s) {
        PlacedIsFilled(pat, s);
      }
    }
  }

  lemma NoStarOnePart(pat: string)
    ensures '*' !in pat <==> |Split(pat, '*')| == 1
    ensures '*' !in pat ==> Split(pat, '*') == [pat]
  {
    if pat != [] {
      NoStarOnePart(pat[1..]);
      Seqs.HeadTail(pat);
      assert '*' in pat <==> pat[0] == '*' || '*' in pat[1..];
    }
  }

  /** The middle segments in order, each at its leftmost place, then the trailing anchor. */
  method MatchSegments(segs: seq<string>, text: string) returns (r: bool)
    requires segs != []
    ensures r <==> Placed(segs, text)
  {
    hide IndexOf;
    var s, i := text, 0;
    while i < |segs| - 1
      invariant 0 <= i <= |segs| - 1
      invariant Placed(segs, text) <==> Placed(segs[i..], s)
    {
      var mid := segs[i];
      Seqs.DropDrop(segs, i, 1);
      LeftmostSuffices(segs[i..], s);
      if mid == "" {
        EmptySegment(segs[i..], s);
      } else {
        var idx := IndexOf(s, mid);
        if idx < 0 {
          return false;
        }
        s := s[idx + |mid|..];
      }
      i := i + 1;
    }
    var last := segs[i];
    assert segs[i..] == [last];
    if last != "" {
      return HasSuffix(s, last);
    }
    assert s[|s|..] == "";
    return true;
  }

  /** Greedy matching never misses a match and never invents one. */
  method GlobMatch(fold: Fold, pattern: string, name: string) returns (r: bool)
    ensures r <==> Matches(fold.lower(fold.trim(pattern)), fold.lower(name))
  {
    var pat := fold.lower(fold.trim(pattern));
    var s := fold.lower(name);
    PartsDecide(pat, s);
    NoStarOnePart(pat);
    if '*' !in pat {
      return pat == s;
    }
    var parts := Split(pat, '*');
    if parts[0] != "" {
      if !HasPrefix(s, parts[0]) {
        return false;
      }
      s := s[|parts[0]|..];
    }
    r := MatchSegments(parts[1..], s);
  }

  /** A column is masked exactly when it matches one of the patterns. */
  method ShouldMask(fold: Fold, patterns: seq<string>, column: string) returns (r: bool)
    ensures r <==> exists i :: 0 <= i < |patterns| && Matches(fold.lower(fold.trim(patterns[i])), fold.lower(column))
  {
    for i := 0 to |patterns|
      invariant forall k | 0 <= k < i :: !Matches(fold.lower(fold.trim(patterns[k])), fold.lower(column))
    {
      var hit := GlobMatch(fold, patterns[i], column);
      if hit {
        return true;
      }
    }
    return false;
  }
}
