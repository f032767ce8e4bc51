/** Whole-word keyword search over upper-cased SQL text. */
module Keywords {
  import opened Strings

  predicate IsSQLIdent(ch: char) {
    ('A' <= ch <= 'Z') || ('0' <= ch <= '9') || ch == '_'
  }

  /** `keyword` stands at `i` with no identifier byte on either side. */
  predicate WholeWordAt(s: string, keyword: string, i: int) {
    && OccursAt(s, keyword, i)
    && (i == 0 || !IsSQLIdent(s[i - 1]))
    && (i + |keyword| >= |s| || !IsSQLIdent(s[i + |keyword|]))
  }

  ghost predicate HasWord(s: string, keyword: string) {
    exists i :: WholeWordAt(s, keyword, i)
  }

  ghost predicate IsKeyword(keyword: string) {
    keyword != "" && forall c | c in keyword :: IsSQLIdent(c)
  }

  /** No whole word starts strictly inside another occurrence, which is what lets the search skip a
      whole keyword length after a failed candidate. */
  lemma NoWordInside(s: string, keyword: string, i: int, other: string, j: int)
    requires IsKeyword(keyword) && OccursAt(s, keyword, i) && i < j < i + |keyword|
    ensures !WholeWordAt(s, other, j)
  {
    assert s[j - 1] == s[i..i + |keyword|][j - 1 - i];
    assert keyword[j - 1 - i] in keyword;
  }

  lemma OccurrenceInSuffix(s: string, sub: string, start: nat, j: int)
    requires start <= |s|
    ensures OccursAt(s[start..], sub, j) ==> OccursAt(s, sub, start + j)
    ensures j >= start && OccursAt(s, sub, j) ==> OccursAt(s[start..], sub, j - start)
  {
    if OccursAt(s[start..], sub, j) {
      assert s[start..][j..j + |sub|] == s[start + j..start + j + |sub|];
    }
    if j >= start && OccursAt(s, sub, j) {
      assert s[start..][j - start..j - start + |sub|] == s[j..j + |sub|];
    }
  }

  /** No whole word starts before this position. */
  ghost predicate NoneBefore(s: string, keyword: string, from: int) {
    forall j | WholeWordAt(s, keyword, j) :: j >= from
  }

  /** From a point before which there is no whole word, the next occurrence is the next candidate. */
  lemma NextCandidate(s: string, keyword: string, start: nat)
    requires start <= |s| && NoneBefore(s, keyword, start)
    ensures var idx := IndexOf(s[start..], keyword);
      if idx < 0 then forall j :: !WholeWordAt(s, keyword, j)
      else OccursAt(s, keyword, start + idx) && NoneBefore(s, keyword, start + idx)
  {
    hide IndexOf;
    hide IsSQLIdent;
    var idx := IndexOf(s[start..], keyword);
    OccurrenceInSuffix(s, keyword, start, idx);
    forall j | WholeWordAt(s, keyword, j) ensures 0 <= idx && j >= start + idx {
      OccurrenceInSuffix(s, keyword, start, j);
    }
  }

  /** A candidate that is no whole word rules out everything up to its end. */
  lemma FailedCandidate(s: string, keyword: string, i: nat)
    requires IsKeyword(keyword) && OccursAt(s, keyword, i) && NoneBefore(s, keyword, i) && !WholeWordAt(s, keyword, i)
    ensures NoneBefore(s, keyword, i + |keyword|)
  {
    forall j | WholeWordAt(s, keyword, j) ensures j >= i + |keyword| {
      if i < j < i + |keyword| {
        NoWordInside(s, keyword, i, keyword, j);
      }
    }
  }

  /** The least whole-word occurrence, or -1 exactly when there is none. */
  method KeywordIndex(s: string, keyword: string) returns (r: int)
    requires IsKeyword(keyword)
    ensures r == -1 || WholeWordAt(s, keyword, r)
    ensures forall j | WholeWordAt(s, keyword, j) :: 0 <= r <= j
  {
    hide IndexOf;
    hide IsSQLIdent;
    var start := 0;
    while true
      invariant 0 <= start <= |s|
      invariant NoneBefore(s, keyword, start)
      decreases |s| - start
    {
      NextCandidate(s, keyword, start);
      var idx := IndexOf(s[start..], keyword);
      if idx < 0 {
        return -1;
      }
      idx := idx + start;
      var beforeOK := idx == 0 || !IsSQLIdent(s[idx - 1]);
      var after := idx + |keyword|;
      var afterOK := after >= |s| || !IsSQLIdent(s[after]);
      if beforeOK && afterOK {
        return idx;
      }
      FailedCandidate(s, keyword, idx);
      start := idx + |keyword|;
    }
  }

  method ContainsKeyword(s: string, keyword: string) returns (found: bool)
    requires IsKeyword(keyword)
    ensures found <==> HasWord(s, keyword)
  {
    var i := KeywordIndex(s, keyword);
    found := i >= 0;
  }

  method ContainsAnyKeyword(s: string, keywords: seq<string>) returns (found: bool)
    requires forall k | 0 <= k < |keywords| :: IsKeyword(keywords[k])
    ensures found <==> exists k :: 0 <= k < |keywords| && HasWord(s, keywords[k])
  {
    for k := 0 to |keywords|
      invariant forall m | 0 <= m < k :: !HasWord(s, keywords[m])
    {
      var here := ContainsKeyword(s, keywords[k]);
      if here {
        return true;
      }
    }
    return false;
  }

  lemma OccurrenceHead(s: string, sub: string, i: int)
    requires sub != "" && OccursAt(s, sub, i)
    ensures s[i] == sub[0]
  {
    assert s[i..i + |sub|][0] == s[i];
  }

  /** Past the end of a whole word, whole words of the suffix are whole words of the full text. */
  lemma WordInSuffix(s: string, first: string, i: nat, second: string, j: int)
    requires IsKeyword(first) && IsKeyword(second) && WholeWordAt(s, first, i)
    ensures WholeWordAt(s[i + |first|..], second, j) <==> j >= 0 && WholeWordAt(s, second, i + |first| + j)
  {
    var cut := i + |first|;
    var tail := s[cut..];
    OccurrenceInSuffix(s, second, cut, j);
    OccurrenceInSuffix(s, second, cut, cut + j);
    assert second[0] in second;
    if j == 0 && OccursAt(s, second, cut) {
      OccurrenceHead(s, second, cut);
    }
    if j > 0 && OccursAt(tail, second, j) {
      assert tail[j - 1] == s[cut + j - 1];
      assert j + |second| < |tail| ==> tail[j + |second|] == s[cut + j + |second|];
    }
  }

  /** True exactly when some whole-word `first` is followed, in the full text, by a whole-word
      `second`, although only the text after the first `first` is searched. */
  method ContainsKeywordSequence(s: string, first: string, second: string) returns (found: bool)
    requires IsKeyword(first) && IsKeyword(second)
    ensures found <==> exists i, j :: WholeWordAt(s, first, i) && WholeWordAt(s, second, j) && j >= i + |first|
  {
    var idx := KeywordIndex(s, first);
    if idx < 0 {
      return false;
    }
    found := ContainsKeyword(s[idx + |first|..], second);
    var cut := idx + |first|;
    if found {
      var j :| WholeWordAt(s[cut..], second, j);
      WordInSuffix(s, first, idx, second, j);
      assert WholeWordAt(s, second, cut + j);
    }
    forall i, j | WholeWordAt(s, first, i) && WholeWordAt(s, second, j) && j >= i + |first|
      ensures found
    {
      WordInSuffix(s, first, idx, second, j - cut);
    }
  }
}
