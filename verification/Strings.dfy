/** The string library operations the text code leans on. */
module Strings {
  import Seqs

  predicate OccursAt(s: string, sub: string, i: int) {
    0 <= i <= |s| - |sub| && s[i..i + |sub|] == sub
  }

  lemma OccursInTail(s: string, sub: string, j: int)
    requires s != []
    ensures OccursAt(s[1..], sub, j) ==> OccursAt(s, sub, j + 1)
    ensures j > 0 && OccursAt(s, sub, j) ==> OccursAt(s[1..], sub, j - 1)
  {
    if OccursAt(s[1..], sub, j) {
      assert s[1..][j..j + |sub|] == s[j + 1..j + 1 + |sub|];
    }
    if j > 0 && OccursAt(s, sub, j) {
      assert s[1..][j - 1..j - 1 + |sub|] == s[j..j + |sub|];
    }
  }

  lemma OccursFirst(s: string, sub: string)
    ensures OccursAt(s, sub, 0) <==> |sub| <= |s| && s[..|sub|] == sub
  {
  }

  /** The least position of `sub` in `s`, or -1. */
  function IndexOf(s: string, sub: string): (r: int)
    ensures r == -1 || OccursAt(s, sub, r)
    ensures forall j | OccursAt(s, sub, j) :: 0 <= r <= j
  {
    OccursFirst(s, sub);
    if |sub| > |s| then -1
    else if s[..|sub|] == sub then 0
    else
      var r := IndexOf(s[1..], sub);
      assert forall j | OccursAt(s, sub, j) :: 0 <= r < j by {
        forall j | OccursAt(s, sub, j) ensures 0 <= r < j {
          OccursInTail(s, sub, j);
        }
      }
      if r == -1 then -1 else OccursInTail(s, sub, r); r + 1
  }

  lemma OccursInPrefix(s: string, n: nat, sub: string, j: int)
    requires n <= |s|
    ensures OccursAt(s[..n], sub, j) <==> OccursAt(s, sub, j) && j + |sub| <= n
  {
    if 0 <= j && j + |sub| <= n {
      Seqs.SliceOfTake(s, n, j, j + |sub|);
    }
  }

  /** The first occurrence does not depend on the text behind it. */
  lemma IndexOfPrefix(s: string, sub: string, n: nat)
    requires n <= |s|
    ensures IndexOf(s[..n], sub) == if 0 <= IndexOf(s, sub) <= n - |sub| then IndexOf(s, sub) else -1
  {
    hide IndexOf;
    hide OccursAt;
    OccursInPrefix(s, n, sub, IndexOf(s, sub));
    OccursInPrefix(s, n, sub, IndexOf(s[..n], sub));
    InRange(s[..n], sub);
  }

  lemma InRange(s: string, sub: string)
    ensures IndexOf(s, sub) == -1 || 0 <= IndexOf(s, sub) <= |s| - |sub|
  {
  }

  lemma IndexOfExtends(a: string, b: string, sub: string)
    requires IndexOf(a, sub) >= 0
    ensures IndexOf(a + b, sub) == IndexOf(a, sub)
  {
    hide IndexOf;
    assert (a + b)[..|a|] == a;
    IndexOfPrefix(a + b, sub, |a|);
  }

  lemma OneByteOccurs(s: string, c: char, j: int)
    ensures OccursAt(s, [c], j) <==> 0 <= j < |s| && s[j] == c
  {
    if 0 <= j < |s| {
      assert s[j..j + 1] == [s[j]];
    }
  }

  /** Looking for one byte. */
  lemma IndexOfByte(s: string, c: char)
    ensures IndexOf(s, [c]) == -1 ==> c !in s
    ensures IndexOf(s, [c]) != -1 ==>
      0 <= IndexOf(s, [c]) < |s| && s[IndexOf(s, [c])] == c && c !in s[..IndexOf(s, [c])]
  {
    hide IndexOf;
    hide OccursAt;
    var i := IndexOf(s, [c]);
    OneByteOccurs(s, c, i);
    forall k | 0 <= k < |s| && s[k] == c ensures 0 <= i <= k {
      OneByteOccurs(s, c, k);
    }
  }

  lemma FirstByteAt(s: string, c: char, i: nat)
    requires i < |s| && s[i] == c && c !in s[..i]
    ensures IndexOf(s, [c]) == i
  {
    var r := IndexOf(s, [c]);
    OneByteOccurs(s, c, i);
    OneByteOccurs(s, c, r);
    assert forall k | 0 <= k < i :: s[..i][k] == s[k];
  }

  predicate HasPrefix(s: string, p: string) {
    |p| <= |s| && s[..|p|] == p
  }

  predicate HasSuffix(s: string, p: string) {
    |p| <= |s| && s[|s| - |p|..] == p
  }

  /** Every `q` written twice, as strings.ReplaceAll(s, q, qq) does. */
  function Doubled(s: string, q: char): string {
    if s == [] then []
    else (if s[0] == q then [q, q] else [s[0]]) + Doubled(s[1..], q)
  }

  function Join(parts: seq<string>, sep: string): string {
    if parts == [] then ""
    else if |parts| == 1 then parts[0]
    else parts[0] + sep + Join(parts[1..], sep)
  }

  /** The pieces of `s` between separators; always at least one. */
  function Split(s: string, sep: char): (parts: seq<string>)
    ensures parts != []
    ensures forall p | p in parts :: sep !in p
  {
    if s == [] then [""]
    else
      var rest := Split(s[1..], sep);
      if s[0] == sep then [""] + rest else [[s[0]] + rest[0]] + rest[1..]
  }
}
