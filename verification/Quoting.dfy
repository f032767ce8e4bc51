/** Quoted text with its quotes doubled, and reading it back. */
module Quoting {
  import opened Results
  import opened Strings
  import Seqs

  /** Something read off the front of a text, and the text behind it. */
  datatype Piece<T> = Piece(value: T, rest: string)

  function Prepend(c: char, p: Option<Piece<string>>): Option<Piece<string>> {
    match p
    case None => None
    case Some(piece) => Some(Piece([c] + piece.value, piece.rest))
  }

  /** The rest of a quoted text, after its opening quote. */
  function ReadQuoted(s: string, q: char): Option<Piece<string>> {
    if s == [] then None
    else if s[0] == q then
      if |s| > 1 && s[1] == q then Prepend(q, ReadQuoted(s[2..], q)) else Some(Piece("", s[1..]))
    else Prepend(s[0], ReadQuoted(s[1..], q))
  }

  lemma QuotedShrinks(s: string, q: char)
    ensures ReadQuoted(s, q).Some? ==> |ReadQuoted(s, q).value.rest| < |s|
  {
  }

  lemma DoubledOpens(v: string, q: char, rest: string)
    requires v != []
    ensures Doubled(v, q) + [q] + rest == (if v[0] == q then [q, q] else [v[0]]) + (Doubled(v[1..], q) + [q] + rest)
  {
  }

  lemma {:induction false} QuotedRoundTrip(v: string, q: char, rest: string)
    requires rest == [] || rest[0] != q
    ensures ReadQuoted(Doubled(v, q) + [q] + rest, q) == Some(Piece(v, rest))
  {
    if v == [] {
      assert Doubled(v, q) + [q] + rest == [q] + rest;
      Seqs.Cons(q, rest);
    } else {
      var tail := Doubled(v[1..], q) + [q] + rest;
      QuotedRoundTrip(v[1..], q, rest);
      DoubledOpens(v, q, rest);
      Seqs.Cons(v[0], tail);
      Seqs.Cons2(q, q, tail);
      Seqs.HeadTail(v);
    }
  }

  /** What is read as quoted was written with its quotes doubled. */
  lemma {:induction false} ReadIsDoubled(s: string, q: char)
    requires ReadQuoted(s, q).Some?
    ensures var p := ReadQuoted(s, q).value;
      s == Doubled(p.value, q) + [q] + p.rest
    decreases |s|
  {
    if s[0] == q && !(|s| > 1 && s[1] == q) {
      assert Doubled("", q) + [q] + s[1..] == s;
    } else {
      var k := if s[0] == q then 2 else 1;
      ReadIsDoubled(s[k..], q);
      var later, p := ReadQuoted(s[k..], q).value, ReadQuoted(s, q).value;
      assert p.value == [s[0]] + later.value && p.value[1..] == later.value;
      DoubledOpens(p.value, q, p.rest);
    }
  }
}
