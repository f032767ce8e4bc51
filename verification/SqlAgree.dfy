/** Where the keyword scan and the statement splitter read a text alike. */
module SqlAgree {
  import opened Results
  import opened Strings
  import opened SqlScan
  import opened SqlSplit
  import Seqs

  /** The splitter stands in plain text at position i, with no terminator before. */
  predicate PlainAt(m: Mode, s: string, i: nat)
    requires i <= |s|
  {
    AfterTerminator(m, s[..i]) == Ended(Plain)
  }

  /** In plain text, before any terminator, a comment is opened whose star is followed by a slash. */
  ghost predicate OpensShort(m: Mode, s: string) {
    exists i: nat :: OccursAt(s, "/*/", i) && PlainAt(m, s, i)
  }

  /** The keyword scan leaves a terminator standing exactly when the splitter finds one. */
  predicate Agree(m: Mode, s: string) {
    ';' in Blanked(m, s) <==> AfterTerminator(m, s).Hit?
  }

  lemma StepBack(m: Mode, s: string, k: nat, next: Mode, i: nat)
    requires s != [] && StepOf(m, s) == Go(k, next) && k <= i <= |s|
    requires i < |s| ==> s[i] == '/'
    ensures AfterTerminator(m, s[..i]) == AfterTerminator(next, s[k..][..i - k])
  {
    var t := s[..i];
    assert t[k..] == s[k..][..i - k];
    assert t[0] == s[0] && (|t| > 1 ==> t[1] == s[1]);
    assert |t| > 1 ==> t[..2] == s[..2];
    assert StepOf(m, t) == Go(k, next);
  }

  lemma ShortBack(m: Mode, s: string, k: nat, next: Mode, j: nat)
    requires s != [] && StepOf(m, s) == Go(k, next) && k <= |s| && OccursAt(s[k..], "/*/", j)
    ensures OccursAt(s, "/*/", k + j) && (PlainAt(m, s, k + j) <==> PlainAt(next, s[k..], j))
  {
    assert s[k + j..k + j + 3] == s[k..][j..j + 3];
    assert s[k + j] == s[k + j..k + j + 3][0];
    StepBack(m, s, k, next, k + j);
  }

  /** One step of the splitter leaves the keyword scan with the same terminators to come. */
  predicate OneStepAlike(m: Mode, s: string)
    requires s != []
  {
    match StepOf(m, s)
    case Stop => ';' in Blanked(m, s)
    case Go(k, next) => ';' in Blanked(m, s) <==> ';' in Blanked(next, s[k..])
  }

  lemma BlankedAlike(m: Mode, s: string)
    requires s != [] && !(m == Plain && OccursAt(s, "/*/", 0))
    ensures OneStepAlike(m, s)
  {
    if m == Plain && HasPrefix(s, "/*") {
      OpeningAlike(s);
    } else if m == Plain {
      PlainAlike(s);
    } else if m == Block {
      BlockAlike(s);
    } else if m == Line {
      LineAlike(s);
    } else {
      QuotedAlike(m, s);
    }
  }

  lemma PlainAlike(s: string)
    requires s != [] && !HasPrefix(s, "/*")
    ensures OneStepAlike(Plain, s)
  {
    if s[0] == ';' {
      assert !HasPrefix(s, "--") by {
        assert |s| > 1 ==> s[..2][0] == ';';
      }
      assert Blanked(Plain, s)[0] == ';';
    }
  }

  lemma BlockAlike(s: string)
    requires s != []
    ensures OneStepAlike(Block, s)
  {
  }

  lemma LineAlike(s: string)
    requires s != []
    ensures OneStepAlike(Line, s)
  {
    if s[0] == '\n' {
      assert |s| > 1 ==> s[..2][0] == '\n';
      assert Blanked(Plain, s) == ['\n'] + Blanked(Plain, s[1..]);
    }
  }

  lemma QuotedAlike(m: Mode, s: string)
    requires s != [] && (m.Single? || m.Double? || m.Backtick?)
    ensures OneStepAlike(m, s)
  {
    if s[0] == QuoteOf(m) && |s| > 1 && s[1] == QuoteOf(m) && m != Single {
      var t := s[1..];
      assert t[1..] == s[2..] && (|t| > 1 ==> t[..2][0] == QuoteOf(m));
      assert Blanked(Plain, t) == " " + Blanked(m, s[2..]);
    }
  }

  lemma OpeningAlike(s: string)
    requires HasPrefix(s, "/*") && !OccursAt(s, "/*/", 0)
    ensures ';' in Blanked(Plain, s) <==> ';' in Blanked(Block, s[2..])
  {
    var t := s[1..];
    assert s[0] == s[..2][0] && s[1] == s[..2][1];
    assert t[0] == '*' && t[1..] == s[2..];
    if |s| > 2 {
      assert s[0..3] == [s[0], s[1], s[2]];
      assert t[..2][1] == s[2];
    } else {
      assert s[2..] == "";
    }
  }

  /** The keyword scan sees the terminator that the splitter finds in the first part; if it finds none, it
      has the same terminators to come as behind that part. */
  predicate StillAlike(m: Mode, p: string, x: string) {
    match AfterTerminator(m, p)
    case Hit(_) => ';' in Blanked(m, p + x)
    case Ended(n) => ';' in Blanked(m, p + x) <==> ';' in Blanked(n, x)
  }

  /** As long as no comment is opened with a slash behind its star, the scanners stay in step: over
      the first part of a text, and then over what follows it. */
  lemma {:induction false} InStep(m: Mode, p: string, x: string)
    requires forall i: nat | i < |p| && OccursAt(p + x, "/*/", i) :: !PlainAt(m, p + x, i)
    requires x == "" || (x[0] == '/' && AfterTerminator(m, p) == Ended(Plain))
    ensures StillAlike(m, p, x)
    decreases |p|
  {
    hide Blanked;
    hide StepOf;
    var s := p + x;
    if p == "" {
      Seqs.Empty(x);
    } else {
      assert !(m == Plain && OccursAt(s, "/*/", 0)) by {
        assert s[..0] == "";
        assert OccursAt(s, "/*/", 0) ==> !PlainAt(m, s, 0);
      }
      BlankedAlike(m, s);
      StepWithMore(m, p, x);
      match StepOf(m, p) {
        case Stop =>
        case Go(k, next) =>
          assert s[k..] == p[k..] + x;
          forall j: nat | j < |p| - k && OccursAt(s[k..], "/*/", j) ensures !PlainAt(next, s[k..], j) {
            ShortBack(m, s, k, next, j);
          }
          hide OccursAt;
          hide PlainAt;
          InStep(next, p[k..], x);
      }
    }
  }

  /** The scanners agree whenever no comment is opened as slash, star, slash in plain text. */
  lemma ScannersAgree(m: Mode, s: string)
    requires !OpensShort(m, s)
    ensures Agree(m, s)
  {
    assert s + "" == s;
    NothingBlankedAtEnd("");
    assert ""[0..] == "";
    InStep(m, s, "");
  }

  lemma ShortInPrefix(s: string, n: nat)
    requires n <= |s| && OpensShort(Plain, s[..n] + ";")
    ensures OpensShort(Plain, s)
  {
    var t := s[..n] + ";";
    var i: nat :| OccursAt(t, "/*/", i) && PlainAt(Plain, t, i);
    assert t[i..i + 3][2] == t[i + 2];
    Seqs.SliceOfConcat(s[..n], ";", i, i + 3);
    Seqs.SliceOfTake(s, n, i, i + 3);
    Seqs.SliceOfConcat(s[..n], ";", 0, i);
    Seqs.SliceOfTake(s, n, 0, i);
    assert OccursAt(s, "/*/", i) && PlainAt(Plain, s, i);
  }

  /** Exactly then: probing every point of a text with a terminator, the scanners agree on all of
      them if and only if no comment is opened that way. */
  lemma ScannersAgreeExactly(s: string)
    ensures (forall n | 0 <= n <= |s| :: Agree(Plain, s[..n] + ";")) <==> !OpensShort(Plain, s)
  {
    if !OpensShort(Plain, s) {
      forall n | 0 <= n <= |s| ensures Agree(Plain, s[..n] + ";") {
        if OpensShort(Plain, s[..n] + ";") {
          ShortInPrefix(s, n);
        }
        ScannersAgree(Plain, s[..n] + ";");
      }
    } else {
      var i: nat :| OccursAt(s, "/*/", i) && PlainAt(Plain, s, i);
      FirstShort(s, i);
    }
  }

  lemma EarlierShort(s: string, i: nat, j: nat)
    requires OccursAt(s, "/*/", i) && j < i && OccursAt(s[..i] + "/*/;", "/*/", j)
    ensures OccursAt(s, "/*/", j) && (PlainAt(Plain, s[..i] + "/*/;", j) <==> PlainAt(Plain, s, j))
  {
    var cut := s[..i + 3];
    Seqs.SliceOfTake(s, i + 3, i, i + 3);
    assert s[..i] + "/*/;" == cut + ";" by {
      assert cut == s[..i] + s[i..i + 3];
    }
    Seqs.SliceOfConcat(cut, ";", j, j + 3);
    Seqs.SliceOfTake(s, i + 3, j, j + 3);
    Seqs.SliceOfConcat(cut, ";", 0, j);
    Seqs.SliceOfTake(s, i + 3, 0, j);
  }

  /** At the first such opening they disagree. */
  lemma {:induction false} FirstShort(s: string, i: nat)
    requires OccursAt(s, "/*/", i) && PlainAt(Plain, s, i)
    ensures exists n: nat :: n <= |s| && !Agree(Plain, s[..n] + ";")
    decreases i
  {
    if j: nat :| j < i && OccursAt(s, "/*/", j) && PlainAt(Plain, s, j) {
      FirstShort(s, j);
    } else {
      var p, x := s[..i], "/*/;";
      var t := p + x;
      assert t == s[..i + 3] + ";" by {
        assert s[..i + 3] == p + s[i..i + 3];
      }
      forall j: nat | j < i && OccursAt(t, "/*/", j) ensures !PlainAt(Plain, t, j) {
        EarlierShort(s, i, j);
      }
      hide OccursAt;
      hide PlainAt;
      InStep(Plain, p, x);
      ShortVisible();
      ShortSkipped(p);
      assert !Agree(Plain, s[..i + 3] + ";");
    }
  }

  lemma ShortVisible()
    ensures ';' in Blanked(Plain, "/*/;")
  {
    var s := "/*/;";
    assert s[1..] == "*/;" && s[1..][2..] == ";";
    assert Blanked(Plain, ";") == [';'] + Blanked(Plain, ";"[1..]);
    assert Blanked(Block, "*/;") == "  " + Blanked(Plain, ";");
    assert s[..2] == "/*" && Blanked(Plain, s) == "  " + Blanked(Block, "*/;");
    assert Blanked(Plain, s)[4] == ';';
  }

  lemma ShortSkipped(p: string)
    requires AfterTerminator(Plain, p) == Ended(Plain)
    ensures AfterTerminator(Plain, p + "/*/;").Ended?
  {
    hide AfterTerminator;
    Continue(Plain, p, "/*/;");
    ShortHides();
  }

  lemma ShortHides()
    ensures AfterTerminator(Plain, "/*/;") == Ended(Block)
  {
    var s := "/*/;";
    assert s[..2] == "/*" && s[2..] == "/;" && "/;"[..2][0] == '/' && "/;"[1..] == ";" && ";"[1..] == "";
    assert StepOf(Plain, s) == Go(2, Block);
    assert StepOf(Block, "/;") == Go(1, Block) && StepOf(Block, ";") == Go(1, Block);
    assert AfterTerminator(Block, ";") == AfterTerminator(Block, "");
    assert AfterTerminator(Block, "/;") == AfterTerminator(Block, ";");
  }

  /** One text on which they disagree. */
  lemma ScannersDisagree()
    ensures !Agree(Plain, "/*/;")
  {
    ShortVisible();
    ShortSkipped("");
    assert "" + "/*/;" == "/*/;";
  }
}
