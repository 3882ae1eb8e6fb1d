/** What StripReasoningTokens promises: its result is a subsequence of the reply, it leaves clean text
    clean, and exactly when a second application changes something. */
module StripProperties {
  import opened Text
  import opened Reasoning

  // ---------- the result is a subsequence ----------

  predicate Subsequence(a: string, b: string)
    decreases |b|
  {
    a == "" || (b != "" && ((a[0] == b[0] && Subsequence(a[1..], b[1..])) || Subsequence(a, b[1..])))
  }

  lemma {:induction false} SubsequenceSelf(a: string)
    ensures Subsequence(a, a)
  {
    if a != "" { SubsequenceSelf(a[1..]); }
  }

  lemma {:induction false} SubsequenceAfter(u: string, a: string, b: string)
    requires Subsequence(a, b)
    ensures Subsequence(a, u + b) && Subsequence(u + a, u + b)
  {
    if u == "" {
      assert u + a == a && u + b == b;
    } else {
      assert (u + a)[1..] == u[1..] + a && (u + b)[1..] == u[1..] + b;
      SubsequenceAfter(u[1..], a, b);
    }
  }

  lemma {:induction false} SubsequenceBefore(a: string, b: string, v: string)
    requires Subsequence(a, b)
    ensures Subsequence(a, b + v)
    decreases |b|
  {
    if a != "" {
      assert (b + v)[1..] == b[1..] + v;
      if a[0] == b[0] && Subsequence(a[1..], b[1..]) {
        SubsequenceBefore(a[1..], b[1..], v);
      } else {
        SubsequenceBefore(a, b[1..], v);
      }
    }
  }

  lemma {:induction false} SubsequenceTransitive(a: string, b: string, c: string)
    requires Subsequence(a, b) && Subsequence(b, c)
    ensures Subsequence(a, c)
    decreases |c|
  {
    if a != "" && b != "" {
      if b[0] == c[0] && Subsequence(b[1..], c[1..]) {
        if a[0] == b[0] && Subsequence(a[1..], b[1..]) {
          SubsequenceTransitive(a[1..], b[1..], c[1..]);
        } else {
          SubsequenceTransitive(a, b[1..], c[1..]);
        }
      } else {
        SubsequenceTransitive(a, b, c[1..]);
      }
    }
  }

  lemma {:induction false} RemoveSubsequence(p: Pattern, s: string)
    requires p.open != ""
    ensures Subsequence(Remove(p, s), s)
    decreases |s|
  {
    var b := FirstBlock(p, s, 0);
    if b.None? {
      SubsequenceSelf(s);
    } else {
      var (i, e) := b.value;
      BlockBounds(p, s, i, e);
      RemoveSubsequence(p, s[e..]);
      SubsequenceAfter(s[i..e], Remove(p, s[e..]), s[e..]);
      assert s[i..e] + s[e..] == s[i..];
      SubsequenceAfter(s[..i], Remove(p, s[e..]), s[i..]);
      assert s[..i] + s[i..] == s;
    }
  }

  lemma TrimSubsequence(s: string)
    ensures Subsequence(TrimSpace(s), s)
  {
    var u, v := TrimSpaceTrims(s);
    MiddleSubsequence(u, TrimSpace(s), v);
  }

  lemma MiddleSubsequence(u: string, r: string, v: string)
    ensures Subsequence(r, u + r + v)
  {
    SubsequenceSelf(r);
    SubsequenceBefore(r, r, v);
    SubsequenceAfter(u, r, r + v);
    assert u + (r + v) == u + r + v;
  }

  lemma {:induction false} KeptSubsequence(done: seq<string>, lines: seq<string>, prevBlank: bool)
    requires |done| > 0
    ensures Subsequence(Lines(done + Kept(lines, prevBlank)), Lines(done + lines))
    decreases |lines|
  {
    if lines == [] {
      SubsequenceSelf(Lines(done));
      assert done + [] == done;
    } else {
      assert done + [lines[0]] + lines[1..] == done + lines;
      if Blank(lines[0]) && prevBlank {
        KeptSubsequence(done, lines[1..], true);
        DropLine(done, lines[0], lines[1..]);
        LineDroppedSubsequence(done, lines[0], lines[1..]);
        SubsequenceTransitive(Lines(done + Kept(lines[1..], true)), Lines(done + lines[1..]), Lines(done + lines));
      } else {
        KeptSubsequence(done + [lines[0]], lines[1..], Blank(lines[0]));
        assert done + [lines[0]] + Kept(lines[1..], Blank(lines[0])) == done + Kept(lines, prevBlank);
      }
    }
  }

  /** Dropping a line after others cuts a newline and that line out of the text. */
  lemma DropLine(done: seq<string>, l: string, rest: seq<string>)
    requires |done| > 0
    ensures var v := if rest == [] then "" else "\n" + Lines(rest);
            Lines(done + rest) == Lines(done) + v && Lines(done + [l] + rest) == Lines(done) + ("\n" + l) + v
  {
    JoinAppend(done, rest);
    JoinAppend(done, [l]);
    JoinAppend(done + [l], rest);
    assert Lines([l]) == l;
  }

  lemma LineDroppedSubsequence(done: seq<string>, l: string, rest: seq<string>)
    requires |done| > 0
    ensures Subsequence(Lines(done + rest), Lines(done + [l] + rest))
  {
    DropLine(done, l, rest);
    var v := if rest == [] then "" else "\n" + Lines(rest);
    SubsequenceSelf(v);
    SubsequenceAfter("\n" + l, v, v);
    SubsequenceAfter(Lines(done), v, ("\n" + l) + v);
    assert Lines(done) + (("\n" + l) + v) == Lines(done) + ("\n" + l) + v;
  }

  lemma CollapseSubsequence(s: string)
    requires Trimmed(s)
    ensures Subsequence(Collapse(s), s)
  {
    if s == "" {
      SubsequenceSelf(s);
    } else {
      var ls := Split(s);
      CollapseIsKept(s);
      SplitJoin(s);
      KeptSubsequence([ls[0]], ls[1..], false);
      assert [ls[0]] + ls[1..] == ls && [ls[0]] + Kept(ls[1..], false) == Kept(ls, false);
    }
  }

  lemma StripIsSubsequence(s: string)
    ensures Subsequence(Strip(s), s)
  {
    var a := Remove(THINK, s);
    var b := Remove(REASONING, a);
    var c := Remove(BRACKET, b);
    RemoveSubsequence(THINK, s);
    RemoveSubsequence(REASONING, a);
    RemoveSubsequence(BRACKET, b);
    SubsequenceTransitive(b, a, s);
    SubsequenceTransitive(c, b, s);
    TrimSubsequence(c);
    SubsequenceTransitive(TrimSpace(c), c, s);
    TrimSpaceEnds(c);
    CollapseSubsequence(TrimSpace(c));
    SubsequenceTransitive(Strip(s), TrimSpace(c), s);
  }

  // ---------- trimming and collapsing make no block ----------

  /** An opening marker without the demand that a tag end at the first `>`. */
  predicate LooseOpen(p: Pattern, s: string, i: nat, m: nat) {
    && LiteralAt(p.open, s, i)
    && if p.tag then |p.open| > 0 && Boundary(s, i + |p.open|) && i + |p.open| < m <= |s| && s[m - 1] == '>'
       else m == i + |p.open|
  }

  predicate Loose(p: Pattern, s: string, i: nat, m: nat, e: nat) {
    LooseOpen(p, s, i, m) && IsClose(p, s, m, e)
  }

  lemma LooseIsBlock(p: Pattern, s: string, i: nat, m: nat, e: nat)
    requires Loose(p, s, i, m, e)
    ensures IsBlock(p, s, i, e)
  {
    if p.tag {
      var first := FindGt(s, i + |p.open|);
      assert IsOpen(p, s, i, first.value) && IsClose(p, s, first.value, e);
    } else {
      assert IsOpen(p, s, i, m);
    }
  }

  /** Marker literals that stay within a line. */
  predicate Plain(p: Pattern) {
    && |p.open| > 0
    && (forall k :: 0 <= k < |p.open| ==> Fold(p.open[k]) != '\n')
    && (forall k :: 0 <= k < |p.close| ==> Fold(p.close[k]) != '\n')
  }

  lemma KnownIsPlain(p: Pattern)
    requires Known(p)
    ensures Plain(p)
  {
  }

  lemma LiteralChar(lit: string, s: string, i: nat, k: nat)
    requires LiteralAt(lit, s, i) && k < |lit|
    ensures i + k < |s| && Fold(s[i + k]) == Fold(lit[k])
  {
  }

  /** A literal without newline that occurs in u + v, where v starts a new line, occurs in u + w + v. */
  lemma LiteralMoves(lit: string, u: string, w: string, v: string, x: nat)
    requires LiteralAt(lit, u + v, x) && (v == "" || v[0] == '\n')
    requires forall k :: 0 <= k < |lit| ==> Fold(lit[k]) != '\n'
    ensures x + |lit| <= |u| || x >= |u|
    ensures x + |lit| <= |u| ==> LiteralAt(lit, u + w + v, x)
    ensures x >= |u| ==> LiteralAt(lit, u + w + v, x + |w|)
  {
    var r, s := u + v, u + w + v;
    if x < |u| < x + |lit| { LiteralChar(lit, r, x, |u| - x); }
    forall j | 0 <= j < |lit| ensures x + |lit| <= |u| ==> Fold(s[x + j]) == Fold(lit[j])
                              ensures x >= |u| ==> Fold(s[x + |w| + j]) == Fold(lit[j])
    {
      assert Fold(r[x + j]) == Fold(lit[j]);
    }
  }

  /** Where a position that ends something in u + v lies in u + w + v. */
  function Moved(u: string, w: string, x: nat): nat {
    if x <= |u| then x else x + |w|
  }

  lemma OpenMoves(p: Pattern, u: string, w: string, v: string, i: nat, m: nat) returns (i2: nat, m2: nat)
    requires Plain(p) && w != "" && w[0] == '\n' && (v == "" || v[0] == '\n')
    requires LooseOpen(p, u + v, i, m)
    ensures LooseOpen(p, u + w + v, i2, m2) && m2 == Moved(u, w, m)
  {
    var r, s := u + v, u + w + v;
    LiteralMoves(p.open, u, w, v, i);
    m2 := Moved(u, w, m);
    i2 := if i + |p.open| <= |u| then i else i + |w|;
    if p.tag {
      var b := i + |p.open|;
      assert s[i2 + |p.open| - 1] == r[b - 1];
      assert s[i2 + |p.open|] == r[b];
      assert s[m2 - 1] == r[m - 1];
    }
  }

  lemma CloseMoves(p: Pattern, u: string, w: string, v: string, m: nat, e: nat)
    requires Plain(p) && (v == "" || v[0] == '\n') && IsClose(p, u + v, m, e)
    ensures IsClose(p, u + w + v, Moved(u, w, m), Moved(u, w, e))
  {
    LiteralMoves(p.close, u, w, v, e - |p.close|);
    if e > |u| { assert Moved(u, w, e) - |p.close| == e - |p.close| + |w|; }
  }

  /** Cutting a line w (with the newline before it) where another line follows makes no block. */
  lemma CutMakesNoBlock(p: Pattern, u: string, w: string, v: string)
    requires Plain(p) && w != "" && w[0] == '\n' && (v == "" || v[0] == '\n')
    requires Has(p, u + v)
    ensures Has(p, u + w + v)
  {
    var i: nat, e: nat :| IsBlock(p, u + v, i, e);
    var m: nat :| IsOpen(p, u + v, i, m) && IsClose(p, u + v, m, e);
    assert LooseOpen(p, u + v, i, m);
    var i2, m2 := OpenMoves(p, u, w, v, i, m);
    CloseMoves(p, u, w, v, m, e);
    LooseIsBlock(p, u + w + v, i2, m2, Moved(u, w, e));
  }

  lemma {:induction false} KeptMakesNoBlock(p: Pattern, done: seq<string>, lines: seq<string>, prevBlank: bool)
    requires Plain(p) && |done| > 0 && Has(p, Lines(done + Kept(lines, prevBlank)))
    ensures Has(p, Lines(done + lines))
    decreases |lines|
  {
    if lines != [] {
      assert done + [lines[0]] + lines[1..] == done + lines;
      if Blank(lines[0]) && prevBlank {
        KeptMakesNoBlock(p, done, lines[1..], true);
        DropLine(done, lines[0], lines[1..]);
        CutMakesNoBlock(p, Lines(done), "\n" + lines[0], if lines[1..] == [] then "" else "\n" + Lines(lines[1..]));
      } else {
        assert done + [lines[0]] + Kept(lines[1..], Blank(lines[0])) == done + Kept(lines, prevBlank);
        KeptMakesNoBlock(p, done + [lines[0]], lines[1..], Blank(lines[0]));
      }
    }
  }

  lemma CollapseMakesNoBlock(p: Pattern, s: string)
    requires Plain(p) && Trimmed(s) && Has(p, Collapse(s))
    ensures Has(p, s)
  {
    if s != "" {
      var ls := Split(s);
      CollapseIsKept(s);
      SplitJoin(s);
      assert [ls[0]] + ls[1..] == ls && [ls[0]] + Kept(ls[1..], false) == Kept(ls, false);
      KeptMakesNoBlock(p, [ls[0]], ls[1..], false);
    }
  }

  /** A block inside a fragment is a block of the whole. */
  lemma FragmentBlock(p: Pattern, u: string, r: string, v: string)
    requires Plain(p) && Has(p, r)
    ensures Has(p, u + r + v)
  {
    var i: nat, e: nat :| IsBlock(p, r, i, e);
    var m: nat :| IsOpen(p, r, i, m) && IsClose(p, r, m, e);
    LiteralShifts(p.close, u, r, v, e - |p.close|);
    assert |u| + (e - |p.close|) == |u| + e - |p.close|;
    FragmentOpen(p, u, r, v, i, m);
    LooseIsBlock(p, u + r + v, |u| + i, |u| + m, |u| + e);
  }

  lemma FragmentOpen(p: Pattern, u: string, r: string, v: string, i: nat, m: nat)
    requires Plain(p) && IsOpen(p, r, i, m) && m <= |r|
    ensures LooseOpen(p, u + r + v, |u| + i, |u| + m)
  {
    var s := u + r + v;
    LiteralShifts(p.open, u, r, v, i);
    assert forall k :: 0 <= k < |r| ==> s[|u| + k] == r[k];
    if p.tag {
      assert s[|u| + i + |p.open|] == r[i + |p.open|] && s[|u| + i + |p.open| - 1] == r[i + |p.open| - 1];
      assert s[|u| + m - 1] == r[m - 1];
    }
  }

  lemma LiteralShifts(lit: string, u: string, r: string, v: string, x: nat)
    requires LiteralAt(lit, r, x)
    ensures LiteralAt(lit, u + r + v, |u| + x)
  {
    forall j | 0 <= j < |lit| ensures Fold((u + r + v)[|u| + x + j]) == Fold(lit[j]) {
      assert (u + r + v)[|u| + x + j] == r[x + j];
    }
  }

  ghost predicate Clean(s: string) {
    !Has(THINK, s) && !Has(REASONING, s) && !Has(BRACKET, s)
  }

  /** HasReasoningTokens is the check for a block of any pattern. */
  lemma HasAnyIsHasSomeBlock(s: string)
    ensures HasAny(s) <==> !Clean(s)
  {
  }

  lemma TrimAndCollapseMakeNoBlock(p: Pattern, s: string)
    requires Plain(p) && Has(p, Collapse(TrimSpace(s)))
    ensures Has(p, s)
  {
    var u, v := TrimSpaceTrims(s);
    TrimSpaceEnds(s);
    CollapseMakesNoBlock(p, TrimSpace(s));
    FragmentBlock(p, u, TrimSpace(s), v);
  }

  lemma RemoveNothing(p: Pattern, s: string)
    requires Known(p) && !Has(p, s)
    ensures Remove(p, s) == s
  {
  }

  lemma NormalizingTwice(s: string)
    ensures var n := Collapse(TrimSpace(s)); TrimSpace(n) == n && Collapse(n) == n
  {
    TrimSpaceEnds(s);
    CollapseStable(TrimSpace(s));
    TrimSpaceFixed(Collapse(TrimSpace(s)));
  }

  /** The result of Strip is trimmed and collapsed. */
  lemma StripIsNormal(s: string)
    ensures TrimSpace(Strip(s)) == Strip(s) && Collapse(Strip(s)) == Strip(s)
  {
    NormalizingTwice(Remove(BRACKET, Remove(REASONING, Remove(THINK, s))));
  }

  lemma StripOfClean(s: string)
    requires Clean(s)
    ensures Strip(s) == Collapse(TrimSpace(s))
  {
    RemoveNothing(THINK, s);
    RemoveNothing(REASONING, s);
    RemoveNothing(BRACKET, s);
  }

  lemma NormalizingKeepsClean(p: Pattern, s: string)
    requires Known(p) && !Has(p, s)
    ensures !Has(p, Collapse(TrimSpace(s)))
  {
    KnownIsPlain(p);
    if Has(p, Collapse(TrimSpace(s))) { TrimAndCollapseMakeNoBlock(p, s); }
  }

  /** Text without a block is only trimmed and collapsed, stays without a block, and is left alone by a
      second application. */
  lemma CleanInput(s: string)
    requires Clean(s)
    ensures Strip(s) == Collapse(TrimSpace(s)) && Clean(Strip(s)) && Strip(Strip(s)) == Strip(s)
  {
    StripOfClean(s);
    NormalizingKeepsClean(THINK, s);
    NormalizingKeepsClean(REASONING, s);
    NormalizingKeepsClean(BRACKET, s);
    StripIsNormal(s);
    StripOfClean(Strip(s));
  }

  // ---------- text without a block: when it stays as it is ----------

  /** Two lines in a row that are blank. */
  predicate BlankPair(lines: seq<string>) {
    exists k :: 0 <= k < |lines| - 1 && Blank(lines[k]) && Blank(lines[k + 1])
  }

  lemma {:induction false} KeptNotMore(lines: seq<string>, prevBlank: bool)
    ensures |Kept(lines, prevBlank)| <= |lines|
    decreases |lines|
  {
    if lines != [] { KeptNotMore(lines[1..], Blank(lines[0])); }
  }

  /** All lines are kept exactly when no blank one follows a blank one. */
  lemma {:induction false} AllKeptIffNoBlankPair(lines: seq<string>, prevBlank: bool)
    ensures Kept(lines, prevBlank) == lines <==> !BlankPair(lines) && !(prevBlank && lines != [] && Blank(lines[0]))
    decreases |lines|
  {
    if lines != [] {
      var rest := lines[1..];
      KeptNotMore(rest, Blank(lines[0]));
      AllKeptIffNoBlankPair(rest, Blank(lines[0]));
      assert lines == [lines[0]] + rest;
      if BlankPair(rest) {
        var k :| 0 <= k < |rest| - 1 && Blank(rest[k]) && Blank(rest[k + 1]);
        assert Blank(lines[k + 1]) && Blank(lines[k + 2]);
      }
      if k :| 0 <= k < |lines| - 1 && Blank(lines[k]) && Blank(lines[k + 1]) {
        assert lines[k + 1] == rest[k];
        assert k > 0 ==> lines[k] == rest[k - 1];
      }
    }
  }

  lemma {:induction false} CollapseSameIffNoBlankPair(s: string)
    requires Trimmed(s)
    ensures Collapse(s) == s <==> !BlankPair(Split(s))
  {
    if s != "" {
      var ls, kept := Split(s), Kept(Split(s), false);
      CollapseIsKept(s);
      SplitJoin(s);
      KeptOfSplit(s);
      JoinSplit(kept);
      AllKeptIffNoBlankPair(ls, false);
    }
  }

  /** Text without a block comes back as its trimmed self exactly when no two lines of that in a row are
      blank. */
  lemma VerbatimIffNoBlankPair(s: string)
    requires Clean(s)
    ensures Strip(s) == TrimSpace(s) <==> !BlankPair(Split(TrimSpace(s)))
  {
    StripOfClean(s);
    TrimSpaceEnds(s);
    CollapseSameIffNoBlankPair(TrimSpace(s));
  }

  /** Whatever was removed, no two lines of the result in a row are blank. */
  lemma StripLeavesNoBlankPair(s: string)
    ensures !BlankPair(Split(Strip(s)))
  {
    StripIsNormal(s);
    TrimSpaceEnds(Strip(s));
    CollapseSameIffNoBlankPair(Strip(s));
  }

  lemma OneOfTwoBlankLinesGoes(a: string, b: string)
    requires !Blank(a) && !Blank(b)
    ensures Kept([a, "", "", b], false) == [a, "", b]
  {
    assert [a, "", "", b][1..] == ["", "", b] && ["", "", b][1..] == ["", b] && ["", b][1..] == [b];
    assert [b][1..] == [];
    assert Blank("");
    assert Kept([b], true) == [b] + Kept([], false) == [b];
    assert Kept(["", b], true) == Kept([b], true);
    assert Kept(["", "", b], false) == [""] + Kept(["", b], true);
  }

  lemma TwoBlankLinesCollapse(a: string, b: string)
    requires NewlineFree(a) && NewlineFree(b) && !Blank(a) && !Blank(b)
    requires Trimmed(Lines([a, "", "", b])) && Lines([a, "", "", b]) != ""
    ensures Collapse(Lines([a, "", "", b])) == Lines([a, "", b])
  {
    JoinSplit([a, "", "", b]);
    CollapseIsKept(Lines([a, "", "", b]));
    OneOfTwoBlankLinesGoes(a, b);
  }

  lemma NoBracketIsClean(s: string)
    requires forall k :: 0 <= k < |s| ==> Fold(s[k]) != '<' && Fold(s[k]) != '['
    ensures Clean(s)
  {
    LacksOpening(THINK, s, 0);
    LacksOpening(REASONING, s, 0);
    LacksOpening(BRACKET, s, 0);
    RemoveShrinks(THINK, s);
    RemoveShrinks(REASONING, s);
    RemoveShrinks(BRACKET, s);
  }

  lemma FourLines(a: string, b: string)
    ensures Lines([a, "", "", b]) == a + "\n\n\n" + b && Lines([a, "", b]) == a + "\n\n" + b
  {
    LinesCons("", [b]);
    LinesCons("", [""] + [b]);
    LinesCons(a, [""] + [b]);
    LinesCons(a, [""] + ([""] + [b]));
    assert [a] + ([""] + ([""] + [b])) == [a, "", "", b] && [a] + ([""] + [b]) == [a, "", b];
    assert "" + "\n" + b == "\n" + b && "" + "\n" + ("\n" + b) == "\n\n" + b;
  }

  /** Of two blank lines between two lines one goes. */
  lemma TwoBlankLinesBecomeOne(a: string, b: string, s: string)
    requires s == a + "\n\n\n" + b && NewlineFree(a) && NewlineFree(b) && a != "" && b != ""
    requires !IsSpace(a[0]) && !IsSpace(b[|b| - 1])
    requires forall k :: 0 <= k < |s| ==> Fold(s[k]) != '<' && Fold(s[k]) != '['
    ensures Clean(s) && TrimSpace(s) == s && Strip(s) == a + "\n\n" + b
  {
    assert s[0] == a[0] && s[|s| - 1] == b[|b| - 1];
    NoBracketIsClean(s);
    StripOfClean(s);
    TrimSpaceFixed(s);
    FourLines(a, b);
    TwoBlankLinesCollapse(a, b);
  }

  /** The documented verbatim return fails on a concrete reply. */
  lemma VerbatimExample(s: string)
    requires s == "a\n\n\nb"
    ensures Clean(s) && TrimSpace(s) == s && Strip(s) == "a\n\nb"
  {
    var a, b := "a", "b";
    assert s == a + "\n\n\n" + b && "a\n\nb" == a + "\n\n" + b;
    TwoBlankLinesBecomeOne(a, b, s);
  }

  // ---------- idempotence ----------

  lemma {:induction false} CollapseNotLonger(s: string)
    requires Trimmed(s)
    ensures |Collapse(s)| <= |s|
  {
    CollapseSubsequence(s);
    SubsequenceNotLonger(Collapse(s), s);
  }

  lemma {:induction false} SubsequenceNotLonger(a: string, b: string)
    requires Subsequence(a, b)
    ensures |a| <= |b|
    decreases |b|
  {
    if a != "" {
      if a[0] == b[0] && Subsequence(a[1..], b[1..]) {
        SubsequenceNotLonger(a[1..], b[1..]);
      } else {
        SubsequenceNotLonger(a, b[1..]);
      }
    }
  }

  lemma RemoveShrinks(p: Pattern, s: string)
    requires Known(p)
    ensures Has(p, s) <==> Remove(p, s) != s
    ensures Has(p, s) ==> |Remove(p, s)| < |s|
  {
    var b := FirstBlock(p, s, 0);
    if b.Some? {
      var (i, e) := b.value;
      BlockBounds(p, s, i, e);
      KnownIsPlain(p);
      assert IsBlock(p, s, i, e);
    }
  }

  /** Where there is a block, something goes. */
  lemma StripShrinks(r: string)
    requires !Clean(r)
    ensures |Strip(r)| < |r|
  {
    var a := Remove(THINK, r);
    var b := Remove(REASONING, a);
    var d := Remove(BRACKET, b);
    RemoveShrinks(THINK, r);
    RemoveShrinks(REASONING, a);
    RemoveShrinks(BRACKET, b);
    assert |d| < |r|;
    TrimSpaceEnds(d);
    CollapseNotLonger(TrimSpace(d));
  }

  /** A second application changes nothing exactly when HasReasoningTokens is false of the first result. */
  lemma IdempotentIffResultClean(s: string)
    ensures Strip(Strip(s)) == Strip(s) <==> !HasAny(Strip(s))
  {
    HasAnyIsHasSomeBlock(Strip(s));
    StripIsNormal(s);
    if Clean(Strip(s)) { StripOfClean(Strip(s)); } else { StripShrinks(Strip(s)); }
  }

  /** Text that lacks a character of the opening literal has no block. */
  lemma LacksOpening(p: Pattern, s: string, k: nat)
    requires Known(p) && k < |p.open|
    requires forall i :: 0 <= i < |s| ==> Fold(s[i]) != Fold(p.open[k])
    ensures Remove(p, s) == s
  {
    forall i: nat ensures !LiteralAt(p.open, s, i) {
      if LiteralAt(p.open, s, i) { LiteralChar(p.open, s, i, k); }
    }
    NoOpenNoBlock(p, s);
  }

  /** Text whose only `<` starts a closing tag has no opening one. */
  lemma OnlyClosingTag(p: Pattern, s: string, at: nat)
    requires p == THINK && at + 1 < |s| && Fold(s[at + 1]) != 't'
    requires forall i :: 0 <= i < |s| && i != at ==> Fold(s[i]) != '<'
    ensures Remove(p, s) == s
  {
    assert p.open[0] == '<' && p.open[1] == 't';
    forall i: nat ensures !LiteralAt(p.open, s, i) {
      if LiteralAt(p.open, s, i) {
        LiteralChar(p.open, s, i, 0);
        LiteralChar(p.open, s, i, 1);
      }
    }
    NoOpenNoBlock(p, s);
  }

  /** In three characters + "<think>" + one + "</think>" + rest the inner tag is the first block. */
  lemma InnerBlockGoes(s: string)
    requires IsOpen(THINK, s, 3, 10) && IsClose(THINK, s, 10, 19)
    requires Fold(s[1]) != '<' && Fold(s[2]) != '<' && Fold(s[3]) != 'i' && Fold(s[10]) != '<'
    ensures Remove(THINK, s) == s[..3] + Remove(THINK, s[19..])
  {
    assert IsBlock(THINK, s, 3, 19);
    forall i: nat, e: nat | i < 3 ensures !IsBlock(THINK, s, i, e) {
      if LiteralAt(THINK.open, s, i) {
        LiteralChar(THINK.open, s, i, 0);
        LiteralChar(THINK.open, s, i, 3);
      }
    }
    forall e: nat | IsBlock(THINK, s, 3, e) ensures e >= 19 {
      var m: nat :| IsOpen(THINK, s, 3, m) && IsClose(THINK, s, m, e);
      assert OpenEnd(THINK, s, 3) == Some(10) && m == 10;
      if LiteralAt(THINK.close, s, 10) { LiteralChar(THINK.close, s, 10, 0); }
    }
    var b := FirstBlock(THINK, s, 0);
    assert b.Some?;
    assert b.value.0 == 3;
    assert b.value.1 == 19;
  }

  /** The characters that matter of a text like "<think>y</think>". */
  predicate LoneTag(r: string) {
    && |r| == 16 && LiteralAt(THINK.open, r, 0) && LiteralAt(THINK.close, r, 8)
    && r[0] == '<' && r[5] == 'k' && r[6] == '>' && r[15] == '>'
    && forall i :: 0 <= i < 16 ==> Fold(r[i]) != 'r' && Fold(r[i]) != '[' && r[i] != '\n'
  }

  /** The characters that matter of a text like "<th<think>x</think>ink>y</think>". */
  predicate NestedTag(s: string) {
    && |s| == 32 && IsOpen(THINK, s, 3, 10) && IsClose(THINK, s, 10, 19)
    && Fold(s[1]) != '<' && Fold(s[2]) != '<' && Fold(s[3]) != 'i' && Fold(s[10]) != '<' && Fold(s[25]) != 't'
    && forall i :: 19 <= i < 32 && i != 24 ==> Fold(s[i]) != '<'
  }

  lemma OneLineCollapses(l: string)
    requires NewlineFree(l) && !Blank(l)
    ensures Collapse(l) == l
  {
    SplitLine(l, "");
    var ls := [l];
    assert ls[1..] == [] && "" + l == l;
    assert CollapseFrom(ls, "", false) == CollapseFrom(ls[1..], "" + ls[0], false);
    assert CollapseFrom([], l, false) == l;
  }

  lemma LoneTagIsNormal(r: string)
    requires LoneTag(r)
    ensures Remove(BRACKET, Remove(REASONING, r)) == r && Collapse(TrimSpace(r)) == r
  {
    LacksOpening(REASONING, r, 1);
    LacksOpening(BRACKET, r, 0);
    assert !IsSpace(r[0]) && !IsSpace(r[15]);
    TrimSpaceFixed(r);
    OneLineCollapses(r);
  }

  lemma LoneTagIsBlock(r: string)
    requires LoneTag(r)
    ensures HasAny(r)
  {
    assert IsOpen(THINK, r, 0, 7) && IsClose(THINK, r, 7, 16);
    assert IsBlock(THINK, r, 0, 16);
  }

  /** Removing one block can join the pieces of another. */
  lemma NestedFragments(s: string)
    requires NestedTag(s) && LoneTag(s[..3] + s[19..])
    ensures Strip(s) == s[..3] + s[19..] && Strip(Strip(s)) != Strip(s)
  {
    var r := s[..3] + s[19..];
    InnerBlockGoes(s);
    OnlyClosingTag(THINK, s[19..], 5);
    LoneTagIsNormal(r);
    LoneTagIsBlock(r);
    IdempotentIffResultClean(s);
  }

  lemma LoneTagExample(r: string)
    requires r == "<think>y</think>"
    ensures LoneTag(r)
  {
    assert r[0] == '<' && r[1] == 't' && r[2] == 'h' && r[3] == 'i' && r[4] == 'n' && r[5] == 'k' && r[6] == '>';
    assert r[7] == 'y' && r[8] == '<' && r[9] == '/' && r[10] == 't' && r[11] == 'h' && r[12] == 'i' && r[13] == 'n';
    assert r[14] == 'k' && r[15] == '>';
    assert LiteralAt(THINK.open, r, 0);
    assert LiteralAt(THINK.close, r, 8);
  }

  lemma NestedTagExample(s: string)
    requires |s| == 32 && s[..19] == "<th<think>x</think>" && s[19..] == "ink>y</think>"
    ensures NestedTag(s)
  {
    var a, b := s[..19], s[19..];
    assert forall i :: 0 <= i < 19 ==> s[i] == a[i];
    assert forall i :: 0 <= i < 13 ==> s[19 + i] == b[i];
    assert a[1] == 't' && a[2] == 'h' && a[3] == '<' && a[8] == 'k' && a[9] == '>' && a[10] == 'x' && s[25] == b[6] == '/';
    assert LiteralAt(THINK.open, s, 3);
    assert LiteralAt(THINK.close, s, 11);
    forall i | 19 <= i < 32 && i != 24 ensures Fold(s[i]) != '<' { assert s[i] == b[i - 19]; }
  }

  /** The documented idempotence fails on a concrete reply. */
  lemma NotIdempotentExample(s: string)
    requires s == "<th<think>x</think>ink>y</think>"
    ensures Strip(s) == "<think>y</think>" && Strip(Strip(s)) != Strip(s)
  {
    var r := s[..3] + s[19..];
    assert r == "<think>y</think>";
    LoneTagExample(r);
    NestedTagExample(s);
    NestedFragments(s);
  }
}
