/** Markers in any letter case: what the patterns' case-insensitive matching makes equal, with the letters
    spelled out, and that stripping does not see the difference. */
module StripLetters {
  import opened Text
  import opened Reasoning
  import opened StripProperties

  /** An ASCII letter and the same letter in the other case. */
  predicate OtherCase(c: char, d: char) {
    ('A' <= c <= 'Z' && d as int == c as int + 32) || ('a' <= c <= 'z' && d as int + 32 == c as int)
  }

  /** What matching does not tell apart: the cases of an ASCII letter, the Kelvin sign and k, long s and s. */
  predicate SameLetter(c: char, d: char) {
    || c == d || OtherCase(c, d)
    || (c in ['k', 'K', '\U{212A}'] && d in ['k', 'K', '\U{212A}'])
    || (c in ['s', 'S', '\U{17F}'] && d in ['s', 'S', '\U{17F}'])
  }

  /** Folding identifies exactly those. */
  lemma FoldMeans(c: char, d: char)
    ensures Fold(c) == Fold(d) <==> SameLetter(c, d)
  {
  }

  /** A text up to the case of its ASCII letters. */
  predicate Alike(s: string, t: string) {
    |s| == |t| && forall i :: 0 <= i < |s| ==> s[i] == t[i] || OtherCase(s[i], t[i])
  }

  /** A text up to all that matching does not tell apart. */
  predicate Exchanged(s: string, t: string) {
    |s| == |t| && forall i :: 0 <= i < |s| ==> SameLetter(s[i], t[i])
  }

  /** A literal stands at i exactly when the characters there are its own up to SameLetter. */
  lemma LiteralMeans(lit: string, s: string, i: nat)
    ensures LiteralAt(lit, s, i) <==> i + |lit| <= |s| && Exchanged(lit, s[i..i + |lit|])
  {
    if i + |lit| <= |s| {
      forall j | 0 <= j < |lit| ensures Fold(s[i + j]) == Fold(lit[j]) <==> SameLetter(lit[j], s[i..i + |lit|][j]) {
        FoldMeans(lit[j], s[i + j]);
      }
    }
  }

  // ---------- matching under exchange ----------

  lemma LiteralExchanged(lit: string, s: string, t: string, i: nat)
    requires Exchanged(s, t)
    ensures LiteralAt(lit, s, i) <==> LiteralAt(lit, t, i)
  {
    forall k | 0 <= k < |s| ensures Fold(s[k]) == Fold(t[k]) { FoldMeans(s[k], t[k]); }
  }

  /** Word boundaries behind the opening literals of p are the same. */
  predicate SameBoundaries(p: Pattern, s: string, t: string) {
    p.tag && p.open != "" && |s| == |t| ==>
      forall i: nat :: i + |p.open| <= |s| && LiteralAt(p.open, s, i) ==>
        Boundary(s, i + |p.open|) == Boundary(t, i + |p.open|)
  }

  lemma OpenExchanged(p: Pattern, s: string, t: string, i: nat, m: nat)
    requires Exchanged(s, t) && SameBoundaries(p, s, t)
    ensures IsOpen(p, s, i, m) <==> IsOpen(p, t, i, m)
  {
    LiteralExchanged(p.open, s, t, i);
    assert forall k :: 0 <= k < |s| ==> (s[k] == '>' <==> t[k] == '>') by {
      forall k | 0 <= k < |s| ensures s[k] == '>' <==> t[k] == '>' { assert SameLetter(s[k], t[k]); }
    }
  }

  lemma BlockExchanged(p: Pattern, s: string, t: string, i: nat, e: nat)
    requires Exchanged(s, t) && SameBoundaries(p, s, t)
    ensures IsBlock(p, s, i, e) <==> IsBlock(p, t, i, e)
  {
    forall m: nat ensures IsOpen(p, s, i, m) && IsClose(p, s, m, e) <==> IsOpen(p, t, i, m) && IsClose(p, t, m, e) {
      OpenExchanged(p, s, t, i, m);
      if m + |p.close| <= e { LiteralExchanged(p.close, s, t, e - |p.close|); }
    }
  }

  /** Exchanging characters that matching does not tell apart moves no block, as long as the word boundaries
      behind opening literals stay: the Kelvin sign and long s are no word characters. */
  lemma FirstBlockExchanged(p: Pattern, s: string, t: string, from: nat)
    requires Exchanged(s, t) && SameBoundaries(p, s, t)
    ensures FirstBlock(p, s, from) == FirstBlock(p, t, from)
  {
    forall i: nat, e: nat ensures IsBlock(p, s, i, e) <==> IsBlock(p, t, i, e) { BlockExchanged(p, s, t, i, e); }
    SameBlocksSameFirst(p, s, t, from);
  }

  lemma SameBlocksSameFirst(p: Pattern, s: string, t: string, from: nat)
    requires forall i: nat, e: nat :: IsBlock(p, s, i, e) <==> IsBlock(p, t, i, e)
    ensures FirstBlock(p, s, from) == FirstBlock(p, t, from)
  {
    var a, b := FirstBlock(p, s, from), FirstBlock(p, t, from);
    if a.Some? {
      var (i, e) := a.value;
      assert IsBlock(p, t, i, e);
    }
    if b.Some? {
      var (i, e) := b.value;
      assert IsBlock(p, s, i, e);
    }
    if a.Some? && b.Some? {
      var ((i, e), (i2, e2)) := (a.value, b.value);
      assert IsBlock(p, t, i, e) && IsBlock(p, s, i2, e2);
      assert i == i2;
      assert e <= e2 && e2 <= e;
    }
  }

  lemma SuffixBoundaries(p: Pattern, s: string, t: string, e: nat)
    requires Exchanged(s, t) && SameBoundaries(p, s, t) && p.open != "" && e <= |s|
    ensures Exchanged(s[e..], t[e..]) && SameBoundaries(p, s[e..], t[e..])
  {
    if p.tag {
      var a, b, n := s[e..], t[e..], |p.open|;
      forall i: nat | i + n <= |a| && LiteralAt(p.open, a, i) ensures Boundary(a, i + n) == Boundary(b, i + n) {
        forall j | 0 <= j < n ensures Fold(s[e + i + j]) == Fold(p.open[j]) { assert a[i + j] == s[e + i + j]; }
        var x: nat := e + i;
        assert LiteralAt(p.open, s, x) && x + n <= |s|;
        assert Boundary(s, x + n) == Boundary(t, x + n);
        assert a[i + n - 1] == s[x + n - 1] && b[i + n - 1] == t[x + n - 1];
        if i + n < |a| { assert a[i + n] == s[x + n] && b[i + n] == t[x + n]; }
      }
    }
  }

  /** One pass takes the same blocks out of both. */
  lemma {:induction false} RemoveExchanged(p: Pattern, s: string, t: string)
    requires p.open != "" && Exchanged(s, t) && SameBoundaries(p, s, t)
    ensures Exchanged(Remove(p, s), Remove(p, t))
    decreases |s|
  {
    FirstBlockExchanged(p, s, t, 0);
    var b := FirstBlock(p, s, 0);
    if b.Some? {
      var (i, e) := b.value;
      BlockBounds(p, s, i, e);
      SuffixBoundaries(p, s, t, e);
      RemoveExchanged(p, s[e..], t[e..]);
    }
  }

  // ---------- letter case ----------

  lemma AlikeIsExchanged(p: Pattern, s: string, t: string)
    requires Alike(s, t)
    ensures Exchanged(s, t) && SameBoundaries(p, s, t)
  {
    forall i | 0 <= i < |s| ensures WordChar(s[i]) == WordChar(t[i]) {}
  }

  lemma FirstBlockAlike(p: Pattern, s: string, t: string, from: nat)
    requires Alike(s, t)
    ensures FirstBlock(p, s, from) == FirstBlock(p, t, from)
  {
    AlikeIsExchanged(p, s, t);
    FirstBlockExchanged(p, s, t, from);
  }

  lemma {:induction false} RemoveAlike(p: Pattern, s: string, t: string)
    requires p.open != "" && Alike(s, t)
    ensures Alike(Remove(p, s), Remove(p, t))
    decreases |s|
  {
    FirstBlockAlike(p, s, t, 0);
    var b := FirstBlock(p, s, 0);
    if b.Some? {
      var (i, e) := b.value;
      BlockBounds(p, s, i, e);
      RemoveAlike(p, s[e..], t[e..]);
    }
  }

  lemma {:induction false} TrimLeftAlike(s: string, t: string)
    requires Alike(s, t)
    ensures Alike(TrimLeft(s), TrimLeft(t))
  {
    if s != [] {
      assert IsSpace(s[0]) == IsSpace(t[0]);
      TrimLeftAlike(s[1..], t[1..]);
    }
  }

  lemma {:induction false} TrimRightAlike(s: string, t: string)
    requires Alike(s, t)
    ensures Alike(TrimRight(s), TrimRight(t))
  {
    if s != [] {
      assert IsSpace(s[|s| - 1]) == IsSpace(t[|t| - 1]);
      TrimRightAlike(s[..|s| - 1], t[..|t| - 1]);
    }
  }

  predicate AllAlike(a: seq<string>, b: seq<string>) {
    |a| == |b| && forall k :: 0 <= k < |a| ==> Alike(a[k], b[k])
  }

  lemma {:induction false} SplitAlike(s: string, t: string)
    requires Alike(s, t)
    ensures AllAlike(Split(s), Split(t))
  {
    if s != "" {
      SplitAlike(s[1..], t[1..]);
      assert s[0] == '\n' <==> t[0] == '\n';
      var a, b := Split(s[1..]), Split(t[1..]);
      assert Alike(a[0], b[0]);
    }
  }

  lemma BlankAlike(a: string, b: string)
    requires Alike(a, b)
    ensures Blank(a) <==> Blank(b)
  {
    forall i | 0 <= i < |a| ensures IsSpace(a[i]) == IsSpace(b[i]) {}
  }

  lemma {:induction false} CollapseFromAlike(a: seq<string>, b: seq<string>, out: string, out': string, prevBlank: bool)
    requires AllAlike(a, b) && Alike(out, out')
    ensures Alike(CollapseFrom(a, out, prevBlank), CollapseFrom(b, out', prevBlank))
    decreases |a|
  {
    if a != [] {
      assert Alike(a[0], b[0]);
      BlankAlike(a[0], b[0]);
      assert AllAlike(a[1..], b[1..]);
      if Blank(a[0]) && prevBlank {
        CollapseFromAlike(a[1..], b[1..], out, out', true);
      } else {
        var more, more' := (if |out| > 0 then out + "\n" else out) + a[0], (if |out'| > 0 then out' + "\n" else out') + b[0];
        CollapseFromAlike(a[1..], b[1..], more, more', Blank(a[0]));
      }
    }
  }

  lemma NormalizeAlike(s: string, t: string)
    requires Alike(s, t)
    ensures Alike(Collapse(TrimSpace(s)), Collapse(TrimSpace(t)))
  {
    TrimLeftAlike(s, t);
    TrimRightAlike(TrimLeft(s), TrimLeft(t));
    SplitAlike(TrimSpace(s), TrimSpace(t));
    CollapseFromAlike(Split(TrimSpace(s)), Split(TrimSpace(t)), "", "", false);
  }

  /** Exchanging upper and lower case anywhere in a reply changes neither whether it has reasoning blocks nor
      which parts of it stay. */
  lemma CaseDoesNotMatter(s: string, t: string)
    requires Alike(s, t)
    ensures HasAny(s) <==> HasAny(t)
    ensures Alike(Strip(s), Strip(t))
  {
    FirstBlockAlike(THINK, s, t, 0);
    FirstBlockAlike(REASONING, s, t, 0);
    FirstBlockAlike(BRACKET, s, t, 0);
    var a, b := Remove(THINK, s), Remove(THINK, t);
    RemoveAlike(THINK, s, t);
    RemoveAlike(REASONING, a, b);
    RemoveAlike(BRACKET, Remove(REASONING, a), Remove(REASONING, b));
    NormalizeAlike(Remove(BRACKET, Remove(REASONING, a)), Remove(BRACKET, Remove(REASONING, b)));
  }

  // ---------- the three pairs of markers, spelled out ----------

  /** An opening marker as written: the literal in any letter case, and behind that of a tag nothing or
      something that starts with no word character and has no `>`, and a `>`. */
  predicate Opening(p: Pattern, o: string, attrs: string) {
    var n := |p.open|;
    && n <= |o| && Alike(o[..n], p.open)
    && if p.tag then o[n..] == attrs + ">" && '>' !in attrs && (attrs == "" || !WordChar(attrs[0])) else o[n..] == "" && attrs == ""
  }

  lemma WrittenLiteral(lit: string, s: string, x: nat, e: nat)
    requires e == x + |lit| <= |s| && Alike(s[x..e], lit)
    ensures LiteralAt(lit, s, x)
  {
    forall j | 0 <= j < |lit| ensures Fold(s[x + j]) == Fold(lit[j]) {
      assert s[x + j] == s[x..e][j];
      FoldMeans(s[x + j], lit[j]);
    }
  }

  /** Literals that end and start as the markers do: a tag's opening one in a letter, a closing one in a bracket. */
  predicate Shaped(p: Pattern) {
    p.open != "" && (p.tag ==> 'a' <= p.open[|p.open| - 1] <= 'z') && p.close != "" && p.close[0] in ['<', '[']
  }

  lemma OpeningOpens(p: Pattern, o: string, attrs: string, s: string)
    requires Shaped(p) && Opening(p, o, attrs) && o <= s
    ensures OpenEnd(p, s, 0) == Some(|o|)
  {
    var n := |p.open|;
    assert s[0..n] == o[..n];
    WrittenLiteral(p.open, s, 0, n);
    if p.tag { TagOpens(p, o, attrs, s); }
  }

  lemma TagText(n: nat, o: string, attrs: string, s: string)
    requires 0 < n <= |o| && o[n..] == attrs + ">" && '>' !in attrs && o <= s
    ensures n < |o| && s[n - 1] == o[n - 1] && s[n] == (attrs + ">")[0]
    ensures s[|o| - 1] == '>' && forall k :: n <= k < |o| - 1 ==> s[k] != '>'
  {
    assert forall k :: n <= k < |o| ==> s[k] == o[n..][k - n];
    assert forall k :: 0 <= k < |attrs| ==> attrs[k] in attrs;
  }

  lemma TagOpens(p: Pattern, o: string, attrs: string, s: string)
    requires Shaped(p) && p.tag && Opening(p, o, attrs) && o <= s && LiteralAt(p.open, s, 0)
    ensures OpenEnd(p, s, 0) == Some(|o|)
  {
    var n := |p.open|;
    TagText(n, o, attrs, s);
    assert s[n - 1] == o[..n][n - 1] && WordChar(s[n - 1]) && !WordChar(s[n]);
    assert IsOpen(p, s, 0, |o|);
  }

  lemma BracketIsExact(lit: string, s: string, x: nat)
    requires LiteralAt(lit, s, x) && lit != "" && lit[0] in ['<', '[']
    ensures x < |s| && s[x] == lit[0]
  {
    LiteralChar(lit, s, x, 0);
    FoldMeans(s[x], lit[0]);
  }

  lemma ClosesAt(p: Pattern, s: string, m: nat, e: nat)
    requires p.close != "" && p.close[0] in ['<', '[']
    requires m + |p.close| <= e <= |s| && Alike(s[e - |p.close|..e], p.close)
    requires forall k :: m <= k < e - |p.close| ==> s[k] != p.close[0]
    ensures FindClose(p, s, m) == Some(e)
  {
    WrittenLiteral(p.close, s, e - |p.close|, e);
    assert IsClose(p, s, m, e);
    var first := FindClose(p, s, m);
    assert first.Some? && first.value <= e;
    BracketIsExact(p.close, s, first.value - |p.close|);
  }

  /** A written block in front of a text goes whole, in any letter case and with attributes. */
  lemma WrittenBlockGoes(p: Pattern, o: string, attrs: string, x: string, c: string, v: string)
    requires Shaped(p) && Opening(p, o, attrs) && Alike(c, p.close) && p.close[0] !in x
    ensures Remove(p, o + x + c + v) == Remove(p, v)
  {
    var s, e := o + x + c + v, |o| + |x| + |c|;
    OpeningOpens(p, o, attrs, s);
    assert s[e - |p.close|..e] == c;
    assert forall k :: |o| <= k < e - |p.close| ==> s[k] == x[k - |o|] && s[k] in x;
    ClosesAt(p, s, |o|, e);
    assert BlockAt(p, s, 0) == Some(e);
    assert FirstBlock(p, s, 0) == Some((0, e));
    assert s[e..] == v && s[..0] == "";
  }

  lemma KnownIsShaped(p: Pattern)
    requires Known(p)
    ensures Shaped(p)
  {
  }

  /** The markers that the patterns are about. */
  lemma MarkersSpelledOut()
    ensures THINK.open == "<think" && THINK.close == "</think>" && THINK.tag
    ensures REASONING.open == "<reasoning" && REASONING.close == "</reasoning>" && REASONING.tag
    ensures BRACKET.open == "[REASONING]" && BRACKET.close == "[/REASONING]" && !BRACKET.tag
  {
  }

  lemma NoBracketNoPass(v: string)
    requires '<' !in v && '[' !in v
    ensures Remove(THINK, v) == v && Remove(REASONING, v) == v && Remove(BRACKET, v) == v
  {
    forall k | 0 <= k < |v| ensures Fold(v[k]) != '<' && Fold(v[k]) != '[' { assert v[k] in v; }
    LacksOpening(THINK, v, 0);
    LacksOpening(REASONING, v, 0);
    LacksOpening(BRACKET, v, 0);
  }

  /** A reply that starts with chain of thought in tags of any letter case comes back without it. */
  lemma ThoughtGoes(o: string, x: string, c: string, v: string)
    requires Alike(o, "<think>") && Alike(c, "</think>") && '<' !in x && '<' !in v && '[' !in v
    ensures Strip(o + x + c + v) == Collapse(TrimSpace(v))
  {
    assert o[..6] == o[..6] && Alike(o[..6], THINK.open) && o[6..] == "" + ">";
    KnownIsShaped(THINK);
    WrittenBlockGoes(THINK, o, "", x, c, v);
    NoBracketNoPass(v);
  }

  /** A Kelvin sign at the end of the opening literal: there the tag opens only in front of a word character. */
  lemma KelvinOpens(s: string, i: nat)
    requires i + 6 <= |s| && s[i..i + 6] == "<thin\U{212A}"
    ensures OpenEnd(THINK, s, i).Some? <==>
              && i + 6 < |s| && '>' in s[i + 6..]
              && ('0' <= s[i + 6] <= '9' || 'A' <= s[i + 6] <= 'Z' || 'a' <= s[i + 6] <= 'z' || s[i + 6] == '_')
  {
    var w := s[i..i + 6];
    LiteralMeans(THINK.open, s, i);
    assert forall j :: 0 <= j < 6 ==> SameLetter(THINK.open[j], w[j]);
    assert s[i + 5] == w[5];
    assert forall k :: i + 6 <= k < |s| ==> s[k] == s[i + 6..][k - i - 6];
  }
}
