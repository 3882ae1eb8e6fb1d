/** internal/llmcontext/reasoning.go: stripping chain-of-thought blocks out of a model's reply. */
module Reasoning {
  import opened Text

  /** A pair of markers. A tag's opening literal is followed by a word boundary and anything up to the
      first `>`; a bracket marker is complete as it stands. */
  datatype Pattern = Pattern(open: string, close: string, tag: bool)

  const THINK := Pattern("<think", "</think>", true)
  const REASONING := Pattern("<reasoning", "</reasoning>", true)
  const BRACKET := Pattern("[REASONING]", "[/REASONING]", false)

  /** The marker literals hold no white space and no `>` before their end. */
  predicate Known(p: Pattern) {
    p == THINK || p == REASONING || p == BRACKET
  }

  /** Case folding of Go's (?i) on the letters of the markers: the Kelvin sign folds to k, long s to s. */
  function Fold(c: char): char {
    if 'A' <= c <= 'Z' then c + 32 as char
    else if c == '\U{212A}' then 'k'
    else if c == '\U{17F}' then 's'
    else c
  }

  predicate LiteralAt(lit: string, s: string, i: nat) {
    i + |lit| <= |s| && forall j :: 0 <= j < |lit| ==> Fold(s[i + j]) == Fold(lit[j])
  }

  predicate WordChar(c: char) {
    '0' <= c <= '9' || 'A' <= c <= 'Z' || 'a' <= c <= 'z' || c == '_'
  }

  /** \b of RE2, between s[i - 1] and s[i]. */
  predicate Boundary(s: string, i: nat)
    requires 0 < i <= |s|
  {
    WordChar(s[i - 1]) != (i < |s| && WordChar(s[i]))
  }

  /** An opening marker fills s[i..m]. */
  predicate IsOpen(p: Pattern, s: string, i: nat, m: nat) {
    LiteralAt(p.open, s, i) &&
    if p.tag then
      && |p.open| > 0 && Boundary(s, i + |p.open|)
      && i + |p.open| < m <= |s| && s[m - 1] == '>'
      && forall k :: i + |p.open| <= k < m - 1 ==> s[k] != '>'
    else m == i + |p.open|
  }

  predicate IsClose(p: Pattern, s: string, m: nat, e: nat) {
    m + |p.close| <= e && LiteralAt(p.close, s, e - |p.close|)
  }

  /** s[i..e] is an opening marker, anything, and a closing marker. */
  ghost predicate IsBlock(p: Pattern, s: string, i: nat, e: nat) {
    exists m: nat :: IsOpen(p, s, i, m) && IsClose(p, s, m, e)
  }

  ghost predicate Has(p: Pattern, s: string) {
    exists i: nat, e: nat :: IsBlock(p, s, i, e)
  }

  // ---------- finding the leftmost shortest block ----------

  function FindGt(s: string, i: nat): (r: Option<nat>)
    ensures r.Some? ==> i < r.value <= |s| && s[r.value - 1] == '>' && forall k :: i <= k < r.value - 1 ==> s[k] != '>'
    ensures r.None? ==> forall k :: i <= k < |s| ==> s[k] != '>'
    decreases |s| - i
  {
    if i >= |s| then None else if s[i] == '>' then Some(i + 1) else FindGt(s, i + 1)
  }

  function FindClose(p: Pattern, s: string, m: nat): (r: Option<nat>)
    ensures r.Some? ==> IsClose(p, s, m, r.value) && forall e: nat :: IsClose(p, s, m, e) ==> r.value <= e
    ensures r.None? ==> forall e: nat :: !IsClose(p, s, m, e)
    decreases |s| - m
  {
    if LiteralAt(p.close, s, m) then Some(m + |p.close|)
    else if m >= |s| then
      assert forall e: nat :: IsClose(p, s, m, e) ==> e - |p.close| == m;
      None
    else
      assert forall e: nat :: IsClose(p, s, m, e) <==> IsClose(p, s, m + 1, e) by {
        forall e: nat | IsClose(p, s, m, e) ensures IsClose(p, s, m + 1, e) { assert e - |p.close| != m; }
      }
      FindClose(p, s, m + 1)
  }

  function OpenEnd(p: Pattern, s: string, i: nat): (r: Option<nat>)
    ensures r.Some? ==> IsOpen(p, s, i, r.value) && forall m: nat :: IsOpen(p, s, i, m) ==> m == r.value
    ensures r.None? ==> forall m: nat :: !IsOpen(p, s, i, m)
  {
    if !LiteralAt(p.open, s, i) then None
    else if !p.tag then Some(i + |p.open|)
    else if |p.open| == 0 || !Boundary(s, i + |p.open|) then None
    else FindGt(s, i + |p.open|)
  }

  /** The end of the shortest block that starts at i. */
  function BlockAt(p: Pattern, s: string, i: nat): (r: Option<nat>)
    ensures r.Some? ==> IsBlock(p, s, i, r.value) && forall e: nat :: IsBlock(p, s, i, e) ==> r.value <= e
    ensures r.None? ==> forall e: nat :: !IsBlock(p, s, i, e)
  {
    var m := OpenEnd(p, s, i);
    if m.None? then None else FindClose(p, s, m.value)
  }

  /** The leftmost block at or after `from`, the shortest one there. */
  function FirstBlock(p: Pattern, s: string, from: nat): (r: Option<(nat, nat)>)
    ensures r.Some? ==>
              var (i, e) := r.value;
              && from <= i && IsBlock(p, s, i, e)
              && (forall e2: nat :: IsBlock(p, s, i, e2) ==> e <= e2)
              && (forall i2: nat, e2: nat :: from <= i2 < i ==> !IsBlock(p, s, i2, e2))
    ensures r.None? ==> forall i: nat, e: nat :: from <= i ==> !IsBlock(p, s, i, e)
    decreases |s| - from
  {
    if from > |s| then
      assert forall m: nat, i: nat :: from <= i ==> !IsOpen(p, s, i, m);
      None
    else
      var e := BlockAt(p, s, from);
      if e.Some? then Some((from, e.value)) else FirstBlock(p, s, from + 1)
  }

  lemma BlockBounds(p: Pattern, s: string, i: nat, e: nat)
    requires IsBlock(p, s, i, e)
    ensures i + |p.open| + |p.close| <= e <= |s|
  {
  }

  /** Regexp.ReplaceAllString(s, ""): what lies outside the successive leftmost shortest blocks. */
  function Remove(p: Pattern, s: string): (r: string)
    requires p.open != ""
    ensures |r| <= |s|
    decreases |s|
  {
    var b := FirstBlock(p, s, 0);
    if b.None? then s
    else
      var (i, e) := b.value;
      BlockBounds(p, s, i, e);
      s[..i] + Remove(p, s[e..])
  }

  // ---------- lines ----------

  /** strings.Split(s, "\n"). */
  function Split(s: string): (r: seq<string>)
    ensures |r| > 0
  {
    if s == "" then [""]
    else if s[0] == '\n' then [""] + Split(s[1..])
    else
      var rest := Split(s[1..]);
      [[s[0]] + rest[0]] + rest[1..]
  }

  function Lines(ls: seq<string>): string {
    Join(ls, "\n")
  }

  predicate NewlineFree(l: string) {
    '\n' !in l
  }

  lemma LinesCons(l: string, rest: seq<string>)
    requires |rest| > 0
    ensures Lines([l] + rest) == l + "\n" + Lines(rest)
  {
    assert ([l] + rest)[1..] == rest;
  }

  lemma LinesPrepend(c: char, h: string, rest: seq<string>)
    ensures Lines([[c] + h] + rest) == [c] + Lines([h] + rest)
  {
    if rest == [] {
      assert Lines([[c] + h]) == [c] + h && Lines([h]) == h;
      assert [[c] + h] + rest == [[c] + h] && [h] + rest == [h];
    } else {
      LinesCons([c] + h, rest);
      LinesCons(h, rest);
    }
  }

  lemma {:induction false} SplitIsNewlineFree(s: string)
    ensures forall k :: 0 <= k < |Split(s)| ==> NewlineFree(Split(s)[k])
  {
    if s != "" { SplitIsNewlineFree(s[1..]); }
  }

  lemma {:induction false} SplitJoin(s: string)
    ensures Lines(Split(s)) == s
    ensures forall k :: 0 <= k < |Split(s)| ==> NewlineFree(Split(s)[k])
  {
    SplitIsNewlineFree(s);
    if s != "" {
      SplitJoin(s[1..]);
      var rest := Split(s[1..]);
      assert s == [s[0]] + s[1..];
      if s[0] == '\n' {
        LinesCons("", rest);
      } else {
        LinesPrepend(s[0], rest[0], rest[1..]);
        assert [rest[0]] + rest[1..] == rest;
      }
    }
  }

  lemma {:induction false} SplitLine(l: string, s: string)
    requires NewlineFree(l)
    ensures Split(l + "\n" + s) == [l] + Split(s)
    ensures Split(l) == [l]
  {
    if l == "" {
      assert ("" + "\n" + s)[1..] == s;
    } else {
      assert (l + "\n" + s)[1..] == l[1..] + "\n" + s;
      assert l == [l[0]] + l[1..] && l[0] in l && forall c :: c in l[1..] ==> c in l;
      SplitLine(l[1..], s);
    }
  }

  lemma {:induction false} JoinSplit(ls: seq<string>)
    requires |ls| > 0 && forall k :: 0 <= k < |ls| ==> NewlineFree(ls[k])
    ensures Split(Lines(ls)) == ls
  {
    if |ls| == 1 {
      SplitLine(ls[0], "");
    } else {
      JoinSplit(ls[1..]);
      SplitLine(ls[0], Lines(ls[1..]));
      assert ls == [ls[0]] + ls[1..];
    }
  }

  lemma {:induction false} JoinAppend(a: seq<string>, b: seq<string>)
    requires |a| > 0
    ensures Lines(a + b) == Lines(a) + if b == [] then "" else "\n" + Lines(b)
  {
    if |a| == 1 {
      if b == [] { assert a + b == a; } else { assert (a + b)[1..] == b; }
    } else {
      assert (a + b)[1..] == a[1..] + b;
      JoinAppend(a[1..], b);
    }
  }

  /** The loop of collapseBlankLines: out so far, and whether the last line looked at was blank. */
  function CollapseFrom(lines: seq<string>, out: string, prevBlank: bool): string {
    if lines == [] then out
    else if Blank(lines[0]) && prevBlank then CollapseFrom(lines[1..], out, true)
    else CollapseFrom(lines[1..], (if |out| > 0 then out + "\n" else out) + lines[0], Blank(lines[0]))
  }

  function Collapse(s: string): string {
    if s == "" then s else CollapseFrom(Split(s), "", false)
  }

  /** The lines that survive: a blank one only when the line before it is not blank. */
  function Kept(lines: seq<string>, prevBlank: bool): seq<string> {
    if lines == [] then []
    else if Blank(lines[0]) && prevBlank then Kept(lines[1..], true)
    else [lines[0]] + Kept(lines[1..], Blank(lines[0]))
  }

  lemma {:induction false} CollapseFromIsKept(lines: seq<string>, done: seq<string>, prevBlank: bool)
    requires |done| > 0 && Lines(done) != ""
    ensures CollapseFrom(lines, Lines(done), prevBlank) == Lines(done + Kept(lines, prevBlank))
    decreases |lines|
  {
    if lines == [] {
      assert done + [] == done;
    } else if Blank(lines[0]) && prevBlank {
      CollapseFromIsKept(lines[1..], done, true);
    } else {
      JoinAppend(done, [lines[0]]);
      assert Lines(done + [lines[0]]) == Lines(done) + "\n" + lines[0] by { assert Lines([lines[0]]) == lines[0]; }
      CollapseFromIsKept(lines[1..], done + [lines[0]], Blank(lines[0]));
      assert done + [lines[0]] + Kept(lines[1..], Blank(lines[0])) == done + Kept(lines, prevBlank);
    }
  }

  /** A string trimmed at both ends. */
  predicate Trimmed(s: string) {
    s == "" || (!IsSpace(s[0]) && !IsSpace(s[|s| - 1]))
  }

  lemma {:induction false} SplitEnds(s: string)
    requires s != ""
    ensures var ls := Split(s);
            && (s[0] != '\n' ==> ls[0] != "" && ls[0][0] == s[0])
            && (s[|s| - 1] != '\n' ==> ls[|ls| - 1] != "" && ls[|ls| - 1][|ls[|ls| - 1]| - 1] == s[|s| - 1])
  {
    if |s| > 1 {
      SplitEnds(s[1..]);
    } else {
      assert Split(s[1..]) == [""];
    }
  }

  /** On trimmed text collapsing is dropping lines. */
  lemma CollapseIsKept(s: string)
    requires s != "" && Trimmed(s)
    ensures Collapse(s) == Lines(Kept(Split(s), false))
    ensures !Blank(Split(s)[0])
  {
    SplitEnds(s);
    var ls := Split(s);
    assert IsSpace('\n') && IsSpace(s[0]) == IsSpace(ls[0][0]);
    assert Lines([ls[0]]) == ls[0];
    CollapseFromIsKept(ls[1..], [ls[0]], false);
    assert [ls[0]] + Kept(ls[1..], false) == Kept(ls, false);
    assert "" + ls[0] == ls[0];
  }

  lemma {:induction false} KeptIdempotent(lines: seq<string>, prevBlank: bool)
    ensures Kept(Kept(lines, prevBlank), prevBlank) == Kept(lines, prevBlank)
    decreases |lines|
  {
    if lines != [] {
      if Blank(lines[0]) && prevBlank {
        KeptIdempotent(lines[1..], true);
      } else {
        KeptIdempotent(lines[1..], Blank(lines[0]));
        assert Kept(lines, prevBlank)[1..] == Kept(lines[1..], Blank(lines[0]));
      }
    }
  }

  lemma {:induction false} KeptMembers(lines: seq<string>, prevBlank: bool, l: string)
    requires l in Kept(lines, prevBlank)
    ensures l in lines
    decreases |lines|
  {
    if Blank(lines[0]) && prevBlank {
      KeptMembers(lines[1..], true, l);
    } else if l != lines[0] {
      KeptMembers(lines[1..], Blank(lines[0]), l);
    }
  }

  lemma {:induction false} KeptLast(lines: seq<string>, prevBlank: bool)
    requires lines != [] && !Blank(lines[|lines| - 1])
    ensures var k := Kept(lines, prevBlank); k != [] && k[|k| - 1] == lines[|lines| - 1]
    decreases |lines|
  {
    if |lines| > 1 { KeptLast(lines[1..], Blank(lines[0])); }
  }

  lemma LastOfLines(ls: seq<string>)
    requires |ls| > 0 && ls[|ls| - 1] != ""
    ensures Lines(ls) != "" && Lines(ls)[|Lines(ls)| - 1] == ls[|ls| - 1][|ls[|ls| - 1]| - 1]
    decreases |ls|
  {
    if |ls| > 1 { LastOfLines(ls[1..]); }
  }

  lemma {:induction false} FirstOfLines(ls: seq<string>)
    requires |ls| > 0 && ls[0] != ""
    ensures Lines(ls) != "" && Lines(ls)[0] == ls[0][0]
  {
  }

  lemma KeptOfSplit(s: string)
    requires s != "" && Trimmed(s)
    ensures var ls, k := Split(s), Kept(Split(s), false);
            && |k| > 0 && k[0] == ls[0] && k[|k| - 1] == ls[|ls| - 1] && Kept(k, false) == k
            && k[0] != "" && k[0][0] == s[0]
            && k[|k| - 1] != "" && k[|k| - 1][|k[|k| - 1]| - 1] == s[|s| - 1]
            && forall i :: 0 <= i < |k| ==> NewlineFree(k[i])
  {
    var ls, k := Split(s), Kept(Split(s), false);
    assert IsSpace('\n');
    SplitJoin(s);
    SplitEnds(s);
    var last := ls[|ls| - 1];
    assert !IsSpace(last[|last| - 1]) && !Blank(last);
    KeptIdempotent(ls, false);
    KeptLast(ls, false);
    forall i | 0 <= i < |k| ensures NewlineFree(k[i]) { KeptMembers(ls, false, k[i]); }
  }

  /** Collapsing a trimmed text leaves it trimmed, and a second collapse changes nothing. */
  lemma CollapseStable(s: string)
    requires Trimmed(s)
    ensures Trimmed(Collapse(s)) && Collapse(Collapse(s)) == Collapse(s)
  {
    if s != "" {
      CollapseIsKept(s);
      KeptOfSplit(s);
      var k := Kept(Split(s), false);
      FirstOfLines(k);
      LastOfLines(k);
      JoinSplit(k);
      CollapseIsKept(Lines(k));
    }
  }

  // ---------- the operation ----------

  function Strip(s: string): string {
    Collapse(TrimSpace(Remove(BRACKET, Remove(REASONING, Remove(THINK, s)))))
  }

  predicate HasAny(s: string) {
    FirstBlock(THINK, s, 0).Some? || FirstBlock(REASONING, s, 0).Some? || FirstBlock(BRACKET, s, 0).Some?
  }

  method CollapseBlankLines(s: string) returns (out: string)
    ensures out == Collapse(s)
  {
    if s == "" { return s; }
    out := "";
    var prevBlank := false;
    var lines := Split(s);
    for k := 0 to |lines|
      invariant CollapseFrom(lines[k..], out, prevBlank) == CollapseFrom(lines, "", false)
    {
      var line := lines[k];
      assert lines[k..][1..] == lines[k + 1..];
      var isBlank := Blank(line);
      if isBlank && prevBlank { continue; }
      if |out| > 0 { out := out + "\n"; }
      out := out + line;
      prevBlank := isBlank;
    }
  }

  method StripReasoningTokens(s: string) returns (cleaned: string)
    ensures cleaned == Strip(s)
  {
    if s == "" {
      EmptyStaysEmpty();
      return s;
    }
    cleaned := s;
    var patterns := [THINK, REASONING, BRACKET];
    for k := 0 to |patterns|
      invariant cleaned == if k == 0 then s
                           else if k == 1 then Remove(THINK, s)
                           else if k == 2 then Remove(REASONING, Remove(THINK, s))
                           else Remove(BRACKET, Remove(REASONING, Remove(THINK, s)))
    {
      cleaned := Remove(patterns[k], cleaned);
    }
    cleaned := TrimSpace(cleaned);
    cleaned := CollapseBlankLines(cleaned);
  }

  lemma EmptyStaysEmpty()
    ensures Strip("") == ""
  {
    NoOpenNoBlock(THINK, "");
    NoOpenNoBlock(REASONING, "");
    NoOpenNoBlock(BRACKET, "");
  }

  lemma NoOpenNoBlock(p: Pattern, s: string)
    requires Known(p) && forall i: nat :: !LiteralAt(p.open, s, i)
    ensures !Has(p, s) && Remove(p, s) == s
  {
  }

  /** Without a closing marker nothing is removed: an unclosed tag survives whole. */
  lemma UnclosedSurvives(p: Pattern, s: string)
    requires Known(p) && forall i: nat :: !LiteralAt(p.close, s, i)
    ensures Remove(p, s) == s
  {
  }

  // ---------- what is removed, said without the search ----------

  /** r is s without its successive leftmost shortest blocks. */
  ghost predicate Outside(p: Pattern, s: string, r: string)
    decreases |s|
  {
    (!Has(p, s) && r == s) ||
    exists i: nat, e: nat ::
      LeftmostShortest(p, s, i, e) && i < e <= |s| && i <= |r| && r[..i] == s[..i] && Outside(p, s[e..], r[i..])
  }

  ghost predicate LeftmostShortest(p: Pattern, s: string, i: nat, e: nat) {
    && IsBlock(p, s, i, e)
    && (forall i2: nat, e2: nat :: i2 < i ==> !IsBlock(p, s, i2, e2))
    && (forall e2: nat :: IsBlock(p, s, i, e2) ==> e <= e2)
  }

  lemma LeftmostShortestUnique(p: Pattern, s: string, i: nat, e: nat, i2: nat, e2: nat)
    requires LeftmostShortest(p, s, i, e) && LeftmostShortest(p, s, i2, e2)
    ensures i == i2 && e == e2
  {
  }

  lemma {:induction false} RemoveIsOutside(p: Pattern, s: string)
    requires Known(p)
    ensures Outside(p, s, Remove(p, s))
    decreases |s|
  {
    var b := FirstBlock(p, s, 0);
    if b.Some? {
      var (i, e) := b.value;
      BlockBounds(p, s, i, e);
      var r := Remove(p, s);
      RemoveIsOutside(p, s[e..]);
      assert r[..i] == s[..i] && r[i..] == Remove(p, s[e..]);
      assert LeftmostShortest(p, s, i, e);
    }
  }

  /** Two ways to cut at the leftmost shortest block agree up to what they do with the rest. */
  lemma CutIsRemove(p: Pattern, s: string, r: string, i: nat, e: nat)
    requires Known(p) && LeftmostShortest(p, s, i, e) && i < e <= |s| && i <= |r|
    requires r[..i] == s[..i] && r[i..] == Remove(p, s[e..])
    ensures r == Remove(p, s)
  {
    var b := FirstBlock(p, s, 0);
    LeftmostShortestUnique(p, s, i, e, b.value.0, b.value.1);
    assert r == r[..i] + r[i..];
  }

  /** Remove computes the one text that lies outside the leftmost shortest blocks. */
  lemma {:induction false} OutsideIsRemove(p: Pattern, s: string, r: string)
    requires Known(p)
    ensures Outside(p, s, r) <==> r == Remove(p, s)
    decreases |s|
  {
    RemoveIsOutside(p, s);
    if Outside(p, s, r) && FirstBlock(p, s, 0).Some? {
      var (i0, e0) := FirstBlock(p, s, 0).value;
      assert Has(p, s) by { assert IsBlock(p, s, i0, e0); }
      var i: nat, e: nat :|
        LeftmostShortest(p, s, i, e) && i < e <= |s| && i <= |r| && r[..i] == s[..i] && Outside(p, s[e..], r[i..]);
      OutsideIsRemove(p, s[e..], r[i..]);
      CutIsRemove(p, s, r, i, e);
    }
  }
}
