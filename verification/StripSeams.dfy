/** Where a second application of StripReasoningTokens finds something: a removed block leaves a seam, and a
    marker that lies across a seam was not there before. */
module StripSeams {
  import opened Text
  import opened Reasoning
  import opened StripProperties

  /** A literal without white space. */
  predicate Solid(lit: string) {
    lit != "" && forall k :: 0 <= k < |lit| ==> !IsSpace(Fold(lit[k]))
  }

  predicate Bracket(c: char) {
    c == '<' || c == '['
  }

  /** What the three patterns have in common: no white space in a marker, and a bracket in front. */
  predicate Marker(p: Pattern) {
    Solid(p.open) && Solid(p.close) && Bracket(p.open[0])
  }

  lemma MarkerIsPlain(p: Pattern)
    requires Marker(p)
    ensures Plain(p)
  {
    assert IsSpace('\n');
  }

  lemma PrintableIsSolid(lit: string)
    requires lit != "" && forall k :: 0 <= k < |lit| ==> '!' <= lit[k] <= '~'
    ensures Solid(lit)
  {
  }

  lemma KnownIsMarker(p: Pattern)
    requires Known(p)
    ensures Marker(p)
  {
    PrintableIsSolid(p.open);
    PrintableIsSolid(p.close);
  }

  // ---------- where the characters of a text come from ----------

  predicate Increasing(o: seq<nat>) {
    forall a, b :: 0 <= a < b < |o| ==> o[a] < o[b]
  }

  predicate Within(o: seq<nat>, n: nat) {
    forall k :: 0 <= k < |o| ==> o[k] < n
  }

  /** The characters of s at the positions o. */
  function Pull(o: seq<nat>, s: string): string
    requires Within(o, |s|)
  {
    seq(|o|, k requires 0 <= k < |o| => s[o[k]])
  }

  /** The positions o[l[0]], o[l[1]], ... */
  function Compose(o: seq<nat>, l: seq<nat>): seq<nat>
    requires Within(l, |o|)
  {
    seq(|l|, k requires 0 <= k < |l| => o[l[k]])
  }

  /** The positions of s that lie in no removed block. */
  function KeptBy(p: Pattern, s: string): seq<nat>
    requires p.open != ""
    decreases |s|
  {
    var b := FirstBlock(p, s, 0);
    if b.None? then Run(|s|)
    else
      var (i, e) := b.value;
      BlockBounds(p, s, i, e);
      Run(i) + Shifted(e, KeptBy(p, s[e..]))
  }

  function Run(n: nat): seq<nat> {
    seq(n, k requires 0 <= k < n => k)
  }

  function Shifted(e: nat, o: seq<nat>): seq<nat> {
    seq(|o|, k requires 0 <= k < |o| => e + o[k])
  }

  lemma ShiftedFacts(i: nat, e: nat, o: seq<nat>, s: string)
    requires i <= e <= |s| && Within(o, |s[e..]|) && Increasing(o)
    ensures var r := Run(i) + Shifted(e, o);
            Within(r, |s|) && Increasing(r) && Pull(r, s) == s[..i] + Pull(o, s[e..])
  {
    var r := Run(i) + Shifted(e, o);
    assert forall k :: 0 <= k < |r| ==> r[k] == if k < i then k else e + o[k - i];
  }

  /** What is left comes, in order, from the kept positions. */
  lemma {:induction false} KeptByIsRemove(p: Pattern, s: string)
    requires p.open != ""
    ensures Within(KeptBy(p, s), |s|) && Increasing(KeptBy(p, s))
    ensures Pull(KeptBy(p, s), s) == Remove(p, s)
    decreases |s|
  {
    var b := FirstBlock(p, s, 0);
    if b.Some? {
      var (i, e) := b.value;
      BlockBounds(p, s, i, e);
      KeptByIsRemove(p, s[e..]);
      ShiftedFacts(i, e, KeptBy(p, s[e..]), s);
    }
  }

  lemma ComposeFacts(o: seq<nat>, l: seq<nat>, s: string)
    requires Within(o, |s|) && Increasing(o) && Within(l, |o|) && Increasing(l)
    ensures Within(Compose(o, l), |s|) && Increasing(Compose(o, l))
    ensures Pull(Compose(o, l), s) == Pull(l, Pull(o, s))
  {
  }

  // ---------- no block starts at a kept position ----------

  lemma SuffixBlock(p: Pattern, s: string, at: nat, i: nat, e: nat)
    requires Marker(p) && at <= i && at <= |s| && IsBlock(p, s, i, e)
    ensures e >= at && IsBlock(p, s[at..], i - at, e - at)
  {
    BlockBounds(p, s, i, e);
    var m: nat :| IsOpen(p, s, i, m) && IsClose(p, s, m, e);
    var t := s[at..];
    assert forall k :: 0 <= k < |t| ==> t[k] == s[at + k];
    SuffixLiteral(p.open, s, at, i);
    SuffixLiteral(p.close, s, at, e - |p.close|);
    assert e - |p.close| - at == (e - at) - |p.close|;
    assert LooseOpen(p, t, i - at, m - at);
    LooseIsBlock(p, t, i - at, m - at, e - at);
  }

  lemma SuffixLiteral(lit: string, s: string, at: nat, x: nat)
    requires at <= x && at <= |s| && LiteralAt(lit, s, x)
    ensures LiteralAt(lit, s[at..], x - at)
  {
    forall j | 0 <= j < |lit| ensures Fold(s[at..][x - at + j]) == Fold(lit[j]) {
      assert s[at..][x - at + j] == s[x + j];
    }
  }

  lemma KeptMember(i: nat, i0: nat, e0: nat, o: seq<nat>)
    requires i in Run(i0) + Shifted(e0, o)
    ensures i < i0 || (i >= e0 && i - e0 in o)
  {
  }

  lemma {:induction false} NoBlockAtKept(p: Pattern, s: string, i: nat, e: nat)
    requires Marker(p) && IsBlock(p, s, i, e)
    ensures i !in KeptBy(p, s)
    decreases |s|
  {
    var (i0, e0) := FirstBlock(p, s, 0).value;
    BlockBounds(p, s, i0, e0);
    if i in KeptBy(p, s) {
      KeptMember(i, i0, e0, KeptBy(p, s[e0..]));
      if i >= i0 { RestBlock(p, s, i, e, e0); }
    }
  }

  lemma {:induction false} RestBlock(p: Pattern, s: string, i: nat, e: nat, e0: nat)
    requires Marker(p) && IsBlock(p, s, i, e) && 0 < e0 <= i && e0 <= |s|
    ensures i - e0 !in KeptBy(p, s[e0..])
    decreases |s|, 0
  {
    SuffixBlock(p, s, e0, i, e);
    NoBlockAtKept(p, s[e0..], i - e0, e - e0);
  }

  // ---------- whole and torn stretches ----------

  /** The characters x to y of the text stood side by side. */
  predicate Whole(o: seq<nat>, x: int, y: int) {
    0 <= x <= y < |o| && o[y] == o[x] + (y - x)
  }

  /** Something was removed between the characters x - 1 and x. */
  predicate Seam(o: seq<nat>, x: int) {
    0 < x < |o| && o[x] > o[x - 1] + 1
  }

  lemma {:induction false} Spread(o: seq<nat>, x: nat, y: nat)
    requires Increasing(o) && x <= y < |o|
    ensures o[y] >= o[x] + (y - x)
    decreases y
  {
    if x < y { Spread(o, x, y - 1); }
  }

  lemma WholeInside(o: seq<nat>, x: nat, y: nat, z: nat)
    requires Increasing(o) && Whole(o, x, y) && x <= z <= y
    ensures o[z] == o[x] + (z - x)
  {
    Spread(o, x, z);
    Spread(o, z, y);
  }

  lemma WholeUnder(o: seq<nat>, l: seq<nat>, x: nat, y: nat)
    requires Increasing(o) && Increasing(l) && Within(l, |o|) && Whole(Compose(o, l), x, y)
    ensures Whole(l, x, y)
  {
    Spread(l, x, y);
    Spread(o, l[x], l[y]);
  }

  /** A torn stretch is whole up to its first seam. */
  lemma {:induction false} FirstSeam(o: seq<nat>, x: nat, y: nat) returns (z: nat)
    requires Increasing(o) && x <= y < |o| && !Whole(o, x, y)
    ensures x < z <= y && Seam(o, z) && Whole(o, x, z - 1)
    decreases y
  {
    if Whole(o, x, y - 1) { z := y; } else { z := FirstSeam(o, x, y - 1); }
  }

  // ---------- whole markers were a block already ----------

  /** The last character that decides whether an opening literal at i opens a marker: a tag's literal
      must end at a word boundary, so the character after it belongs to it. */
  function OpenLast(p: Pattern, i: nat): int {
    if p.tag then i + |p.open| else i + |p.open| - 1
  }

  predicate WholeMarkers(p: Pattern, o: seq<nat>, i: nat, e: nat) {
    Whole(o, i, OpenLast(p, i)) && Whole(o, e - |p.close|, e - 1)
  }

  lemma WholeLiteral(lit: string, o: seq<nat>, s: string, x: nat)
    requires Within(o, |s|) && Increasing(o) && lit != "" && Whole(o, x, x + |lit| - 1)
    requires LiteralAt(lit, Pull(o, s), x)
    ensures LiteralAt(lit, s, o[x])
  {
    WholeInside(o, x, x + |lit| - 1, x + |lit| - 1);
    forall j | 0 <= j < |lit| ensures Fold(s[o[x] + j]) == Fold(lit[j]) {
      WholeInside(o, x, x + |lit| - 1, x + j);
      assert Fold(Pull(o, s)[x + j]) == Fold(lit[j]);
    }
  }

  lemma WholeOpen(p: Pattern, o: seq<nat>, s: string, i: nat, m: nat)
    requires Marker(p) && Within(o, |s|) && Increasing(o)
    requires LooseOpen(p, Pull(o, s), i, m) && Whole(o, i, OpenLast(p, i))
    ensures 0 < m <= |o| && LooseOpen(p, s, o[i], o[m - 1] + 1)
  {
    var n := |p.open|;
    WholeInside(o, i, OpenLast(p, i), i + n - 1);
    WholeLiteral(p.open, o, s, i);
    if p.tag {
      WholeInside(o, i, OpenLast(p, i), i + n);
      assert Pull(o, s)[i + n] == s[o[i] + n] && Pull(o, s)[i + n - 1] == s[o[i] + n - 1];
      assert o[i + n] <= o[m - 1];
      assert Pull(o, s)[m - 1] == s[o[m - 1]];
    }
  }

  lemma WholeClose(p: Pattern, o: seq<nat>, s: string, m: nat, e: nat)
    requires Marker(p) && Within(o, |s|) && Increasing(o) && 0 < m
    requires IsClose(p, Pull(o, s), m, e) && Whole(o, e - |p.close|, e - 1)
    ensures e <= |o| && IsClose(p, s, o[m - 1] + 1, o[e - 1] + 1)
  {
    var x := e - |p.close|;
    WholeLiteral(p.close, o, s, x);
    assert o[m - 1] < o[x];
    assert o[e - 1] + 1 - |p.close| == o[x];
  }

  /** A block with whole markers was a block of the text it was pulled from. */
  lemma WholeBlock(p: Pattern, o: seq<nat>, s: string, i: nat, m: nat, e: nat)
    requires Marker(p) && Within(o, |s|) && Increasing(o)
    requires Loose(p, Pull(o, s), i, m, e) && WholeMarkers(p, o, i, e)
    ensures i < |o| && exists b: nat :: IsBlock(p, s, o[i], b)
  {
    MarkerIsPlain(p);
    WholeOpen(p, o, s, i, m);
    WholeClose(p, o, s, m, e);
    LooseIsBlock(p, s, o[i], o[m - 1] + 1, o[e - 1] + 1);
  }

  lemma NoBlockAtAnyKept(p: Pattern, s: string, i: nat)
    requires Marker(p) && i in KeptBy(p, s)
    ensures !exists e: nat :: IsBlock(p, s, i, e)
  {
    forall e: nat | IsBlock(p, s, i, e) ensures false { NoBlockAtKept(p, s, i, e); }
  }

  /** Positions that the pass for p kept: there a block of p has a torn marker, whatever else is removed. */
  lemma NoWholeBlock(p: Pattern, s: string, o: seq<nat>, i: nat, m: nat, e: nat)
    requires Marker(p) && Within(o, |s|) && Increasing(o)
    requires forall k :: 0 <= k < |o| ==> o[k] in KeptBy(p, s)
    requires Loose(p, Pull(o, s), i, m, e)
    ensures !WholeMarkers(p, o, i, e)
  {
    if WholeMarkers(p, o, i, e) {
      WholeBlock(p, o, s, i, m, e);
      NoBlockAtAnyKept(p, s, o[i]);
    }
  }

  // ---------- the passes ----------

  const PATTERNS := [THINK, REASONING, BRACKET]

  predicate AllMarkers(ps: seq<Pattern>) {
    forall p :: p in ps ==> Marker(p)
  }

  /** What the passes for ps leave. */
  function Passes(ps: seq<Pattern>, s: string): string
    requires AllMarkers(ps)
  {
    if ps == [] then s else assert ps[0] in ps; Passes(ps[1..], Remove(ps[0], s))
  }

  /** Where in s its characters stood. */
  function Origins(ps: seq<Pattern>, s: string): (o: seq<nat>)
    requires AllMarkers(ps)
    ensures Within(o, |s|) && Increasing(o) && Pull(o, s) == Passes(ps, s)
    decreases |ps|
  {
    if ps == [] then Run(|s|)
    else
      assert ps[0] in ps;
      KeptByIsRemove(ps[0], s);
      var later := Origins(ps[1..], Remove(ps[0], s));
      ComposeFacts(KeptBy(ps[0], s), later, s);
      Compose(KeptBy(ps[0], s), later)
  }

  /** Positions only move apart on the way back: a whole marker was whole after every pass. */
  lemma WholeMarkersUnder(p: Pattern, o: seq<nat>, l: seq<nat>, i: nat, e: nat)
    requires Increasing(o) && Increasing(l) && Within(l, |o|)
    requires WholeMarkers(p, Compose(o, l), i, e)
    ensures WholeMarkers(p, l, i, e)
  {
    WholeUnder(o, l, i, OpenLast(p, i));
    WholeUnder(o, l, e - |p.close|, e - 1);
  }

  /** A block of p in what the passes leave, one of them p's, has a torn marker. */
  lemma {:induction false} BlockIsTorn(p: Pattern, ps: seq<Pattern>, s: string, i: nat, m: nat, e: nat)
    requires AllMarkers(ps) && p in ps
    requires Loose(p, Passes(ps, s), i, m, e)
    ensures !WholeMarkers(p, Origins(ps, s), i, e)
    decreases |ps|
  {
    assert ps[0] in ps;
    var k, later := KeptBy(ps[0], s), Origins(ps[1..], Remove(ps[0], s));
    KeptByIsRemove(ps[0], s);
    if p == ps[0] {
      NoWholeBlock(p, s, Origins(ps, s), i, m, e);
    } else {
      BlockIsTorn(p, ps[1..], Remove(ps[0], s), i, m, e);
      if WholeMarkers(p, Origins(ps, s), i, e) { WholeMarkersUnder(p, k, later, i, e); }
    }
  }

  /** Some pattern has, in what the passes leave, an opening and a later closing marker, one of them put
      together from pieces that a removed block kept apart. */
  ghost predicate Joined(ps: seq<Pattern>, s: string)
    requires AllMarkers(ps)
  {
    exists p, i: nat, m: nat, e: nat :: p in ps && JoinedAt(ps, s, p, i, m, e)
  }

  predicate JoinedAt(ps: seq<Pattern>, s: string, p: Pattern, i: nat, m: nat, e: nat)
    requires AllMarkers(ps)
  {
    Loose(p, Passes(ps, s), i, m, e) && !WholeMarkers(p, Origins(ps, s), i, e)
  }

  ghost predicate SomeBlock(ps: seq<Pattern>, s: string) {
    exists p :: p in ps && Has(p, s)
  }

  /** What the passes leave has a block exactly when it has one with a marker put together. */
  lemma BlockIffJoined(ps: seq<Pattern>, s: string)
    requires AllMarkers(ps)
    ensures SomeBlock(ps, Passes(ps, s)) <==> Joined(ps, s)
  {
    var r := Passes(ps, s);
    if SomeBlock(ps, r) {
      var p :| p in ps && Has(p, r);
      var i: nat, e: nat :| IsBlock(p, r, i, e);
      var m: nat :| IsOpen(p, r, i, m) && IsClose(p, r, m, e);
      assert Loose(p, r, i, m, e);
      BlockIsTorn(p, ps, s, i, m, e);
      assert JoinedAt(ps, s, p, i, m, e);
    }
    if Joined(ps, s) {
      var p, i: nat, m: nat, e: nat :| p in ps && JoinedAt(ps, s, p, i, m, e);
      LooseIsBlock(p, r, i, m, e);
      assert Has(p, r);
    }
  }

  lemma PassesCons(p: Pattern, rest: seq<Pattern>, s: string)
    requires Marker(p) && AllMarkers(rest)
    ensures AllMarkers([p] + rest) && Passes([p] + rest, s) == Passes(rest, Remove(p, s))
  {
    assert ([p] + rest)[0] == p && ([p] + rest)[1..] == rest;
  }

  lemma ThreePasses(p: Pattern, q: Pattern, r: Pattern, s: string)
    requires Marker(p) && Marker(q) && Marker(r)
    ensures AllMarkers([p, q, r]) && Passes([p, q, r], s) == Remove(r, Remove(q, Remove(p, s)))
  {
    PassesCons(r, [], Remove(q, Remove(p, s)));
    PassesCons(q, [r] + [], Remove(p, s));
    PassesCons(p, [q] + ([r] + []), s);
    assert [p] + ([q] + ([r] + [])) == [p, q, r];
  }

  lemma PatternsAreMarkers()
    ensures AllMarkers(PATTERNS)
  {
    KnownIsMarker(THINK);
    KnownIsMarker(REASONING);
    KnownIsMarker(BRACKET);
  }

  // ---------- trimming and collapsing keep a block ----------

  lemma NotSpace(lit: string, s: string, x: nat, k: nat)
    requires LiteralAt(lit, s, x) && k < |lit| && !IsSpace(Fold(lit[k]))
    ensures x + k < |s| && !IsSpace(s[x + k])
  {
    LiteralChar(lit, s, x, k);
  }

  lemma NotInBlank(u: string, w: string, v: string, x: nat)
    requires Blank(w) && x < |u + w + v| && !IsSpace((u + w + v)[x])
    ensures x < |u| || x >= |u| + |w|
  {
  }

  /** A literal without white space is not touched by cutting white space. */
  lemma LiteralSurvives(lit: string, u: string, w: string, v: string, x: nat)
    requires Solid(lit) && Blank(w) && LiteralAt(lit, u + w + v, x)
    ensures x + |lit| <= |u| || x >= |u| + |w| || w == ""
    ensures x + |lit| <= |u| ==> LiteralAt(lit, u + v, x)
    ensures x >= |u| + |w| ==> LiteralAt(lit, u + v, x - |w|)
    ensures w == "" ==> LiteralAt(lit, u + v, x)
  {
    var s, r := u + w + v, u + v;
    if w != "" && x < |u| + |w| && x + |lit| > |u| {
      var k := if x >= |u| then 0 else |u| - x;
      var y: nat := x + k;
      NotSpace(lit, s, x, k);
      NotInBlank(u, w, v, y);
    }
    forall j | 0 <= j < |lit|
      ensures x + |lit| <= |u| ==> Fold(r[x + j]) == Fold(lit[j])
      ensures x >= |u| + |w| ==> Fold(r[x - |w| + j]) == Fold(lit[j])
      ensures w == "" ==> Fold(r[x + j]) == Fold(lit[j])
    {
      assert Fold(s[x + j]) == Fold(lit[j]);
    }
  }

  /** Where a position that ends something in u + w + v lies in u + v. */
  function Back(u: string, w: string, x: nat): nat {
    if x <= |u| then x else if x <= |u| + |w| then |u| else x - |w|
  }

  lemma OpenSurvives(p: Pattern, u: string, w: string, v: string, i: nat, m: nat) returns (i2: nat)
    requires Marker(p) && Blank(w) && w != "" && w[0] == '\n' && (v == "" || v[0] == '\n')
    requires LooseOpen(p, u + w + v, i, m)
    ensures LooseOpen(p, u + v, i2, Back(u, w, m))
  {
    var s, r := u + w + v, u + v;
    LiteralSurvives(p.open, u, w, v, i);
    i2 := if i + |p.open| <= |u| then i else i - |w|;
    if p.tag {
      NotInBlank(u, w, v, m - 1);
      var b, b2 := i + |p.open|, i2 + |p.open|;
      var m2 := Back(u, w, m);
      assert r[m2 - 1] == '>';
      assert r[b2 - 1] == s[b - 1];
      if b == |u| { assert s[b] == '\n' && r[b2] == '\n'; } else { assert r[b2] == s[b]; }
    }
  }

  lemma CloseSurvives(p: Pattern, u: string, w: string, v: string, m: nat, e: nat)
    requires Marker(p) && Blank(w) && w != "" && IsClose(p, u + w + v, m, e)
    ensures IsClose(p, u + v, Back(u, w, m), Back(u, w, e))
  {
    LiteralSurvives(p.close, u, w, v, e - |p.close|);
    if e > |u| { assert Back(u, w, e) - |p.close| == e - |p.close| - |w|; }
  }

  /** Cutting a blank line that follows a line loses no block. */
  lemma CutKeepsBlock(p: Pattern, u: string, w: string, v: string)
    requires Marker(p) && Blank(w) && w != "" && w[0] == '\n' && (v == "" || v[0] == '\n')
    requires Has(p, u + w + v)
    ensures Has(p, u + v)
  {
    var s := u + w + v;
    var i: nat, e: nat :| IsBlock(p, s, i, e);
    var m: nat :| IsOpen(p, s, i, m) && IsClose(p, s, m, e);
    assert LooseOpen(p, s, i, m);
    var i2 := OpenSurvives(p, u, w, v, i, m);
    CloseSurvives(p, u, w, v, m, e);
    LooseIsBlock(p, u + v, i2, Back(u, w, m), Back(u, w, e));
  }

  lemma {:induction false} KeptKeepsBlock(p: Pattern, done: seq<string>, lines: seq<string>, prevBlank: bool)
    requires Marker(p) && |done| > 0 && Has(p, Lines(done + lines))
    ensures Has(p, Lines(done + Kept(lines, prevBlank)))
    decreases |lines|
  {
    if lines != [] {
      assert done + [lines[0]] + lines[1..] == done + lines;
      if Blank(lines[0]) && prevBlank {
        DropLine(done, lines[0], lines[1..]);
        CutKeepsBlock(p, Lines(done), "\n" + lines[0], if lines[1..] == [] then "" else "\n" + Lines(lines[1..]));
        KeptKeepsBlock(p, done, lines[1..], true);
      } else {
        assert done + [lines[0]] + Kept(lines[1..], Blank(lines[0])) == done + Kept(lines, prevBlank);
        KeptKeepsBlock(p, done + [lines[0]], lines[1..], Blank(lines[0]));
      }
    }
  }

  lemma CollapseKeepsBlock(p: Pattern, s: string)
    requires Marker(p) && Trimmed(s) && Has(p, s)
    ensures Has(p, Collapse(s))
  {
    if s != "" {
      var ls := Split(s);
      CollapseIsKept(s);
      SplitJoin(s);
      assert [ls[0]] + ls[1..] == ls && [ls[0]] + Kept(ls[1..], false) == Kept(ls, false);
      KeptKeepsBlock(p, [ls[0]], ls[1..], false);
    }
  }

  lemma LiteralInside(lit: string, u: string, r: string, v: string, x: nat)
    requires Solid(lit) && Blank(u) && Blank(v) && LiteralAt(lit, u + r + v, x)
    ensures |u| <= x && x + |lit| <= |u| + |r| && LiteralAt(lit, r, x - |u|)
  {
    var s := u + r + v;
    NotSpace(lit, s, x, 0);
    NotSpace(lit, s, x, |lit| - 1);
    assert s == [] + u + (r + v) && s == (u + r) + v + [];
    NotInBlank([], u, r + v, x);
    NotInBlank(u + r, v, [], x + |lit| - 1);
    forall j | 0 <= j < |lit| ensures Fold(r[x - |u| + j]) == Fold(lit[j]) {
      assert s[x + j] == r[x - |u| + j];
    }
  }

  lemma OpenInside(p: Pattern, u: string, r: string, v: string, i: nat, m: nat)
    requires Marker(p) && Blank(u) && Blank(v) && LooseOpen(p, u + r + v, i, m) && m < |u| + |r|
    ensures |u| <= i <= m && LooseOpen(p, r, i - |u|, m - |u|)
  {
    var s := u + r + v;
    LiteralInside(p.open, u, r, v, i);
    assert forall k :: 0 <= k < |r| ==> s[|u| + k] == r[k];
  }

  /** Cutting white space off the ends loses no block. */
  lemma TrimKeepsBlock(p: Pattern, u: string, r: string, v: string)
    requires Marker(p) && Blank(u) && Blank(v) && Has(p, u + r + v)
    ensures Has(p, r)
  {
    var s := u + r + v;
    var i: nat, e: nat :| IsBlock(p, s, i, e);
    var m: nat :| IsOpen(p, s, i, m) && IsClose(p, s, m, e);
    LiteralInside(p.close, u, r, v, e - |p.close|);
    OpenInside(p, u, r, v, i, m);
    assert e - |p.close| - |u| == e - |u| - |p.close|;
    LooseIsBlock(p, r, i - |u|, m - |u|, e - |u|);
  }

  lemma BlockIffAfterNormalizing(p: Pattern, s: string)
    requires Marker(p) && Plain(p)
    ensures Has(p, Collapse(TrimSpace(s))) <==> Has(p, s)
  {
    var u, v := TrimSpaceTrims(s);
    TrimSpaceEnds(s);
    if Has(p, s) {
      TrimKeepsBlock(p, u, TrimSpace(s), v);
      CollapseKeepsBlock(p, TrimSpace(s));
    } else if Has(p, Collapse(TrimSpace(s))) {
      TrimAndCollapseMakeNoBlock(p, s);
    }
  }

  lemma SomeAfterNormalizing(ps: seq<Pattern>, s: string)
    requires AllMarkers(ps)
    ensures SomeBlock(ps, Collapse(TrimSpace(s))) <==> SomeBlock(ps, s)
  {
    forall p | p in ps ensures Has(p, Collapse(TrimSpace(s))) <==> Has(p, s) {
      MarkerIsPlain(p);
      BlockIffAfterNormalizing(p, s);
    }
  }

  // ---------- idempotence ----------

  lemma NotCleanIsSome(s: string)
    ensures !Clean(s) <==> SomeBlock(PATTERNS, s)
  {
    assert THINK == PATTERNS[0] && REASONING == PATTERNS[1] && BRACKET == PATTERNS[2];
  }

  /** A second application changes nothing exactly when no pattern has, in what the three passes leave,
      an opening and a later closing marker of which one was put together across a removed block. */
  lemma IdempotentIffNothingJoined(s: string)
    ensures AllMarkers(PATTERNS)
    ensures Strip(Strip(s)) == Strip(s) <==> !Joined(PATTERNS, s)
  {
    PatternsAreMarkers();
    assert Marker(PATTERNS[0]) && Marker(PATTERNS[1]) && Marker(PATTERNS[2]);
    ThreePasses(THINK, REASONING, BRACKET, s);
    IdempotentIffResultClean(s);
    HasAnyIsHasSomeBlock(Strip(s));
    NotCleanIsSome(Strip(s));
    SomeAfterNormalizing(PATTERNS, Passes(PATTERNS, s));
    BlockIffJoined(PATTERNS, s);
  }

  /** A torn marker has a seam behind one of its literal's characters, with a whole head before it. */
  lemma TornMarker(p: Pattern, r: string, o: seq<nat>, i: nat, m: nat, e: nat) returns (x: nat, z: nat, lit: string)
    requires Marker(p) && |o| == |r| && Increasing(o) && Loose(p, r, i, m, e) && !WholeMarkers(p, o, i, e)
    ensures (lit == p.open && z <= OpenLast(p, x)) || (lit == p.close && z < x + |lit|)
    ensures LiteralAt(lit, r, x) && x < z <= x + |lit| && Seam(o, z) && Whole(o, x, z - 1)
  {
    if Whole(o, i, OpenLast(p, i)) {
      x, lit := e - |p.close|, p.close;
      z := FirstSeam(o, x, x + |lit| - 1);
    } else {
      x, lit := i, p.open;
      z := FirstSeam(o, x, OpenLast(p, i));
    }
  }

  /** Every seam follows white space. */
  predicate SeamsFollowSpace(ps: seq<Pattern>, s: string)
    requires AllMarkers(ps)
  {
    var r := Passes(ps, s);
    forall z :: 0 < z < |r| && Seam(Origins(ps, s), z) ==> IsSpace(r[z - 1])
  }

  lemma SpaceBeforeSeamsJoinsNothing(ps: seq<Pattern>, s: string)
    requires AllMarkers(ps) && SeamsFollowSpace(ps, s)
    ensures !Joined(ps, s)
  {
    if Joined(ps, s) {
      var p, i: nat, m: nat, e: nat :| p in ps && JoinedAt(ps, s, p, i, m, e);
      var x, z, lit := TornMarker(p, Passes(ps, s), Origins(ps, s), i, m, e);
      NotSpace(lit, Passes(ps, s), x, z - 1 - x);
    }
  }

  /** Where every removed block stood at the start of what is left or right behind white space in it, a
      second application changes nothing. */
  lemma IdempotentWhenSeamsFollowSpace(s: string)
    requires AllMarkers(PATTERNS) && SeamsFollowSpace(PATTERNS, s)
    ensures Strip(Strip(s)) == Strip(s)
  {
    SpaceBeforeSeamsJoinsNothing(PATTERNS, s);
    IdempotentIffNothingJoined(s);
  }

  // ---------- a check on the input alone ----------

  /** A character that goes right behind one that stays begins a block. */
  predicate SeamsStartAtBrackets(o: seq<nat>, s: string)
    requires Within(o, |s|)
  {
    forall k :: 0 <= k < |o| && o[k] + 1 < |s| && (k + 1 == |o| || o[k + 1] > o[k] + 1) ==> Bracket(s[o[k] + 1])
  }

  lemma BlockStartsAtBracket(p: Pattern, s: string, i: nat, e: nat)
    requires Marker(p) && IsBlock(p, s, i, e)
    ensures i < |s| && Bracket(s[i])
  {
    LiteralChar(p.open, s, i, 0);
  }

  lemma SeamsOfShifted(i: nat, e: nat, o: seq<nat>, s: string)
    requires i < e <= |s| && Bracket(s[i]) && Increasing(o)
    requires Within(o, |s[e..]|) && SeamsStartAtBrackets(o, s[e..])
    requires Within(Run(i) + Shifted(e, o), |s|)
    ensures SeamsStartAtBrackets(Run(i) + Shifted(e, o), s)
  {
    var r := Run(i) + Shifted(e, o);
    forall k | 0 <= k < |r| && r[k] + 1 < |s| && (k + 1 == |r| || r[k + 1] > r[k] + 1) ensures Bracket(s[r[k] + 1]) {
      if k >= i { assert s[r[k] + 1] == s[e..][o[k - i] + 1]; }
    }
  }

  lemma {:induction false} KeptBySeams(p: Pattern, s: string)
    requires Marker(p) && Within(KeptBy(p, s), |s|)
    ensures SeamsStartAtBrackets(KeptBy(p, s), s)
    decreases |s|
  {
    var b := FirstBlock(p, s, 0);
    if b.Some? {
      var (i, e) := b.value;
      BlockBounds(p, s, i, e);
      BlockStartsAtBracket(p, s, i, e);
      KeptByIsRemove(p, s[e..]);
      KeptBySeams(p, s[e..]);
      SeamsOfShifted(i, e, KeptBy(p, s[e..]), s);
    }
  }

  lemma ComposeSeams(o: seq<nat>, l: seq<nat>, s: string)
    requires Within(o, |s|) && Increasing(o) && Within(l, |o|) && Increasing(l)
    requires SeamsStartAtBrackets(o, s) && SeamsStartAtBrackets(l, Pull(o, s))
    ensures Within(Compose(o, l), |s|) && SeamsStartAtBrackets(Compose(o, l), s)
  {
    var c := Compose(o, l);
    forall k | 0 <= k < |c| && c[k] + 1 < |s| && (k + 1 == |c| || c[k + 1] > c[k] + 1) ensures Bracket(s[c[k] + 1]) {
      var j := l[k];
      if j + 1 < |o| && o[j + 1] == o[j] + 1 {
        assert Pull(o, s)[j + 1] == s[o[j] + 1];
        assert k + 1 == |l| || l[k + 1] > j + 1;
      }
    }
  }

  lemma {:induction false} OriginsSeams(ps: seq<Pattern>, s: string)
    requires AllMarkers(ps)
    ensures SeamsStartAtBrackets(Origins(ps, s), s)
    decreases |ps|
  {
    if ps != [] {
      assert ps[0] in ps;
      KeptByIsRemove(ps[0], s);
      KeptBySeams(ps[0], s);
      OriginsSeams(ps[1..], Remove(ps[0], s));
      ComposeSeams(KeptBy(ps[0], s), Origins(ps[1..], Remove(ps[0], s)), s);
    }
  }

  /** The first n characters of a literal, with an opening bracket behind them. */
  predicate HeadBeforeBracket(lit: string, n: nat, s: string, i: nat) {
    0 < n <= |lit| && LiteralAt(lit[..n], s, i) && i + n < |s| && Bracket(s[i + n])
  }

  /** An opening bracket of s stands right behind a beginning of one of p's markers: a proper one, or the
      whole opening literal of a tag. */
  ghost predicate Interrupted(p: Pattern, s: string) {
    || (exists i: nat, n: nat :: n <= (if p.tag then |p.open| else |p.open| - 1) && HeadBeforeBracket(p.open, n, s, i))
    || (exists i: nat, n: nat :: n < |p.close| && HeadBeforeBracket(p.close, n, s, i))
  }

  lemma WholeHead(lit: string, o: seq<nat>, s: string, x: nat, z: nat)
    requires Within(o, |s|) && Increasing(o) && SeamsStartAtBrackets(o, s)
    requires LiteralAt(lit, Pull(o, s), x) && x < z <= x + |lit| && Seam(o, z) && Whole(o, x, z - 1)
    ensures HeadBeforeBracket(lit, z - x, s, o[x])
  {
    var head := lit[..z - x];
    forall j | 0 <= j < |head| ensures Fold(Pull(o, s)[x + j]) == Fold(head[j]) {
      LiteralChar(lit, Pull(o, s), x, j);
    }
    WholeLiteral(head, o, s, x);
    WholeInside(o, x, z - 1, z - 1);
    assert Bracket(s[o[z - 1] + 1]);
  }

  lemma JoinedIsInterrupted(ps: seq<Pattern>, s: string)
    requires AllMarkers(ps) && Joined(ps, s)
    ensures exists p :: p in ps && Interrupted(p, s)
  {
    var p, i: nat, m: nat, e: nat :| p in ps && JoinedAt(ps, s, p, i, m, e);
    var o := Origins(ps, s);
    var x, z, lit := TornMarker(p, Passes(ps, s), o, i, m, e);
    OriginsSeams(ps, s);
    WholeHead(lit, o, s, x, z);
    assert Interrupted(p, s);
  }

  /** Where no beginning of a marker is cut short by an opening bracket, a second application changes
      nothing: a check on the reply before the call. */
  lemma IdempotentUnlessInterrupted(s: string)
    requires !Interrupted(THINK, s) && !Interrupted(REASONING, s) && !Interrupted(BRACKET, s)
    ensures Strip(Strip(s)) == Strip(s)
  {
    IdempotentIffNothingJoined(s);
    if Joined(PATTERNS, s) { JoinedIsInterrupted(PATTERNS, s); }
  }
}
