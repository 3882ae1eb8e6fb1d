/** The cascade that sizes a catalog for a model (internal/llmcontext/select.go): compaction first, and if
    even that leaves the catalog too long, the best-ranked entries only. */
module Select {
  import opened Text
  import opened Catalog
  import opened Compact
  import opened Rank
  import opened Lists
  import opened Orders

  datatype Tier = TierA | TierB | TierC

  /** The number of entries kept by the last stage. */
  function MaxEntries(tier: Tier): (n: nat) {
    if tier.TierB? then 25 else 12
  }

  predicate OverBudget(trim: Trim) {
    exists d :: d in trim.dropped && d.StillOverBudget?
  }

  function PacksOf(ranked: seq<Scored>): seq<Pack> {
    if ranked == [] then []
    else
      var last := ranked[|ranked| - 1];
      PacksOf(ranked[..|ranked| - 1]) + if last.entry.OfPack? then [last.entry.pack] else []
  }

  function PipelinesOf(ranked: seq<Scored>): seq<Pipeline> {
    if ranked == [] then []
    else
      var last := ranked[|ranked| - 1];
      PipelinesOf(ranked[..|ranked| - 1]) + if last.entry.OfPipeline? then [last.entry.pipeline] else []
  }

  function GuideOf(ranked: seq<Scored>): Guide {
    Guide(PacksOf(ranked), PipelinesOf(ranked))
  }

  datatype Selection = Selection(guide: Guide, trim: Trim)

  /** What the last stage makes of the compacted catalog. */
  function Retrieved(c: Setting, compacted: Guide, trim: Trim, tokens: set<string>, tier: Tier): Selection {
    var ranked := Ranking(compacted, tokens);
    var guide := GuideOf(Cut(ranked, MaxEntries(tier)));
    var dropped := trim.dropped + [LexicalTopN] + if ShouldEscalate(ranked, 3) then [LexicalLowConfidence] else [];
    Selection(guide, Trim(trim.before, if c.marshal(guide).Some? then c.marshal(guide).value else trim.after, dropped))
  }

  predicate ReachesStageThree(c: Setting, g: Guide) {
    c.cap > 0 && OverBudget(Record(c, g))
  }

  function Selected(c: Setting, g: Guide, tokens: set<string>, tier: Tier): Selection {
    if ReachesStageThree(c, g) then Retrieved(c, Compacted(c, g), Record(c, g), tokens, tier)
    else Selection(Compacted(c, g), Record(c, g))
  }

  method IsOverBudget(trim: Trim) returns (over: bool)
    ensures over == OverBudget(trim)
  {
    for i := 0 to |trim.dropped|
      invariant forall k :: 0 <= k < i ==> !trim.dropped[k].StillOverBudget?
    {
      if trim.dropped[i].StillOverBudget? {
        return true;
      }
    }
    over := false;
  }

  method TopNRoutingGuide(ranked: seq<Scored>, n: nat) returns (g: Guide)
    ensures g == GuideOf(Cut(ranked, n))
  {
    g := Guide([], []);
    var count := 0;
    for i := 0 to |ranked|
      invariant count == i <= n
      invariant g == GuideOf(ranked[..i])
    {
      if count >= n {
        return;
      }
      assert ranked[..i + 1][..i] == ranked[..i];
      match ranked[i].entry {
        case OfPack(pack) => g := g.(packs := g.packs + [pack]);
        case OfPipeline(pipeline) => g := g.(pipelines := g.pipelines + [pipeline]);
      }
      count := count + 1;
    }
    assert ranked[..|ranked|] == ranked;
  }

  method Choose(packs: array<Pack>, pipelines: array<Pipeline>, intent: string, c: Setting, tier: Tier)
    returns (guide: Guide, trim: Trim)
    ensures Selection(guide, trim) == Selected(c, Guide(packs[..], pipelines[..]), TokenSet(intent), tier)
  {
    ghost var g := Guide(packs[..], pipelines[..]);
    var outPacks, outPipelines, t := CompactCatalog(packs, pipelines, c);
    var compacted := Guide(outPacks[..], outPipelines[..]);
    var over := IsOverBudget(t);
    assert compacted == Compacted(c, g) && t == Record(c, g);
    if c.cap <= 0 || !over {
      return compacted, t;
    }
    var ranked := LexicalRank(compacted, intent);
    guide := TopNRoutingGuide(ranked, MaxEntries(tier));
    var dropped := t.dropped + [LexicalTopN];
    if ShouldEscalate(ranked, 3) {
      dropped := dropped + [LexicalLowConfidence];
    }
    trim := Trim(t.before, t.after, dropped);
    if c.marshal(guide).Some? {
      trim := trim.(after := c.marshal(guide).value);
    }
    assert trim.dropped == Retrieved(c, compacted, t, TokenSet(intent), tier).trim.dropped;
  }

  // ---------- what the selection means ----------

  /** The last stage is reached exactly when the catalog marshals and all six steps leave it too long. */
  lemma StageThreeIff(c: Setting, g: Guide)
    requires Real(c)
    ensures ReachesStageThree(c, g) <==> c.cap > 0 && Marshals(g) && !Fits(c, Ladder(g, 6, c.walk))
    ensures ReachesStageThree(c, g) ==> Compacted(c, g) == Ladder(g, 6, c.walk)
  {
    if c.cap > 0 {
      MarkerMeansOverBudget(c, g);
      ShortestThatFits(c, g, 6);
      if ReachesStageThree(c, g) { RealLadder(c, g, Rungs(c, g, 6), 6); }
    }
  }

  /** By then every pack's keywords are gone, so they count for nothing in the ranking. */
  lemma KeywordsCountForNothing(c: Setting, g: Guide, tokens: set<string>, p: Pack)
    requires Real(c) && ReachesStageThree(c, g) && p in Compacted(c, g).packs
    ensures p.metadata.intentKeywords == [] && KeywordHits(tokens, p.metadata.intentKeywords) == 0
  {
    StageThreeIff(c, g);
    KeywordsGone(g, 6, c.walk);
  }

  /** Without the last stage a catalog that marshals fits, or compaction was off. */
  lemma FitsWithoutStageThree(c: Setting, g: Guide, tokens: set<string>, tier: Tier)
    requires Real(c) && Marshals(g) && !ReachesStageThree(c, g)
    ensures c.cap <= 0 || Fits(c, Selected(c, g, tokens, tier).guide)
  {
    StageThreeIff(c, g);
    if c.cap > 0 { MarkerMeansOverBudget(c, g); }
  }

  /** A scored entry that carries its own score, f being the scoring of packs and h that of pipelines. */
  ghost predicate Honest(s: Scored, f: Pack -> Scored, h: Pipeline -> Scored) {
    s == if s.entry.OfPack? then f(s.entry.pack) else h(s.entry.pipeline)
  }

  lemma OneMoreImage<S, T>(f: S -> T, xs: seq<S>, x: S)
    ensures multiset(Image(f, xs + [x])) == multiset(Image(f, xs)) + multiset{f(x)}
  {
    ImageLast(f, xs, x);
    ConcatMultiset(Image(f, xs), [f(x)]);
  }

  lemma SplitLast(rest: seq<Scored>, last: Scored)
    ensures PacksOf(rest + [last]) == if last.entry.OfPack? then PacksOf(rest) + [last.entry.pack] else PacksOf(rest)
    ensures PipelinesOf(rest + [last]) ==
            if last.entry.OfPipeline? then PipelinesOf(rest) + [last.entry.pipeline] else PipelinesOf(rest)
  {
    assert (rest + [last])[..|rest|] == rest;
  }

  lemma AddScored(f: Pack -> Scored, h: Pipeline -> Scored, packs: seq<Pack>, pipelines: seq<Pipeline>, r: multiset<Scored>, s: Scored)
    requires Honest(s, f, h)
    requires multiset(Image(f, packs)) + multiset(Image(h, pipelines)) == r
    ensures s.entry.OfPack? ==>
              multiset(Image(f, packs + [s.entry.pack])) + multiset(Image(h, pipelines)) == r + multiset{s}
    ensures s.entry.OfPipeline? ==>
              multiset(Image(f, packs)) + multiset(Image(h, pipelines + [s.entry.pipeline])) == r + multiset{s}
  {
    AddEither(multiset(Image(f, packs)), multiset(Image(h, pipelines)), r, multiset{s});
    if s.entry.OfPack? {
      OneMoreImage(f, packs, s.entry.pack);
    } else {
      OneMoreImage(h, pipelines, s.entry.pipeline);
    }
  }

  lemma AddEither<T>(a: multiset<T>, b: multiset<T>, r: multiset<T>, x: multiset<T>)
    requires a + b == r
    ensures a + x + b == r + x && a + (b + x) == r + x
  {
  }

  /** Splitting scored entries into packs and pipelines and scoring them again loses nothing. */
  lemma {:induction false} SplitAndScore(ranked: seq<Scored>, f: Pack -> Scored, h: Pipeline -> Scored)
    requires forall s :: s in ranked ==> Honest(s, f, h)
    ensures multiset(Image(f, PacksOf(ranked))) + multiset(Image(h, PipelinesOf(ranked))) == multiset(ranked)
  {
    if ranked != [] {
      var rest, last := ranked[..|ranked| - 1], ranked[|ranked| - 1];
      assert ranked == rest + [last];
      SplitAndScore(rest, f, h);
      SplitAndScoreLast(rest, last, f, h);
    }
  }

  lemma SplitAndScoreLast(rest: seq<Scored>, last: Scored, f: Pack -> Scored, h: Pipeline -> Scored)
    requires Honest(last, f, h)
    requires multiset(Image(f, PacksOf(rest))) + multiset(Image(h, PipelinesOf(rest))) == multiset(rest)
    ensures multiset(Image(f, PacksOf(rest + [last]))) + multiset(Image(h, PipelinesOf(rest + [last]))) == multiset(rest + [last])
  {
    ConcatMultiset(rest, [last]);
    SplitLast(rest, last);
    AddScored(f, h, PacksOf(rest), PipelinesOf(rest), multiset(rest), last);
  }

  lemma EntriesAreHonest(g: Guide, tokens: set<string>, s: Scored)
    requires s in Entries(g, tokens)
    ensures Honest(s, (p: Pack) => ScoredPack(p, tokens), (p: Pipeline) => ScoredPipeline(p, tokens))
  {
    var f, h := (p: Pack) => ScoredPack(p, tokens), (p: Pipeline) => ScoredPipeline(p, tokens);
    if s in Image(f, g.packs) {
      var p := MemberOfImage(f, g.packs, s);
    } else {
      var p := MemberOfImage(h, g.pipelines, s);
    }
  }

  /** Cutting the ranking and splitting it keeps exactly the first entries. */
  lemma CutKeepsTheTop(g: Guide, tokens: set<string>, n: nat)
    ensures multiset(Entries(GuideOf(Cut(Ranking(g, tokens), n)), tokens)) == multiset(Cut(Ranking(g, tokens), n))
  {
    var all := Ranking(g, tokens);
    var kept := Cut(all, n);
    PermutationMembers(all, Entries(g, tokens));
    forall s | s in kept
      ensures Honest(s, (p: Pack) => ScoredPack(p, tokens), (p: Pipeline) => ScoredPipeline(p, tokens))
    {
      assert s in all;
      EntriesAreHonest(g, tokens, s);
    }
    SplitAndScore(kept, (p: Pack) => ScoredPack(p, tokens), (p: Pipeline) => ScoredPipeline(p, tokens));
    ConcatMultiset(Image((p: Pack) => ScoredPack(p, tokens), PacksOf(kept)),
                   Image((p: Pipeline) => ScoredPipeline(p, tokens), PipelinesOf(kept)));
  }

  lemma CutAndRest(ranked: seq<Scored>, n: nat)
    ensures multiset(Cut(ranked, n)) + multiset(ranked[|Cut(ranked, n)|..]) == multiset(ranked)
  {
    var kept := Cut(ranked, n);
    assert ranked == kept + ranked[|kept|..];
    ConcatMultiset(kept, ranked[|kept|..]);
  }

  /** At the last stage the result is exactly the first entries of the ranking, up to the limit; with the
      dropped ones they make up the compacted catalog. */
  lemma SelectionIsTheTop(c: Setting, g: Guide, tokens: set<string>, tier: Tier)
    requires ReachesStageThree(c, g)
    ensures var all, kept := Ranking(Compacted(c, g), tokens), Selected(c, g, tokens, tier).guide;
            && multiset(Entries(kept, tokens)) == multiset(Cut(all, MaxEntries(tier)))
            && multiset(Entries(kept, tokens)) + multiset(all[|Cut(all, MaxEntries(tier))|..]) ==
               multiset(Entries(Compacted(c, g), tokens))
  {
    CutKeepsTheTop(Compacted(c, g), tokens, MaxEntries(tier));
    CutAndRest(Ranking(Compacted(c, g), tokens), MaxEntries(tier));
  }

  /** What the record says of the last stage: the labels of compaction, that retrieval ran, whether its best entry
      leads too little, and the size of what was selected. */
  lemma RecordOfStageThree(c: Setting, g: Guide, tokens: set<string>, tier: Tier)
    requires Real(c) && ReachesStageThree(c, g)
    ensures var was, now, ranked := Record(c, g), Selected(c, g, tokens, tier).trim, Ranking(Compacted(c, g), tokens);
            && now.before == was.before
            && (c.marshal(Selected(c, g, tokens, tier).guide) == None || c.marshal(Selected(c, g, tokens, tier).guide) == Some(now.after))
            && now.dropped == was.dropped + [LexicalTopN] + if |ranked| >= 3 && !HighConfidence(ranked) then [LexicalLowConfidence] else []
  {
  }

  /** No dropped entry outranks a kept one. */
  lemma NothingBetterIsDropped(g: Guide, tokens: set<string>, n: nat, kept: Scored, dropped: Scored)
    requires kept in Ranking(g, tokens)[..|Cut(Ranking(g, tokens), n)|]
    requires dropped in Ranking(g, tokens)[|Cut(Ranking(g, tokens), n)|..]
    ensures !Outranks(dropped, kept)
  {
    RankingSorts(g, tokens);
    TailNotBeforeHead(Outranks, Ranking(g, tokens), |Cut(Ranking(g, tokens), n)|, kept, dropped);
  }

  lemma {:induction false} SplitSize(ranked: seq<Scored>)
    ensures |PacksOf(ranked)| + |PipelinesOf(ranked)| == |ranked|
  {
    if ranked != [] { SplitSize(ranked[..|ranked| - 1]); }
  }

  /** The result has as many entries as the input or, at the last stage, as many as the limit allows: it is
      empty only for an empty catalog. */
  lemma SelectionSize(c: Setting, g: Guide, tokens: set<string>, tier: Tier)
    ensures var kept, size := Selected(c, g, tokens, tier).guide, |g.packs| + |g.pipelines|;
            && |kept.packs| + |kept.pipelines| ==
               (if ReachesStageThree(c, g) && MaxEntries(tier) < size then MaxEntries(tier) else size)
            && MaxEntries(tier) == (match tier case TierB => 25 case _ => 12)
            && (kept == Guide([], []) <==> g == Guide([], []))
  {
    var compacted := Compacted(c, g);
    if c.cap > 0 { LadderKeeps(g, Rungs(c, g, 6), c.walk); }
    SplitSize(Cut(Ranking(compacted, tokens), MaxEntries(tier)));
  }
}
