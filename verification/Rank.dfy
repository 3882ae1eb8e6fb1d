/** Lexical relevance of catalog entries (internal/llmcontext/rank.go). Scores are doubled: every weight of
    the source is a multiple of one half and every overlap is a count. */
module Rank {
  import opened Text
  import opened Json
  import opened Catalog
  import opened Lists
  import opened Orders

  // ---------- tokens ----------

  predicate IsWordRune(c: char) {
    'a' <= c <= 'z' || 'A' <= c <= 'Z' || '0' <= c <= '9'
  }

  function ToLower(c: char): char {
    if 'A' <= c <= 'Z' then (c as int + 32) as char else c
  }

  function Lower(s: string): (r: string)
    ensures |r| == |s| && forall i :: 0 <= i < |s| ==> r[i] == ToLower(s[i])
  {
    seq(|s|, i requires 0 <= i < |s| => ToLower(s[i]))
  }

  const STOP_WORDS := {
    "a", "an", "the", "this", "that", "these", "those",
    "of", "in", "to", "for", "and", "with", "on",
    "is", "are", "was", "be", "by", "from", "as",
    "it", "its", "or", "if", "i", "me", "my",
    "do", "does", "want", "need", "can", "should", "would"
  }

  /** A word that counts as a token. */
  predicate Counts(w: string) {
    w !in STOP_WORDS && |w| >= 2
  }

  /** The lower-case words of s, after the pending word b. */
  function WordsFrom(b: string, s: string): seq<string>
    decreases |s|
  {
    if s == "" then Pending(b)
    else if IsWordRune(s[0]) then WordsFrom(b + [ToLower(s[0])], s[1..])
    else Pending(b) + WordsFrom("", s[1..])
  }

  function Pending(b: string): seq<string> {
    if b == "" then [] else [b]
  }

  function Words(s: string): seq<string> {
    WordsFrom("", s)
  }

  function TokenSet(s: string): set<string> {
    set w | w in Words(s) && Counts(w)
  }

  /** s[i..j] is a longest piece of letters and digits. */
  predicate IsRun(s: string, i: nat, j: nat) {
    && i < j <= |s| && (forall k :: i <= k < j ==> IsWordRune(s[k]))
    && (i == 0 || !IsWordRune(s[i - 1])) && (j == |s| || !IsWordRune(s[j]))
  }

  ghost predicate IsWordOf(s: string, w: string) {
    exists i: nat, j: nat :: IsRun(s, i, j) && w == Lower(s[i..j])
  }

  predicate AllWord(p: string) {
    forall k :: 0 <= k < |p| ==> IsWordRune(p[k])
  }

  /** A run of a word, a separator and more text is the word or lies in the rest. */
  lemma RunIsWordOrLater(p: string, c: char, s: string, i: nat, j: nat)
    requires AllWord(p) && !IsWordRune(c) && IsRun(p + [c] + s, i, j)
    ensures (i == 0 && j == |p| && p != "" && (p + [c] + s)[i..j] == p) ||
            (i > |p| && (p + [c] + s)[i..j] == s[i - |p| - 1..j - |p| - 1] && IsRun(s, i - |p| - 1, j - |p| - 1))
  {
    var t := p + [c] + s;
    assert t[|p|] == c;
    assert forall k :: 0 <= k < |p| ==> t[k] == p[k] && IsWordRune(t[k]);
    assert !(i <= |p| < j);
    if i < |p| {
      assert j <= |p|;
      assert i == 0 && j == |p|;
      assert t[0..|p|] == p;
    } else {
      assert j <= |t| == |p| + 1 + |s|;
      RunShift(p + [c], s, i - |p| - 1, j - |p| - 1);
    }
  }

  lemma WordIsRun(p: string, c: char, s: string)
    requires AllWord(p) && !IsWordRune(c) && p != ""
    ensures IsRun(p + [c] + s, 0, |p|) && (p + [c] + s)[0..|p|] == p
  {
    var t := p + [c] + s;
    assert t[|p|] == c && forall k :: 0 <= k < |p| ==> t[k] == p[k];
    assert t[0..|p|] == p;
  }

  /** The words of a word, a separator and more text: the word, and the words of the rest. */
  lemma RunsAfterWord(p: string, c: char, s: string, w: string)
    requires AllWord(p) && !IsWordRune(c)
    ensures IsWordOf(p + [c] + s, w) <==> w in Pending(Lower(p)) || IsWordOf(s, w)
  {
    var t, n := p + [c] + s, |p| + 1;
    if IsWordOf(t, w) {
      var i: nat, j: nat :| IsRun(t, i, j) && w == Lower(t[i..j]);
      RunIsWordOrLater(p, c, s, i, j);
    }
    if w in Pending(Lower(p)) { WordIsRun(p, c, s); }
    if IsWordOf(s, w) {
      var i: nat, j: nat :| IsRun(s, i, j) && w == Lower(s[i..j]);
      RunShift(p + [c], s, i, j);
      assert IsRun(t, i + n, j + n);
    }
  }

  lemma RunShift(p: string, s: string, i: nat, j: nat)
    requires p != "" && !IsWordRune(p[|p| - 1]) && i < j <= |s|
    ensures (p + s)[i + |p|..j + |p|] == s[i..j]
    ensures IsRun(p + s, i + |p|, j + |p|) <==> IsRun(s, i, j)
  {
    var t, n := p + s, |p|;
    assert forall k :: 0 <= k < |s| ==> t[k + n] == s[k];
    assert forall k :: n <= k < |t| ==> t[k] == s[k - n];
    if i == 0 { assert t[i + n - 1] == p[n - 1]; }
  }

  lemma RunsOfWord(p: string, w: string)
    requires AllWord(p)
    ensures IsWordOf(p, w) <==> w in Pending(Lower(p))
  {
    if IsWordOf(p, w) {
      var i: nat, j: nat :| IsRun(p, i, j) && w == Lower(p[i..j]);
      assert i == 0 && j == |p| && p[0..|p|] == p;
    }
    if p != "" { assert IsRun(p, 0, |p|) && p[0..|p|] == p; }
  }

  lemma {:induction false} WordsFromAreRuns(p: string, s: string, w: string)
    requires AllWord(p)
    ensures w in WordsFrom(Lower(p), s) <==> IsWordOf(p + s, w)
    decreases |s|
  {
    if s == "" {
      assert p + s == p;
      RunsOfWord(p, w);
    } else if IsWordRune(s[0]) {
      assert p + s == (p + [s[0]]) + s[1..];
      assert Lower(p) + [ToLower(s[0])] == Lower(p + [s[0]]);
      WordsFromAreRuns(p + [s[0]], s[1..], w);
    } else {
      assert p + s == p + [s[0]] + s[1..];
      RunsAfterWord(p, s[0], s[1..], w);
      WordsFromAreRuns("", s[1..], w);
      assert "" + s[1..] == s[1..] && Lower("") == "";
    }
  }

  /** The tokens of a text are its longest pieces of letters and digits in lower case, without stop words
      and single characters. */
  lemma TokensAreRuns(s: string, w: string)
    ensures w in TokenSet(s) <==> IsWordOf(s, w) && Counts(w)
  {
    WordsFromAreRuns("", s, w);
    assert "" + s == s && Lower("") == "";
  }

  /** A capital and its small letter. */
  predicate CapitalOf(c: char, d: char) {
    'A' <= c <= 'Z' && 'a' <= d <= 'z' && c as int - 'A' as int == d as int - 'a' as int
  }

  predicate SameUpToCase(s: string, t: string) {
    |s| == |t| && forall k :: 0 <= k < |s| ==> s[k] == t[k] || CapitalOf(s[k], t[k]) || CapitalOf(t[k], s[k])
  }

  lemma {:induction false} WordsIgnoreCase(b: string, s: string, t: string)
    requires SameUpToCase(s, t)
    ensures WordsFrom(b, s) == WordsFrom(b, t)
    decreases |s|
  {
    if s != "" {
      assert IsWordRune(s[0]) == IsWordRune(t[0]) && ToLower(s[0]) == ToLower(t[0]);
      WordsIgnoreCase(if IsWordRune(s[0]) then b + [ToLower(s[0])] else "", s[1..], t[1..]);
    }
  }

  /** Letter case does not matter to the tokens. */
  lemma TokensIgnoreCase(s: string, t: string)
    requires SameUpToCase(s, t)
    ensures TokenSet(s) == TokenSet(t)
  {
    WordsIgnoreCase("", s, t);
  }

  /** Small ASCII letters and digits. */
  predicate Plain(w: string) {
    forall k :: 0 <= k < |w| ==> 'a' <= w[k] <= 'z' || '0' <= w[k] <= '9'
  }

  /** Tokens are words of small letters and digits of two characters or more. */
  lemma TokensArePlain(s: string, w: string)
    requires w in TokenSet(s)
    ensures Plain(w) && |w| >= 2
  {
    TokensAreRuns(s, w);
    var i: nat, j: nat :| IsRun(s, i, j) && w == Lower(s[i..j]);
    forall k | 0 <= k < |w| ensures 'a' <= w[k] <= 'z' || '0' <= w[k] <= '9' { assert IsWordRune(s[i + k]); }
  }

  /** Anything but an ASCII letter or digit separates words. */
  lemma SeparatorSplits(s: string, c: char, t: string)
    requires !('a' <= c <= 'z' || 'A' <= c <= 'Z' || '0' <= c <= '9')
    ensures TokenSet(s + [c] + t) == TokenSet(s) + TokenSet(t)
  {
    WordsSplit("", s, c, t);
  }

  lemma {:induction false} WordsSplit(b: string, s: string, c: char, t: string)
    requires !IsWordRune(c)
    ensures WordsFrom(b, s + [c] + t) == WordsFrom(b, s) + WordsFrom("", t)
    decreases |s|
  {
    if s == "" {
      assert s + [c] + t == [c] + t;
    } else {
      assert (s + [c] + t)[1..] == s[1..] + [c] + t;
      if IsWordRune(s[0]) {
        WordsSplit(b + [ToLower(s[0])], s[1..], c, t);
      } else {
        WordsSplit("", s[1..], c, t);
        Associates(Pending(b), WordsFrom("", s[1..]), WordsFrom("", t));
      }
    }
  }

  /** A word of small letters and digits is its own token, unless it is a single character or a stop word. */
  lemma PlainWordIsToken(w: string)
    requires Plain(w) && w != ""
    ensures TokenSet(w) == if |w| < 2 || w in STOP_WORDS then {} else {w}
  {
    PlainWord("", w);
    assert "" + w == w && w in [w];
  }

  lemma {:induction false} PlainWord(b: string, s: string)
    requires Plain(s) && b + s != ""
    ensures WordsFrom(b, s) == [b + s]
    decreases |s|
  {
    if s == "" {
      assert b + s == b;
    } else {
      assert IsWordRune(s[0]) && ToLower(s[0]) == s[0];
      assert b + s == (b + [s[0]]) + s[1..];
      PlainWord(b + [s[0]], s[1..]);
    }
  }

  /** m counts those of the words that are tokens. */
  ghost predicate CountsOf(m: map<string, nat>, words: multiset<string>) {
    && (forall w :: (if w in m then m[w] else 0) == (if Counts(w) then words[w] else 0))
    && (forall w :: w in m ==> m[w] > 0)
  }

  method Emit(m: map<string, nat>, b: string, ghost words: multiset<string>) returns (r: map<string, nat>)
    requires CountsOf(m, words)
    ensures CountsOf(r, words + multiset(Pending(b)))
  {
    r := m;
    if b == "" {
      return;
    }
    if b in STOP_WORDS {
      return;
    }
    if |b| < 2 {
      return;
    }
    r := m[b := (if b in m then m[b] else 0) + 1];
  }

  method Tokenize(s: string) returns (m: map<string, nat>)
    ensures CountsOf(m, multiset(Words(s)))
  {
    m := map[];
    var b := "";
    ghost var words := multiset{};
    for i := 0 to |s|
      invariant CountsOf(m, words)
      invariant words + multiset(WordsFrom(b, s[i..])) == multiset(Words(s))
    {
      assert s[i..][1..] == s[i + 1..] && s[i..][0] == s[i];
      if IsWordRune(s[i]) {
        b := b + [ToLower(s[i])];
      } else {
        m := Emit(m, b, words);
        words := words + multiset(Pending(b));
        assert multiset(Pending(b) + WordsFrom("", s[i + 1..])) == multiset(Pending(b)) + multiset(WordsFrom("", s[i + 1..]));
        b := "";
      }
    }
    m := Emit(m, b, words);
  }

  lemma KeysAreTokens(m: map<string, nat>, s: string)
    requires CountsOf(m, multiset(Words(s)))
    ensures m.Keys == TokenSet(s)
  {
    forall w ensures w in m <==> w in TokenSet(s) {
      assert w in Words(s) <==> multiset(Words(s))[w] > 0;
    }
  }

  /** How many different tokens of a field the intent has. */
  function Overlap(intent: set<string>, field: string): nat {
    |intent * TokenSet(field)|
  }

  /** All tokens of a phrase are in the intent, and there is one. */
  predicate PhraseIn(intent: set<string>, phrase: string) {
    TokenSet(phrase) != {} && TokenSet(phrase) <= intent
  }

  lemma OneMore(a: set<string>, seen: set<string>, t: string)
    requires t !in seen
    ensures |a * (seen + {t})| == |a * seen| + if t in a then 1 else 0
  {
    assert a * (seen + {t}) == a * seen + (if t in a then {t} else {});
  }

  /** Walks the tokens in any order. */
  method CountIn(intent: set<string>, tokens: set<string>) returns (hits: nat)
    ensures hits == |intent * tokens|
  {
    hits := 0;
    var todo := tokens;
    while todo != {}
      invariant todo <= tokens
      invariant hits == |intent * (tokens - todo)|
      decreases |todo|
    {
      var t :| t in todo;
      OneMore(intent, tokens - todo, t);
      assert tokens - (todo - {t}) == tokens - todo + {t};
      todo := todo - {t};
      if t in intent {
        hits := hits + 1;
      }
    }
    assert tokens - todo == tokens;
  }

  method TokenSetOverlap(intent: set<string>, field: string) returns (hits: nat)
    ensures hits == Overlap(intent, field)
  {
    if |intent| == 0 {
      NoTokenNoOverlap(field);
      return 0;
    }
    var tokens := Tokenize(field);
    KeysAreTokens(tokens, field);
    hits := CountIn(intent, tokens.Keys);
  }

  method PhraseOverlap(intent: set<string>, phrase: string) returns (yes: bool)
    ensures yes == PhraseIn(intent, phrase)
  {
    var counts := Tokenize(phrase);
    KeysAreTokens(counts, phrase);
    yes := counts.Keys != {};
    if yes {
      yes := AllIn(intent, counts.Keys);
    }
  }

  /** Walks the tokens in any order up to the first that is missing. */
  method AllIn(intent: set<string>, tokens: set<string>) returns (yes: bool)
    ensures yes == (tokens <= intent)
  {
    var todo := tokens;
    while todo != {}
      invariant todo <= tokens
      invariant forall t :: t in tokens && t !in todo ==> t in intent
      decreases |todo|
    {
      var t :| t in todo;
      if t !in intent {
        return false;
      }
      todo := todo - {t};
    }
    yes := true;
  }

  // ---------- scores ----------

  function KeywordHits(intent: set<string>, phrases: seq<string>): nat {
    if phrases == [] then 0
    else KeywordHits(intent, phrases[..|phrases| - 1]) + (if PhraseIn(intent, phrases[|phrases| - 1]) then 1 else 0)
  }

  function OverlapSum(intent: set<string>, fields: seq<string>): nat {
    if fields == [] then 0
    else OverlapSum(intent, fields[..|fields| - 1]) + Overlap(intent, fields[|fields| - 1])
  }

  const KEYWORD := 6
  const ACCEPTS_PRODUCES := 4
  const NAME := 4
  const DESCRIPTION := 2
  const SUPERSEDES := 5

  function PackScore(p: Pack, intent: set<string>): nat {
    KEYWORD * KeywordHits(intent, p.metadata.intentKeywords) +
    ACCEPTS_PRODUCES * OverlapSum(intent, p.metadata.accepts) +
    ACCEPTS_PRODUCES * OverlapSum(intent, p.metadata.produces) +
    NAME * Overlap(intent, p.name) + DESCRIPTION * Overlap(intent, p.description)
  }

  /** The elements of a decoded list of strings; an element of another kind is left empty. */
  function Decoded(items: seq<Value>): seq<string> {
    if items == [] then [] else [if items[0].Str? then items[0].s else ""] + Decoded(items[1..])
  }

  function Probe(m: Meta, key: string): seq<string> {
    if m.Doc? && m.value.Obj? && Lookup(m.value.fields, key).Some? && Lookup(m.value.fields, key).value.Arr?
    then Decoded(Lookup(m.value.fields, key).value.items) else []
  }

  lemma {:induction false} DecodedItems(items: seq<Value>)
    ensures |Decoded(items)| == |items|
    ensures forall i :: 0 <= i < |items| ==> Decoded(items)[i] == match items[i] case Str(s) => s case _ => ""
  {
    if items != [] { DecodedItems(items[1..]); }
  }

  /** A list of the metadata document is read item by item; anything else reads as no list. */
  lemma ProbeMeans(m: Meta, key: string)
    ensures var texts := Probe(m, key);
            if m.Doc? && m.value.Obj? && Lookup(m.value.fields, key).Some? && Lookup(m.value.fields, key).value.Arr? then
              var items := Lookup(m.value.fields, key).value.items;
              |texts| == |items| && forall i :: 0 <= i < |items| ==> texts[i] == if items[i].Str? then items[i].s else ""
            else texts == []
  {
    if m.Doc? && m.value.Obj? && Lookup(m.value.fields, key).Some? && Lookup(m.value.fields, key).value.Arr? {
      DecodedItems(Lookup(m.value.fields, key).value.items);
    }
  }

  function PipelineScore(p: Pipeline, intent: set<string>): nat {
    KEYWORD * KeywordHits(intent, Probe(p.metadata, "intent_keywords")) +
    ACCEPTS_PRODUCES * OverlapSum(intent, Probe(p.metadata, "accepts")) +
    ACCEPTS_PRODUCES * OverlapSum(intent, Probe(p.metadata, "produces")) +
    SUPERSEDES * OverlapSum(intent, Probe(p.metadata, "supersedes")) +
    NAME * Overlap(intent, p.name) + NAME * Overlap(intent, p.id) + DESCRIPTION * Overlap(intent, p.description)
  }

  method CountPhrases(intent: set<string>, phrases: seq<string>) returns (n: nat)
    ensures n == KeywordHits(intent, phrases)
  {
    n := 0;
    for i := 0 to |phrases|
      invariant n == KeywordHits(intent, phrases[..i])
    {
      assert phrases[..i + 1][..i] == phrases[..i];
      var hit := PhraseOverlap(intent, phrases[i]);
      if hit {
        n := n + 1;
      }
    }
    assert phrases[..|phrases|] == phrases;
  }

  method SumOverlaps(intent: set<string>, fields: seq<string>) returns (n: nat)
    ensures n == OverlapSum(intent, fields)
  {
    n := 0;
    for i := 0 to |fields|
      invariant n == OverlapSum(intent, fields[..i])
    {
      assert fields[..i + 1][..i] == fields[..i];
      var hits := TokenSetOverlap(intent, fields[i]);
      n := n + hits;
    }
    assert fields[..|fields|] == fields;
  }

  lemma {:induction false} EmptyIntentScoresNothing(fields: seq<string>)
    ensures KeywordHits({}, fields) == 0 && OverlapSum({}, fields) == 0
  {
    if fields != [] {
      EmptyIntentScoresNothing(fields[..|fields| - 1]);
      assert {} * TokenSet(fields[|fields| - 1]) == {};
    }
  }

  lemma NoTokenNoOverlap(field: string)
    ensures Overlap({}, field) == 0
  {
    assert {} * TokenSet(field) == {};
  }

  method ScorePack(p: Pack, intent: set<string>) returns (score: nat)
    ensures score == PackScore(p, intent)
  {
    if intent == {} {
      EmptyIntentScoresNothing(p.metadata.intentKeywords);
      EmptyIntentScoresNothing(p.metadata.accepts);
      EmptyIntentScoresNothing(p.metadata.produces);
      NoTokenNoOverlap(p.name);
      NoTokenNoOverlap(p.description);
      return 0;
    }
    var keywords := CountPhrases(intent, p.metadata.intentKeywords);
    var accepts := SumOverlaps(intent, p.metadata.accepts);
    var produces := SumOverlaps(intent, p.metadata.produces);
    var name := TokenSetOverlap(intent, p.name);
    var description := TokenSetOverlap(intent, p.description);
    score := KEYWORD * keywords + ACCEPTS_PRODUCES * accepts + ACCEPTS_PRODUCES * produces + NAME * name + DESCRIPTION * description;
  }

  method ScorePipeline(p: Pipeline, intent: set<string>) returns (score: nat)
    ensures score == PipelineScore(p, intent)
  {
    if intent == {} {
      EmptyIntentScoresNothing(Probe(p.metadata, "intent_keywords"));
      EmptyIntentScoresNothing(Probe(p.metadata, "accepts"));
      EmptyIntentScoresNothing(Probe(p.metadata, "produces"));
      EmptyIntentScoresNothing(Probe(p.metadata, "supersedes"));
      NoTokenNoOverlap(p.name);
      NoTokenNoOverlap(p.id);
      NoTokenNoOverlap(p.description);
      return 0;
    }
    var keywords := CountPhrases(intent, Probe(p.metadata, "intent_keywords"));
    var accepts := SumOverlaps(intent, Probe(p.metadata, "accepts"));
    var produces := SumOverlaps(intent, Probe(p.metadata, "produces"));
    var supersedes := SumOverlaps(intent, Probe(p.metadata, "supersedes"));
    var name := TokenSetOverlap(intent, p.name);
    var id := TokenSetOverlap(intent, p.id);
    var description := TokenSetOverlap(intent, p.description);
    score := KEYWORD * keywords + ACCEPTS_PRODUCES * accepts + ACCEPTS_PRODUCES * produces + SUPERSEDES * supersedes +
             NAME * name + NAME * id + DESCRIPTION * description;
  }

  /** Without keywords a pack's score falls by exactly what its matching phrases gave. */
  lemma DroppedKeywordsScore(p: Pack, intent: set<string>)
    ensures PackScore(p, intent) == PackScore(DropKeywords(p), intent) + KEYWORD * KeywordHits(intent, p.metadata.intentKeywords)
  {
  }

  /** A text with one more token of the intent. */
  predicate OneMoreToken(intent: set<string>, was: string, now: string) {
    exists t :: t in TokenSet(now) && t in intent && t !in TokenSet(was) && TokenSet(now) == TokenSet(was) + {t}
  }

  lemma OverlapGrows(intent: set<string>, was: string, now: string)
    requires OneMoreToken(intent, was, now)
    ensures Overlap(intent, now) == Overlap(intent, was) + 1
  {
    var t :| t in TokenSet(now) && t in intent && t !in TokenSet(was) && TokenSet(now) == TokenSet(was) + {t};
    OneMore(intent, TokenSet(was), t);
  }

  lemma ListGrows(intent: set<string>, fields: seq<string>, more: string)
    ensures OverlapSum(intent, fields + [more]) == OverlapSum(intent, fields) + |intent * TokenSet(more)|
    ensures KeywordHits(intent, fields + [more]) == KeywordHits(intent, fields) +
              if TokenSet(more) != {} && TokenSet(more) <= intent then 1 else 0
  {
    assert (fields + [more])[..|fields|] == fields;
  }

  /** What each field of a pack is worth, in half points: a token of the intent counts 4 in the name and 2 in the
      description, each token of an accepted or produced type 4, and a keyword phrase 6. */
  lemma PackWeights(p: Pack, intent: set<string>, text: string)
    ensures OneMoreToken(intent, p.name, text) ==> PackScore(p.(name := text), intent) == PackScore(p, intent) + 4
    ensures OneMoreToken(intent, p.description, text) ==> PackScore(p.(description := text), intent) == PackScore(p, intent) + 2
    ensures var m := p.metadata;
            && PackScore(p.(metadata := m.(accepts := m.accepts + [text])), intent) == PackScore(p, intent) + 4 * |intent * TokenSet(text)|
            && PackScore(p.(metadata := m.(produces := m.produces + [text])), intent) == PackScore(p, intent) + 4 * |intent * TokenSet(text)|
            && PackScore(p.(metadata := m.(intentKeywords := m.intentKeywords + [text])), intent) ==
               PackScore(p, intent) + if TokenSet(text) != {} && TokenSet(text) <= intent then 6 else 0
    ensures PackScore(Pack("", "", PackMetadata([], [], [], p.metadata.typicalUse, p.metadata.limitations)), intent) == 0
  {
    var m := p.metadata;
    if OneMoreToken(intent, p.name, text) { OverlapGrows(intent, p.name, text); }
    if OneMoreToken(intent, p.description, text) { OverlapGrows(intent, p.description, text); }
    ListGrows(intent, m.accepts, text);
    ListGrows(intent, m.produces, text);
    ListGrows(intent, m.intentKeywords, text);
    NoTokens();
  }

  lemma NoTokens()
    ensures TokenSet("") == {}
  {
  }

  /** The lists a pipeline's metadata is scored by. */
  datatype Lists4 = Lists4(keywords: seq<string>, accepts: seq<string>, produces: seq<string>, supersedes: seq<string>)

  function ListsOf(m: Meta): Lists4 {
    Lists4(Probe(m, "intent_keywords"), Probe(m, "accepts"), Probe(m, "produces"), Probe(m, "supersedes"))
  }

  /** The same for a pipeline, whose superseded packs count 5 a token and whose id counts like its name. */
  lemma PipelineWeights(p: Pipeline, intent: set<string>, text: string)
    ensures OneMoreToken(intent, p.name, text) ==> PipelineScore(p.(name := text), intent) == PipelineScore(p, intent) + 4
    ensures OneMoreToken(intent, p.id, text) ==> PipelineScore(p.(id := text), intent) == PipelineScore(p, intent) + 4
    ensures OneMoreToken(intent, p.description, text) ==>
              PipelineScore(p.(description := text), intent) == PipelineScore(p, intent) + 2
  {
    if OneMoreToken(intent, p.name, text) { OverlapGrows(intent, p.name, text); }
    if OneMoreToken(intent, p.id, text) { OverlapGrows(intent, p.id, text); }
    if OneMoreToken(intent, p.description, text) { OverlapGrows(intent, p.description, text); }
  }

  lemma PipelineListWeights(p: Pipeline, m2: Meta, intent: set<string>, text: string)
    ensures var l, l2 := ListsOf(p.metadata), ListsOf(m2);
            var score, score2 := PipelineScore(p, intent), PipelineScore(p.(metadata := m2), intent);
            && (l2 == l.(keywords := l.keywords + [text]) ==>
                  score2 == score + if TokenSet(text) != {} && TokenSet(text) <= intent then 6 else 0)
            && (l2 == l.(accepts := l.accepts + [text]) ==> score2 == score + 4 * |intent * TokenSet(text)|)
            && (l2 == l.(produces := l.produces + [text]) ==> score2 == score + 4 * |intent * TokenSet(text)|)
            && (l2 == l.(supersedes := l.supersedes + [text]) ==> score2 == score + 5 * |intent * TokenSet(text)|)
  {
    var l := ListsOf(p.metadata);
    ListGrows(intent, l.keywords, text);
    ListGrows(intent, l.accepts, text);
    ListGrows(intent, l.produces, text);
    ListGrows(intent, l.supersedes, text);
  }

  // ---------- the ranking ----------

  datatype Entry = OfPack(pack: Pack) | OfPipeline(pipeline: Pipeline)

  datatype Scored = Scored(id: string, score: nat, entry: Entry)

  predicate Outranks(x: Scored, y: Scored) {
    x.score > y.score || (x.score == y.score && Less(x.id, y.id))
  }

  lemma OutranksIsOrder()
    ensures StrictWeak(Outranks)
  {
    forall x: Scored ensures !Outranks(x, x) { LessIrreflexive(x.id); }
    forall x, y, z | Outranks(x, y) && Outranks(y, z) ensures Outranks(x, z) {
      if x.score == z.score { LessTransitive(x.id, y.id, z.id); }
    }
    forall x, y, z | Outranks(x, z) && !Outranks(x, y) ensures Outranks(y, z) {
      LessTotal(x.id, y.id);
      if x.score == y.score == z.score && x.id != y.id { LessTransitive(y.id, x.id, z.id); }
    }
  }

  function ScoredPack(p: Pack, intent: set<string>): Scored {
    Scored(p.name, PackScore(p, intent), OfPack(p))
  }

  function ScoredPipeline(p: Pipeline, intent: set<string>): Scored {
    Scored(p.id, PipelineScore(p, intent), OfPipeline(p))
  }

  function Entries(g: Guide, intent: set<string>): (r: seq<Scored>)
    ensures |r| == |g.packs| + |g.pipelines|
  {
    Image((p: Pack) => ScoredPack(p, intent), g.packs) + Image((p: Pipeline) => ScoredPipeline(p, intent), g.pipelines)
  }

  function Ranking(g: Guide, intent: set<string>): (r: seq<Scored>)
    ensures |r| == |g.packs| + |g.pipelines|
    ensures multiset(r) == multiset(Entries(g, intent))
  {
    StableSort(Outranks, Entries(g, intent))
  }

  method ScorePacks(packs: seq<Pack>, intent: set<string>, ghost f: Pack -> Scored) returns (out: seq<Scored>)
    requires forall p :: f(p) == ScoredPack(p, intent)
    ensures out == Image(f, packs)
  {
    out := [];
    for i := 0 to |packs|
      invariant out == Image(f, packs[..i])
    {
      ImageStep(f, packs, i);
      var score := ScorePack(packs[i], intent);
      out := out + [Scored(packs[i].name, score, OfPack(packs[i]))];
    }
    assert packs[..|packs|] == packs;
  }

  method ScorePipelines(pipelines: seq<Pipeline>, intent: set<string>, ghost f: Pipeline -> Scored) returns (out: seq<Scored>)
    requires forall p :: f(p) == ScoredPipeline(p, intent)
    ensures out == Image(f, pipelines)
  {
    out := [];
    for i := 0 to |pipelines|
      invariant out == Image(f, pipelines[..i])
    {
      ImageStep(f, pipelines, i);
      var score := ScorePipeline(pipelines[i], intent);
      out := out + [Scored(pipelines[i].id, score, OfPipeline(pipelines[i]))];
    }
    assert pipelines[..|pipelines|] == pipelines;
  }

  method LexicalRank(g: Guide, intent: string) returns (ranked: seq<Scored>)
    ensures ranked == Ranking(g, TokenSet(intent))
  {
    var counts := Tokenize(intent);
    KeysAreTokens(counts, intent);
    var tokens := counts.Keys;
    var packs := ScorePacks(g.packs, tokens, (p: Pack) => ScoredPack(p, tokens));
    var pipelines := ScorePipelines(g.pipelines, tokens, (p: Pipeline) => ScoredPipeline(p, tokens));
    ranked := StableSort(Outranks, packs + pipelines);
  }

  lemma RankingSorts(g: Guide, intent: set<string>)
    ensures Sorted(Outranks, Ranking(g, intent))
  {
    OutranksIsOrder();
    StableSortSorts(Outranks, Entries(g, intent));
  }

  /** Best score first, equal scores by id. */
  lemma RankingIsSorted(g: Guide, intent: set<string>, i: nat, j: nat)
    requires i < j < |Ranking(g, intent)|
    ensures var x, y := Ranking(g, intent)[i], Ranking(g, intent)[j];
            x.score > y.score || (x.score == y.score && (x.id == y.id || Less(x.id, y.id)))
  {
    RankingSorts(g, intent);
    var x, y := Ranking(g, intent)[i], Ranking(g, intent)[j];
    assert !Outranks(y, x);
    LessTotal(x.id, y.id);
  }

  ghost predicate DistinctIds(entries: seq<Scored>) {
    forall x, y :: x in entries && y in entries && x.id == y.id ==> x == y
  }

  /** With distinct ids the ranking is the same for every order of the catalog. */
  lemma RankingIgnoresOrder(g: Guide, h: Guide, intent: set<string>)
    requires multiset(g.packs) == multiset(h.packs) && multiset(g.pipelines) == multiset(h.pipelines)
    requires DistinctIds(Entries(g, intent))
    ensures Ranking(g, intent) == Ranking(h, intent)
  {
    ImageMultiset((p: Pack) => ScoredPack(p, intent), g.packs, h.packs);
    ImageMultiset((p: Pipeline) => ScoredPipeline(p, intent), g.pipelines, h.pipelines);
    assert multiset(Entries(g, intent)) == multiset(Entries(h, intent));
    OutranksIsOrder();
    forall x, y | x in Entries(g, intent) && y in Entries(g, intent) && x != y ensures Outranks(x, y) || Outranks(y, x) {
      LessTotal(x.id, y.id);
    }
    SortIgnoresInputOrder(Outranks, Entries(g, intent), Entries(h, intent));
  }

  // ---------- cuts and confidence ----------

  function TopK(ranked: seq<Scored>, k: int): (r: seq<Scored>)
    ensures r <= ranked
    ensures |r| == if 0 < k < |ranked| then k else |ranked|
  {
    if k <= 0 || k >= |ranked| then ranked else ranked[..k]
  }

  /** The top score leads the second by at least two fifths of itself. */
  predicate HighConfidence(ranked: seq<Scored>) {
    if |ranked| < 2 then true
    else if ranked[0].score == 0 then false
    else if ranked[1].score == 0 then true
    else 5 * (ranked[0].score - ranked[1].score) >= 2 * ranked[0].score
  }

  /** In terms of the scores: less than two entries, or a best score above zero of which the lead over the
      second is 0.4 or more. */
  lemma ConfidenceIsALead(ranked: seq<Scored>)
    ensures HighConfidence(ranked) <==>
              |ranked| < 2 ||
              var top, second := (ranked[0].score as real) / 2.0, (ranked[1].score as real) / 2.0;
              top > 0.0 && (second == 0.0 || (top - second) / top >= 0.4)
  {
    if |ranked| >= 2 && ranked[0].score > 0 {
      var a: int, b: int := ranked[0].score, ranked[1].score;
      RatioAtLeast((a as real) / 2.0, (b as real) / 2.0);
      assert 5.0 * ((a as real) - (b as real)) >= 2.0 * (a as real) <==> 5 * (a - b) >= 2 * a;
    }
  }

  lemma RatioAtLeast(top: real, second: real)
    requires top > 0.0
    ensures (top - second) / top >= 0.4 <==> 5.0 * (top - second) >= 2.0 * top
  {
    var q := (top - second) / top;
    assert q * top == top - second;
    if q >= 0.4 { assert q * top >= 0.4 * top; } else { assert q * top < 0.4 * top; }
  }

  predicate ShouldEscalate(ranked: seq<Scored>, minEntries: nat) {
    |ranked| >= minEntries && !HighConfidence(ranked)
  }
}
