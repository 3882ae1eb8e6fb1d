/** CompactCatalog (internal/llmcontext/compact.go): applies the steps of the catalog's ladder one after
    another until the marshalled catalog fits the cap. */
module Compact {
  import opened Text
  import opened Json
  import opened Catalog
  import Orders

  datatype Trim = Trim(before: nat, after: nat, dropped: seq<Drop>)

  /** What a run depends on besides the catalog: the cap, the length json.Marshal gives a catalog (none when
      it fails), and the order in which maps are walked. */
  datatype Setting = Setting(cap: int, marshal: Guide -> Option<nat>, walk: Walk)

  ghost predicate Real(c: Setting) {
    IsWalk(c.walk) && forall g :: c.marshal(g) == Marshalled(g)
  }

  /** A catalog that cannot be marshalled does not fit. */
  predicate Fits(c: Setting, g: Guide) {
    c.marshal(g).Some? && c.marshal(g).value <= c.cap
  }

  /** How many of the first j steps are applied: a step is skipped once the catalog fits. */
  function Rungs(c: Setting, g: Guide, j: nat): (n: nat)
    requires j <= 6
    ensures n <= j
  {
    if j == 0 then 0
    else
      var n := Rungs(c, g, j - 1);
      if Fits(c, Ladder(g, n, c.walk)) then n else n + 1
  }

  /** A size is reported as zero when marshalling fails. */
  function Measured(c: Setting, g: Guide): nat {
    if c.marshal(g).Some? then c.marshal(g).value else 0
  }

  function Compacted(c: Setting, g: Guide): Guide {
    if c.cap <= 0 then g else Ladder(g, Rungs(c, g, 6), c.walk)
  }

  function Marker(c: Setting, g: Guide): seq<Drop> {
    if Measured(c, g) > c.cap then [StillOverBudget(Measured(c, g), c.cap)] else []
  }

  function Record(c: Setting, g: Guide): Trim {
    if c.cap <= 0 then Trim(Measured(c, g), Measured(c, g), [])
    else
      var out := Compacted(c, g);
      Trim(Measured(c, g), Measured(c, out), LADDER[..Rungs(c, g, 6)] + Marker(c, out))
  }

  /** The applied steps are the shortest beginning of the ladder after which the catalog fits, or all six. */
  lemma {:induction false} ShortestThatFits(c: Setting, g: Guide, j: nat)
    requires j <= 6
    ensures var n := Rungs(c, g, j);
            && (forall k: nat :: k < n ==> !Fits(c, Ladder(g, k, c.walk)))
            && (n < j ==> Fits(c, Ladder(g, n, c.walk)))
  {
    if j > 0 { ShortestThatFits(c, g, j - 1); }
  }

  lemma RealLadder(c: Setting, g: Guide, j: nat, k: nat)
    requires Real(c) && j <= k <= 6
    ensures var x, y := c.marshal(Ladder(g, j, c.walk)), c.marshal(Ladder(g, k, c.walk));
            (x.Some? <==> Marshals(g)) && (y.Some? <==> Marshals(g)) && (x.Some? ==> y.value <= x.value)
  {
    LadderMarshals(g, j, c.walk);
    LadderMarshals(g, k, c.walk);
    LadderShrinks(g, j, k, c.walk);
  }

  /** The marker appears exactly when the catalog marshals and even the whole ladder leaves it too long;
      otherwise a catalog that marshals ends up within the cap. */
  lemma MarkerMeansOverBudget(c: Setting, g: Guide)
    requires c.cap > 0 && Real(c)
    ensures (exists d :: d in Record(c, g).dropped && d.StillOverBudget?) <==>
            Marshals(g) && !Fits(c, Ladder(g, 6, c.walk))
    ensures Marshals(g) && Fits(c, Ladder(g, 6, c.walk)) ==> Fits(c, Compacted(c, g))
  {
    var n := Rungs(c, g, 6);
    ShortestThatFits(c, g, 6);
    RealLadder(c, g, n, 6);
    MarkerIsLast(c, n, Compacted(c, g));
  }

  lemma MarkerIsLast(c: Setting, n: nat, out: Guide)
    requires n <= 6
    ensures (exists d :: d in LADDER[..n] + Marker(c, out) && d.StillOverBudget?) <==> Marker(c, out) != []
  {
    var dropped := LADDER[..n] + Marker(c, out);
    if Marker(c, out) != [] {
      assert dropped[n].StillOverBudget?;
    } else {
      forall d | d in dropped ensures !d.StillOverBudget? { assert d in LADDER[..n]; }
    }
  }

  /** Compaction never makes a catalog longer. */
  lemma CompactedShrinks(c: Setting, g: Guide)
    requires Real(c)
    ensures Record(c, g).after <= Record(c, g).before
  {
    if c.cap > 0 { RealLadder(c, g, 0, Rungs(c, g, 6)); }
  }

  // ---------- what every step keeps ----------

  ghost predicate PackKept(p: Pack, q: Pack) {
    && q.name == p.name && q.metadata.accepts == p.metadata.accepts && q.metadata.produces == p.metadata.produces
    && q.description <= p.description
  }

  /** Every metadata field outside steps, inputs and outputs is kept, supersedes among them. */
  ghost predicate MetaKept(m: Meta, n: Meta) {
    if m.Doc? && m.value.Obj? then
      && n.Doc? && n.value.Obj?
      && forall name :: name !in ["steps", "inputs", "outputs"] ==> Lookup(n.value.fields, name) == Lookup(m.value.fields, name)
    else n == m
  }

  ghost predicate PipelineKept(p: Pipeline, q: Pipeline) {
    q.id == p.id && q.name == p.name && q.description <= p.description && MetaKept(p.metadata, q.metadata)
  }

  ghost predicate Kept(g: Guide, h: Guide) {
    && |h.packs| == |g.packs| && |h.pipelines| == |g.pipelines|
    && (forall i :: 0 <= i < |g.packs| ==> PackKept(g.packs[i], h.packs[i]))
    && (forall i :: 0 <= i < |g.pipelines| ==> PipelineKept(g.pipelines[i], h.pipelines[i]))
  }

  lemma SlimStepsKeeps(m: Meta)
    ensures MetaKept(m, SlimSteps(m))
  {
    if HasSteps(m) {
      var fields := m.value.fields;
      var slim := Arr(SlimAll(Lookup(fields, "steps").value.items));
      forall name | name !in ["steps", "inputs", "outputs"]
        ensures Lookup(Replace(fields, "steps", slim), name) == Lookup(fields, name)
      {
        ReplaceLookup(fields, "steps", slim, name);
      }
    }
  }

  lemma SlimFieldKeeps(fields: seq<Field>, w: Walk, i: nat, field: string, name: string)
    requires name != field
    ensures Lookup(SlimField(fields, w, i, field), name) == Lookup(fields, name)
  {
    if Lookup(fields, field).Some? { ReplaceLookup(fields, field, SlimSchema(Lookup(fields, field).value, w, i, field), name); }
  }

  lemma SlimSchemasKeeps(m: Meta, w: Walk, i: nat)
    ensures MetaKept(m, SlimSchemas(m, w, i))
  {
    if m.Doc? && m.value.Obj? {
      var fields := m.value.fields;
      forall name | name !in ["steps", "inputs", "outputs"]
        ensures Lookup(SlimSchemas(m, w, i).value.fields, name) == Lookup(fields, name)
      {
        SlimFieldKeeps(fields, w, i, "inputs", name);
        SlimFieldKeeps(SlimField(fields, w, i, "inputs"), w, i, "outputs", name);
      }
    }
  }

  lemma PipelineStepKeeps(p: Pipeline, w: Walk, i: nat)
    ensures PipelineKept(p, SlimmerSteps(p)) && PipelineKept(p, SlimmerSchemas(p, w, i)) && PipelineKept(p, ShortPipeline(p))
  {
    SlimStepsKeeps(p.metadata);
    SlimSchemasKeeps(p.metadata, w, i);
  }

  lemma StepKeeps(k: nat, g: Guide, w: Walk)
    requires k < 6
    ensures Kept(g, Step(k, g, w))
  {
    var h := Step(k, g, w);
    forall i: nat | i < |g.pipelines| ensures PipelineKept(g.pipelines[i], h.pipelines[i]) {
      PipelineStepKeeps(g.pipelines[i], w, i);
    }
  }

  lemma KeptTransitive(f: Guide, g: Guide, h: Guide)
    requires Kept(f, g) && Kept(g, h)
    ensures Kept(f, h)
  {
    forall i | 0 <= i < |f.packs| ensures PackKept(f.packs[i], h.packs[i]) {
      assert PackKept(f.packs[i], g.packs[i]) && PackKept(g.packs[i], h.packs[i]);
    }
    forall i | 0 <= i < |f.pipelines| ensures PipelineKept(f.pipelines[i], h.pipelines[i]) {
      assert PipelineKept(f.pipelines[i], g.pipelines[i]) && PipelineKept(g.pipelines[i], h.pipelines[i]);
    }
  }

  /** Names, ids, order, accepts, produces and supersedes survive any number of steps. */
  lemma {:induction false} LadderKeeps(g: Guide, k: nat, w: Walk)
    requires k <= 6
    ensures Kept(g, Ladder(g, k, w))
  {
    if k > 0 {
      LadderKeeps(g, k - 1, w);
      StepKeeps(k - 1, Ladder(g, k - 1, w), w);
      KeptTransitive(g, Ladder(g, k - 1, w), Ladder(g, k, w));
    }
  }

  /** A pack after the first k steps. */
  ghost predicate PackAfter(p: Pack, q: Pack, k: nat) {
    && q.name == p.name && q.metadata.accepts == p.metadata.accepts && q.metadata.produces == p.metadata.produces
    && q.metadata.intentKeywords == (if k >= 1 then [] else p.metadata.intentKeywords)
    && q.metadata.typicalUse == (if k >= 2 then "" else p.metadata.typicalUse)
    && q.metadata.limitations == (if k >= 3 then [] else p.metadata.limitations)
    && q.description == (if k >= 6 then FirstSentence(p.description) else p.description)
  }

  /** The i-th pipeline after the first k steps. */
  ghost predicate PipelineAfter(p: Pipeline, q: Pipeline, k: nat, w: Walk, i: nat) {
    && q.id == p.id && q.name == p.name
    && q.description == (if k >= 6 then FirstSentence(p.description) else p.description)
    && q.metadata == if k < 4 then p.metadata else if k == 4 then SlimSteps(p.metadata) else SlimSchemas(SlimSteps(p.metadata), w, i)
  }

  /** What the first k steps do: keywords, typical use, limitations, step bodies, schemas, descriptions go, in
      this order, and nothing else changes. */
  lemma {:induction false} LadderSpelledOut(g: Guide, k: nat, w: Walk)
    requires k <= 6
    ensures var h := Ladder(g, k, w);
            && |h.packs| == |g.packs| && |h.pipelines| == |g.pipelines|
            && (forall i :: 0 <= i < |g.packs| ==> PackAfter(g.packs[i], h.packs[i], k))
            && (forall i: nat :: i < |g.pipelines| ==> PipelineAfter(g.pipelines[i], h.pipelines[i], k, w, i))
  {
    if k > 0 {
      LadderSpelledOut(g, k - 1, w);
      StepSpelledOut(Ladder(g, k - 1, w), k, w);
      var f, h := Ladder(g, k - 1, w), Ladder(g, k, w);
      forall i | 0 <= i < |g.packs| ensures PackAfter(g.packs[i], h.packs[i], k) {
        assert PackAfter(g.packs[i], f.packs[i], k - 1) && PackStepped(f.packs[i], h.packs[i], k);
      }
      forall i: nat | i < |g.pipelines| ensures PipelineAfter(g.pipelines[i], h.pipelines[i], k, w, i) {
        assert PipelineAfter(g.pipelines[i], f.pipelines[i], k - 1, w, i);
        assert PipelineStepped(f.pipelines[i], h.pipelines[i], k, w, i);
      }
    }
  }

  /** The k-th step on one pack and on one pipeline. */
  predicate PackStepped(p: Pack, q: Pack, k: nat) {
    if k == 1 then q == p.(metadata := p.metadata.(intentKeywords := []))
    else if k == 2 then q == p.(metadata := p.metadata.(typicalUse := ""))
    else if k == 3 then q == p.(metadata := p.metadata.(limitations := []))
    else if k == 6 then q == p.(description := FirstSentence(p.description))
    else q == p
  }

  predicate PipelineStepped(p: Pipeline, q: Pipeline, k: nat, w: Walk, i: nat) {
    if k == 4 then q == p.(metadata := SlimSteps(p.metadata))
    else if k == 5 then q == p.(metadata := SlimSchemas(p.metadata, w, i))
    else if k == 6 then q == p.(description := FirstSentence(p.description))
    else q == p
  }

  lemma StepSpelledOut(f: Guide, k: nat, w: Walk)
    requires 1 <= k <= 6
    ensures var h := Step(k - 1, f, w);
            && |h.packs| == |f.packs| && |h.pipelines| == |f.pipelines|
            && (forall i :: 0 <= i < |f.packs| ==> PackStepped(f.packs[i], h.packs[i], k))
            && (forall i: nat :: i < |f.pipelines| ==> PipelineStepped(f.pipelines[i], h.pipelines[i], k, w, i))
  {
  }

  /** The record: the sizes before and after, or zero for a catalog that does not marshal; the names of the
      applied steps in their order; and last the marker with both numbers, if the result is still too long. */
  lemma RecordSpelledOut(c: Setting, g: Guide)
    ensures var trim, out := Record(c, g), Compacted(c, g);
            && trim.before == (match c.marshal(g) case Some(n) => n case None => 0)
            && trim.after == (match c.marshal(out) case Some(n) => n case None => 0)
            && (c.cap <= 0 ==> out == g && trim.dropped == [])
            && (c.cap > 0 ==>
                  var n := Rungs(c, g, 6);
                  && out == Ladder(g, n, c.walk)
                  && trim.dropped == [IntentKeywords, TypicalUse, Limitations, StepBodies, Schemas, Descriptions][..n] +
                       if c.marshal(out).Some? && c.marshal(out).value > c.cap then [StillOverBudget(c.marshal(out).value, c.cap)] else [])
  {
  }

  /** Once the first step has been applied no pack has intent keywords left. */
  lemma {:induction false} KeywordsGone(g: Guide, k: nat, w: Walk)
    requires 1 <= k <= 6
    ensures forall p :: p in Ladder(g, k, w).packs ==> p.metadata.intentKeywords == []
  {
    if k > 1 { KeywordsGone(g, k - 1, w); }
  }

  // ---------- map iteration order ----------

  /** Two metadata documents that differ at most in the order of field-name lists, so not in size. */
  ghost predicate SameSize(m: Meta, n: Meta) {
    NotLonger(m, n) && NotLonger(n, m)
  }

  ghost predicate SameButNames(g: Guide, h: Guide) {
    && h.packs == g.packs && |h.pipelines| == |g.pipelines|
    && forall i :: 0 <= i < |g.pipelines| ==>
         h.pipelines[i].(metadata := Absent) == g.pipelines[i].(metadata := Absent) &&
         SameSize(g.pipelines[i].metadata, h.pipelines[i].metadata)
  }

  lemma SlimSchemaWalks(v: Value, w: Walk, w': Walk, i: nat, field: string)
    requires IsWalk(w) && IsWalk(w')
    ensures Size(SlimSchema(v, w, i, field)) == Size(SlimSchema(v, w', i, field))
  {
    if v.Obj? { NamesOrderDoesNotMatter(w(i, field, Names(v.fields)), w'(i, field, Names(v.fields))); }
  }

  lemma ReplaceSameSize(fields: seq<Field>, gields: seq<Field>, name: string, v: Value, u: Value)
    requires Lookup(fields, name).Some? && Lookup(gields, name) == Lookup(fields, name) && Size(v) == Size(u)
    requires |gields| == |fields| && FieldsSize(gields) == FieldsSize(fields)
    ensures |Replace(gields, name, u)| == |Replace(fields, name, v)|
    ensures FieldsSize(Replace(gields, name, u)) == FieldsSize(Replace(fields, name, v))
  {
    ReplaceSize(fields, name, v);
    ReplaceSize(gields, name, u);
  }

  lemma SlimFieldWalks(fields: seq<Field>, gields: seq<Field>, w: Walk, w': Walk, i: nat, name: string)
    requires IsWalk(w) && IsWalk(w')
    requires Lookup(gields, name) == Lookup(fields, name) && |gields| == |fields| && FieldsSize(gields) == FieldsSize(fields)
    ensures |SlimField(gields, w', i, name)| == |SlimField(fields, w, i, name)|
    ensures FieldsSize(SlimField(gields, w', i, name)) == FieldsSize(SlimField(fields, w, i, name))
  {
    if Lookup(fields, name).Some? {
      var v := Lookup(fields, name).value;
      SlimSchemaWalks(v, w, w', i, name);
      ReplaceSameSize(fields, gields, name, SlimSchema(v, w, i, name), SlimSchema(v, w', i, name));
    }
  }

  lemma SlimSchemasWalks(m: Meta, w: Walk, w': Walk, i: nat)
    requires IsWalk(w) && IsWalk(w')
    ensures SameSize(SlimSchemas(m, w, i), SlimSchemas(m, w', i))
  {
    if m.Doc? && m.value.Obj? {
      var fields := m.value.fields;
      SlimFieldWalks(fields, fields, w, w', i, "inputs");
      SlimFieldKeeps(fields, w, i, "inputs", "outputs");
      SlimFieldKeeps(fields, w', i, "inputs", "outputs");
      SlimFieldWalks(SlimField(fields, w, i, "inputs"), SlimField(fields, w', i, "inputs"), w, w', i, "outputs");
    }
  }

  lemma LadderUpToSchemas(g: Guide, k: nat, w: Walk, w': Walk)
    requires k <= 4
    ensures Ladder(g, k, w) == Ladder(g, k, w')
  {
    if k > 0 { LadderUpToSchemas(g, k - 1, w, w'); }
  }

  lemma LadderWalks(g: Guide, k: nat, w: Walk, w': Walk)
    requires k <= 6 && IsWalk(w) && IsWalk(w')
    ensures SameButNames(Ladder(g, k, w), Ladder(g, k, w'))
  {
    if k <= 4 {
      LadderUpToSchemas(g, k, w, w');
    } else if k == 5 {
      LadderUpToSchemas(g, 4, w, w');
      var h := Ladder(g, 4, w);
      SchemasWalk(h, w, w');
    } else {
      LadderWalks(g, 5, w, w');
      DescriptionsWalk(Ladder(g, 5, w), Ladder(g, 5, w'), w, w');
    }
  }

  lemma SchemasWalk(h: Guide, w: Walk, w': Walk)
    requires IsWalk(w) && IsWalk(w')
    ensures SameButNames(Step(4, h, w), Step(4, h, w'))
  {
    forall i: nat | i < |h.pipelines|
      ensures SameSize(SlimSchemas(h.pipelines[i].metadata, w, i), SlimSchemas(h.pipelines[i].metadata, w', i))
    {
      SlimSchemasWalks(h.pipelines[i].metadata, w, w', i);
    }
  }

  lemma DescriptionsWalk(g: Guide, h: Guide, w: Walk, w': Walk)
    requires SameButNames(g, h)
    ensures SameButNames(Step(5, g, w), Step(5, h, w'))
  {
    var x, y := Step(5, g, w), Step(5, h, w');
    forall i: nat | i < |x.pipelines|
      ensures y.pipelines[i].(metadata := Absent) == x.pipelines[i].(metadata := Absent)
      ensures SameSize(x.pipelines[i].metadata, y.pipelines[i].metadata)
    {
      assert h.pipelines[i].(metadata := Absent) == g.pipelines[i].(metadata := Absent);
      assert h.pipelines[i].description == h.pipelines[i].(metadata := Absent).description;
      assert g.pipelines[i].description == g.pipelines[i].(metadata := Absent).description;
    }
  }

  lemma SameButNamesSameBytes(g: Guide, h: Guide)
    requires SameButNames(g, h)
    ensures Bytes(g) == Bytes(h) && (Marshals(g) <==> Marshals(h))
  {
    assert PipelinesNotLonger(g.pipelines, h.pipelines) && PipelinesNotLonger(h.pipelines, g.pipelines) by {
      forall i | 0 <= i < |g.pipelines|
        ensures Size(PipelineJson(g.pipelines[i])) == Size(PipelineJson(h.pipelines[i]))
      {
        var p, q := g.pipelines[i], h.pipelines[i];
        assert p.(metadata := Absent).(metadata := q.metadata) == q && q.(metadata := Absent).(metadata := p.metadata) == p;
        PipelineMetaShrinks(p, q.metadata);
        PipelineMetaShrinks(q, p.metadata);
      }
    }
    GuideShrinks(g, h);
    GuideShrinks(h, g);
    forall i | 0 <= i < |g.pipelines| ensures g.pipelines[i].metadata.Invalid? <==> h.pipelines[i].metadata.Invalid? { }
  }

  lemma MarshalWalks(c: Setting, g: Guide, n: nat, w: Walk)
    requires n <= 6 && Real(c) && IsWalk(w)
    ensures c.marshal(Ladder(g, n, c.walk)) == c.marshal(Ladder(g, n, w))
  {
    LadderWalks(g, n, c.walk, w);
    SameButNamesSameBytes(Ladder(g, n, c.walk), Ladder(g, n, w));
  }

  lemma {:induction false} RungsAgree(c: Setting, g: Guide, w: Walk, j: nat)
    requires j <= 6
    requires forall n: nat :: n <= 6 ==> c.marshal(Ladder(g, n, c.walk)) == c.marshal(Ladder(g, n, w))
    ensures Rungs(c, g, j) == Rungs(c.(walk := w), g, j)
  {
    if j > 0 { RungsAgree(c, g, w, j - 1); }
  }

  lemma RungsWalks(c: Setting, g: Guide, w: Walk, j: nat)
    requires j <= 6 && Real(c) && IsWalk(w)
    ensures Rungs(c, g, j) == Rungs(c.(walk := w), g, j)
  {
    forall n: nat | n <= 6 ensures c.marshal(Ladder(g, n, c.walk)) == c.marshal(Ladder(g, n, w)) {
      MarshalWalks(c, g, n, w);
    }
    RungsAgree(c, g, w, j);
  }

  /** The record does not depend on the order in which maps are walked. */
  lemma RecordIgnoresWalk(c: Setting, g: Guide, w: Walk)
    requires Real(c) && IsWalk(w)
    ensures Record(c, g) == Record(c.(walk := w), g)
  {
    if c.cap > 0 {
      RungsWalks(c, g, w, 6);
      MarshalWalks(c, g, Rungs(c, g, 6), w);
    }
  }

  // ---------- schema slimming a second time ----------

  lemma {:induction false} NamesOfStrings(names: seq<string>)
    ensures NamesOf(Strs(names)) == []
  {
    if names != [] {
      assert Strs(names)[1..] == Strs(names[1..]);
      NamesOfStrings(names[1..]);
    }
  }

  lemma NamesAreEmpty(names: seq<string>)
    ensures Strs(names) == [] <==> names == []
  {
  }

  /** Slimming a schema twice loses the names. The second pass changes nothing exactly for a value that is
      neither list nor object, a list that names no field, and an object without fields. */
  lemma SlimmingAgain(v: Value, w: Walk, w': Walk, i: nat, field: string)
    requires IsWalk(w)
    ensures var once := SlimSchema(v, w, i, field);
            SlimSchema(once, w', i, field) == once
            <==> match v
                 case Arr(items) => NamesOf(items) == []
                 case Obj(fields) => fields == []
                 case _ => true
  {
    match v
    case Arr(items) =>
      NamesOfStrings(NamesOf(items));
      NamesAreEmpty(NamesOf(items));
    case Obj(fields) =>
      var names := w(i, field, Names(fields));
      assert multiset(names) == multiset(Names(fields));
      Orders.PermutationMembers(names, Names(fields));
      NamesOfStrings(names);
      NamesAreEmpty(names);
    case _ =>
  }

  // ---------- the loops ----------

  method DropKeywordsAll(packs: array<Pack>)
    modifies packs
    ensures packs[..] == EachPack(DropKeywords, old(packs[..]))
  {
    for i := 0 to packs.Length
      invariant forall k :: 0 <= k < i ==> packs[k] == DropKeywords(old(packs[k]))
      invariant forall k :: i <= k < packs.Length ==> packs[k] == old(packs[k])
    {
      packs[i] := packs[i].(metadata := packs[i].metadata.(intentKeywords := []));
    }
  }

  method DropTypicalUseAll(packs: array<Pack>)
    modifies packs
    ensures packs[..] == EachPack(DropTypicalUse, old(packs[..]))
  {
    for i := 0 to packs.Length
      invariant forall k :: 0 <= k < i ==> packs[k] == DropTypicalUse(old(packs[k]))
      invariant forall k :: i <= k < packs.Length ==> packs[k] == old(packs[k])
    {
      packs[i] := packs[i].(metadata := packs[i].metadata.(typicalUse := ""));
    }
  }

  method DropLimitationsAll(packs: array<Pack>)
    modifies packs
    ensures packs[..] == EachPack(DropLimitations, old(packs[..]))
  {
    for i := 0 to packs.Length
      invariant forall k :: 0 <= k < i ==> packs[k] == DropLimitations(old(packs[k]))
      invariant forall k :: i <= k < packs.Length ==> packs[k] == old(packs[k])
    {
      packs[i] := packs[i].(metadata := packs[i].metadata.(limitations := []));
    }
  }

  /** Rewrites the decoded steps one by one. */
  method SlimPipelineSteps(meta: Meta) returns (r: Meta, changed: bool)
    ensures r == SlimSteps(meta) && (changed <==> HasSteps(meta))
  {
    if !meta.Doc? || !meta.value.Obj? {
      return meta, false;
    }
    var found := Lookup(meta.value.fields, "steps");
    if found.None? || !found.value.Arr? || found.value.items == [] {
      return meta, false;
    }
    var steps := found.value.items;
    for i := 0 to |steps|
      invariant |steps| == |found.value.items|
      invariant forall k :: 0 <= k < i ==> steps[k] == SlimStep(found.value.items[k])
      invariant forall k :: i <= k < |steps| ==> steps[k] == found.value.items[k]
    {
      if !steps[i].Obj? {
        continue;
      }
      var slim: seq<Field> := [];
      var v := Lookup(steps[i].fields, "id");
      if v.Some? {
        slim := slim + [Field("id", v.value)];
      }
      v := Lookup(steps[i].fields, "name");
      if v.Some? {
        slim := slim + [Field("name", v.value)];
      }
      v := Lookup(steps[i].fields, "pack");
      if v.Some? {
        slim := slim + [Field("pack", v.value)];
      }
      assert Obj(slim) == SlimStep(steps[i]);
      steps := steps[i := Obj(slim)];
    }
    assert steps == SlimAll(found.value.items);
    r, changed := Doc(Obj(Replace(meta.value.fields, "steps", Arr(steps)))), true;
  }

  lemma {:induction false} NamesOfAppend(items: seq<Value>, v: Value)
    ensures NamesOf(items + [v]) == NamesOf(items) + NamesOf([v])
  {
    if items == [] {
      assert [] + [v] == [v];
    } else {
      assert (items + [v])[1..] == items[1..] + [v];
      NamesOfAppend(items[1..], v);
    }
  }

  /** The names in a list of schema objects. */
  method CollectNames(items: seq<Value>) returns (names: seq<string>)
    ensures names == NamesOf(items)
  {
    names := [];
    for i := 0 to |items|
      invariant names == NamesOf(items[..i])
    {
      assert items[..i + 1] == items[..i] + [items[i]];
      NamesOfAppend(items[..i], items[i]);
      assert NamesOf([items[i]][1..]) == [];
      if items[i].Obj? {
        var n := Lookup(items[i].fields, "name");
        if n.Some? && n.value.Str? {
          names := names + [n.value.s];
        }
      }
    }
    assert items[..|items|] == items;
  }

  /** Walks the two schema fields; the keys of an object come in the order of the walk. */
  method SlimPipelineSchemas(meta: Meta, w: Walk, i: nat) returns (r: Meta, changed: bool)
    ensures r == SlimSchemas(meta, w, i)
    ensures !changed ==> r == meta
  {
    if !meta.Doc? || !meta.value.Obj? {
      return meta, false;
    }
    var fields := meta.value.fields;
    changed := false;
    for f := 0 to 2
      invariant fields == (if f == 0 then meta.value.fields
                           else if f == 1 then SlimField(meta.value.fields, w, i, "inputs")
                           else SlimField(SlimField(meta.value.fields, w, i, "inputs"), w, i, "outputs"))
      invariant !changed ==> fields == meta.value.fields
    {
      var field := if f == 0 then "inputs" else "outputs";
      var raw := Lookup(fields, field);
      if raw.None? {
        continue;
      }
      match raw.value {
        case Arr(items) =>
          var names := CollectNames(items);
          fields := Replace(fields, field, Arr(Strs(names)));
          changed := true;
        case Obj(entries) =>
          fields := Replace(fields, field, Arr(Strs(w(i, field, Names(entries)))));
          changed := true;
        case _ =>
          ReplaceSelf(fields, field);
      }
    }
    r := if changed then Doc(Obj(fields)) else meta;
  }

  lemma {:induction false} ReplaceSelf(fields: seq<Field>, name: string)
    requires Lookup(fields, name).Some?
    ensures Replace(fields, name, Lookup(fields, name).value) == fields
  {
    if fields[0].name == name {
      assert fields == [fields[0]] + fields[1..];
    } else {
      ReplaceSelf(fields[1..], name);
    }
  }

  method SlimStepsAll(pipelines: array<Pipeline>)
    modifies pipelines
    ensures pipelines[..] == EachPipeline((p: Pipeline, i: nat) => SlimmerSteps(p), old(pipelines[..]))
  {
    for i := 0 to pipelines.Length
      invariant forall k :: 0 <= k < i ==> pipelines[k] == SlimmerSteps(old(pipelines[k]))
      invariant forall k :: i <= k < pipelines.Length ==> pipelines[k] == old(pipelines[k])
    {
      var v, changed := SlimPipelineSteps(pipelines[i].metadata);
      if changed {
        pipelines[i] := pipelines[i].(metadata := v);
      }
    }
  }

  method SlimSchemasAll(pipelines: array<Pipeline>, w: Walk)
    modifies pipelines
    ensures pipelines[..] == EachPipeline((p: Pipeline, i: nat) => SlimmerSchemas(p, w, i), old(pipelines[..]))
  {
    for i := 0 to pipelines.Length
      invariant forall k: nat :: k < i ==> pipelines[k] == SlimmerSchemas(old(pipelines[k]), w, k)
      invariant forall k :: i <= k < pipelines.Length ==> pipelines[k] == old(pipelines[k])
    {
      var v, changed := SlimPipelineSchemas(pipelines[i].metadata, w, i);
      if changed {
        pipelines[i] := pipelines[i].(metadata := v);
      }
    }
  }

  method ShortenAll(packs: array<Pack>, pipelines: array<Pipeline>)
    modifies packs, pipelines
    ensures packs[..] == EachPack(ShortPack, old(packs[..]))
    ensures pipelines[..] == EachPipeline((p: Pipeline, i: nat) => ShortPipeline(p), old(pipelines[..]))
  {
    for i := 0 to packs.Length
      invariant forall k :: 0 <= k < i ==> packs[k] == ShortPack(old(packs[k]))
      invariant forall k :: i <= k < packs.Length ==> packs[k] == old(packs[k])
      invariant pipelines[..] == old(pipelines[..])
    {
      packs[i] := packs[i].(description := FirstSentence(packs[i].description));
    }
    ghost var was := old(pipelines[..]);
    for i := 0 to pipelines.Length
      invariant packs[..] == EachPack(ShortPack, old(packs[..]))
      invariant forall k :: 0 <= k < i ==> pipelines[k] == ShortPipeline(was[k])
      invariant forall k :: i <= k < pipelines.Length ==> pipelines[k] == was[k]
    {
      pipelines[i] := pipelines[i].(description := FirstSentence(pipelines[i].description));
    }
  }

  /** One step of the ladder, in place. */
  method ApplyStep(k: nat, packs: array<Pack>, pipelines: array<Pipeline>, w: Walk)
    requires k < 6
    modifies packs, pipelines
    ensures Guide(packs[..], pipelines[..]) == Step(k, Guide(old(packs[..]), old(pipelines[..])), w)
  {
    match LADDER[k] {
      case IntentKeywords => DropKeywordsAll(packs);
      case TypicalUse => DropTypicalUseAll(packs);
      case Limitations => DropLimitationsAll(packs);
      case StepBodies => SlimStepsAll(pipelines);
      case Schemas => SlimSchemasAll(pipelines, w);
      case _ => ShortenAll(packs, pipelines);
    }
  }

  /** The catalog and the record of dropped parts after the first k measured steps on g. */
  ghost predicate AfterRungs(c: Setting, g: Guide, k: nat, now: Guide, dropped: seq<Drop>) {
    k <= 6 && now == Ladder(g, Rungs(c, g, k), c.walk) && dropped == LADDER[..Rungs(c, g, k)]
  }

  /** One rung: measure, and apply the step when the catalog does not fit. */
  method Rung(k: nat, packs: array<Pack>, pipelines: array<Pipeline>, c: Setting, dropped: seq<Drop>, ghost g: Guide)
    returns (more: seq<Drop>)
    requires k < 6 && AfterRungs(c, g, k, Guide(packs[..], pipelines[..]), dropped)
    modifies packs, pipelines
    ensures AfterRungs(c, g, k + 1, Guide(packs[..], pipelines[..]), more)
  {
    ShortestThatFits(c, g, k);
    more := dropped;
    if !Fits(c, Guide(packs[..], pipelines[..])) {
      ApplyStep(k, packs, pipelines, c.walk);
      more := dropped + [LADDER[k]];
    }
  }

  /** The first n measured steps, one after another. */
  method Descend(packs: array<Pack>, pipelines: array<Pipeline>, c: Setting, n: nat) returns (dropped: seq<Drop>)
    requires n <= 6
    modifies packs, pipelines
    ensures AfterRungs(c, Guide(old(packs[..]), old(pipelines[..])), n, Guide(packs[..], pipelines[..]), dropped)
  {
    ghost var g := Guide(packs[..], pipelines[..]);
    dropped := [];
    for k := 0 to n
      invariant AfterRungs(c, g, k, Guide(packs[..], pipelines[..]), dropped)
    {
      dropped := Rung(k, packs, pipelines, c, dropped, g);
    }
  }

  /** The caller's arrays are only read; with a cap the result stands in new ones. */
  method CompactCatalog(packs: array<Pack>, pipelines: array<Pipeline>, c: Setting)
    returns (outPacks: array<Pack>, outPipelines: array<Pipeline>, trim: Trim)
    ensures Guide(outPacks[..], outPipelines[..]) == Compacted(c, Guide(packs[..], pipelines[..]))
    ensures trim == Record(c, Guide(packs[..], pipelines[..]))
    ensures if c.cap <= 0 then outPacks == packs && outPipelines == pipelines else fresh(outPacks) && fresh(outPipelines)
  {
    var g := Guide(packs[..], pipelines[..]);
    if c.cap <= 0 {
      return packs, pipelines, Trim(Measured(c, g), Measured(c, g), []);
    }
    outPacks := new Pack[packs.Length](i requires 0 <= i < packs.Length reads packs => packs[i]);
    outPipelines := new Pipeline[pipelines.Length](i requires 0 <= i < pipelines.Length reads pipelines => pipelines[i]);
    assert outPacks[..] == packs[..] && outPipelines[..] == pipelines[..];
    var dropped := Descend(outPacks, outPipelines, c, 6);
    var out := Guide(outPacks[..], outPipelines[..]);
    trim := Trim(Measured(c, g), Measured(c, out), dropped);
    if trim.after > c.cap {
      trim := trim.(dropped := dropped + [StillOverBudget(trim.after, c.cap)]);
    }
  }
}
