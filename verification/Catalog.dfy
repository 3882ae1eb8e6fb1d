/** The catalog projection (internal/llmcontext/catalog.go), its size on the wire, and the six steps that
    make it smaller (internal/llmcontext/compact.go). */
module Catalog {
  import opened Text
  import opened Json

  datatype PackMetadata = PackMetadata(
    accepts: seq<string>,
    produces: seq<string>,
    intentKeywords: seq<string>,
    typicalUse: string,
    limitations: seq<string>)

  datatype Pack = Pack(name: string, description: string, metadata: PackMetadata)

  /** A pipeline's metadata is raw text: none, text that is not JSON, or a document. */
  datatype Meta = Absent | Invalid | Doc(value: Value)

  datatype Pipeline = Pipeline(id: string, name: string, description: string, metadata: Meta)

  datatype Guide = Guide(packs: seq<Pack>, pipelines: seq<Pipeline>)

  // ---------- marshalling ----------

  function OptStr(name: string, s: string): seq<Field> {
    if s == "" then [] else [Field(name, Str(s))]
  }

  function OptList(name: string, names: seq<string>): seq<Field> {
    if names == [] then [] else [Field(name, Arr(Strs(names)))]
  }

  function MetadataJson(m: PackMetadata): Value {
    Obj(OptList("accepts", m.accepts) + OptList("produces", m.produces) +
        (OptList("intent_keywords", m.intentKeywords) + (OptStr("typical_use", m.typicalUse) + OptList("limitations", m.limitations))))
  }

  function PackJson(p: Pack): Value {
    Obj([Field("name", Str(p.name))] + OptStr("description", p.description) + [Field("metadata", MetadataJson(p.metadata))])
  }

  function MetaJson(m: Meta): seq<Field> {
    if m.Doc? then [Field("metadata", m.value)] else []
  }

  function PipelineJson(p: Pipeline): Value {
    Obj([Field("id", Str(p.id)), Field("name", Str(p.name))] + OptStr("description", p.description) + MetaJson(p.metadata))
  }

  function PackJsons(packs: seq<Pack>): (r: seq<Value>)
    ensures |r| == |packs| && forall i :: 0 <= i < |r| ==> r[i] == PackJson(packs[i])
  {
    seq(|packs|, i requires 0 <= i < |packs| => PackJson(packs[i]))
  }

  function PipelineJsons(pipelines: seq<Pipeline>): (r: seq<Value>)
    ensures |r| == |pipelines| && forall i :: 0 <= i < |r| ==> r[i] == PipelineJson(pipelines[i])
  {
    seq(|pipelines|, i requires 0 <= i < |pipelines| => PipelineJson(pipelines[i]))
  }

  function GuideJson(g: Guide): Value {
    Obj([Field("packs", Arr(PackJsons(g.packs))), Field("pipelines", Arr(PipelineJsons(g.pipelines)))])
  }

  /** json.Marshal fails on raw text that is not JSON. */
  predicate Marshals(g: Guide) {
    forall i :: 0 <= i < |g.pipelines| ==> !g.pipelines[i].metadata.Invalid?
  }

  /** The length of the marshalled catalog. */
  function Bytes(g: Guide): nat {
    Size(GuideJson(g))
  }

  function Marshalled(g: Guide): Option<nat> {
    if Marshals(g) then Some(Bytes(g)) else None
  }

  // ---------- the steps ----------

  function DropKeywords(p: Pack): Pack { p.(metadata := p.metadata.(intentKeywords := [])) }
  function DropTypicalUse(p: Pack): Pack { p.(metadata := p.metadata.(typicalUse := "")) }
  function DropLimitations(p: Pack): Pack { p.(metadata := p.metadata.(limitations := [])) }

  function Keep(fields: seq<Field>, name: string): seq<Field> {
    match Lookup(fields, name) case None => [] case Some(v) => [Field(name, v)]
  }

  /** A step body shrinks to its id, name and pack; a step that is no object stays. */
  function SlimStep(v: Value): Value {
    if v.Obj? then Obj(Keep(v.fields, "id") + Keep(v.fields, "name") + Keep(v.fields, "pack")) else v
  }

  lemma {:induction false} LookupAppend(a: seq<Field>, b: seq<Field>, name: string)
    ensures Lookup(a + b, name) == if Lookup(a, name).Some? then Lookup(a, name) else Lookup(b, name)
  {
    if a == [] {
      assert a + b == b;
    } else {
      assert (a + b)[1..] == a[1..] + b;
      LookupAppend(a[1..], b, name);
    }
  }

  lemma KeepLookup(fields: seq<Field>, kept: string, name: string)
    ensures Lookup(Keep(fields, kept), name) == if name == kept then Lookup(fields, name) else None
  {
  }

  /** Of a step's fields exactly id, name and pack survive, with their values. */
  lemma SlimStepKeeps(fields: seq<Field>, name: string)
    ensures var slim := SlimStep(Obj(fields));
            slim.Obj? && Lookup(slim.fields, name) == if name in ["id", "name", "pack"] then Lookup(fields, name) else None
  {
    var a, b, c := Keep(fields, "id"), Keep(fields, "name"), Keep(fields, "pack");
    LookupAppend(a + b, c, name);
    LookupAppend(a, b, name);
    KeepLookup(fields, "id", name);
    KeepLookup(fields, "name", name);
    KeepLookup(fields, "pack", name);
  }

  function SlimAll(items: seq<Value>): (r: seq<Value>)
    ensures |r| == |items| && forall i :: 0 <= i < |r| ==> r[i] == SlimStep(items[i])
  {
    seq(|items|, i requires 0 <= i < |items| => SlimStep(items[i]))
  }

  predicate HasSteps(m: Meta) {
    && m.Doc? && m.value.Obj?
    && var steps := Lookup(m.value.fields, "steps");
    steps.Some? && steps.value.Arr? && steps.value.items != []
  }

  function SlimSteps(m: Meta): Meta {
    if HasSteps(m) then
      Doc(Obj(Replace(m.value.fields, "steps", Arr(SlimAll(Lookup(m.value.fields, "steps").value.items)))))
    else m
  }

  /** The names of the fields a schema list describes. */
  function NamesOf(items: seq<Value>): seq<string> {
    if items == [] then []
    else
      var head := items[0];
      (if head.Obj? && Lookup(head.fields, "name").Some? && Lookup(head.fields, "name").value.Str?
       then [Lookup(head.fields, "name").value.s] else []) + NamesOf(items[1..])
  }

  /** The order in which a `range` over the object in the given field of the i-th pipeline visits its keys. */
  type Walk = (nat, string, seq<string>) -> seq<string>

  ghost predicate IsWalk(w: Walk) {
    forall i, field, names :: multiset(w(i, field, names)) == multiset(names)
  }

  function SlimSchema(v: Value, w: Walk, i: nat, field: string): Value {
    match v
    case Arr(items) => Arr(Strs(NamesOf(items)))
    case Obj(fields) => Arr(Strs(w(i, field, Names(fields))))
    case _ => v
  }

  function SlimField(fields: seq<Field>, w: Walk, i: nat, name: string): seq<Field> {
    match Lookup(fields, name)
    case None => fields
    case Some(v) => Replace(fields, name, SlimSchema(v, w, i, name))
  }

  function SlimSchemas(m: Meta, w: Walk, i: nat): Meta {
    if m.Doc? && m.value.Obj?
    then Doc(Obj(SlimField(SlimField(m.value.fields, w, i, "inputs"), w, i, "outputs")))
    else m
  }

  /** A terminator that stands before a blank, a newline or the end. */
  predicate EndsSentence(s: string, i: nat)
    requires i < |s|
  {
    s[i] in ".?!" && (i + 1 == |s| || s[i + 1] == ' ' || s[i + 1] == '\n')
  }

  function FirstSentenceFrom(s: string, i: nat): (r: string)
    requires i <= |s|
    ensures r <= s && |r| >= i
    ensures forall k: nat :: i <= k < |r| - 1 ==> !EndsSentence(s, k)
    ensures |r| < |s| ==> |r| > i && EndsSentence(s, |r| - 1)
    decreases |s| - i
  {
    if i == |s| then s
    else if EndsSentence(s, i) then s[..i + 1]
    else FirstSentenceFrom(s, i + 1)
  }

  /** Everything up to the first end of a sentence, or all of it. */
  function FirstSentence(s: string): (r: string)
    ensures r <= s
    ensures forall k: nat :: k < |r| - 1 ==> !EndsSentence(s, k)
    ensures |r| < |s| ==> r != "" && EndsSentence(s, |r| - 1)
  {
    FirstSentenceFrom(s, 0)
  }

  function ShortPack(p: Pack): Pack { p.(description := FirstSentence(p.description)) }
  function ShortPipeline(p: Pipeline): Pipeline { p.(description := FirstSentence(p.description)) }
  function SlimmerSteps(p: Pipeline): Pipeline { p.(metadata := SlimSteps(p.metadata)) }
  function SlimmerSchemas(p: Pipeline, w: Walk, i: nat): Pipeline { p.(metadata := SlimSchemas(p.metadata, w, i)) }

  function EachPack(f: Pack -> Pack, packs: seq<Pack>): (r: seq<Pack>)
    ensures |r| == |packs| && forall i :: 0 <= i < |r| ==> r[i] == f(packs[i])
  {
    seq(|packs|, i requires 0 <= i < |packs| => f(packs[i]))
  }

  function EachPipeline(f: (Pipeline, nat) -> Pipeline, pipelines: seq<Pipeline>): (r: seq<Pipeline>)
    ensures |r| == |pipelines| && forall i: nat :: i < |r| ==> r[i] == f(pipelines[i], i)
  {
    seq(|pipelines|, i requires 0 <= i < |pipelines| => f(pipelines[i], i))
  }

  datatype Drop =
    | IntentKeywords | TypicalUse | Limitations | StepBodies | Schemas | Descriptions
    | StillOverBudget(after: nat, cap: int) | LexicalTopN | LexicalLowConfidence

  /** What each step takes away, in the order of the steps. */
  const LADDER := [IntentKeywords, TypicalUse, Limitations, StepBodies, Schemas, Descriptions]

  function Step(k: nat, g: Guide, w: Walk): Guide
    requires k < 6
  {
    match LADDER[k]
    case IntentKeywords => g.(packs := EachPack(DropKeywords, g.packs))
    case TypicalUse => g.(packs := EachPack(DropTypicalUse, g.packs))
    case Limitations => g.(packs := EachPack(DropLimitations, g.packs))
    case StepBodies => g.(pipelines := EachPipeline((p: Pipeline, i: nat) => SlimmerSteps(p), g.pipelines))
    case Schemas => g.(pipelines := EachPipeline((p: Pipeline, i: nat) => SlimmerSchemas(p, w, i), g.pipelines))
    case _ => Guide(EachPack(ShortPack, g.packs), EachPipeline((p: Pipeline, i: nat) => ShortPipeline(p), g.pipelines))
  }

  /** The catalog after the first k steps. */
  function Ladder(g: Guide, k: nat, w: Walk): Guide
    requires k <= 6
  {
    if k == 0 then g else Step(k - 1, Ladder(g, k - 1, w), w)
  }

  // ---------- projection and steps, field by field ----------

  /** omitempty: an empty string or list is not written. */
  function Unless(empty: bool, v: Value): Option<Value> {
    if empty then None else Some(v)
  }

  lemma OptLookup(key: string, s: string, names: seq<string>, name: string)
    ensures Lookup(OptStr(key, s), name) == Unless(name != key || s == "", Str(s))
    ensures Lookup(OptList(key, names), name) == Unless(name != key || names == [], Arr(Strs(names)))
  {
  }

  /** What is written of a pack's metadata, key by key. */
  lemma MetadataFields(m: PackMetadata, name: string)
    ensures MetadataJson(m).Obj?
    ensures Lookup(MetadataJson(m).fields, name) ==
            if name == "accepts" then Unless(m.accepts == [], Arr(Strs(m.accepts)))
            else if name == "produces" then Unless(m.produces == [], Arr(Strs(m.produces)))
            else if name == "intent_keywords" then Unless(m.intentKeywords == [], Arr(Strs(m.intentKeywords)))
            else if name == "typical_use" then Unless(m.typicalUse == "", Str(m.typicalUse))
            else if name == "limitations" then Unless(m.limitations == [], Arr(Strs(m.limitations)))
            else None
  {
    var a, b, c := OptList("accepts", m.accepts), OptList("produces", m.produces), OptList("intent_keywords", m.intentKeywords);
    var d, e := OptStr("typical_use", m.typicalUse), OptList("limitations", m.limitations);
    LookupAppend(a + b, c + (d + e), name);
    LookupAppend(a, b, name);
    LookupAppend(c, d + e, name);
    LookupAppend(d, e, name);
    OptLookup("accepts", "", m.accepts, name);
    OptLookup("produces", "", m.produces, name);
    OptLookup("intent_keywords", "", m.intentKeywords, name);
    OptLookup("typical_use", m.typicalUse, [], name);
    OptLookup("limitations", "", m.limitations, name);
  }

  /** What is written of a pack. */
  lemma PackFields(p: Pack, name: string)
    ensures PackJson(p).Obj?
    ensures Lookup(PackJson(p).fields, name) ==
            if name == "name" then Some(Str(p.name))
            else if name == "description" then Unless(p.description == "", Str(p.description))
            else if name == "metadata" then Some(MetadataJson(p.metadata))
            else None
  {
    var a, b, c := [Field("name", Str(p.name))], OptStr("description", p.description), [Field("metadata", MetadataJson(p.metadata))];
    LookupAppend(a + b, c, name);
    LookupAppend(a, b, name);
    OptLookup("description", p.description, [], name);
  }

  /** What is written of a pipeline; raw metadata is left out when there is none. */
  lemma PipelineFields(p: Pipeline, name: string)
    requires !p.metadata.Invalid?
    ensures PipelineJson(p).Obj?
    ensures Lookup(PipelineJson(p).fields, name) ==
            if name == "id" then Some(Str(p.id))
            else if name == "name" then Some(Str(p.name))
            else if name == "description" then Unless(p.description == "", Str(p.description))
            else if name == "metadata" then (match p.metadata case Doc(v) => Some(v) case _ => None)
            else None
  {
    var a, b := [Field("id", Str(p.id)), Field("name", Str(p.name))], OptStr("description", p.description);
    LookupAppend(a + b, MetaJson(p.metadata), name);
    LookupAppend(a, b, name);
    OptLookup("description", p.description, [], name);
    assert a[1..][0].name == "name";
  }

  /** A catalog is written under two keys, and marshals exactly when no metadata is broken text. */
  lemma GuideFields(g: Guide)
    ensures GuideJson(g).Obj? && |GuideJson(g).fields| == 2
    ensures var fields := GuideJson(g).fields;
            && fields[0].name == "packs" && fields[0].value.Arr? && |fields[0].value.items| == |g.packs|
            && (forall i :: 0 <= i < |g.packs| ==> fields[0].value.items[i] == PackJson(g.packs[i]))
            && fields[1].name == "pipelines" && fields[1].value.Arr? && |fields[1].value.items| == |g.pipelines|
            && (forall i :: 0 <= i < |g.pipelines| ==> fields[1].value.items[i] == PipelineJson(g.pipelines[i]))
    ensures Marshals(g) <==> forall p :: p in g.pipelines ==> p.metadata == Absent || p.metadata.Doc?
  {
    if forall p :: p in g.pipelines ==> p.metadata == Absent || p.metadata.Doc? {
      forall i | 0 <= i < |g.pipelines| ensures !g.pipelines[i].metadata.Invalid? { assert g.pipelines[i] in g.pipelines; }
    }
  }

  /** A sentence ends with a full stop, a question mark or an exclamation mark before a blank, a new line or the end. */
  lemma SentenceEnds(s: string, i: nat)
    requires i < |s|
    ensures EndsSentence(s, i) <==>
              (s[i] == '.' || s[i] == '?' || s[i] == '!') && (i == |s| - 1 || s[i + 1] == ' ' || s[i + 1] == '\n')
  {
  }

  /** A step's body without what is dropped. */
  ghost predicate StepSlimmed(step: Value, slim: Value) {
    if step.Obj? then
      slim.Obj? && forall name :: Lookup(slim.fields, name) == if name in ["id", "name", "pack"] then Lookup(step.fields, name) else None
    else slim == step
  }

  /** Slimming steps changes the step list alone, and of that the object steps. */
  lemma SlimStepsMean(m: Meta)
    ensures var was, now := m, SlimSteps(m);
            if was.Doc? && was.value.Obj? && Lookup(was.value.fields, "steps").Some? &&
               Lookup(was.value.fields, "steps").value.Arr?
            then
              && now.Doc? && now.value.Obj?
              && (forall name :: name != "steps" ==> Lookup(now.value.fields, name) == Lookup(was.value.fields, name))
              && Lookup(now.value.fields, "steps").Some? && Lookup(now.value.fields, "steps").value.Arr?
              && StepsSlimmed(Lookup(was.value.fields, "steps").value.items, Lookup(now.value.fields, "steps").value.items)
            else now == was
  {
    if HasSteps(m) {
      var fields, items := m.value.fields, Lookup(m.value.fields, "steps").value.items;
      var slim := Arr(SlimAll(items));
      forall name ensures Lookup(Replace(fields, "steps", slim), name) == if name == "steps" then Some(slim) else Lookup(fields, name) {
        ReplaceLookup(fields, "steps", slim, name);
      }
      forall i | 0 <= i < |items| ensures StepSlimmed(items[i], slim.items[i]) {
        if items[i].Obj? {
          forall name ensures Lookup(slim.items[i].fields, name) == if name in ["id", "name", "pack"] then Lookup(items[i].fields, name) else None {
            SlimStepKeeps(items[i].fields, name);
          }
        }
      }
    }
  }

  ghost predicate StepsSlimmed(steps: seq<Value>, slim: seq<Value>) {
    |slim| == |steps| && forall i :: 0 <= i < |steps| ==> StepSlimmed(steps[i], slim[i])
  }

  /** The value describes a field of name n. */
  predicate Named(v: Value, n: string) {
    v.Obj? && Lookup(v.fields, "name") == Some(Str(n))
  }

  /** A schema list becomes the names it describes, in order. */
  lemma {:induction false} NamesOfMeans(items: seq<Value>, v: Value)
    ensures NamesOf(items + [v]) == NamesOf(items) + if v.Obj? && Lookup(v.fields, "name").Some? && Lookup(v.fields, "name").value.Str?
                                                     then [Lookup(v.fields, "name").value.s] else []
    ensures forall n :: Named(v, n) ==> NamesOf(items + [v]) == NamesOf(items) + [n]
  {
    if items == [] {
      assert items + [v] == [v] && [v][1..] == [];
    } else {
      assert (items + [v])[1..] == items[1..] + [v];
      NamesOfMeans(items[1..], v);
    }
  }

  /** A list became the names it describes, an object its keys in the order of the walk. */
  predicate SchemaSlimmed(was: Option<Value>, now: Option<Value>, w: Walk, i: nat, field: string) {
    if was.Some? && was.value.Arr? then now == Some(Arr(Strs(NamesOf(was.value.items))))
    else if was.Some? && was.value.Obj? then now == Some(Arr(Strs(w(i, field, Names(was.value.fields)))))
    else now == was
  }

  /** Slimming schemas changes inputs and outputs alone. */
  lemma SlimSchemasMean(m: Meta, w: Walk, i: nat, name: string)
    ensures var now := SlimSchemas(m, w, i);
            if m.Doc? && m.value.Obj? then
              && now.Doc? && now.value.Obj?
              && if name == "inputs" || name == "outputs"
                 then SchemaSlimmed(Lookup(m.value.fields, name), Lookup(now.value.fields, name), w, i, name)
                 else Lookup(now.value.fields, name) == Lookup(m.value.fields, name)
            else now == m
  {
    if m.Doc? && m.value.Obj? {
      var was := m.value.fields;
      SlimFieldLookup(was, w, i, "inputs", name);
      SlimFieldLookup(was, w, i, "inputs", "outputs");
      SlimFieldLookup(SlimField(was, w, i, "inputs"), w, i, "outputs", name);
    }
  }

  lemma SlimFieldLookup(fields: seq<Field>, w: Walk, i: nat, field: string, name: string)
    ensures Lookup(SlimField(fields, w, i, field), name) ==
            if name == field && Lookup(fields, field).Some? then Some(SlimSchema(Lookup(fields, field).value, w, i, field))
            else Lookup(fields, name)
  {
    if Lookup(fields, field).Some? {
      ReplaceLookup(fields, field, SlimSchema(Lookup(fields, field).value, w, i, field), name);
    }
  }

  // ---------- no step makes the catalog longer ----------

  /** Shortening a middle part of an object shortens the object. */
  lemma FieldsShrink(a: seq<Field>, b: seq<Field>, c: seq<Field>, d: seq<Field>)
    requires |b| <= |c| && FieldsSize(b) <= FieldsSize(c)
    ensures Size(Obj(a + b + d)) <= Size(Obj(a + c + d))
  {
    FieldsSizeAppend(a + b, d);
    FieldsSizeAppend(a, b);
    FieldsSizeAppend(a + c, d);
    FieldsSizeAppend(a, c);
    BracketedMonotone(FieldsSize(a + b + d), |a + b + d|, FieldsSize(a + c + d), |a + c + d|);
  }

  lemma FieldShrinks(name: string, v: Value, u: Value)
    requires Size(v) <= Size(u)
    ensures FieldsSize([Field(name, v)]) <= FieldsSize([Field(name, u)])
  {
  }

  lemma FieldsEnd(a: seq<Field>, b: seq<Field>)
    ensures a + b == a + b + []
  {
  }

  lemma PackMetaShrinks(p: Pack, m: PackMetadata)
    requires Size(MetadataJson(m)) <= Size(MetadataJson(p.metadata))
    ensures Size(PackJson(p.(metadata := m))) <= Size(PackJson(p))
  {
    var a := [Field("name", Str(p.name))] + OptStr("description", p.description);
    FieldShrinks("metadata", MetadataJson(m), MetadataJson(p.metadata));
    FieldsEnd(a, [Field("metadata", MetadataJson(m))]);
    FieldsEnd(a, [Field("metadata", MetadataJson(p.metadata))]);
    FieldsShrink(a, [Field("metadata", MetadataJson(m))], [Field("metadata", MetadataJson(p.metadata))], []);
  }

  lemma KeywordsShrink(p: Pack)
    ensures Size(PackJson(DropKeywords(p))) <= Size(PackJson(p))
  {
    var m := p.metadata;
    FieldsShrink(OptList("accepts", m.accepts) + OptList("produces", m.produces), [],
                 OptList("intent_keywords", m.intentKeywords),
                 OptStr("typical_use", m.typicalUse) + OptList("limitations", m.limitations));
    Regroup(m);
    Regroup(DropKeywords(p).metadata);
    PackMetaShrinks(p, DropKeywords(p).metadata);
  }

  lemma Regroup(m: PackMetadata)
    ensures var a, b := OptList("accepts", m.accepts) + OptList("produces", m.produces), OptList("intent_keywords", m.intentKeywords);
            var c, d := OptStr("typical_use", m.typicalUse), OptList("limitations", m.limitations);
            && MetadataJson(m) == Obj(a + b + (c + d))
            && MetadataJson(m) == Obj((a + b) + c + d)
            && MetadataJson(m) == Obj((a + b + c) + d + [])
  {
    var a, b := OptList("accepts", m.accepts) + OptList("produces", m.produces), OptList("intent_keywords", m.intentKeywords);
    var c, d := OptStr("typical_use", m.typicalUse), OptList("limitations", m.limitations);
    Associates(a, b, c + d);
    Associates(a + b, c, d);
    FieldsEnd(a + b + c, d);
  }

  lemma TypicalUseShrinks(p: Pack)
    ensures Size(PackJson(DropTypicalUse(p))) <= Size(PackJson(p))
  {
    var m := p.metadata;
    FieldsShrink(OptList("accepts", m.accepts) + OptList("produces", m.produces) + OptList("intent_keywords", m.intentKeywords), [],
                 OptStr("typical_use", m.typicalUse), OptList("limitations", m.limitations));
    Regroup(m);
    Regroup(DropTypicalUse(p).metadata);
    PackMetaShrinks(p, DropTypicalUse(p).metadata);
  }

  lemma LimitationsShrink(p: Pack)
    ensures Size(PackJson(DropLimitations(p))) <= Size(PackJson(p))
  {
    var m := p.metadata;
    FieldsShrink(OptList("accepts", m.accepts) + OptList("produces", m.produces) + OptList("intent_keywords", m.intentKeywords) +
                 OptStr("typical_use", m.typicalUse), [], OptList("limitations", m.limitations), []);
    Regroup(m);
    Regroup(DropLimitations(p).metadata);
    PackMetaShrinks(p, DropLimitations(p).metadata);
  }

  lemma DescriptionShrinks(s: string)
    ensures var short := OptStr("description", FirstSentence(s));
            |short| <= |OptStr("description", s)| && FieldsSize(short) <= FieldsSize(OptStr("description", s))
  {
    var t := FirstSentence(s);
    PrefixShrinks(s, |t|);
    assert t == s[..|t|];
    if t != "" { FieldShrinks("description", Str(t), Str(s)); }
  }

  lemma ShortPackShrinks(p: Pack)
    ensures Size(PackJson(ShortPack(p))) <= Size(PackJson(p))
  {
    DescriptionShrinks(p.description);
    FieldsShrink([Field("name", Str(p.name))], OptStr("description", FirstSentence(p.description)),
                 OptStr("description", p.description), [Field("metadata", MetadataJson(p.metadata))]);
  }

  lemma ShortPipelineShrinks(p: Pipeline)
    ensures Size(PipelineJson(ShortPipeline(p))) <= Size(PipelineJson(p))
  {
    DescriptionShrinks(p.description);
    FieldsShrink([Field("id", Str(p.id)), Field("name", Str(p.name))], OptStr("description", FirstSentence(p.description)),
                 OptStr("description", p.description), MetaJson(p.metadata));
  }

  /** Metadata of the same kind, and a document that is not longer. */
  ghost predicate NotLonger(m: Meta, n: Meta) {
    (m.Doc? <==> n.Doc?) && (m.Invalid? <==> n.Invalid?) && (m.Doc? ==> Size(m.value) <= Size(n.value))
  }

  lemma PipelineMetaShrinks(p: Pipeline, m: Meta)
    requires NotLonger(m, p.metadata)
    ensures Size(PipelineJson(p.(metadata := m))) <= Size(PipelineJson(p))
  {
    var a := [Field("id", Str(p.id)), Field("name", Str(p.name))] + OptStr("description", p.description);
    if m.Doc? { FieldShrinks("metadata", m.value, p.metadata.value); }
    FieldsEnd(a, MetaJson(m));
    FieldsEnd(a, MetaJson(p.metadata));
    FieldsShrink(a, MetaJson(m), MetaJson(p.metadata), []);
  }

  function Without(fields: seq<Field>, name: string): seq<Field> {
    if fields == [] then [] else if fields[0].name == name then fields[1..] else [fields[0]] + Without(fields[1..], name)
  }

  lemma {:induction false} WithoutSplits(fields: seq<Field>, name: string, other: string)
    requires other != name
    ensures FieldsSize(fields) == FieldsSize(Keep(fields, name)) + FieldsSize(Without(fields, name))
    ensures |fields| == |Keep(fields, name)| + |Without(fields, name)|
    ensures Lookup(Without(fields, name), other) == Lookup(fields, other)
  {
    if fields != [] && fields[0].name != name {
      WithoutSplits(fields[1..], name, other);
      assert Without(fields, name)[1..] == Without(fields[1..], name);
      assert Keep(fields, name) == Keep(fields[1..], name);
    } else if fields != [] {
      assert Keep(fields, name) == [fields[0]];
      assert Keep(fields, name)[1..] == [];
    }
  }

  /** Three different fields of an object are not longer than the object. */
  lemma ThreeFieldsShrink(fields: seq<Field>, a: string, b: string, c: string)
    requires a != b && a != c && b != c
    ensures Size(Obj(Keep(fields, a) + Keep(fields, b) + Keep(fields, c))) <= Size(Obj(fields))
  {
    WithoutSplits(fields, a, b);
    WithoutSplits(fields, a, c);
    var f := Without(fields, a);
    WithoutSplits(f, b, c);
    WithoutSplits(Without(f, b), c, a);
    FieldsSizeAppend(Keep(fields, a) + Keep(fields, b), Keep(fields, c));
    FieldsSizeAppend(Keep(fields, a), Keep(fields, b));
  }

  lemma SlimStepShrinks(v: Value)
    ensures Size(SlimStep(v)) <= Size(v)
  {
    if v.Obj? { ThreeFieldsShrink(v.fields, "id", "name", "pack"); }
  }

  lemma ReplaceShrinks(fields: seq<Field>, name: string, v: Value)
    requires Lookup(fields, name).Some? && Size(v) <= Size(Lookup(fields, name).value)
    ensures Size(Obj(Replace(fields, name, v))) <= Size(Obj(fields))
  {
    ReplaceSize(fields, name, v);
  }

  lemma SlimStepsShrinks(m: Meta)
    ensures NotLonger(SlimSteps(m), m)
  {
    if HasSteps(m) {
      var items := Lookup(m.value.fields, "steps").value.items;
      forall i | 0 <= i < |items| ensures Size(SlimAll(items)[i]) <= Size(items[i]) { SlimStepShrinks(items[i]); }
      ItemsShrink(SlimAll(items), items);
      ReplaceShrinks(m.value.fields, "steps", Arr(SlimAll(items)));
    }
  }

  lemma NameShrinks(v: Value, name: string)
    requires v.Obj? && Lookup(v.fields, name).Some? && Lookup(v.fields, name).value.Str?
    ensures StrSize(Lookup(v.fields, name).value.s) <= Size(v)
  {
    LookupSize(v.fields, name);
  }

  lemma {:induction false} NamesOfShrinks(items: seq<Value>)
    ensures |NamesOf(items)| <= |items| && ItemsSize(Strs(NamesOf(items))) <= ItemsSize(items)
  {
    if items != [] {
      NamesOfShrinks(items[1..]);
      var rest := NamesOf(items[1..]);
      if NamesOf(items) != rest {
        NameShrinks(items[0], "name");
        assert NamesOf(items)[1..] == rest;
        assert Strs(NamesOf(items))[1..] == Strs(rest);
      }
    }
  }

  lemma SlimSchemaShrinks(v: Value, w: Walk, i: nat, field: string)
    requires IsWalk(w)
    ensures Size(SlimSchema(v, w, i, field)) <= Size(v)
  {
    match v
    case Arr(items) =>
      NamesOfShrinks(items);
      BracketedMonotone(ItemsSize(Strs(NamesOf(items))), |NamesOf(items)|, ItemsSize(items), |items|);
    case Obj(fields) =>
      NamesShrink(fields);
      NamesOrderDoesNotMatter(w(i, field, Names(fields)), Names(fields));
    case _ =>
  }

  lemma SlimFieldShrinks(fields: seq<Field>, w: Walk, i: nat, name: string)
    requires IsWalk(w)
    ensures Size(Obj(SlimField(fields, w, i, name))) <= Size(Obj(fields))
  {
    if Lookup(fields, name).Some? {
      var v := Lookup(fields, name).value;
      SlimSchemaShrinks(v, w, i, name);
      ReplaceShrinks(fields, name, SlimSchema(v, w, i, name));
    }
  }

  lemma SlimSchemasShrinks(m: Meta, w: Walk, i: nat)
    requires IsWalk(w)
    ensures NotLonger(SlimSchemas(m, w, i), m)
  {
    if m.Doc? && m.value.Obj? {
      SlimFieldShrinks(m.value.fields, w, i, "inputs");
      SlimFieldShrinks(SlimField(m.value.fields, w, i, "inputs"), w, i, "outputs");
    }
  }

  ghost predicate PacksNotLonger(a: seq<Pack>, b: seq<Pack>) {
    |a| == |b| && forall i :: 0 <= i < |a| ==> Size(PackJson(a[i])) <= Size(PackJson(b[i]))
  }

  ghost predicate PipelinesNotLonger(a: seq<Pipeline>, b: seq<Pipeline>) {
    |a| == |b| && forall i :: 0 <= i < |a| ==> Size(PipelineJson(a[i])) <= Size(PipelineJson(b[i]))
  }

  lemma GuideShrinks(g: Guide, h: Guide)
    requires PacksNotLonger(g.packs, h.packs) && PipelinesNotLonger(g.pipelines, h.pipelines)
    ensures Bytes(g) <= Bytes(h)
  {
    ItemsShrink(PackJsons(g.packs), PackJsons(h.packs));
    ItemsShrink(PipelineJsons(g.pipelines), PipelineJsons(h.pipelines));
    TwoFieldsShrink("packs", Arr(PackJsons(g.packs)), Arr(PackJsons(h.packs)),
                    "pipelines", Arr(PipelineJsons(g.pipelines)), Arr(PipelineJsons(h.pipelines)));
  }

  lemma TwoFieldsShrink(a: string, u: Value, v: Value, b: string, x: Value, y: Value)
    requires Size(u) <= Size(v) && Size(x) <= Size(y)
    ensures Size(Obj([Field(a, u), Field(b, x)])) <= Size(Obj([Field(a, v), Field(b, y)]))
  {
    PairSize(Field(a, u), Field(b, x));
    PairSize(Field(a, v), Field(b, y));
  }

  lemma PairSize(f: Field, g: Field)
    ensures Size(Obj([f, g])) == 3 + FieldSize(f) + FieldSize(g)
  {
    assert [f, g][1..] == [g] && [g][1..] == [];
    assert FieldsSize([g]) == FieldSize(g);
    assert FieldsSize([f, g]) == FieldSize(f) + FieldsSize([g]);
  }

  lemma PackStepShrinks(f: Pack -> Pack, packs: seq<Pack>)
    requires forall p :: Size(PackJson(f(p))) <= Size(PackJson(p))
    ensures PacksNotLonger(EachPack(f, packs), packs)
  {
  }

  lemma PipelineStepShrinks(f: (Pipeline, nat) -> Pipeline, pipelines: seq<Pipeline>)
    requires forall p, i :: Size(PipelineJson(f(p, i))) <= Size(PipelineJson(p))
    ensures PipelinesNotLonger(EachPipeline(f, pipelines), pipelines)
  {
    var r := EachPipeline(f, pipelines);
    forall i: nat | i < |r| ensures Size(PipelineJson(r[i])) <= Size(PipelineJson(pipelines[i])) {
      assert r[i] == f(pipelines[i], i);
    }
  }

  lemma SlimmerStepsShrink(pipelines: seq<Pipeline>)
    ensures PipelinesNotLonger(EachPipeline((p: Pipeline, i: nat) => SlimmerSteps(p), pipelines), pipelines)
  {
    forall p ensures Size(PipelineJson(SlimmerSteps(p))) <= Size(PipelineJson(p)) {
      SlimStepsShrinks(p.metadata);
      PipelineMetaShrinks(p, SlimSteps(p.metadata));
    }
    PipelineStepShrinks((p: Pipeline, i: nat) => SlimmerSteps(p), pipelines);
  }

  lemma SlimmerSchemasShrink(pipelines: seq<Pipeline>, w: Walk)
    requires IsWalk(w)
    ensures PipelinesNotLonger(EachPipeline((p: Pipeline, i: nat) => SlimmerSchemas(p, w, i), pipelines), pipelines)
  {
    forall p, i ensures Size(PipelineJson(SlimmerSchemas(p, w, i))) <= Size(PipelineJson(p)) {
      SlimSchemasShrinks(p.metadata, w, i);
      PipelineMetaShrinks(p, SlimSchemas(p.metadata, w, i));
    }
    PipelineStepShrinks((p: Pipeline, i: nat) => SlimmerSchemas(p, w, i), pipelines);
  }

  lemma ShortPipelinesShrink(pipelines: seq<Pipeline>)
    ensures PipelinesNotLonger(EachPipeline((p: Pipeline, i: nat) => ShortPipeline(p), pipelines), pipelines)
  {
    forall p ensures Size(PipelineJson(ShortPipeline(p))) <= Size(PipelineJson(p)) { ShortPipelineShrinks(p); }
    PipelineStepShrinks((p: Pipeline, i: nat) => ShortPipeline(p), pipelines);
  }

  lemma PackStepsShrink(packs: seq<Pack>)
    ensures PacksNotLonger(EachPack(DropKeywords, packs), packs)
    ensures PacksNotLonger(EachPack(DropTypicalUse, packs), packs)
    ensures PacksNotLonger(EachPack(DropLimitations, packs), packs)
    ensures PacksNotLonger(EachPack(ShortPack, packs), packs)
  {
    forall p {:trigger PackJson(p)} ensures Size(PackJson(DropKeywords(p))) <= Size(PackJson(p)) { KeywordsShrink(p); }
    PackStepShrinks(DropKeywords, packs);
    forall p {:trigger PackJson(p)} ensures Size(PackJson(DropTypicalUse(p))) <= Size(PackJson(p)) { TypicalUseShrinks(p); }
    PackStepShrinks(DropTypicalUse, packs);
    forall p {:trigger PackJson(p)} ensures Size(PackJson(DropLimitations(p))) <= Size(PackJson(p)) { LimitationsShrink(p); }
    PackStepShrinks(DropLimitations, packs);
    forall p {:trigger PackJson(p)} ensures Size(PackJson(ShortPack(p))) <= Size(PackJson(p)) { ShortPackShrinks(p); }
    PackStepShrinks(ShortPack, packs);
  }

  lemma PartsShrink(k: nat, g: Guide, w: Walk)
    requires k < 6 && IsWalk(w)
    ensures PacksNotLonger(Step(k, g, w).packs, g.packs) && PipelinesNotLonger(Step(k, g, w).pipelines, g.pipelines)
  {
    if k == 3 {
      SlimmerStepsShrink(g.pipelines);
    } else if k == 4 {
      SlimmerSchemasShrink(g.pipelines, w);
    } else {
      PackStepsShrink(g.packs);
      ShortPipelinesShrink(g.pipelines);
    }
  }

  /** No step makes the marshalled catalog longer. */
  lemma StepShrinks(k: nat, g: Guide, w: Walk)
    requires k < 6 && IsWalk(w)
    ensures Bytes(Step(k, g, w)) <= Bytes(g)
  {
    PartsShrink(k, g, w);
    GuideShrinks(Step(k, g, w), g);
  }

  /** No step makes a catalog marshal that did not, or the reverse. */
  lemma {:induction false} LadderMarshals(g: Guide, k: nat, w: Walk)
    requires k <= 6
    ensures Marshals(Ladder(g, k, w)) <==> Marshals(g)
  {
    if k > 0 {
      LadderMarshals(g, k - 1, w);
      var h := Ladder(g, k - 1, w);
      var r := Step(k - 1, h, w);
      assert |r.pipelines| == |h.pipelines|;
      forall i: nat | i < |h.pipelines| ensures r.pipelines[i].metadata.Invalid? <==> h.pipelines[i].metadata.Invalid? { }
    }
  }

  /** Every further step keeps the catalog as short as it was, or shorter. */
  lemma {:induction false} LadderShrinks(g: Guide, j: nat, k: nat, w: Walk)
    requires j <= k <= 6 && IsWalk(w)
    ensures Bytes(Ladder(g, k, w)) <= Bytes(Ladder(g, j, w))
  {
    if j < k {
      LadderShrinks(g, j, k - 1, w);
      StepShrinks(k - 1, Ladder(g, k - 1, w), w);
    }
  }
}
