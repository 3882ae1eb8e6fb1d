/** Tool turns through the three provider adapters (internal/gateway/content.go, openai.go, anthropic.go,
    gemini.go): what an assistant's reply becomes, and what is sent when it is echoed in the next request. */
module ToolTurns {
  import opened Text
  import opened Lists
  import DataUrl

  /** One part of a message; inputs and contents are raw JSON text. `ImagePart(None)` has no URL. */
  datatype Part =
    | TextPart(text: string)
    | ImagePart(url: Option<string>)
    | ToolUse(id: string, name: string, input: string)
    | ToolResult(id: string, content: string, isError: bool)
    | OtherPart(kind: string)

  datatype Content = Missing | Plain(text: string) | Parts(parts: seq<Part>)

  datatype Message = Message(role: string, content: Content, name: string)

  datatype Call = Call(id: string, name: string, input: string)

  datatype Result = Result(id: string, content: string)

  function CallsOf(p: Part): seq<Call> { if p.ToolUse? then [Call(p.id, p.name, p.input)] else [] }
  function ResultsOf(p: Part): seq<Result> { if p.ToolResult? then [Result(p.id, p.content)] else [] }
  function OthersOf(p: Part): seq<Part> { if p.ToolUse? || p.ToolResult? then [] else [p] }

  function UseOf(c: Call): Part { ToolUse(c.id, c.name, c.input) }

  function OptText(s: string): seq<Part> { if s == "" then [] else [TextPart(s)] }

  /** The text of a content: every text part, without separators. */
  function TextOf(c: Content): string {
    match c
    case Missing => ""
    case Plain(s) => s
    case Parts(ps) => FlatMap((p: Part) => if p.TextPart? then p.text else "", ps)
  }

  // ---------- OpenAI ----------

  /** The wire's content: none, a gateway content, or a plain string. */
  datatype Body = NoBody | AsIs(content: Content) | Raw(text: string)

  datatype UpMessage = UpMessage(role: string, body: Body, name: string, toolCalls: seq<Call>, toolCallId: string)

  function ResultMessage(p: Part): seq<UpMessage> {
    if p.ToolResult? then [UpMessage("tool", Raw(p.content), "", [], p.id)] else []
  }

  /** The messages one gateway message is sent as. */
  function Split(m: Message): seq<UpMessage> {
    if !m.content.Parts? then [UpMessage(m.role, AsIs(m.content), m.name, [], "")]
    else
      BaseOf(m) + FlatMap(ResultMessage, m.content.parts)
  }

  /** The message with the sender's calls and other parts, if there are any. */
  function BaseOf(m: Message): seq<UpMessage>
    requires m.content.Parts?
  {
    var others, calls := FlatMap(OthersOf, m.content.parts), FlatMap(CallsOf, m.content.parts);
    if others == [] && calls == [] then []
    else [UpMessage(m.role, if others == [] then NoBody else AsIs(Parts(others)), m.name, calls, "")]
  }

  predicate IsResult(p: Part) { p.ToolResult? }
  predicate IsCall(p: Part) { p.ToolUse? }
  predicate IsOther(p: Part) { !p.ToolUse? && !p.ToolResult? }

  /** The call field by field. */
  predicate SameCall(p: Part, c: Call) {
    p.ToolUse? && c.id == p.id && c.name == p.name && c.input == p.input
  }

  /** A message of its own for a tool result. */
  predicate CarriesResult(p: Part, u: UpMessage) {
    && p.ToolResult? && u.role == "tool" && u.toolCallId == p.id && u.body == Raw(p.content)
    && u.name == "" && u.toolCalls == []
  }

  function PartsOf(m: Message): seq<Part> {
    if m.content.Parts? then m.content.parts else []
  }

  /** The base message, which speaks for the sender. */
  predicate CarriesRest(m: Message, u: UpMessage) {
    var calls, others := Only(IsCall, PartsOf(m)), Only(IsOther, PartsOf(m));
    && u.role == m.role && u.name == m.name && u.toolCallId == ""
    && |u.toolCalls| == |calls| && (forall k :: 0 <= k < |calls| ==> SameCall(calls[k], u.toolCalls[k]))
    && u.body == if !m.content.Parts? then AsIs(m.content) else if others == [] then NoBody else AsIs(Parts(others))
  }

  /** The message is not multipart or has a part that is no result. */
  ghost predicate HasRest(m: Message) {
    !m.content.Parts? || exists p :: p in m.content.parts && !p.ToolResult?
  }

  /** First the base message, unless all parts are results; then one message for each result, in order. */
  ghost predicate IsSplit(m: Message, out: seq<UpMessage>) {
    var results := Only(IsResult, PartsOf(m));
    var base := if HasRest(m) then 1 else 0;
    && |out| == base + |results|
    && (base == 1 ==> CarriesRest(m, out[0]))
    && forall k :: 0 <= k < |results| ==> CarriesResult(results[k], out[base + k])
  }

  lemma BaseMeans(m: Message)
    requires m.content.Parts?
    ensures var base := BaseOf(m);
            && |base| == (if HasRest(m) then 1 else 0)
            && (base != [] ==> CarriesRest(m, base[0]))
  {
    var ps := m.content.parts;
    FlatMapAligned(CallsOf, IsCall, SameCall, ps);
    FlatMapIsOnly(OthersOf, IsOther, ps);
    if p :| p in ps && !p.ToolResult? {
      OnlyMembers(IsCall, ps, p);
      OnlyMembers(IsOther, ps, p);
    } else {
      NoneKept(ps);
    }
  }

  lemma {:induction false} NoneKept(ps: seq<Part>)
    requires forall p :: p in ps ==> p.ToolResult?
    ensures FlatMap(CallsOf, ps) == [] && FlatMap(OthersOf, ps) == []
  {
    FlatMapNothing(CallsOf, ps);
    FlatMapNothing(OthersOf, ps);
  }

  lemma SplitMeans(m: Message)
    ensures IsSplit(m, Split(m))
  {
    if m.content.Parts? {
      BaseMeans(m);
      FlatMapAligned(ResultMessage, IsResult, CarriesResult, m.content.parts);
      BaseThenResults(m, BaseOf(m), FlatMap(ResultMessage, m.content.parts));
    }
  }

  lemma BaseThenResults(m: Message, base: seq<UpMessage>, more: seq<UpMessage>)
    requires |base| == (if HasRest(m) then 1 else 0)
    requires base != [] ==> CarriesRest(m, base[0])
    requires var results := Only(IsResult, PartsOf(m));
             |more| == |results| && forall k :: 0 <= k < |results| ==> CarriesResult(results[k], more[k])
    ensures IsSplit(m, base + more)
  {
    assert forall k :: 0 <= k < |more| ==> (base + more)[|base| + k] == more[k];
  }

  method SplitMessage(m: Message) returns (out: seq<UpMessage>)
    ensures out == Split(m)
    ensures IsSplit(m, out)
  {
    SplitMeans(m);
    if !m.content.Parts? {
      return [UpMessage(m.role, AsIs(m.content), m.name, [], "")];
    }
    var ps := m.content.parts;
    var others: seq<Part>, calls: seq<Call>, results: seq<UpMessage> := [], [], [];
    for i := 0 to |ps|
      invariant others == FlatMap(OthersOf, ps[..i])
      invariant calls == FlatMap(CallsOf, ps[..i])
      invariant results == FlatMap(ResultMessage, ps[..i])
    {
      FlatMapStep(OthersOf, ps, i);
      FlatMapStep(CallsOf, ps, i);
      FlatMapStep(ResultMessage, ps, i);
      match ps[i] {
        case ToolUse(id, name, input) => calls := calls + [Call(id, name, input)];
        case ToolResult(id, content, _) => results := results + [UpMessage("tool", Raw(content), "", [], id)];
        case _ => others := others + [ps[i]];
      }
    }
    assert ps[..|ps|] == ps;
    out := [];
    if |others| > 0 || |calls| > 0 {
      var base := UpMessage(m.role, NoBody, m.name, calls, "");
      if |others| > 0 {
        base := base.(body := AsIs(Parts(others)));
      }
      out := [base];
    }
    out := out + results;
  }

  method TranslateMessages(msgs: seq<Message>) returns (out: seq<UpMessage>)
    ensures out == FlatMap(Split, msgs)
  {
    out := [];
    for i := 0 to |msgs|
      invariant out == FlatMap(Split, msgs[..i])
    {
      FlatMapStep(Split, msgs, i);
      var more := SplitMessage(msgs[i]);
      out := out + more;
    }
    assert msgs[..|msgs|] == msgs;
  }

  // What a list of upstream messages carries, kind by kind.
  function CarriedCalls(u: UpMessage): seq<Call> { u.toolCalls }
  function CarriedResults(u: UpMessage): seq<Result> { if u.body.Raw? then [Result(u.toolCallId, u.body.text)] else [] }
  function CarriedParts(u: UpMessage): seq<Part> { if u.body.AsIs? && u.body.content.Parts? then u.body.content.parts else [] }

  // What a gateway message holds, kind by kind.
  function HeldCalls(m: Message): seq<Call> { if m.content.Parts? then FlatMap(CallsOf, m.content.parts) else [] }
  function HeldResults(m: Message): seq<Result> { if m.content.Parts? then FlatMap(ResultsOf, m.content.parts) else [] }
  function HeldParts(m: Message): seq<Part> { if m.content.Parts? then FlatMap(OthersOf, m.content.parts) else [] }

  lemma ResultMessagesCarry(ps: seq<Part>)
    ensures FlatMap(CarriedCalls, FlatMap(ResultMessage, ps)) == []
    ensures FlatMap(CarriedResults, FlatMap(ResultMessage, ps)) == FlatMap(ResultsOf, ps)
    ensures FlatMap(CarriedParts, FlatMap(ResultMessage, ps)) == []
  {
    forall p ensures FlatMap(CarriedCalls, ResultMessage(p)) == [] && FlatMap(CarriedParts, ResultMessage(p)) == []
             ensures FlatMap(CarriedResults, ResultMessage(p)) == ResultsOf(p)
    {
      if p.ToolResult? {
        FlatMapOne(CarriedCalls, ResultMessage(p)[0]);
        FlatMapOne(CarriedParts, ResultMessage(p)[0]);
        FlatMapOne(CarriedResults, ResultMessage(p)[0]);
      }
    }
    var noCalls: Part -> seq<Call>, noParts: Part -> seq<Part> := (p: Part) => [], (p: Part) => [];
    FlatMapCompose(CarriedCalls, ResultMessage, noCalls, ps);
    FlatMapCompose(CarriedParts, ResultMessage, noParts, ps);
    FlatMapCompose(CarriedResults, ResultMessage, ResultsOf, ps);
    FlatMapNothing(noCalls, ps);
    FlatMapNothing(noParts, ps);
  }

  lemma {:induction false} FlatMapNothing<S, T>(f: S -> seq<T>, xs: seq<S>)
    requires forall x :: x in xs ==> f(x) == []
    ensures FlatMap(f, xs) == []
  {
    if xs != [] {
      assert forall y :: y in xs[..|xs| - 1] ==> y in xs;
      FlatMapNothing(f, xs[..|xs| - 1]);
    }
  }

  /** Taking one kind out of the base message and the result messages. */
  lemma SplitCarries(m: Message)
    ensures FlatMap(CarriedCalls, Split(m)) == HeldCalls(m)
    ensures FlatMap(CarriedResults, Split(m)) == HeldResults(m)
    ensures FlatMap(CarriedParts, Split(m)) == HeldParts(m)
  {
    if !m.content.Parts? {
      FlatMapOne(CarriedCalls, Split(m)[0]);
      FlatMapOne(CarriedResults, Split(m)[0]);
      FlatMapOne(CarriedParts, Split(m)[0]);
    } else {
      var ps := m.content.parts;
      var others, calls := FlatMap(OthersOf, ps), FlatMap(CallsOf, ps);
      ResultMessagesCarry(ps);
      if others != [] || calls != [] {
        var base := UpMessage(m.role, if others == [] then NoBody else AsIs(Parts(others)), m.name, calls, "");
        BaseCarries(base, FlatMap(ResultMessage, ps));
        assert Split(m) == [base] + FlatMap(ResultMessage, ps);
      } else {
        assert Split(m) == FlatMap(ResultMessage, ps);
      }
    }
  }

  lemma BaseCarries(base: UpMessage, rest: seq<UpMessage>)
    ensures FlatMap(CarriedCalls, [base] + rest) == CarriedCalls(base) + FlatMap(CarriedCalls, rest)
    ensures FlatMap(CarriedResults, [base] + rest) == CarriedResults(base) + FlatMap(CarriedResults, rest)
    ensures FlatMap(CarriedParts, [base] + rest) == CarriedParts(base) + FlatMap(CarriedParts, rest)
  {
    FlatMapAppend(CarriedCalls, [base], rest);
    FlatMapOne(CarriedCalls, base);
    FlatMapAppend(CarriedResults, [base], rest);
    FlatMapOne(CarriedResults, base);
    FlatMapAppend(CarriedParts, [base], rest);
    FlatMapOne(CarriedParts, base);
  }

  /** Splitting a request carries every tool call, every tool result (up to its error flag, which the wire
      has no place for) and every other part exactly once, in their order. */
  lemma NothingIsLost(msgs: seq<Message>)
    ensures FlatMap(CarriedCalls, FlatMap(Split, msgs)) == FlatMap(HeldCalls, msgs)
    ensures FlatMap(CarriedResults, FlatMap(Split, msgs)) == FlatMap(HeldResults, msgs)
    ensures FlatMap(CarriedParts, FlatMap(Split, msgs)) == FlatMap(HeldParts, msgs)
  {
    forall m ensures FlatMap(CarriedCalls, Split(m)) == HeldCalls(m) { SplitCarries(m); }
    FlatMapCompose(CarriedCalls, Split, HeldCalls, msgs);
    forall m ensures FlatMap(CarriedResults, Split(m)) == HeldResults(m) { SplitCarries(m); }
    FlatMapCompose(CarriedResults, Split, HeldResults, msgs);
    forall m ensures FlatMap(CarriedParts, Split(m)) == HeldParts(m) { SplitCarries(m); }
    FlatMapCompose(CarriedParts, Split, HeldParts, msgs);
  }

  /** Every part is of exactly one of the three kinds. */
  lemma {:induction false} KindsAreComplete(ps: seq<Part>)
    ensures |FlatMap(CallsOf, ps)| + |FlatMap(ResultsOf, ps)| + |FlatMap(OthersOf, ps)| == |ps|
  {
    if ps != [] { KindsAreComplete(ps[..|ps| - 1]); }
  }

  datatype OpenAiReply = OpenAiReply(role: string, content: Option<string>, calls: seq<Call>)

  function ReplyText(r: OpenAiReply): string {
    if r.content.Some? then r.content.value else ""
  }

  lemma {:induction false} UsesAligned(calls: seq<Call>)
    ensures var uses := FlatMap((x: Call) => [UseOf(x)], calls);
            |uses| == |calls| && forall k :: 0 <= k < |calls| ==> SameCall(uses[k], calls[k])
  {
    if calls != [] { UsesAligned(calls[..|calls| - 1]); }
  }

  /** First the text, unless it is empty; then one part for each call, in order. */
  predicate DecodesCalls(r: OpenAiReply, ps: seq<Part>) {
    var text := if r.content.None? || r.content.value == "" then 0 else 1;
    && |ps| == text + |r.calls|
    && (text == 1 ==> ps[0] == TextPart(r.content.value))
    && forall k :: 0 <= k < |r.calls| ==> SameCall(ps[text + k], r.calls[k])
  }

  lemma DecodedMeans(r: OpenAiReply)
    ensures DecodesCalls(r, OptText(ReplyText(r)) + FlatMap((x: Call) => [UseOf(x)], r.calls))
  {
    UsesAligned(r.calls);
    TextThenUses(r, OptText(ReplyText(r)), FlatMap((x: Call) => [UseOf(x)], r.calls));
  }

  lemma TextThenUses(r: OpenAiReply, text: seq<Part>, uses: seq<Part>)
    requires text == if r.content.None? || r.content.value == "" then [] else [TextPart(r.content.value)]
    requires |uses| == |r.calls| && forall k :: 0 <= k < |r.calls| ==> SameCall(uses[k], r.calls[k])
    ensures DecodesCalls(r, text + uses)
  {
    assert forall k :: 0 <= k < |uses| ==> (text + uses)[|text| + k] == uses[k];
  }

  method DecodeOpenAi(r: OpenAiReply) returns (c: Content)
    ensures if r.calls != [] then c.Parts? && DecodesCalls(r, c.parts)
            else c == Plain(match r.content case None => "" case Some(s) => s)
    ensures c == if r.calls == [] then Plain(ReplyText(r))
                 else Parts(OptText(ReplyText(r)) + FlatMap((x: Call) => [UseOf(x)], r.calls))
  {
    DecodedMeans(r);
    if |r.calls| == 0 {
      return Plain(if r.content.Some? then r.content.value else "");
    }
    var parts: seq<Part> := [];
    if r.content.Some? && r.content.value != "" {
      parts := [TextPart(r.content.value)];
    }
    for i := 0 to |r.calls|
      invariant parts == OptText(ReplyText(r)) + FlatMap((x: Call) => [UseOf(x)], r.calls[..i])
    {
      FlatMapStep((x: Call) => [UseOf(x)], r.calls, i);
      parts := parts + [ToolUse(r.calls[i].id, r.calls[i].name, r.calls[i].input)];
    }
    assert r.calls[..|r.calls|] == r.calls;
    c := Parts(parts);
  }

  lemma {:induction false} UsesOfCalls(calls: seq<Call>)
    ensures var uses := FlatMap((x: Call) => [UseOf(x)], calls);
            && FlatMap(CallsOf, uses) == calls && FlatMap(OthersOf, uses) == [] && FlatMap(ResultMessage, uses) == []
  {
    var f := (x: Call) => [UseOf(x)];
    if calls != [] {
      var rest, x := calls[..|calls| - 1], calls[|calls| - 1];
      UsesOfCalls(rest);
      assert calls == rest + [x];
      FlatMapLast(CallsOf, FlatMap(f, rest), UseOf(x));
      FlatMapLast(OthersOf, FlatMap(f, rest), UseOf(x));
      FlatMapLast(ResultMessage, FlatMap(f, rest), UseOf(x));
    }
  }

  lemma TextAndUses(text: seq<Part>, calls: seq<Call>)
    requires |text| <= 1 && forall p :: p in text ==> p.TextPart?
    ensures var ps := text + FlatMap((x: Call) => [UseOf(x)], calls);
            && FlatMap(CallsOf, ps) == calls && FlatMap(OthersOf, ps) == text && FlatMap(ResultMessage, ps) == []
  {
    var uses := FlatMap((x: Call) => [UseOf(x)], calls);
    UsesOfCalls(calls);
    FlatMapAppend(CallsOf, text, uses);
    FlatMapAppend(OthersOf, text, uses);
    FlatMapAppend(ResultMessage, text, uses);
    if text != [] {
      assert text == [text[0]] && text[0] in text;
      FlatMapOne(CallsOf, text[0]);
      FlatMapOne(OthersOf, text[0]);
      FlatMapOne(ResultMessage, text[0]);
    }
    assert FlatMap(CallsOf, text) == [] && FlatMap(OthersOf, text) == text && FlatMap(ResultMessage, text) == [];
    assert [] + calls == calls && text + [] == text;
  }

  /** Echoing a decoded reply sends its calls as they came, in order, with its text if it has one. */
  method EchoOpenAi(r: OpenAiReply) returns (out: seq<UpMessage>)
    ensures out == [UpMessage(
                      r.role,
                      if r.calls == [] then AsIs(Plain(ReplyText(r)))
                      else if ReplyText(r) == "" then NoBody
                      else AsIs(Parts([TextPart(ReplyText(r))])),
                      "", r.calls, "")]
  {
    var c := DecodeOpenAi(r);
    out := SplitMessage(Message(r.role, c, ""));
    TextAndUses(OptText(ReplyText(r)), r.calls);
  }

  // ---------- Anthropic ----------

  datatype Block =
    | TextBlock(text: string)
    | ImageBlock(source: DataUrl.Source)
    | ToolUseBlock(id: string, name: string, input: string)
    | ToolResultBlock(id: string, content: string, isError: bool)
    | OtherBlock(kind: string)

  datatype AnthropicBody = Words(text: string) | Blocks(blocks: seq<Block>)

  function SourceOf(url: string): DataUrl.Source {
    match DataUrl.Read(url) case Some((m, d)) => DataUrl.Base64(m, d) case None => DataUrl.Url(url)
  }

  function BlockOf(p: Part): seq<Block> {
    match p
    case TextPart(s) => [TextBlock(s)]
    case ImagePart(url) => if url.Some? then [ImageBlock(SourceOf(url.value))] else []
    case ToolUse(id, name, input) => [ToolUseBlock(id, name, input)]
    case ToolResult(id, content, isError) => [ToolResultBlock(id, content, isError)]
    case OtherPart(_) => []
  }

  /** Parts that have a block. */
  predicate HasBlock(p: Part) {
    !p.OtherPart? && (p.ImagePart? ==> p.url.Some?)
  }

  /** Part and block say the same, field by field. */
  predicate SameBlock(p: Part, b: Block) {
    match p
    case TextPart(s) => b.TextBlock? && b.text == s
    case ImagePart(url) =>
      && url.Some? && b.ImageBlock?
      && (match DataUrl.Read(url.value)
          case Some((mediaType, data)) => b.source == DataUrl.Base64(mediaType, data)
          case None => b.source == DataUrl.Url(url.value))
    case ToolUse(id, name, input) => b.ToolUseBlock? && b.id == id && b.name == name && b.input == input
    case ToolResult(id, content, isError) =>
      b.ToolResultBlock? && b.id == id && b.content == content && b.isError == isError
    case OtherPart(_) => false
  }

  predicate Matching(ps: seq<Part>, blocks: seq<Block>) {
    |ps| == |blocks| && forall k :: 0 <= k < |ps| ==> SameBlock(ps[k], blocks[k])
  }

  method AnthropicContent(c: Content) returns (body: AnthropicBody)
    ensures body == if c.Parts? then Blocks(FlatMap(BlockOf, c.parts)) else Words(TextOf(c))
    ensures match c
            case Missing => body == Words("")
            case Plain(s) => body == Words(s)
            case Parts(ps) => body.Blocks? && Matching(Only(HasBlock, ps), body.blocks)
  {
    if c.Parts? { FlatMapAligned(BlockOf, HasBlock, SameBlock, c.parts); }
    if !c.Parts? {
      return Words(TextOf(c));
    }
    var blocks: seq<Block> := [];
    for i := 0 to |c.parts|
      invariant blocks == FlatMap(BlockOf, c.parts[..i])
    {
      FlatMapStep(BlockOf, c.parts, i);
      match c.parts[i] {
        case TextPart(s) => blocks := blocks + [TextBlock(s)];
        case ImagePart(url) =>
          if url.None? {
            continue;
          }
          var src := DataUrl.ImageUrlToAnthropicSource(url.value);
          blocks := blocks + [ImageBlock(src)];
        case ToolUse(id, name, input) => blocks := blocks + [ToolUseBlock(id, name, input)];
        case ToolResult(id, content, isError) => blocks := blocks + [ToolResultBlock(id, content, isError)];
        case OtherPart(_) =>
      }
    }
    assert c.parts[..|c.parts|] == c.parts;
    body := Blocks(blocks);
  }

  function PartOfBlock(b: Block): seq<Part> {
    if b.TextBlock? then OptText(b.text)
    else if b.ToolUseBlock? then [ToolUse(b.id, b.name, b.input)]
    else []
  }

  function BlockText(b: Block): string {
    if b.TextBlock? then b.text else ""
  }

  predicate HasTool(blocks: seq<Block>) {
    exists i :: 0 <= i < |blocks| && blocks[i].ToolUseBlock?
  }

  /** Blocks that have a part. */
  predicate HasPart(b: Block) {
    b.ToolUseBlock? || (b.TextBlock? && b.text != "")
  }

  predicate SamePart(b: Block, p: Part) {
    SameBlock(p, b)
  }

  predicate IsText(b: Block) {
    b.TextBlock?
  }

  lemma {:induction false} TextsJoined(blocks: seq<Block>)
    ensures FlatMap(BlockText, blocks) == JoinedTexts(Only(IsText, blocks))
  {
    if blocks != [] {
      var rest, b := blocks[..|blocks| - 1], blocks[|blocks| - 1];
      TextsJoined(rest);
      JoinedTextsLast(Only(IsText, rest), b);
      assert Only(IsText, blocks) == if b.TextBlock? then Only(IsText, rest) + [b] else Only(IsText, rest);
    }
  }

  lemma JoinedTextsLast(blocks: seq<Block>, b: Block)
    ensures JoinedTexts(blocks + [b]) == JoinedTexts(blocks) + if b.TextBlock? then b.text else ""
  {
    assert (blocks + [b])[..|blocks|] == blocks;
  }

  /** The texts of text blocks, one after the other. */
  function JoinedTexts(blocks: seq<Block>): string {
    if blocks == [] then ""
    else JoinedTexts(blocks[..|blocks| - 1]) + if blocks[|blocks| - 1].TextBlock? then blocks[|blocks| - 1].text else ""
  }

  method DecodeAnthropic(blocks: seq<Block>) returns (c: Content)
    ensures c == if HasTool(blocks) then Parts(FlatMap(PartOfBlock, blocks)) else Plain(FlatMap(BlockText, blocks))
    ensures if exists b :: b in blocks && b.ToolUseBlock? then c.Parts? && Matching(c.parts, Only(HasPart, blocks))
            else c == Plain(JoinedTexts(Only(IsText, blocks)))
  {
    FlatMapAligned(PartOfBlock, HasPart, SamePart, blocks);
    TextsJoined(blocks);
    var hasTool := false;
    for i := 0 to |blocks|
      invariant !hasTool && forall k :: 0 <= k < i ==> !blocks[k].ToolUseBlock?
    {
      if blocks[i].ToolUseBlock? {
        hasTool := true;
        break;
      }
    }
    var parts: seq<Part>, text := [], "";
    for i := 0 to |blocks|
      invariant hasTool ==> parts == FlatMap(PartOfBlock, blocks[..i])
      invariant !hasTool ==> text == FlatMap(BlockText, blocks[..i])
    {
      FlatMapStep(PartOfBlock, blocks, i);
      FlatMapStep(BlockText, blocks, i);
      if hasTool {
        match blocks[i] {
          case TextBlock(s) =>
            if s != "" {
              parts := parts + [TextPart(s)];
            }
          case ToolUseBlock(id, name, input) => parts := parts + [ToolUse(id, name, input)];
          case _ =>
        }
      } else if blocks[i].TextBlock? {
        text := text + blocks[i].text;
      }
    }
    assert blocks[..|blocks|] == blocks;
    c := if hasTool then Parts(parts) else Plain(text);
  }

  /** The blocks of a reply that an echo repeats: calls and texts that are not empty. */
  function Echoed(b: Block): seq<Block> {
    if b.ToolUseBlock? || (b.TextBlock? && b.text != "") then [b] else []
  }

  /** Echoing a decoded reply sends the same calls and non-empty texts in the same order; a reply without
      calls goes back as its joined text. */
  method EchoAnthropic(blocks: seq<Block>) returns (body: AnthropicBody)
    ensures body == if HasTool(blocks) then Blocks(FlatMap(Echoed, blocks)) else Words(FlatMap(BlockText, blocks))
  {
    var c := DecodeAnthropic(blocks);
    body := AnthropicContent(c);
    EchoedBlocks(blocks);
  }

  lemma EchoedBlocks(blocks: seq<Block>)
    ensures FlatMap(BlockOf, FlatMap(PartOfBlock, blocks)) == FlatMap(Echoed, blocks)
  {
    forall b ensures FlatMap(BlockOf, PartOfBlock(b)) == Echoed(b) {
      if PartOfBlock(b) != [] { FlatMapOne(BlockOf, PartOfBlock(b)[0]); }
    }
    FlatMapCompose(BlockOf, PartOfBlock, Echoed, blocks);
  }

  // ---------- Gemini ----------

  datatype FnCall = FnCall(name: string, args: string)

  datatype FnResponse = FnResponse(name: string, response: string)

  datatype Inline = Inline(mime: string, data: string)

  /** The wire lets all four fields be set at once. */
  datatype GeminiPart = GeminiPart(text: string, inline: Option<Inline>, call: Option<FnCall>, response: Option<FnResponse>)

  function GText(s: string): GeminiPart { GeminiPart(s, None, None, None) }
  function GCall(f: FnCall): GeminiPart { GeminiPart("", None, Some(f), None) }

  const ID_PREFIX := "gemini-call-"

  function TrimPrefix(s: string, prefix: string): string {
    if prefix <= s then s[|prefix|..] else s
  }

  function GImage(url: string): GeminiPart {
    match DataUrl.Read(url)
    case Some((m, d)) => if m != "" then GeminiPart("", Some(Inline(m, d)), None, None) else GText("[image: " + url + "]")
    case None => GText("[image: " + url + "]")
  }

  function GeminiOf(p: Part): seq<GeminiPart> {
    match p
    case TextPart(s) => [GText(s)]
    case ImagePart(url) => if url.Some? then [GImage(url.value)] else []
    case ToolUse(_, name, input) => [GCall(FnCall(name, input))]
    case ToolResult(id, content, _) => [GeminiPart("", None, None, Some(FnResponse(TrimPrefix(id, ID_PREFIX), content)))]
    case OtherPart(_) => []
  }

  /** Part and Gemini part say the same, field by field. A function's name is the call id without the
      prefix that made-up ids have. */
  predicate SameGemini(p: Part, g: GeminiPart) {
    match p
    case TextPart(s) => g.text == s && g.inline == None && g.call == None && g.response == None
    case ImagePart(url) =>
      && url.Some? && g.call == None && g.response == None
      && (match DataUrl.Read(url.value)
          case Some((mediaType, data)) =>
            if mediaType != "" then g.text == "" && g.inline == Some(Inline(mediaType, data))
            else g.text == "[image: " + url.value + "]" && g.inline == None
          case None => g.text == "[image: " + url.value + "]" && g.inline == None)
    case ToolUse(_, name, input) =>
      g.text == "" && g.inline == None && g.response == None && g.call.Some? && g.call.value.name == name && g.call.value.args == input
    case ToolResult(id, content, _) =>
      && g.text == "" && g.inline == None && g.call == None && g.response.Some? && g.response.value.response == content
      && if "gemini-call-" <= id then id == "gemini-call-" + g.response.value.name else g.response.value.name == id
    case OtherPart(_) => false
  }

  lemma GeminiOfIsSame(p: Part)
    ensures if HasBlock(p) then |GeminiOf(p)| == 1 && SameGemini(p, GeminiOf(p)[0]) else GeminiOf(p) == []
  {
    if p.ToolResult? && ID_PREFIX <= p.id { assert p.id == ID_PREFIX + p.id[|ID_PREFIX|..]; }
  }

  predicate MatchingGemini(ps: seq<Part>, gs: seq<GeminiPart>) {
    |ps| == |gs| && forall k :: 0 <= k < |ps| ==> SameGemini(ps[k], gs[k])
  }

  method MessageContentToGeminiParts(c: Content) returns (out: seq<GeminiPart>)
    ensures out == if c.Parts? then FlatMap(GeminiOf, c.parts) else [GText(TextOf(c))]
    ensures match c
            case Missing => out == [GeminiPart("", None, None, None)]
            case Plain(s) => out == [GeminiPart(s, None, None, None)]
            case Parts(ps) => MatchingGemini(Only(HasBlock, ps), out)
  {
    if c.Parts? {
      forall p ensures if HasBlock(p) then |GeminiOf(p)| == 1 && SameGemini(p, GeminiOf(p)[0]) else GeminiOf(p) == [] {
        GeminiOfIsSame(p);
      }
      FlatMapAligned(GeminiOf, HasBlock, SameGemini, c.parts);
    }
    if !c.Parts? {
      return [GText(TextOf(c))];
    }
    out := [];
    for i := 0 to |c.parts|
      invariant out == FlatMap(GeminiOf, c.parts[..i])
    {
      FlatMapStep(GeminiOf, c.parts, i);
      match c.parts[i] {
        case TextPart(s) => out := out + [GText(s)];
        case ImagePart(url) =>
          if url.None? {
            continue;
          }
          var d := DataUrl.DecodeDataUrl(url.value);
          if d.Some? {
            out := out + [GeminiPart("", Some(Inline(d.value.0, d.value.1)), None, None)];
          } else {
            out := out + [GText("[image: " + url.value + "]")];
          }
        case ToolUse(_, name, input) => out := out + [GCall(FnCall(name, input))];
        case ToolResult(id, content, _) =>
          out := out + [GeminiPart("", None, None, Some(FnResponse(TrimPrefix(id, ID_PREFIX), content)))];
        case OtherPart(_) =>
      }
    }
    assert c.parts[..|c.parts|] == c.parts;
  }

  predicate HasCall(parts: seq<GeminiPart>) {
    exists i :: 0 <= i < |parts| && parts[i].call.Some?
  }

  function PartOfGemini(g: GeminiPart): seq<Part> {
    if g.call.Some? then [ToolUse(ID_PREFIX + g.call.value.name, g.call.value.name, g.call.value.args)] else OptText(g.text)
  }

  predicate GHasPart(g: GeminiPart) {
    g.call.Some? || g.text != ""
  }

  /** A call gets an id made of its function's name; it wins over a text beside it. */
  predicate GSamePart(g: GeminiPart, p: Part) {
    if g.call.Some? then
      p.ToolUse? && p.id == "gemini-call-" + g.call.value.name && p.name == g.call.value.name && p.input == g.call.value.args
    else p.TextPart? && p.text == g.text
  }

  predicate MatchingDecoded(gs: seq<GeminiPart>, ps: seq<Part>) {
    |gs| == |ps| && forall k :: 0 <= k < |gs| ==> GSamePart(gs[k], ps[k])
  }

  method DecodeGemini(parts: seq<GeminiPart>) returns (c: Content)
    ensures c == if HasCall(parts) then Parts(FlatMap(PartOfGemini, parts)) else Plain(FlatMap((g: GeminiPart) => g.text, parts))
    ensures if exists g :: g in parts && g.call.Some? then c.Parts? && MatchingDecoded(Only(GHasPart, parts), c.parts)
            else c.Plain?
  {
    FlatMapAligned(PartOfGemini, GHasPart, GSamePart, parts);
    var hasFn := false;
    for i := 0 to |parts|
      invariant !hasFn && forall k :: 0 <= k < i ==> parts[k].call.None?
    {
      if parts[i].call.Some? {
        hasFn := true;
        break;
      }
    }
    var out: seq<Part>, text := [], "";
    for i := 0 to |parts|
      invariant hasFn ==> out == FlatMap(PartOfGemini, parts[..i])
      invariant !hasFn ==> text == FlatMap((g: GeminiPart) => g.text, parts[..i])
    {
      FlatMapStep(PartOfGemini, parts, i);
      FlatMapStep((g: GeminiPart) => g.text, parts, i);
      if !hasFn {
        text := text + parts[i].text;
      } else if parts[i].call.Some? {
        var f := parts[i].call.value;
        out := out + [ToolUse(ID_PREFIX + f.name, f.name, f.args)];
      } else if parts[i].text != "" {
        out := out + [TextPart(parts[i].text)];
      }
    }
    assert parts[..|parts|] == parts;
    c := if hasFn then Parts(out) else Plain(text);
  }

  function GEchoed(g: GeminiPart): seq<GeminiPart> {
    if g.call.Some? then [GCall(g.call.value)] else if g.text != "" then [GText(g.text)] else []
  }

  lemma EchoedGemini(parts: seq<GeminiPart>)
    ensures FlatMap(GeminiOf, FlatMap(PartOfGemini, parts)) == FlatMap(GEchoed, parts)
  {
    forall g ensures FlatMap(GeminiOf, PartOfGemini(g)) == GEchoed(g) {
      if PartOfGemini(g) != [] { FlatMapOne(GeminiOf, PartOfGemini(g)[0]); }
    }
    FlatMapCompose(GeminiOf, PartOfGemini, GEchoed, parts);
  }

  method EchoGemini(parts: seq<GeminiPart>) returns (out: seq<GeminiPart>)
    ensures out == if HasCall(parts) then FlatMap(GEchoed, parts) else [GText(FlatMap((g: GeminiPart) => g.text, parts))]
  {
    var c := DecodeGemini(parts);
    out := MessageContentToGeminiParts(c);
    EchoedGemini(parts);
  }

  function GCallsOf(g: GeminiPart): seq<FnCall> { if g.call.Some? then [g.call.value] else [] }
  function GTextsOf(g: GeminiPart): seq<string> { if g.text != "" then [g.text] else [] }

  /** A part that carries both a call and a text. */
  predicate Both(g: GeminiPart) {
    g.call.Some? && g.text != ""
  }

  /** The echo has the same calls in the same order, always. */
  lemma {:induction false} EchoKeepsCalls(parts: seq<GeminiPart>)
    ensures FlatMap(GCallsOf, FlatMap(GEchoed, parts)) == FlatMap(GCallsOf, parts)
  {
    forall g ensures FlatMap(GCallsOf, GEchoed(g)) == GCallsOf(g) {
      if GEchoed(g) != [] { FlatMapOne(GCallsOf, GEchoed(g)[0]); }
    }
    FlatMapCompose(GCallsOf, GEchoed, GCallsOf, parts);
  }

  function EchoTexts(g: GeminiPart): seq<string> {
    if Both(g) then [] else GTextsOf(g)
  }

  lemma {:induction false} BothLosesTexts(parts: seq<GeminiPart>)
    ensures |FlatMap(EchoTexts, parts)| <= |FlatMap(GTextsOf, parts)|
    ensures if forall g :: g in parts ==> !Both(g) then FlatMap(EchoTexts, parts) == FlatMap(GTextsOf, parts)
            else |FlatMap(EchoTexts, parts)| < |FlatMap(GTextsOf, parts)|
  {
    if parts != [] {
      var rest := parts[..|parts| - 1];
      assert parts == rest + [parts[|parts| - 1]];
      BothLosesTexts(rest);
    }
  }

  /** It has the same non-empty texts in the same order exactly when no part carries both a call and a text. */
  lemma EchoKeepsTextsIff(parts: seq<GeminiPart>)
    ensures FlatMap(GTextsOf, FlatMap(GEchoed, parts)) == FlatMap(GTextsOf, parts) <==> forall g :: g in parts ==> !Both(g)
  {
    forall g ensures FlatMap(GTextsOf, GEchoed(g)) == EchoTexts(g) {
      if GEchoed(g) != [] { FlatMapOne(GTextsOf, GEchoed(g)[0]); }
    }
    FlatMapCompose(GTextsOf, GEchoed, EchoTexts, parts);
    BothLosesTexts(parts);
  }

  /** A result that answers a decoded call goes out under the called function's name. */
  lemma ResultNamesTheFunction(g: GeminiPart, content: string, isError: bool)
    requires g.call.Some?
    ensures var id := PartOfGemini(g)[0].id;
            GeminiOf(ToolResult(id, content, isError)) ==
            [GeminiPart("", None, None, Some(FnResponse(g.call.value.name, content)))]
  {
    var name := g.call.value.name;
    assert (ID_PREFIX + name)[|ID_PREFIX|..] == name;
  }

  /** The made-up ids tell calls of different functions apart, and no others: two calls of one function in
      a reply share an id. */
  lemma IdsDistinguishFunctionsOnly(a: FnCall, b: FnCall)
    ensures PartOfGemini(GCall(a))[0].id == PartOfGemini(GCall(b))[0].id <==> a.name == b.name
  {
    assert (ID_PREFIX + a.name)[|ID_PREFIX|..] == a.name;
    assert (ID_PREFIX + b.name)[|ID_PREFIX|..] == b.name;
  }
}
