/** Line and message framing between an MCP client on stdio, the bridge (internal/bridge/bridge.go), the
    WebSocket session (internal/api/mcp_server.go), the server loop (internal/mcp/server.go) and the SSE
    transport (internal/api/mcp_sse.go). A character stands for a byte. */
module Framing {
  import opened Text

  /** Scanner.Buffer's limit on both sides. */
  const MAX_LINE: nat := 1024 * 1024

  predicate NewlineFree(s: string) {
    '\n' !in s
  }

  predicate EndsWithNewline(s: string) {
    |s| > 0 && s[|s| - 1] == '\n'
  }

  // ---------- lines of a byte stream ----------

  /** The part before the first newline. */
  function Head(s: string): (r: string)
    ensures r <= s && NewlineFree(r)
    ensures r == s || s[|r|] == '\n'
  {
    if s == "" || s[0] == '\n' then "" else
      var r := Head(s[1..]);
      assert NewlineFree([s[0]] + r);
      [s[0]] + r
  }

  /** The newline-terminated lines of s, without their newlines. */
  function Complete(s: string): seq<string>
    decreases |s|
  {
    var h := Head(s);
    if h == s then [] else [h] + Complete(s[|h| + 1..])
  }

  /** What follows the last newline. */
  function Rest(s: string): (r: string)
    ensures NewlineFree(r)
    decreases |s|
  {
    var h := Head(s);
    if h == s then s else Rest(s[|h| + 1..])
  }

  /** bufio.ScanLines drops one carriage return at the end of a line. */
  function DropCR(l: string): (r: string)
    ensures r <= l && (NewlineFree(l) ==> NewlineFree(r))
  {
    if l != "" && l[|l| - 1] == '\r' then l[..|l| - 1] else l
  }

  datatype Scanned = Scanned(lines: seq<string>, ok: bool)

  /** A bufio.Scanner over a whole stream: it stops at a line that does not fit its buffer, newline
      included, and hands out an unterminated last line. */
  function Scan(s: string): Scanned
    decreases |s|
  {
    var h := Head(s);
    if s == "" then Scanned([], true)
    else if |h| >= MAX_LINE then Scanned([], false)
    else if h == s then Scanned([DropCR(h)], true)
    else
      var rest := Scan(s[|h| + 1..]);
      Scanned([DropCR(h)] + rest.lines, rest.ok)
  }

  /** Each frame with a newline after it. */
  function Stream(frames: seq<string>): string {
    if frames == [] then "" else frames[0] + "\n" + Stream(frames[1..])
  }

  lemma {:induction false} HeadOfLine(f: string, t: string)
    requires NewlineFree(f)
    ensures Head(f + "\n" + t) == f
    ensures f + "\n" + t != f && (f + "\n" + t)[|f| + 1..] == t
    ensures Head(f) == f
  {
    if f == "" {
      assert f + "\n" + t == "\n" + t;
    } else {
      assert f[0] in f && forall c :: c in f[1..] ==> c in f;
      HeadOfLine(f[1..], t);
      assert (f + "\n" + t)[1..] == f[1..] + "\n" + t;
      assert f == [f[0]] + f[1..];
    }
  }

  // ---------- the line flusher ----------

  lemma CompleteOfLine(s: string, h: string, t: string)
    requires NewlineFree(h) && s == h + "\n" + t
    ensures Complete(s) == [h] + Complete(t) && Rest(s) == Rest(t)
  {
    HeadOfLine(h, t);
  }

  /** Cutting a + b is cutting a and going on with what a leaves. */
  ghost predicate CutsApart(a: string, b: string) {
    Complete(a + b) == Complete(a) + Complete(Rest(a) + b) && Rest(a + b) == Rest(Rest(a) + b)
  }

  lemma OneMoreLine(a: string, h: string, t: string, b: string)
    requires NewlineFree(h) && CutsApart(t, b) && a == h + "\n" + t
    ensures CutsApart(a, b)
  {
    Associates(h + "\n", t, b);
    CompleteOfLine(a, h, t);
    CompleteOfLine(a + b, h, t + b);
    Associates([h], Complete(t), Complete(Rest(t) + b));
  }

  lemma {:induction false} SplitAtRest(a: string, b: string)
    ensures CutsApart(a, b)
    decreases |a|
  {
    var h := Head(a);
    if h == a {
      assert [] + Complete(a + b) == Complete(a + b);
    } else {
      var t := a[|h| + 1..];
      SplitAtRest(t, b);
      assert a == h + "\n" + t;
      OneMoreLine(a, h, t, b);
    }
  }

  lemma {:induction false} StreamIsComplete(frames: seq<string>)
    requires forall i :: 0 <= i < |frames| ==> NewlineFree(frames[i])
    ensures Complete(Stream(frames)) == frames && Rest(Stream(frames)) == ""
  {
    if frames != [] {
      HeadOfLine(frames[0], Stream(frames[1..]));
      StreamIsComplete(frames[1..]);
      assert frames == [frames[0]] + frames[1..];
    }
  }

  /** The frames cut out of a stream, and the stream back from them. */
  lemma {:induction false} CompleteIsStream(s: string)
    ensures s == Stream(Complete(s)) + Rest(s)
    ensures forall i :: 0 <= i < |Complete(s)| ==> NewlineFree(Complete(s)[i])
    decreases |s|
  {
    var h := Head(s);
    if h != s {
      var t := s[|h| + 1..];
      CompleteIsStream(t);
      assert s == h + "\n" + t;
      OneMoreFrame(s, h, t);
    }
  }

  lemma OneMoreFrame(s: string, h: string, t: string)
    requires NewlineFree(h) && s == h + "\n" + t && t == Stream(Complete(t)) + Rest(t)
    requires forall i :: 0 <= i < |Complete(t)| ==> NewlineFree(Complete(t)[i])
    ensures s == Stream(Complete(s)) + Rest(s)
    ensures forall i :: 0 <= i < |Complete(s)| ==> NewlineFree(Complete(s)[i])
  {
    CompleteOfLine(s, h, t);
    StreamCons(h, Complete(t));
    Associates(h + "\n", Stream(Complete(t)), Rest(t));
  }

  lemma StreamCons(h: string, frames: seq<string>)
    ensures Stream([h] + frames) == h + "\n" + Stream(frames)
  {
    assert ([h] + frames)[1..] == frames;
  }

  /** Buffers what the server writes and sends one WebSocket message per complete line. */
  class LineFlusher {
    var buf: string
    var sent: seq<string>

    constructor ()
      ensures buf == "" && sent == []
    {
      buf, sent := "", [];
    }

    /** `capacity` is how many messages the connection still takes before a send fails. */
    method Write(p: string, capacity: nat) returns (ok: bool)
      modifies this
      ensures ok <==> |Complete(old(buf) + p)| <= capacity
      ensures ok ==> sent == old(sent) + Complete(old(buf) + p) && buf == Rest(old(buf) + p)
      ensures !ok ==> sent == old(sent) + Complete(old(buf) + p)[..capacity]
    {
      ghost var all := buf + p;
      ghost var cut: seq<string> := [];
      var room := capacity;
      buf := buf + p;
      while true
        invariant Complete(all) == cut + Complete(buf) && Rest(all) == Rest(buf)
        invariant |cut| + room == capacity && sent == old(sent) + cut
        decreases |buf|
      {
        var line := Head(buf);
        if line == buf {
          assert cut + [] == cut;
          return true;
        }
        ghost var rest := Complete(buf[|line| + 1..]);
        assert Complete(all) == cut + ([line] + rest);
        buf := buf[|line| + 1..];
        if room == 0 {
          assert (cut + ([line] + rest))[..capacity] == cut;
          return false;
        }
        room := room - 1;
        Associates(cut, [line], rest);
        sent := sent + [line];
        cut := cut + [line];
      }
    }
  }

  /** What is sent and what is kept after a number of writes. */
  function Flushed(chunks: seq<string>, buf: string): (seq<string>, string) {
    if chunks == [] then ([], buf)
    else
      var (sent, tail) := Flushed(chunks[1..], Rest(buf + chunks[0]));
      (Complete(buf + chunks[0]) + sent, tail)
  }

  /** However the stream is chunked into writes, the messages are its lines and the kept tail is what
      follows the last newline. */
  lemma {:induction false} ChunkingDoesNotMatter(chunks: seq<string>, buf: string)
    requires NewlineFree(buf)
    ensures Flushed(chunks, buf) == (Complete(buf + Concat(chunks)), Rest(buf + Concat(chunks)))
    ensures NewlineFree(Flushed(chunks, buf).1)
    decreases |chunks|
  {
    if chunks == [] {
      assert buf + Concat(chunks) == buf;
      HeadOfLine(buf, "");
    } else {
      var s, t := buf + chunks[0], Concat(chunks[1..]);
      assert buf + Concat(chunks) == s + t;
      ChunkingDoesNotMatter(chunks[1..], Rest(s));
      SplitAtRest(s, t);
    }
  }

  // ---------- the pumps ----------

  function NonEmpty(lines: seq<string>): seq<string> {
    if lines == [] then []
    else (if lines[0] == "" then [] else [lines[0]]) + NonEmpty(lines[1..])
  }

  /** What both readers do to a message without a trailing newline, and the POST handler to a body. */
  function Terminated(msg: string): string {
    if EndsWithNewline(msg) then msg else msg + "\n"
  }

  /** A message goes out with one newline at its end, its own or a new one. */
  lemma TerminatedMeans(msg: string)
    ensures var out := Terminated(msg);
            && out != "" && out[|out| - 1] == '\n'
            && if msg != "" && msg[|msg| - 1] == '\n' then out == msg else out == msg + "\n"
  {
  }

  function Feed(msgs: seq<string>): string {
    if msgs == [] then "" else Terminated(msgs[0]) + Feed(msgs[1..])
  }

  lemma {:induction false} NonEmptyAppend(a: seq<string>, b: seq<string>)
    ensures NonEmpty(a + b) == NonEmpty(a) + NonEmpty(b)
  {
    if a == [] { assert a + b == b; } else {
      assert (a + b)[1..] == a[1..] + b;
      NonEmptyAppend(a[1..], b);
    }
  }

  lemma {:induction false} FeedAppend(a: seq<string>, m: string)
    ensures Feed(a + [m]) == Feed(a) + Terminated(m)
  {
    if a == [] {
      assert Feed([m]) == Terminated(m) + Feed([]);
    } else {
      assert (a + [m])[1..] == a[1..] + [m];
      FeedAppend(a[1..], m);
    }
  }

  /** The bridge's stdin pump: one text message per non-empty line. */
  method Uplink(stdin: string) returns (msgs: seq<string>, ok: bool)
    ensures msgs == NonEmpty(Scan(stdin).lines) && ok == Scan(stdin).ok
  {
    var scanned := Scan(stdin);
    msgs := [];
    for i := 0 to |scanned.lines|
      invariant msgs == NonEmpty(scanned.lines[..i])
    {
      var line := scanned.lines[i];
      assert scanned.lines[..i + 1] == scanned.lines[..i] + [line];
      NonEmptyAppend(scanned.lines[..i], [line]);
      if |line| == 0 { continue; }
      msgs := msgs + [line];
    }
    assert scanned.lines[..|scanned.lines|] == scanned.lines;
    ok := scanned.ok;
  }

  /** The session's reader pump, which writes messages into the server's pipe, and the bridge's stdout
      pump do the same to each message. */
  method Pump(msgs: seq<string>) returns (stream: string)
    ensures stream == Feed(msgs)
  {
    stream := "";
    for i := 0 to |msgs|
      invariant stream == Feed(msgs[..i])
    {
      FeedAppend(msgs[..i], msgs[i]);
      assert msgs[..i + 1] == msgs[..i] + [msgs[i]];
      stream := stream + msgs[i];
      if !EndsWithNewline(msgs[i]) {
        stream := stream + "\n";
      }
    }
    assert msgs[..|msgs|] == msgs;
  }

  lemma {:induction false} FeedOfLines(msgs: seq<string>)
    requires forall i :: 0 <= i < |msgs| ==> NewlineFree(msgs[i])
    ensures Feed(msgs) == Stream(msgs)
  {
    if msgs != [] {
      assert !EndsWithNewline(msgs[0]);
      FeedOfLines(msgs[1..]);
    }
  }

  // ---------- requests: stdin to the server loop ----------

  /** The lines the server loop scans when a client writes stdin. */
  function Received(stdin: string): seq<string> {
    Scan(Feed(NonEmpty(Scan(stdin).lines))).lines
  }

  /** What happens to newline-terminated frames one by one: both scanners drop a carriage return, the
      bridge skips what is empty then, and stops at a line over the limit. */
  function Trip(frames: seq<string>): seq<string> {
    if frames == [] || |frames[0]| >= MAX_LINE then []
    else (if DropCR(frames[0]) == "" then [] else [DropCR(DropCR(frames[0]))]) + Trip(frames[1..])
  }

  /** The bridge's messages for the same frames. */
  function Sent(frames: seq<string>): (r: seq<string>)
    requires forall i :: 0 <= i < |frames| ==> NewlineFree(frames[i])
    ensures forall i :: 0 <= i < |r| ==> NewlineFree(r[i]) && |r[i]| < MAX_LINE
  {
    if frames == [] || |frames[0]| >= MAX_LINE then []
    else
      assert NewlineFree(DropCR(frames[0]));
      (if DropCR(frames[0]) == "" then [] else [DropCR(frames[0])]) + Sent(frames[1..])
  }

  lemma {:induction false} BridgeSends(frames: seq<string>)
    requires forall i :: 0 <= i < |frames| ==> NewlineFree(frames[i])
    ensures NonEmpty(Scan(Stream(frames)).lines) == Sent(frames)
  {
    if frames != [] {
      var f, t := frames[0], Stream(frames[1..]);
      HeadOfLine(f, t);
      if |f| < MAX_LINE {
        BridgeSends(frames[1..]);
        assert Scan(Stream(frames)).lines == [DropCR(f)] + Scan(t).lines;
        NonEmptyAppend([DropCR(f)], Scan(t).lines);
        assert NonEmpty([DropCR(f)]) == if DropCR(f) == "" then [] else [DropCR(f)];
      }
    }
  }

  function Dropped(msgs: seq<string>): seq<string> {
    if msgs == [] then [] else [DropCR(msgs[0])] + Dropped(msgs[1..])
  }

  lemma {:induction false} ServerScans(msgs: seq<string>)
    requires forall i :: 0 <= i < |msgs| ==> NewlineFree(msgs[i]) && |msgs[i]| < MAX_LINE
    ensures Scan(Stream(msgs)) == Scanned(Dropped(msgs), true)
  {
    if msgs != [] {
      HeadOfLine(msgs[0], Stream(msgs[1..]));
      ServerScans(msgs[1..]);
    }
  }

  lemma {:induction false} TripIsSentDropped(frames: seq<string>)
    requires forall i :: 0 <= i < |frames| ==> NewlineFree(frames[i])
    ensures Dropped(Sent(frames)) == Trip(frames)
  {
    if frames != [] && |frames[0]| < MAX_LINE {
      TripIsSentDropped(frames[1..]);
      var d := DropCR(frames[0]);
      if d != "" { assert Sent(frames)[1..] == Sent(frames[1..]); } else { assert Sent(frames) == Sent(frames[1..]); }
    }
  }

  lemma ReceivedIsTrip(frames: seq<string>)
    requires forall i :: 0 <= i < |frames| ==> NewlineFree(frames[i])
    ensures Received(Stream(frames)) == Trip(frames)
  {
    BridgeSends(frames);
    FeedOfLines(Sent(frames));
    ServerScans(Sent(frames));
    TripIsSentDropped(frames);
  }

  /** A frame that survives both scanners. */
  predicate Sound(f: string) {
    f != "" && |f| < 1_048_576 && f[|f| - 1] != '\r'
  }

  lemma {:induction false} TripNotLonger(frames: seq<string>)
    ensures |Trip(frames)| <= |frames|
  {
    if frames != [] { TripNotLonger(frames[1..]); }
  }

  lemma {:induction false} TripKeepsIffSound(frames: seq<string>)
    ensures Trip(frames) == frames <==> forall i :: 0 <= i < |frames| ==> Sound(frames[i])
  {
    if frames != [] {
      var f := frames[0];
      TripNotLonger(frames[1..]);
      TripKeepsIffSound(frames[1..]);
      assert frames == [f] + frames[1..];
      assert (forall i :: 0 <= i < |frames| ==> Sound(frames[i])) <==>
             Sound(f) && forall i :: 0 <= i < |frames[1..]| ==> Sound(frames[1..][i]);
      if |f| < MAX_LINE && DropCR(f) != "" {
        assert Trip(frames)[1..] == Trip(frames[1..]) && Trip(frames)[0] == DropCR(DropCR(f));
        assert DropCR(DropCR(f)) == f <==> f[|f| - 1] != '\r';
      } else {
        assert |Trip(frames)| < |frames|;
      }
    }
  }

  /** Newline-terminated frames on stdin reach the server as the same frames in the same order, exactly
      when none is empty, none ends in a carriage return and each fits the line buffer. */
  lemma RequestsArriveUnchanged(frames: seq<string>)
    requires forall i :: 0 <= i < |frames| ==> NewlineFree(frames[i])
    ensures Received(Stream(frames)) == frames <==> forall i :: 0 <= i < |frames| ==> Sound(frames[i])
  {
    ReceivedIsTrip(frames);
    TripKeepsIffSound(frames);
  }

  // ---------- responses: server loop to stdout ----------

  /** What the server writes ends in a newline; cut into messages by the flusher and printed by the bridge
      it is the same bytes, however it was chunked. */
  lemma ResponsesArriveUnchanged(chunks: seq<string>)
    requires Rest(Concat(chunks)) == ""
    ensures Feed(Flushed(chunks, "").0) == Concat(chunks)
  {
    var s := Concat(chunks);
    ChunkingDoesNotMatter(chunks, "");
    assert "" + s == s;
    CompleteIsStream(s);
    FeedOfLines(Complete(s));
    assert Stream(Complete(s)) + "" == Stream(Complete(s));
  }

  /** chanWriter.Write: one channel message per call, without the trailing newline, none when empty. */
  function ChanMessage(p: string): Option<string> {
    var msg := if EndsWithNewline(p) then p[..|p| - 1] else p;
    if msg == "" then None else Some(msg)
  }

  class ChanWriter {
    var out: seq<string>

    constructor ()
      ensures out == []
    {
      out := [];
    }

    method Write(p: string) returns (n: nat)
      modifies this
      ensures n == |p|
      ensures out == if p == "" || p == "\n" then old(out)
                     else if p[|p| - 1] == '\n' then old(out) + [p[..|p| - 1]] else old(out) + [p]
      ensures out == match ChanMessage(p) case None => old(out) case Some(m) => old(out) + [m]
    {
      var msg := p;
      if |msg| > 0 && msg[|msg| - 1] == '\n' {
        msg := msg[..|msg| - 1];
      }
      if |msg| == 0 {
        return |p|;
      }
      out := out + [msg];
      n := |p|;
    }
  }

  function ChanMessages(writes: seq<string>): seq<string> {
    if writes == [] then []
    else (match ChanMessage(writes[0]) case None => [] case Some(m) => [m]) + ChanMessages(writes[1..])
  }

  /** writeFrame's writes: each frame with its newline in one call. */
  function Writes(frames: seq<string>): (r: seq<string>)
    ensures |r| == |frames|
    ensures Concat(r) == Stream(frames)
  {
    if frames == [] then [] else [frames[0] + "\n"] + Writes(frames[1..])
  }

  /** On the server's own writes the SSE channel carries the same frames as the WebSocket flusher. */
  lemma {:induction false} ChannelCarriesTheFrames(frames: seq<string>)
    requires forall i :: 0 <= i < |frames| ==> NewlineFree(frames[i]) && frames[i] != ""
    ensures ChanMessages(Writes(frames)) == frames
    ensures Flushed(Writes(frames), "").0 == frames
  {
    ChanMessagesOfWrites(frames);
    ChunkingDoesNotMatter(Writes(frames), "");
    assert "" + Stream(frames) == Stream(frames);
    StreamIsComplete(frames);
  }

  lemma {:induction false} ChanMessagesOfWrites(frames: seq<string>)
    requires forall i :: 0 <= i < |frames| ==> frames[i] != ""
    ensures ChanMessages(Writes(frames)) == frames
  {
    if frames != [] {
      ChanMessagesOfWrites(frames[1..]);
      var p := frames[0] + "\n";
      assert p[..|p| - 1] == frames[0];
      assert frames == [frames[0]] + frames[1..];
    }
  }

  // ---------- a whole session ----------

  /** What Serve writes for one scanned line: the frames of a malformed request, of a notification (none)
      or of a call with its progress notifications. */
  type Handler = string -> seq<string>

  ghost predicate OneLineFrames(handle: Handler) {
    forall line, i :: 0 <= i < |handle(line)| ==> NewlineFree(handle(line)[i])
  }

  function Replies(handle: Handler, lines: seq<string>): seq<string> {
    if lines == [] then [] else handle(lines[0]) + Replies(handle, lines[1..])
  }

  lemma {:induction false} RepliesAreLines(handle: Handler, lines: seq<string>)
    requires OneLineFrames(handle)
    ensures forall i :: 0 <= i < |Replies(handle, lines)| ==> NewlineFree(Replies(handle, lines)[i])
  {
    if lines != [] { RepliesAreLines(handle, lines[1..]); }
  }

  lemma {:induction false} WritesAppend(a: seq<string>, f: string)
    ensures Writes(a + [f]) == Writes(a) + [f + "\n"]
  {
    if a == [] {
      assert [f][1..] == [];
    } else {
      assert (a + [f])[1..] == a[1..] + [f];
      WritesAppend(a[1..], f);
    }
  }

  lemma {:induction false} RepliesAppend(handle: Handler, a: seq<string>, l: string)
    ensures Replies(handle, a + [l]) == Replies(handle, a) + handle(l)
  {
    if a == [] {
      assert Replies(handle, [l]) == handle(l) + Replies(handle, []);
    } else {
      assert (a + [l])[1..] == a[1..] + [l];
      RepliesAppend(handle, a[1..], l);
    }
  }

  /** The writes for one request's frames. */
  method WriteFrames(ghost before: seq<string>, done: seq<string>, frames: seq<string>) returns (writes: seq<string>)
    requires done == Writes(before)
    ensures writes == Writes(before + frames)
  {
    writes := done;
    assert before + frames[..0] == before;
    for k := 0 to |frames|
      invariant writes == Writes(before + frames[..k])
    {
      WritesAppend(before + frames[..k], frames[k]);
      assert before + frames[..k] + [frames[k]] == before + frames[..k + 1];
      writes := writes + [frames[k] + "\n"];
    }
    assert frames[..|frames|] == frames;
  }

  /** PackServer.Serve over its reader's bytes: the writes it makes. */
  method Serve(input: string, handle: Handler) returns (writes: seq<string>, ok: bool)
    ensures writes == Writes(Replies(handle, Scan(input).lines)) && ok == Scan(input).ok
  {
    var scanned := Scan(input);
    var lines := scanned.lines;
    writes := [];
    for i := 0 to |lines|
      invariant writes == Writes(Replies(handle, lines[..i]))
    {
      writes := WriteFrames(Replies(handle, lines[..i]), writes, handle(lines[i]));
      RepliesAppend(handle, lines[..i], lines[i]);
      assert lines[..i + 1] == lines[..i] + [lines[i]];
    }
    assert lines[..|lines|] == lines;
    ok := scanned.ok;
  }

  /** The two pumps of the bridge and the server's loop, all under way at once: lines of stdin sent, lines
      the server has handled, the flusher's buffer and the messages it has sent, those printed, and the
      connection. */
  datatype Link = Link(sent: nat, handled: nat, buf: string, out: seq<string>, shown: nat, printed: string, open: bool)

  const START := Link(0, 0, "", [], 0, "", true)

  /** The bridge's messages for a standard input. */
  function Uplinked(stdin: string): seq<string> {
    NonEmpty(Scan(stdin).lines)
  }

  /** The bridge sends a line, the server handles one, the bridge reads a message and prints it, or the
      connection is closed: by the end of stdin or by an error. */
  predicate LinkStep(stdin: string, handle: Handler, s: Link, t: Link) {
    || Sends(stdin, s, t)
    || Handles(stdin, handle, s, t)
    || Shows(s, t)
    || (s.open && t == s.(open := false))
  }

  predicate Sends(stdin: string, s: Link, t: Link) {
    s.open && s.sent < |Uplinked(stdin)| && t == s.(sent := s.sent + 1)
  }

  predicate Handles(stdin: string, handle: Handler, s: Link, t: Link) {
    && s.sent <= |Uplinked(stdin)|
    && var lines := Scan(Feed(Uplinked(stdin)[..s.sent])).lines;
       && s.handled < |lines|
       && var (messages, buf) := Flushed(Writes(handle(lines[s.handled])), s.buf);
          t == s.(handled := s.handled + 1, out := s.out + messages, buf := buf)
  }

  predicate Shows(s: Link, t: Link) {
    s.open && s.shown < |s.out| && t == s.(shown := s.shown + 1, printed := s.printed + Terminated(s.out[s.shown]))
  }

  predicate IsSession(stdin: string, handle: Handler, states: seq<Link>) {
    && |states| > 0 && states[0] == START
    && forall k :: 0 <= k < |states| - 1 ==> LinkStep(stdin, handle, states[k], states[k + 1])
  }

  predicate SoundFrames(frames: seq<string>) {
    forall i :: 0 <= i < |frames| ==> NewlineFree(frames[i]) && Sound(frames[i])
  }

  predicate LinkInv(frames: seq<string>, handle: Handler, s: Link) {
    && s.handled <= s.sent <= |frames| && s.buf == ""
    && s.out == Replies(handle, frames[..s.handled])
    && s.shown <= |s.out| && s.printed == Stream(s.out[..s.shown])
  }

  lemma {:induction false} SentIsFrames(frames: seq<string>)
    requires SoundFrames(frames)
    ensures Sent(frames) == frames && Dropped(frames) == frames
  {
    if frames != [] {
      SentIsFrames(frames[1..]);
      assert DropCR(frames[0]) == frames[0];
      assert frames == [frames[0]] + frames[1..];
    }
  }

  /** Of sound frames the bridge sends each, and the server scans each that was sent. */
  lemma LinesOfSound(frames: seq<string>, sent: nat)
    requires SoundFrames(frames) && sent <= |frames|
    ensures Uplinked(Stream(frames)) == frames
    ensures Scan(Feed(frames[..sent])).lines == frames[..sent]
  {
    BridgeSends(frames);
    SentIsFrames(frames);
    FeedOfLines(frames[..sent]);
    ServerScans(frames[..sent]);
    SentIsFrames(frames[..sent]);
  }

  lemma {:induction false} StreamAppend(frames: seq<string>, f: string)
    ensures Stream(frames + [f]) == Stream(frames) + f + "\n"
  {
    if frames == [] {
      assert [f][1..] == [];
    } else {
      assert (frames + [f])[1..] == frames[1..] + [f];
      StreamAppend(frames[1..], f);
    }
  }

  lemma ReplyIsFlushed(handle: Handler, line: string)
    requires OneLineFrames(handle)
    ensures Flushed(Writes(handle(line)), "") == (handle(line), "")
  {
    var frames := handle(line);
    ChunkingDoesNotMatter(Writes(frames), "");
    assert "" + Stream(frames) == Stream(frames);
    StreamIsComplete(frames);
  }

  lemma OneMoreReply(frames: seq<string>, handle: Handler, s: Link, t: Link)
    requires LinkInv(frames, handle, s) && s.handled < s.sent
    requires t == s.(handled := s.handled + 1, out := s.out + handle(frames[s.handled]))
    ensures LinkInv(frames, handle, t)
  {
    RepliesAppend(handle, frames[..s.handled], frames[s.handled]);
    assert frames[..s.handled + 1] == frames[..s.handled] + [frames[s.handled]];
    assert t.out[..s.shown] == s.out[..s.shown];
  }

  lemma HandlesKeepsInv(frames: seq<string>, handle: Handler, s: Link, t: Link)
    requires OneLineFrames(handle) && SoundFrames(frames) && LinkInv(frames, handle, s)
    requires Handles(Stream(frames), handle, s, t)
    ensures LinkInv(frames, handle, t)
  {
    LinesOfSound(frames, s.sent);
    var lines := Scan(Feed(Uplinked(Stream(frames))[..s.sent])).lines;
    assert lines == frames[..s.sent] && lines[s.handled] == frames[s.handled];
    ReplyIsFlushed(handle, frames[s.handled]);
    OneMoreReply(frames, handle, s, t);
  }

  lemma ShowsKeepsInv(frames: seq<string>, handle: Handler, s: Link, t: Link)
    requires OneLineFrames(handle) && LinkInv(frames, handle, s) && Shows(s, t)
    ensures LinkInv(frames, handle, t)
  {
    RepliesAreLines(handle, frames[..s.handled]);
    StreamAppend(s.out[..s.shown], s.out[s.shown]);
    assert s.out[..s.shown + 1] == s.out[..s.shown] + [s.out[s.shown]];
  }

  lemma LinkStepKeepsInv(frames: seq<string>, handle: Handler, s: Link, t: Link)
    requires OneLineFrames(handle) && SoundFrames(frames) && LinkInv(frames, handle, s)
    requires LinkStep(Stream(frames), handle, s, t)
    ensures LinkInv(frames, handle, t)
  {
    LinesOfSound(frames, s.sent);
    if Handles(Stream(frames), handle, s, t) {
      HandlesKeepsInv(frames, handle, s, t);
    } else if Shows(s, t) {
      ShowsKeepsInv(frames, handle, s, t);
    }
  }

  lemma {:induction false} SessionKeepsInv(frames: seq<string>, handle: Handler, states: seq<Link>)
    requires OneLineFrames(handle) && SoundFrames(frames) && IsSession(Stream(frames), handle, states)
    ensures var s := states[|states| - 1];
            LinkInv(frames, handle, s) && |states| - 1 == s.sent + s.handled + s.shown + if s.open then 0 else 1
    decreases |states|
  {
    if |states| > 1 {
      var n := |states| - 1;
      SessionKeepsInv(frames, handle, states[..n]);
      LinkStepKeepsInv(frames, handle, states[n - 1], states[n]);
    }
  }

  lemma {:induction false} RepliesPrefix(handle: Handler, lines: seq<string>, n: nat)
    requires n <= |lines|
    ensures Replies(handle, lines[..n]) <= Replies(handle, lines)
  {
    if n > 0 {
      assert lines[..n][1..] == lines[1..][..n - 1];
      RepliesPrefix(handle, lines[1..], n - 1);
    }
  }

  lemma {:induction false} StreamOfFewer(frames: seq<string>, n: nat)
    requires n <= |frames| && Stream(frames[..n]) == Stream(frames)
    ensures n == |frames|
  {
    if n > 0 {
      assert frames[..n][1..] == frames[1..][..n - 1] && frames[..n][0] == frames[0];
      var f := frames[0] + "\n";
      assert (f + Stream(frames[1..][..n - 1]))[|f|..] == Stream(frames[1..][..n - 1]);
      assert (f + Stream(frames[1..]))[|f|..] == Stream(frames[1..]);
      StreamOfFewer(frames[1..], n - 1);
    }
  }

  /** An open connection on which nothing is left to send, to handle or to print. */
  ghost predicate Drained(stdin: string, handle: Handler, s: Link) {
    s.open && forall t :: LinkStep(stdin, handle, s, t) ==> !t.open
  }

  lemma SendsIsAStep(stdin: string, handle: Handler, s: Link, t: Link)
    requires Sends(stdin, s, t)
    ensures LinkStep(stdin, handle, s, t) && t.open
  {
  }

  lemma DrainedIsDone(frames: seq<string>, handle: Handler, s: Link)
    requires SoundFrames(frames) && LinkInv(frames, handle, s) && Drained(Stream(frames), handle, s)
    ensures s.sent == s.handled == |frames| && s.shown == |s.out|
  {
    LinesOfSound(frames, s.sent);
    if s.sent < |frames| { SendsIsAStep(Stream(frames), handle, s, s.(sent := s.sent + 1)); }
    if s.handled < s.sent {
      var (messages, buf) := Flushed(Writes(handle(frames[s.handled])), s.buf);
      assert Handles(Stream(frames), handle, s, s.(handled := s.handled + 1, out := s.out + messages, buf := buf));
    }
    if s.shown < |s.out| {
      assert Shows(s, s.(shown := s.shown + 1, printed := s.printed + Terminated(s.out[s.shown])));
    }
  }

  /** End to end, in every interleaving: a client that writes sound frames has read on stdout a beginning
      of the server's replies to those frames, one per line and in order; it has read all of them exactly
      when as many messages as there are replies were printed, and so whenever nothing is left to do on
      an open connection, which is so after a bounded number of steps. */
  lemma SessionEndToEnd(frames: seq<string>, handle: Handler, states: seq<Link>)
    requires OneLineFrames(handle) && SoundFrames(frames) && IsSession(Stream(frames), handle, states)
    ensures var s, all := states[|states| - 1], Replies(handle, frames);
            && s.shown <= |all| && s.printed == Stream(all[..s.shown])
            && (s.printed == Stream(all) <==> s.shown == |all|)
            && (Drained(Stream(frames), handle, s) ==> s.printed == Stream(all))
            && |states| <= 2 * |frames| + |all| + 2
  {
    var s, all := states[|states| - 1], Replies(handle, frames);
    SessionKeepsInv(frames, handle, states);
    RepliesPrefix(handle, frames, s.handled);
    assert s.out[..s.shown] == all[..s.shown];
    assert all[..|all|] == all;
    if s.printed == Stream(all) { StreamOfFewer(all, s.shown); }
    if Drained(Stream(frames), handle, s) {
      DrainedIsDone(frames, handle, s);
      assert frames[..|frames|] == frames;
    }
  }

  /** The end of stdin can come before any reply: then all are lost. */
  lemma {:induction false} EofBeforeReplies(frames: seq<string>, handle: Handler) returns (states: seq<Link>)
    requires SoundFrames(frames)
    ensures IsSession(Stream(frames), handle, states)
    ensures var s := states[|states| - 1];
            s.sent == |Uplinked(Stream(frames))| && !s.open && s.printed == "" && forall t :: !Shows(s, t)
  {
    LinesOfSound(frames, 0);
    states := seq(|frames| + 2, k requires 0 <= k < |frames| + 2 =>
                    if k <= |frames| then START.(sent := k) else START.(sent := |frames|, open := false));
    forall k | 0 <= k < |states| - 1 ensures LinkStep(Stream(frames), handle, states[k], states[k + 1]) {
      if k < |frames| { assert Sends(Stream(frames), states[k], states[k + 1]); }
    }
  }
}
