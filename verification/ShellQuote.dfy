/** The three shellQuote functions and the command line of the desktop launch handler, against a reading
    of shell words after sections 2.2 and 2.3 of the POSIX.1-2017 Shell Command Language. */
module ShellQuote {
  import opened Text

  datatype Token = Word(text: string) | Operator(c: char)

  datatype Mode = Plain | InSingle | InDouble

  predicate IsOperator(c: char) {
    c == '|' || c == '&' || c == ';' || c == '<' || c == '>' || c == '(' || c == ')' || c == '\n'
  }

  /** Unquoted characters that start an expansion, a pattern, a comment or an assignment. */
  predicate Expands(c: char) {
    c == '$' || c == '`' || c == '*' || c == '?' || c == '[' || c == '#' || c == '~' || c == '=' || c == '%'
  }

  function Flush(cur: Option<string>): seq<Token> {
    if cur.Some? then [Word(cur.value)] else []
  }

  function Grow(cur: Option<string>, s: string): Option<string> {
    Some((if cur.Some? then cur.value else "") + s)
  }

  function Cons(ts: seq<Token>, rest: Option<seq<Token>>): Option<seq<Token>> {
    if rest.Some? then Some(ts + rest.value) else None
  }

  /** The tokens of s; None where quoting is not closed, where the shell would expand something, and for a
      NUL, which no command line can carry. */
  function Tokens(s: string, mode: Mode, cur: Option<string>): Option<seq<Token>>
    decreases |s|
  {
    if s == "" then
      if mode.Plain? then Some(Flush(cur)) else None
    else
      var c, rest := s[0], s[1..];
      if c == NUL then None
      else match mode
        case InSingle =>
          if c == '\'' then Tokens(rest, Plain, Grow(cur, "")) else Tokens(rest, InSingle, Grow(cur, [c]))
        case InDouble =>
          if c == '"' then Tokens(rest, Plain, Grow(cur, ""))
          else if c == '$' || c == '`' then None
          else if c == '\\' && rest != "" && (rest[0] == '$' || rest[0] == '`' || rest[0] == '"' || rest[0] == '\\') then
            Tokens(rest[1..], InDouble, Grow(cur, [rest[0]]))
          else if c == '\\' && rest != "" && rest[0] == '\n' then Tokens(rest[1..], InDouble, cur)
          else Tokens(rest, InDouble, Grow(cur, [c]))
        case Plain =>
          if c == '\'' then Tokens(rest, InSingle, Grow(cur, ""))
          else if c == '"' then Tokens(rest, InDouble, Grow(cur, ""))
          else if c == '\\' then
            if rest == "" || rest[0] == NUL then None
            else if rest[0] == '\n' then Tokens(rest[1..], Plain, cur)
            else Tokens(rest[1..], Plain, Grow(cur, [rest[0]]))
          else if c == ' ' || c == '\t' then Cons(Flush(cur), Tokens(rest, Plain, None))
          else if IsOperator(c) then Cons(Flush(cur) + [Operator(c)], Tokens(rest, Plain, None))
          else if Expands(c) then None
          else Tokens(rest, Plain, Grow(cur, [c]))
  }

  function Parse(line: string): Option<seq<Token>> {
    Tokens(line, Plain, None)
  }

  /** What a single quote becomes: internal/api and internal/avenc use the first spelling,
      internal/marketplace the second. */
  const BACKSLASHED := "'\\''"
  const DOUBLE_QUOTED := "'\"'\"'"

  predicate Spelling(esc: string) {
    esc == BACKSLASHED || esc == DOUBLE_QUOTED
  }

  function Quote(s: string, esc: string): string {
    "'" + ReplaceAll(s, '\'', esc) + "'"
  }

  function Words(args: seq<string>): seq<Token> {
    seq(|args|, i requires 0 <= i < |args| => Word(args[i]))
  }

  function QuoteAll(args: seq<string>, esc: string): seq<string> {
    seq(|args|, i requires 0 <= i < |args| => Quote(args[i], esc))
  }

  predicate NulFree(s: string) {
    NUL !in s
  }

  /** Closing, one literal quote, opening again: either spelling adds a single quote to the word. */
  lemma EscapeAddsQuote(esc: string, rest: string, w: string)
    requires Spelling(esc)
    ensures Tokens(esc + rest, InSingle, Some(w)) == Tokens(rest, InSingle, Some(w + "'"))
  {
    var s := esc + rest;
    assert s[0] == '\'' && w + "" == w && w + "'" + "" == w + "'";
    if esc == BACKSLASHED {
      assert s[1..] == "\\''" + rest && s[1..][1..] == "''" + rest && s[1..][1..][1..] == "'" + rest;
      assert s[1..][1..][1..][1..] == rest;
      assert Tokens(s[1..], Plain, Some(w)) == Tokens("'" + rest, Plain, Some(w + "'"));
    } else {
      assert s[1..] == "\"'\"'" + rest && s[1..][1..] == "'\"'" + rest && s[1..][1..][1..] == "\"'" + rest;
      assert s[1..][1..][1..][1..] == "'" + rest && s[1..][1..][1..][1..][1..] == rest;
      assert Tokens(s[1..], Plain, Some(w)) == Tokens("'\"'" + rest, InDouble, Some(w));
      assert Tokens("'\"'" + rest, InDouble, Some(w)) == Tokens("\"'" + rest, InDouble, Some(w + "'"));
      assert Tokens("\"'" + rest, InDouble, Some(w + "'")) == Tokens("'" + rest, Plain, Some(w + "'"));
    }
    assert ("'" + rest)[1..] == rest;
  }

  lemma {:induction false} BodyAddsText(a: string, esc: string, rest: string, w: string)
    requires Spelling(esc) && NulFree(a)
    ensures Tokens(ReplaceAll(a, '\'', esc) + rest, InSingle, Some(w)) == Tokens(rest, InSingle, Some(w + a))
    decreases |a|
  {
    if a == "" {
      assert ReplaceAll(a, '\'', esc) + rest == rest && w + a == w;
    } else {
      var c, t := a[0], ReplaceAll(a[1..], '\'', esc) + rest;
      assert c in a && forall x :: x in a[1..] ==> x in a;
      assert w + a == w + [c] + a[1..];
      if c == '\'' {
        assert ReplaceAll(a, '\'', esc) + rest == esc + t;
        EscapeAddsQuote(esc, t, w);
      } else {
        assert ReplaceAll(a, '\'', esc) + rest == [c] + t && ([c] + t)[1..] == t;
      }
      BodyAddsText(a[1..], esc, rest, w + [c]);
    }
  }

  /** A quoted argument reads as one word with exactly the argument's text. */
  lemma QuoteIsOneWord(a: string, esc: string, rest: string)
    requires Spelling(esc) && NulFree(a)
    ensures Tokens(Quote(a, esc) + rest, Plain, None) == Tokens(rest, Plain, Some(a))
  {
    var body := ReplaceAll(a, '\'', esc);
    var s := Quote(a, esc) + rest;
    assert s[0] == '\'' && s[1..] == body + ("'" + rest);
    assert "" + "" == "" && "" + a == a && ("'" + rest)[1..] == rest && a + "" == a;
    assert Tokens(s, Plain, None) == Tokens(s[1..], InSingle, Some(""));
    BodyAddsText(a, esc, "'" + rest, "");
  }

  /** Quoted arguments joined with spaces read as exactly those arguments, whatever follows after a space. */
  lemma {:induction false} JoinedIsWords(args: seq<string>, esc: string, tail: string)
    requires Spelling(esc) && forall i :: 0 <= i < |args| ==> NulFree(args[i])
    requires tail == "" || tail[0] == ' '
    ensures Tokens(Join(QuoteAll(args, esc), " ") + tail, Plain, None) ==
            Cons(Words(args), Tokens(tail, Plain, None))
    decreases |args|
  {
    var q := QuoteAll(args, esc);
    if args == [] {
      assert Join(q, " ") + tail == tail && Words(args) == [];
      if Tokens(tail, Plain, None).Some? { assert [] + Tokens(tail, Plain, None).value == Tokens(tail, Plain, None).value; }
    } else {
      var rest := if |args| == 1 then tail else " " + (Join(q[1..], " ") + tail);
      assert Join(q, " ") + tail == Quote(args[0], esc) + rest;
      QuoteIsOneWord(args[0], esc, rest);
      assert Words(args) == [Word(args[0])] + Words(args[1..]);
      if |args| == 1 {
        WordThenTail(args[0], tail);
        assert Words(args) == [Word(args[0])];
      } else {
        assert q[1..] == QuoteAll(args[1..], esc);
        assert rest[1..] == Join(q[1..], " ") + tail;
        assert forall i :: 0 <= i < |args[1..]| ==> args[1..][i] == args[i + 1];
        JoinedIsWords(args[1..], esc, tail);
        var t := Tokens(tail, Plain, None);
        if t.Some? {
          assert [Word(args[0])] + (Words(args[1..]) + t.value) == Words(args) + t.value;
        }
      }
    }
  }

  lemma WordThenTail(a: string, tail: string)
    requires tail == "" || tail[0] == ' '
    ensures Tokens(tail, Plain, Some(a)) == Cons([Word(a)], Tokens(tail, Plain, None))
  {
    if tail == "" {
      assert [Word(a)] + [] == [Word(a)];
    } else {
      var t := Tokens(tail[1..], Plain, None);
      assert Tokens(tail, Plain, Some(a)) == Cons([Word(a)], t) && Tokens(tail, Plain, None) == Cons([], t);
      if t.Some? { assert [] + t.value == t.value; }
    }
  }

  lemma {:induction false} NulNeverParses(s: string, mode: Mode, cur: Option<string>)
    requires NUL in s
    ensures Tokens(s, mode, cur) == None
    decreases |s|
  {
    var rest := s[1..];
    if s[0] != NUL {
      assert NUL in rest;
      if mode.InDouble? && s[0] == '\\' && rest[0] != NUL {
        assert NUL in rest[1..];
        forall c ensures Tokens(rest[1..], InDouble, c) == None { NulNeverParses(rest[1..], InDouble, c); }
      }
      if mode.Plain? && s[0] == '\\' && rest[0] != NUL {
        assert NUL in rest[1..];
        forall c ensures Tokens(rest[1..], Plain, c) == None { NulNeverParses(rest[1..], Plain, c); }
      }
      forall m, c ensures Tokens(rest, m, c) == None { NulNeverParses(rest, m, c); }
    }
  }

  lemma {:induction false} ReplaceKeepsNul(a: string, esc: string)
    requires NUL in a
    ensures NUL in ReplaceAll(a, '\'', esc)
  {
    if a[0] != NUL { ReplaceKeepsNul(a[1..], esc); }
  }

  lemma {:induction false} JoinKeepsNul(parts: seq<string>, i: nat)
    requires i < |parts| && NUL in parts[i]
    ensures NUL in Join(parts, " ")
  {
    if |parts| > 1 && i > 0 { JoinKeepsNul(parts[1..], i - 1); }
  }

  /** Quoting and joining is undone by the shell's reading of words, exactly for arguments without NUL. */
  lemma QuotedArgumentsRoundTrip(args: seq<string>, esc: string)
    requires Spelling(esc)
    ensures Parse(Join(QuoteAll(args, esc), " ")) == Some(Words(args))
            <==> forall i :: 0 <= i < |args| ==> NulFree(args[i])
  {
    var q := QuoteAll(args, esc);
    if forall i :: 0 <= i < |args| ==> NulFree(args[i]) {
      JoinedIsWords(args, esc, "");
      assert Join(q, " ") + "" == Join(q, " ") && Words(args) + [] == Words(args);
    } else {
      var i :| 0 <= i < |args| && !NulFree(args[i]);
      ReplaceKeepsNul(args[i], esc);
      assert NUL in q[i];
      JoinKeepsNul(q, i);
      NulNeverParses(Join(q, " "), Plain, None);
    }
  }

  // ---------- the launch command line ----------

  const LAUNCH_HEAD := "nohup setsid "
  const LAUNCH_TAIL := " >/dev/null 2>&1 &"

  /** The handler's loop over the arguments and its command string. */
  method LaunchLine(command: string, args: seq<string>) returns (line: string)
    ensures line == LAUNCH_HEAD + Join(QuoteAll([command] + args, BACKSLASHED), " ") + LAUNCH_TAIL
  {
    var quoted := [Quote(command, BACKSLASHED)];
    assert QuoteAll([command] + args[..0], BACKSLASHED) == quoted;
    for i := 0 to |args|
      invariant quoted == QuoteAll([command] + args[..i], BACKSLASHED)
    {
      quoted := quoted + [Quote(args[i], BACKSLASHED)];
      assert [command] + args[..i + 1] == [command] + args[..i] + [args[i]];
    }
    assert args[..|args|] == args;
    line := LAUNCH_HEAD + Join(quoted, " ") + LAUNCH_TAIL;
  }

  predicate Ordinary(c: char) {
    c != NUL && c != '\'' && c != '"' && c != '\\' && c != ' ' && c != '\t' && !IsOperator(c) && !Expands(c)
  }

  lemma OrdinaryStep(c: char, cur: Option<string>, rest: string)
    requires Ordinary(c)
    ensures Tokens([c] + rest, Plain, cur) == Tokens(rest, Plain, Grow(cur, [c]))
  {
    assert ([c] + rest)[1..] == rest;
  }

  lemma {:induction false} OrdinaryWord(w: string, cur: Option<string>, rest: string)
    requires w != "" && forall i :: 0 <= i < |w| ==> Ordinary(w[i])
    ensures Tokens(w + rest, Plain, cur) == Tokens(rest, Plain, Grow(cur, w))
    decreases |w|
  {
    var c := if cur.Some? then cur.value else "";
    assert w + rest == [w[0]] + (w[1..] + rest) && c + [w[0]] + w[1..] == c + w;
    OrdinaryStep(w[0], cur, w[1..] + rest);
    if w[1..] == "" {
      assert w == [w[0]] && w[1..] + rest == rest;
    } else {
      OrdinaryWord(w[1..], Grow(cur, [w[0]]), rest);
    }
  }

  lemma BlankStep(cur: Option<string>, rest: string)
    ensures Tokens(" " + rest, Plain, cur) == Cons(Flush(cur), Tokens(rest, Plain, None))
  {
    assert (" " + rest)[1..] == rest;
  }

  lemma OperatorStep(c: char, cur: Option<string>, rest: string)
    requires IsOperator(c)
    ensures Tokens([c] + rest, Plain, cur) == Cons(Flush(cur) + [Operator(c)], Tokens(rest, Plain, None))
  {
    assert ([c] + rest)[1..] == rest;
  }

  lemma WordThenSpace(w: string, s: string)
    requires w != "" && forall i :: 0 <= i < |w| ==> Ordinary(w[i])
    ensures Tokens(w + (" " + s), Plain, None) == Cons([Word(w)], Tokens(s, Plain, None))
  {
    OrdinaryWord(w, None, " " + s);
    assert "" + w == w;
    BlankStep(Some(w), s);
  }

  /** A word directly before an operator. */
  lemma WordThenOperator(w: string, c: char, s: string)
    requires w != "" && IsOperator(c) && forall i :: 0 <= i < |w| ==> Ordinary(w[i])
    ensures Tokens(w + ([c] + s), Plain, None) == Cons([Word(w), Operator(c)], Tokens(s, Plain, None))
  {
    OrdinaryWord(w, None, [c] + s);
    assert "" + w == w && [Word(w)] + [Operator(c)] == [Word(w), Operator(c)];
    OperatorStep(c, Some(w), s);
  }

  lemma TwoWords(v: string, w: string, s: string)
    requires v != "" && forall i :: 0 <= i < |v| ==> Ordinary(v[i])
    requires w != "" && forall i :: 0 <= i < |w| ==> Ordinary(w[i])
    ensures Tokens(v + (" " + (w + (" " + s))), Plain, None) == Cons([Word(v), Word(w)], Tokens(s, Plain, None))
  {
    WordThenSpace(v, w + (" " + s));
    WordThenSpace(w, s);
    ConsCons([Word(v)], [Word(w)], Tokens(s, Plain, None));
    assert [Word(v)] + [Word(w)] == [Word(v), Word(w)];
  }

  lemma HeadTokens(s: string)
    ensures Parse(LAUNCH_HEAD + s) == Cons([Word("nohup"), Word("setsid")], Tokens(s, Plain, None))
  {
    TwoWords("nohup", "setsid", s);
    assert LAUNCH_HEAD + s == "nohup" + (" " + ("setsid" + (" " + s)));
  }

  lemma ConsCons(a: seq<Token>, b: seq<Token>, r: Option<seq<Token>>)
    ensures Cons(a, Cons(b, r)) == Cons(a + b, r)
  {
    if r.Some? { assert a + (b + r.value) == a + b + r.value; }
  }

  const REDIRECTIONS: seq<Token> :=
    [Operator('>'), Word("/dev/null"), Word("2"), Operator('>'), Operator('&'), Word("1"), Operator('&')]

  /** "2>&1 &" before nothing. */
  lemma TailEnd(two: string, one: string, amp: string)
    requires two == "2" && one == "1" && amp == "&"
    ensures Tokens(two + (">" + ("&" + (one + (" " + amp)))), Plain, None) ==
            Some([Word("2"), Operator('>'), Operator('&'), Word("1"), Operator('&')])
  {
    var d := one + (" " + amp);
    OperatorStep('&', None, "");
    assert amp == "&" + "";
    WordThenSpace(one, amp);
    OperatorStep('&', None, d);
    WordThenOperator(two, '>', "&" + d);
    var one4, amp5 := [Word("1")], [Operator('&')];
    assert [] + amp5 == amp5 && amp5 + [] == amp5;
    assert Tokens(amp, Plain, None) == Some(amp5);
    assert Tokens(d, Plain, None) == Some(one4 + amp5);
    assert Tokens("&" + d, Plain, None) == Some(amp5 + (one4 + amp5));
    assert [Word("2"), Operator('>')] + (amp5 + (one4 + amp5)) ==
           [Word("2"), Operator('>'), Operator('&'), Word("1"), Operator('&')];
  }

  lemma TailStart(dev: string, rest: string)
    requires dev == "/dev/null"
    ensures Tokens(" " + (">" + (dev + (" " + rest))), Plain, None) ==
            Cons([Operator('>'), Word(dev)], Tokens(rest, Plain, None))
  {
    WordThenSpace(dev, rest);
    OperatorStep('>', None, dev + (" " + rest));
    BlankStep(None, ">" + (dev + (" " + rest)));
    ConsCons([Operator('>')], [Word(dev)], Tokens(rest, Plain, None));
    ConsCons([], [Operator('>'), Word(dev)], Tokens(rest, Plain, None));
    assert [Operator('>')] + [Word(dev)] == [Operator('>'), Word(dev)];
    assert [] + [Operator('>')] == [Operator('>')] && [] + [Operator('>'), Word(dev)] == [Operator('>'), Word(dev)];
  }

  lemma TailTokens(tail: string, dev: string, two: string, one: string, amp: string)
    requires tail == LAUNCH_TAIL && dev == "/dev/null" && two == "2" && one == "1" && amp == "&"
    ensures Tokens(tail, Plain, None) == Some(REDIRECTIONS)
  {
    var rest := two + (">" + ("&" + (one + (" " + amp))));
    assert tail == " " + (">" + (dev + (" " + rest)));
    TailEnd(two, one, amp);
    TailStart(dev, rest);
    JoinRedirections(Tokens(rest, Plain, None));
  }

  lemma JoinRedirections(r: Option<seq<Token>>)
    requires r == Some([Word("2"), Operator('>'), Operator('&'), Word("1"), Operator('&')])
    ensures Cons([Operator('>'), Word("/dev/null")], r) == Some(REDIRECTIONS)
  {
    assert [Operator('>'), Word("/dev/null")] + r.value == REDIRECTIONS;
  }

  /** Whatever command and arguments a caller sends (without NUL), the shell sees nohup and setsid, those
      words one for one, and then the handler's own redirections and nothing else. */
  lemma LaunchRunsExactlyTheCommand(command: string, args: seq<string>, tail: string)
    requires NulFree(command) && forall i :: 0 <= i < |args| ==> NulFree(args[i])
    requires tail == LAUNCH_TAIL
    ensures Parse(LAUNCH_HEAD + Join(QuoteAll([command] + args, BACKSLASHED), " ") + tail) ==
            Some([Word("nohup"), Word("setsid")] + Words([command] + args) + REDIRECTIONS)
  {
    var all := [command] + args;
    var body := Join(QuoteAll(all, BACKSLASHED), " ");
    assert LAUNCH_HEAD + body + tail == LAUNCH_HEAD + (body + tail);
    HeadTokens(body + tail);
    JoinedIsWords(all, BACKSLASHED, tail);
    ConsCons([Word("nohup"), Word("setsid")], Words(all), Tokens(tail, Plain, None));
    TailTokens(tail, "/dev/null", "2", "1", "&");
  }
}
