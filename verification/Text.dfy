/** Strings as sequences of code points, with the few operations of Go's `strings` package that the
    components share. Go compares strings byte by byte; on UTF-8 that is the order of code points. */
module Text {

  datatype Option<+T> = None | Some(value: T)

  const NUL: char := '\0'

  /** Lexicographic order, the meaning of Go's `<` on strings and of SQLite's binary collation. */
  predicate Less(s: string, t: string) {
    t != [] && (s == [] || s[0] < t[0] || (s[0] == t[0] && Less(s[1..], t[1..])))
  }

  lemma {:induction false} LessIrreflexive(s: string)
    ensures !Less(s, s)
  {
    if s != [] { LessIrreflexive(s[1..]); }
  }

  lemma {:induction false} LessTransitive(s: string, t: string, u: string)
    requires Less(s, t) && Less(t, u)
    ensures Less(s, u)
  {
    if s != [] && s[0] == t[0] == u[0] { LessTransitive(s[1..], t[1..], u[1..]); }
  }

  lemma {:induction false} LessTotal(s: string, t: string)
    ensures s == t || Less(s, t) || Less(t, s)
  {
    if s != [] && t != [] && s[0] == t[0] {
      LessTotal(s[1..], t[1..]);
      assert s == [s[0]] + s[1..] && t == [t[0]] + t[1..];
    }
  }

  /** A common head does not change the comparison. */
  lemma {:induction false} LessAppend(p: string, s: string, t: string)
    ensures Less(p + s, p + t) <==> Less(s, t)
  {
    if p == [] {
      assert p + s == s && p + t == t;
    } else {
      assert (p + s)[1..] == p[1..] + s && (p + t)[1..] == p[1..] + t;
      LessAppend(p[1..], s, t);
    }
  }

  /** Heads of equal length that differ decide the comparison. */
  lemma {:induction false} LessByHead(p: string, q: string, s: string, t: string)
    requires |p| == |q| && p != q
    ensures Less(p + s, q + t) <==> Less(p, q)
  {
    assert (p + s)[1..] == p[1..] + s && (q + t)[1..] == q[1..] + t;
    if p[0] == q[0] {
      assert p == [p[0]] + p[1..] && q == [q[0]] + q[1..];
      LessByHead(p[1..], q[1..], s, t);
    }
  }

  /** strings.ReplaceAll for a one-character string to replace. */
  function ReplaceAll(s: string, c: char, with: string): string {
    if s == [] then [] else (if s[0] == c then with else [s[0]]) + ReplaceAll(s[1..], c, with)
  }

  /** strings.Join. */
  function Join(parts: seq<string>, sep: string): string {
    if parts == [] then []
    else if |parts| == 1 then parts[0]
    else parts[0] + sep + Join(parts[1..], sep)
  }

  function Concat(parts: seq<string>): string {
    if parts == [] then [] else parts[0] + Concat(parts[1..])
  }

  lemma {:induction false} ConcatAppend(a: seq<string>, b: seq<string>)
    ensures Concat(a + b) == Concat(a) + Concat(b)
  {
    if a == [] {
      assert a + b == b;
    } else {
      assert (a + b)[1..] == a[1..] + b;
      ConcatAppend(a[1..], b);
    }
  }

  /** unicode.IsSpace. */
  predicate IsSpace(c: char) {
    '\t' <= c <= '\r' || c == ' ' || c == '\U{85}' || c == '\U{A0}' || c == '\U{1680}' ||
    '\U{2000}' <= c <= '\U{200A}' || c == '\U{2028}' || c == '\U{2029}' || c == '\U{202F}' ||
    c == '\U{205F}' || c == '\U{3000}'
  }

  predicate Blank(s: string) {
    forall i :: 0 <= i < |s| ==> IsSpace(s[i])
  }

  function TrimLeft(s: string): (r: string)
    ensures |r| <= |s| && r == s[|s| - |r|..]
    ensures Blank(s[..|s| - |r|])
    ensures r != [] ==> !IsSpace(r[0])
  {
    if s != [] && IsSpace(s[0]) then TrimLeft(s[1..]) else s
  }

  function TrimRight(s: string): (r: string)
    ensures r <= s
    ensures Blank(s[|r|..])
    ensures r != [] ==> !IsSpace(r[|r| - 1])
  {
    if s != [] && IsSpace(s[|s| - 1]) then TrimRight(s[..|s| - 1]) else s
  }

  /** strings.TrimSpace. */
  function TrimSpace(s: string): (r: string) {
    TrimRight(TrimLeft(s))
  }

  lemma Associates<T>(a: seq<T>, b: seq<T>, c: seq<T>)
    ensures a + (b + c) == a + b + c
  {
  }

  lemma CutBothEnds(s: string, l: string, r: string)
    requires |l| <= |s| && l == s[|s| - |l|..] && r <= l
    ensures s == s[..|s| - |l|] + r + l[|r|..]
  {
    assert s == s[..|s| - |l|] + l && l == r + l[|r|..];
  }

  /** Trimming cuts white space off both ends. */
  lemma TrimSpaceTrims(s: string) returns (u: string, v: string)
    ensures s == u + TrimSpace(s) + v && Blank(u) && Blank(v)
  {
    var l, r := TrimLeft(s), TrimRight(TrimLeft(s));
    CutBothEnds(s, l, r);
    u, v := s[..|s| - |l|], l[|r|..];
  }

  /** Nothing is left to trim. */
  lemma TrimSpaceEnds(s: string)
    ensures var r := TrimSpace(s); r != [] ==> !IsSpace(r[0]) && !IsSpace(r[|r| - 1])
  {
    var l, r := TrimLeft(s), TrimSpace(s);
    assert r != [] ==> r[0] == l[0];
  }

  lemma TrimSpaceFixed(s: string)
    requires s != [] ==> !IsSpace(s[0]) && !IsSpace(s[|s| - 1])
    ensures TrimSpace(s) == s
  {
  }
}
