/** The content hash of a marketplace pack (computePackHash, verifyTrust and the gate in Install of
    internal/marketplace/install.go). The hash function is a parameter. */
module PackHash {
  import opened Text

  // ---------- the directory walk ----------

  /** A file that cannot be read has no body. The entries of a directory are in the order of their names. */
  datatype Node = File(body: Option<string>) | Dir(entries: seq<Entry>)

  datatype Entry = Entry(name: string, node: Node)

  datatype Found = Found(path: string, body: Option<string>)

  function WalkNode(path: string, node: Node): seq<Found>
    decreases node
  {
    match node
    case File(body) => [Found(path, body)]
    case Dir(entries) => WalkEntries(path + "/", entries)
  }

  function WalkEntries(prefix: string, entries: seq<Entry>): seq<Found>
    decreases entries
  {
    if entries == [] then []
    else WalkNode(prefix + entries[0].name, entries[0].node) + WalkEntries(prefix, entries[1..])
  }

  /** File names are not empty and have neither slash nor NUL; siblings have different names. */
  predicate WellFormed(entries: seq<Entry>)
    decreases entries
  {
    && (forall k :: 0 <= k < |entries| ==> entries[k].name != "" && '/' !in entries[k].name && NUL !in entries[k].name)
    && (forall i, j :: 0 <= i < j < |entries| ==> Less(entries[i].name, entries[j].name))
    && (forall k :: 0 <= k < |entries| && entries[k].node.Dir? ==> WellFormed(entries[k].node.entries))
  }

  /** The slash is below every other character. */
  function Rank(c: char): int {
    if c == '/' then -1 else c as int
  }

  predicate SlashLess(s: string, t: string) {
    t != [] && (s == [] || Rank(s[0]) < Rank(t[0]) || (s[0] == t[0] && SlashLess(s[1..], t[1..])))
  }

  lemma {:induction false} SlashLessAppend(p: string, s: string, t: string)
    ensures SlashLess(p + s, p + t) <==> SlashLess(s, t)
  {
    if p == [] {
      assert p + s == s && p + t == t;
    } else {
      assert (p + s)[1..] == p[1..] + s && (p + t)[1..] == p[1..] + t;
      SlashLessAppend(p[1..], s, t);
    }
  }

  /** What follows a name in a path: nothing, or a slash and more. */
  predicate IsTail(r: string) {
    r == "" || r[0] == '/'
  }

  lemma {:induction false} NamesDecide(m: string, n: string, r: string, q: string)
    requires Less(m, n) && '/' !in m && '/' !in n && IsTail(r) && IsTail(q)
    ensures SlashLess(m + r, n + q)
  {
    assert (n + q)[0] == n[0] && (n + q)[1..] == n[1..] + q;
    if m == "" {
      assert m + r == r && n[0] in n;
    } else {
      assert (m + r)[0] == m[0] && (m + r)[1..] == m[1..] + r;
      assert m[0] in m && n[0] in n;
      if m[0] == n[0] { NamesDecide(m[1..], n[1..], r, q); }
    }
  }

  /** The path of a file below a node extends the node's. */
  lemma {:induction false} PathOfNode(path: string, node: Node, f: Found) returns (r: string)
    requires f in WalkNode(path, node)
    ensures f.path == path + r && IsTail(r)
    decreases node
  {
    if node.File? {
      r := "";
      assert path + "" == path;
    } else {
      var k, q := PathOfEntry(path + "/", node.entries, f);
      r := "/" + (node.entries[k].name + q);
      assert path + "/" + (node.entries[k].name + q) == path + r;
    }
  }

  lemma {:induction false} PathOfEntry(prefix: string, entries: seq<Entry>, f: Found) returns (k: nat, r: string)
    requires f in WalkEntries(prefix, entries)
    ensures k < |entries| && IsTail(r) && f.path == prefix + (entries[k].name + r)
    decreases entries
  {
    if f in WalkNode(prefix + entries[0].name, entries[0].node) {
      k := 0;
      r := PathOfNode(prefix + entries[0].name, entries[0].node, f);
      assert prefix + entries[0].name + r == prefix + (entries[0].name + r);
    } else {
      var j, q := PathOfEntry(prefix, entries[1..], f);
      k, r := j + 1, q;
    }
  }

  ghost predicate InWalkOrder(fs: seq<Found>) {
    forall i, j :: 0 <= i < j < |fs| ==> SlashLess(fs[i].path, fs[j].path)
  }

  lemma JoinInOrder(a: seq<Found>, b: seq<Found>)
    requires InWalkOrder(a) && InWalkOrder(b)
    requires forall f, g :: f in a && g in b ==> SlashLess(f.path, g.path)
    ensures InWalkOrder(a + b)
  {
    var c := a + b;
    forall i, j | 0 <= i < j < |c| ensures SlashLess(c[i].path, c[j].path) {
      if i < |a| <= j { assert a[i] in a && b[j - |a|] in b; }
    }
  }

  lemma {:induction false} NodeInOrder(path: string, node: Node)
    requires node.Dir? ==> WellFormed(node.entries)
    ensures InWalkOrder(WalkNode(path, node))
    decreases node
  {
    if node.Dir? { WalkIsInOrder(path + "/", node.entries); }
  }

  /** The walk visits paths in the order of strings in which the slash comes first. */
  lemma {:induction false} WalkIsInOrder(prefix: string, entries: seq<Entry>)
    requires WellFormed(entries)
    ensures InWalkOrder(WalkEntries(prefix, entries))
    decreases entries
  {
    if entries != [] {
      var a, b := WalkNode(prefix + entries[0].name, entries[0].node), WalkEntries(prefix, entries[1..]);
      NodeInOrder(prefix + entries[0].name, entries[0].node);
      WalkIsInOrder(prefix, entries[1..]);
      forall f, g | f in a && g in b ensures SlashLess(f.path, g.path) {
        EntriesInOrder(prefix, entries, f, g);
      }
      JoinInOrder(a, b);
    }
  }

  lemma EntriesInOrder(prefix: string, entries: seq<Entry>, f: Found, g: Found)
    requires WellFormed(entries) && entries != []
    requires f in WalkNode(prefix + entries[0].name, entries[0].node) && g in WalkEntries(prefix, entries[1..])
    ensures SlashLess(f.path, g.path)
  {
    var r := PathOfNode(prefix + entries[0].name, entries[0].node, f);
    var k, q := PathOfEntry(prefix, entries[1..], g);
    assert entries[1..][k] == entries[k + 1];
    var m, n := entries[0].name, entries[k + 1].name;
    assert f.path == prefix + (m + r);
    NamesDecide(m, n, r, q);
    SlashLessAppend(prefix, m + r, n + q);
  }

  /** Where the paths part, the first has a slash and the second a character below it. */
  ghost predicate SlashClash(p: string, q: string) {
    exists k :: 0 <= k < |p| && k < |q| && p[..k] == q[..k] && p[k] == '/' && q[k] < '/'
  }

  /** The walk's order of two paths is the plain order of strings unless they clash. */
  lemma {:induction false} WalkOrderIsPlainUnlessClash(p: string, q: string)
    requires SlashLess(p, q)
    ensures Less(p, q) <==> !SlashClash(p, q)
  {
    if p == "" {
    } else if p[0] == q[0] {
      WalkOrderIsPlainUnlessClash(p[1..], q[1..]);
      ClashShift(p, q);
    } else {
      if p[0] == '/' && q[0] < '/' { assert p[..0] == q[..0]; }
      assert forall k :: 0 < k <= |p| ==> p[..k][0] == p[0];
      assert forall k :: 0 < k <= |q| ==> q[..k][0] == q[0];
    }
  }

  lemma ClashShift(p: string, q: string)
    requires p != "" && q != "" && p[0] == q[0]
    ensures SlashClash(p, q) <==> SlashClash(p[1..], q[1..])
  {
    if SlashClash(p, q) {
      var k :| 0 <= k < |p| && k < |q| && p[..k] == q[..k] && p[k] == '/' && q[k] < '/';
      assert k > 0;
      assert p[1..][..k - 1] == p[..k][1..] && q[1..][..k - 1] == q[..k][1..];
      assert p[1..][k - 1] == '/' && q[1..][k - 1] < '/';
    }
    if SlashClash(p[1..], q[1..]) {
      var k :| 0 <= k < |p[1..]| && k < |q[1..]| && p[1..][..k] == q[1..][..k] && p[1..][k] == '/' && q[1..][k] < '/';
      assert p[..k + 1] == [p[0]] + p[1..][..k] && q[..k + 1] == [q[0]] + q[1..][..k];
      assert p[k + 1] == '/' && q[k + 1] < '/';
    }
  }

  /** The paths are in plain lexical order exactly when no two of them clash. */
  lemma WalkIsLexicalIff(entries: seq<Entry>)
    requires WellFormed(entries)
    ensures var fs := WalkEntries("", entries);
            (forall i, j :: 0 <= i < j < |fs| ==> Less(fs[i].path, fs[j].path)) <==>
            (forall i, j :: 0 <= i < j < |fs| ==> !SlashClash(fs[i].path, fs[j].path))
  {
    var fs := WalkEntries("", entries);
    WalkIsInOrder("", entries);
    forall i, j | 0 <= i < j < |fs| ensures Less(fs[i].path, fs[j].path) <==> !SlashClash(fs[i].path, fs[j].path) {
      WalkOrderIsPlainUnlessClash(fs[i].path, fs[j].path);
    }
  }

  lemma WalkFileAfter(prefix: string, e: Entry, rest: seq<Entry>)
    ensures WalkEntries(prefix, [e] + rest) == WalkNode(prefix + e.name, e.node) + WalkEntries(prefix, rest)
  {
    assert ([e] + rest)[1..] == rest;
  }

  /** A directory `a` is walked before the file `a.txt`, although `a.txt` is the lesser string. */
  lemma DirectoryBeforeItsSibling(x: Option<string>, y: Option<string>)
    ensures WalkEntries("", [Entry("a", Dir([Entry("x", File(x))]))] + [Entry("a.txt", File(y))]) ==
            [Found("a/x", x), Found("a.txt", y)]
    ensures Less("a.txt", "a/x")
  {
    var inner, file := Entry("x", File(x)), Entry("a.txt", File(y));
    WalkFileAfter("a/", inner, []);
    WalkFileAfter("", file, []);
    WalkFileAfter("", Entry("a", Dir([inner])), [file]);
    assert [inner] + [] == [inner] && [file] + [] == [file];
    assert "a/" + "x" == "a/x" && "" + "a.txt" == "a.txt" && "" + "a" == "a" && "a" + "/" == "a/";
    assert "a.txt"[1..] == ".txt" && "a/x"[1..] == "/x";
  }

  // ---------- a walk is determined by its files ----------

  lemma {:induction false} SlashLessIrreflexive(s: string)
    ensures !SlashLess(s, s)
  {
    if s != "" { SlashLessIrreflexive(s[1..]); }
  }

  lemma {:induction false} SlashLessAsymmetric(s: string, t: string)
    requires SlashLess(s, t)
    ensures !SlashLess(t, s)
  {
    if s != "" && s[0] == t[0] { SlashLessAsymmetric(s[1..], t[1..]); }
  }

  lemma SameFirst(fs: seq<Found>, gs: seq<Found>)
    requires InWalkOrder(fs) && InWalkOrder(gs) && fs != [] && gs != []
    requires forall f :: f in fs <==> f in gs
    ensures fs[0] == gs[0]
  {
    assert fs[0] in gs && gs[0] in fs;
    var j :| 0 <= j < |gs| && gs[j] == fs[0];
    var i :| 0 <= i < |fs| && fs[i] == gs[0];
    if i > 0 && j > 0 { SlashLessAsymmetric(fs[0].path, fs[i].path); }
  }

  lemma SameTail(fs: seq<Found>, gs: seq<Found>, f: Found)
    requires InWalkOrder(fs) && fs != [] && gs != [] && fs[0] == gs[0]
    requires forall g :: g in fs <==> g in gs
    requires f in fs[1..]
    ensures f in gs[1..]
  {
    var i :| 0 <= i < |fs| - 1 && fs[1..][i] == f;
    SlashLessIrreflexive(f.path);
    assert fs[i + 1] == f && f in fs && f != fs[0];
    var j :| 0 <= j < |gs| && gs[j] == f;
    assert gs[1..][j - 1] == f;
  }

  lemma HasMember(gs: seq<Found>)
    ensures gs == [] || exists f :: f in gs
  {
    if gs != [] { assert gs[0] in gs; }
  }

  /** Files in walk order make one list. */
  lemma {:induction false} OneWalk(fs: seq<Found>, gs: seq<Found>)
    requires InWalkOrder(fs) && InWalkOrder(gs)
    requires forall f :: f in fs <==> f in gs
    ensures fs == gs
  {
    if fs == [] {
      HasMember(gs);
    } else {
      assert fs[0] in gs;
      SameFirst(fs, gs);
      forall f ensures f in fs[1..] <==> f in gs[1..] {
        if f in fs[1..] { SameTail(fs, gs, f); }
        if f in gs[1..] { SameTail(gs, fs, f); }
      }
      OneWalk(fs[1..], gs[1..]);
      assert fs == [fs[0]] + fs[1..] && gs == [gs[0]] + gs[1..];
    }
  }

  lemma {:induction false} PathsAreNulFree(prefix: string, entries: seq<Entry>, f: Found)
    requires WellFormed(entries) && NUL !in prefix && f in WalkEntries(prefix, entries)
    ensures NUL !in f.path
    decreases entries
  {
    var e := entries[0];
    if f in WalkNode(prefix + e.name, e.node) {
      if e.node.Dir? { PathsAreNulFree(prefix + e.name + "/", e.node.entries, f); }
    } else {
      PathsAreNulFree(prefix, entries[1..], f);
    }
  }

  // ---------- the hashed stream ----------

  const MANIFEST := "helmdeck-pack.yaml"
  const HEX_DIGITS := 64

  datatype Line = Line(path: string, digest: string)

  /** Hex digests of a fixed length, in lower case. */
  ghost predicate IsHash(sha: string -> string) {
    forall s :: |sha(s)| == 64 && forall k :: 0 <= k < HEX_DIGITS ==> sha(s)[k] in "0123456789abcdef"
  }

  /** Two texts that the hash cannot tell apart. */
  predicate Collide(sha: string -> string, s: string, t: string) {
    s != t && sha(s) == sha(t)
  }

  function LineText(l: Line): string {
    l.path + [NUL] + l.digest + "\n"
  }

  function Stream(lines: seq<Line>): string {
    if lines == [] then "" else LineText(lines[0]) + Stream(lines[1..])
  }

  /** Reads a path up to the first NUL. */
  function TakePath(s: string): Option<(string, string)> {
    if s == "" then None
    else if s[0] == NUL then Some(("", s[1..]))
    else match TakePath(s[1..]) case None => None case Some((p, rest)) => Some(([s[0]] + p, rest))
  }

  lemma TakePathShrinks(s: string)
    ensures TakePath(s).Some? ==> |TakePath(s).value.1| < |s|
  {
    if s != "" && s[0] != NUL { TakePathShrinks(s[1..]); }
  }

  /** Reads a stream back. */
  function Decode(s: string): Option<seq<Line>>
    decreases |s|
  {
    if s == "" then Some([])
    else
      TakePathShrinks(s);
      match TakePath(s)
      case None => None
      case Some((path, rest)) =>
        if |rest| <= HEX_DIGITS || rest[HEX_DIGITS] != '\n' then None
        else
          match Decode(rest[HEX_DIGITS + 1..])
          case None => None
          case Some(lines) => Some([Line(path, rest[..HEX_DIGITS])] + lines)
  }

  predicate Decodable(lines: seq<Line>) {
    forall k :: 0 <= k < |lines| ==> NUL !in lines[k].path && |lines[k].digest| == HEX_DIGITS
  }

  lemma {:induction false} TakePathReads(path: string, rest: string)
    requires NUL !in path
    ensures TakePath(path + [NUL] + rest) == Some((path, rest))
  {
    if path == "" {
      assert path + [NUL] + rest == [NUL] + rest;
    } else {
      assert (path + [NUL] + rest)[1..] == path[1..] + [NUL] + rest;
      assert path[0] in path;
      TakePathReads(path[1..], rest);
      assert path == [path[0]] + path[1..];
    }
  }

  /** The stream has one reading: decoding gives back the listing. */
  lemma {:induction false} DecodeStream(lines: seq<Line>)
    requires Decodable(lines)
    ensures Decode(Stream(lines)) == Some(lines)
  {
    if lines != [] {
      var l, tail := lines[0], Stream(lines[1..]);
      DecodeStream(lines[1..]);
      DecodeLine(l, tail, Stream(lines));
      assert lines == [l] + lines[1..];
    }
  }

  lemma DecodeLine(l: Line, tail: string, s: string)
    requires NUL !in l.path && |l.digest| == HEX_DIGITS && Decode(tail).Some?
    requires s == l.path + [NUL] + l.digest + "\n" + tail
    ensures Decode(s) == Some([l] + Decode(tail).value)
  {
    var rest := l.digest + "\n" + tail;
    assert s == l.path + [NUL] + rest;
    TakePathReads(l.path, rest);
    assert rest[..HEX_DIGITS] == l.digest && rest[HEX_DIGITS] == '\n' && rest[HEX_DIGITS + 1..] == tail;
  }

  /** Two listings give the same bytes exactly when they are the same. */
  lemma StreamsDifferIff(a: seq<Line>, b: seq<Line>)
    requires Decodable(a) && Decodable(b)
    ensures Stream(a) == Stream(b) <==> a == b
  {
    DecodeStream(a);
    DecodeStream(b);
  }

  // ---------- the hash ----------

  /** The files that are hashed: all but the manifest at the top. */
  function Hashed(fs: seq<Found>): seq<Found> {
    if fs == [] then [] else (if fs[0].path == MANIFEST then [] else [fs[0]]) + Hashed(fs[1..])
  }

  predicate Readable(fs: seq<Found>) {
    forall k :: 0 <= k < |fs| ==> fs[k].body.Some?
  }

  function LinesOf(fs: seq<Found>, sha: string -> string): (r: seq<Line>)
    requires Readable(fs)
    ensures |r| == |fs| && forall k :: 0 <= k < |r| ==> r[k] == Line(fs[k].path, sha(fs[k].body.value))
  {
    seq(|fs|, k requires 0 <= k < |fs| => Line(fs[k].path, sha(fs[k].body.value)))
  }

  function HashOf(fs: seq<Found>, sha: string -> string): Option<string> {
    if Readable(Hashed(fs)) then Some(sha(Stream(LinesOf(Hashed(fs), sha)))) else None
  }

  lemma {:induction false} StreamAppend(a: seq<Line>, l: Line)
    ensures Stream(a + [l]) == Stream(a) + LineText(l)
  {
    if a == [] {
      assert [] + [l] == [l] && [l][1..] == [];
      assert LineText(l) + "" == "" + LineText(l);
    } else {
      assert (a + [l])[1..] == a[1..] + [l];
      StreamAppend(a[1..], l);
      Associates(LineText(a[0]), Stream(a[1..]), LineText(l));
    }
  }

  lemma HashedCons(f: Found, fs: seq<Found>)
    ensures Hashed([f] + fs) == (if f.path == MANIFEST then [] else [f]) + Hashed(fs)
  {
    assert ([f] + fs)[1..] == fs;
  }

  lemma {:induction false} HashedAppend(a: seq<Found>, f: Found)
    ensures Hashed(a + [f]) == Hashed(a) + if f.path == MANIFEST then [] else [f]
  {
    if a == [] {
      HashedCons(f, []);
      assert a + [f] == [f] + [];
    } else {
      HashedAppend(a[1..], f);
      HashedCons(a[0], a[1..]);
      HashedCons(a[0], a[1..] + [f]);
      assert a == [a[0]] + a[1..] && a + [f] == [a[0]] + (a[1..] + [f]);
    }
  }

  lemma HashedStep(fs: seq<Found>, i: nat)
    requires i < |fs|
    ensures Hashed(fs[..i + 1]) == Hashed(fs[..i]) + if fs[i].path == MANIFEST then [] else [fs[i]]
  {
    assert fs[..i + 1] == fs[..i] + [fs[i]];
    HashedAppend(fs[..i], fs[i]);
  }

  lemma {:induction false} HashedGrows(fs: seq<Found>, i: nat)
    requires i < |fs|
    ensures fs[i].path != MANIFEST ==> fs[i] in Hashed(fs)
  {
    if i > 0 { HashedGrows(fs[1..], i - 1); }
  }

  lemma StreamStep(fs: seq<Found>, f: Found, sha: string -> string)
    requires Readable(fs) && f.body.Some?
    ensures Stream(LinesOf(fs + [f], sha)) == Stream(LinesOf(fs, sha)) + LineText(Line(f.path, sha(f.body.value)))
  {
    assert LinesOf(fs + [f], sha) == LinesOf(fs, sha) + [Line(f.path, sha(f.body.value))];
    StreamAppend(LinesOf(fs, sha), Line(f.path, sha(f.body.value)));
  }

  /** Feeds the rolling hash; the first file that cannot be read ends the walk with an error. */
  method ComputePackHash(fs: seq<Found>, sha: string -> string) returns (h: Option<string>)
    ensures h == HashOf(fs, sha)
  {
    var fed := "";
    for i := 0 to |fs|
      invariant Readable(Hashed(fs[..i]))
      invariant fed == Stream(LinesOf(Hashed(fs[..i]), sha))
    {
      HashedStep(fs, i);
      if fs[i].path == MANIFEST {
        assert Hashed(fs[..i + 1]) == Hashed(fs[..i]);
        continue;
      }
      if fs[i].body.None? {
        HashedGrows(fs, i);
        return None;
      }
      StreamStep(Hashed(fs[..i]), fs[i], sha);
      fed := fed + (fs[i].path + [NUL] + sha(fs[i].body.value) + "\n");
    }
    assert fs[..|fs|] == fs;
    h := Some(sha(fed));
  }

  /** The same paths, with bodies that are equal or collide, and one that collides. */
  ghost predicate CollidingBodies(x: seq<Found>, y: seq<Found>, sha: string -> string)
    requires Readable(x) && Readable(y)
  {
    && |x| == |y|
    && (forall k :: 0 <= k < |x| ==>
          x[k].path == y[k].path && (x[k].body == y[k].body || Collide(sha, x[k].body.value, y[k].body.value)))
    && (exists k :: 0 <= k < |x| && Collide(sha, x[k].body.value, y[k].body.value))
  }

  /** A forgery: two of the texts that are hashed for x and y collide where it matters, the two streams or
      bodies under the same path. */
  ghost predicate Forged(x: seq<Found>, y: seq<Found>, sha: string -> string)
    requires Readable(x) && Readable(y)
  {
    Collide(sha, Stream(LinesOf(x, sha)), Stream(LinesOf(y, sha))) || CollidingBodies(x, y, sha)
  }

  /** Equal lines say equal paths, and bodies that are equal or collide. */
  lemma SameLinesIff(x: seq<Found>, y: seq<Found>, sha: string -> string)
    requires Readable(x) && Readable(y)
    ensures LinesOf(x, sha) == LinesOf(y, sha) <==> x == y || CollidingBodies(x, y, sha)
  {
    var m, n := LinesOf(x, sha), LinesOf(y, sha);
    if m == n {
      assert |x| == |m| == |n| == |y|;
      forall k | 0 <= k < |x|
        ensures x[k].path == y[k].path
        ensures x[k].body == y[k].body || Collide(sha, x[k].body.value, y[k].body.value)
      {
        assert m[k] == n[k];
      }
      if forall k :: 0 <= k < |x| ==> x[k].body == y[k].body {
        assert forall k :: 0 <= k < |x| ==> x[k] == y[k];
        assert x == y;
      }
    }
    if CollidingBodies(x, y, sha) {
      assert forall k :: 0 <= k < |m| ==> m[k] == n[k];
    }
  }

  /** For every hash function: two packs have the same hash exactly when they have the same files at the
      same paths, or hashed texts of the two collide. */
  lemma HashIdentifiesContent(a: seq<Found>, b: seq<Found>, sha: string -> string)
    requires IsHash(sha)
    requires Readable(Hashed(a)) && Readable(Hashed(b))
    requires forall f :: f in Hashed(a) + Hashed(b) ==> NUL !in f.path
    ensures HashOf(a, sha) == HashOf(b, sha) <==> Hashed(a) == Hashed(b) || Forged(Hashed(a), Hashed(b), sha)
  {
    var x, y := Hashed(a), Hashed(b);
    DecodableLines(x, y, sha);
    StreamsDifferIff(LinesOf(x, sha), LinesOf(y, sha));
    SameLinesIff(x, y, sha);
  }

  lemma DecodableLines(x: seq<Found>, y: seq<Found>, sha: string -> string)
    requires IsHash(sha) && Readable(x) && Readable(y)
    requires forall f :: f in x + y ==> NUL !in f.path
    ensures Decodable(LinesOf(x, sha)) && Decodable(LinesOf(y, sha))
  {
    forall k | 0 <= k < |x| ensures NUL !in LinesOf(x, sha)[k].path { assert x[k] in x + y; }
    forall k | 0 <= k < |y| ensures NUL !in LinesOf(y, sha)[k].path { assert y[k] in x + y; }
  }

  /** Whatever the pack's own manifest says, it does not influence the hash. */
  lemma {:induction false} ManifestIsLeftOut(a: seq<Found>, body: Option<string>, b: seq<Found>, sha: string -> string)
    ensures HashOf(a + [Found("helmdeck-pack.yaml", body)] + b, sha) == HashOf(a + b, sha)
  {
    HashedApart(a, [Found("helmdeck-pack.yaml", body)] + b);
    HashedApart(a, b);
    HashedCons(Found("helmdeck-pack.yaml", body), b);
    assert a + [Found("helmdeck-pack.yaml", body)] + b == a + ([Found("helmdeck-pack.yaml", body)] + b);
    assert [] + Hashed(b) == Hashed(b);
  }

  lemma {:induction false} HashedApart(a: seq<Found>, b: seq<Found>)
    ensures Hashed(a + b) == Hashed(a) + Hashed(b)
  {
    if a == [] {
      assert a + b == b;
    } else {
      HashedApart(a[1..], b);
      HashedCons(a[0], a[1..] + b);
      HashedCons(a[0], a[1..]);
      assert a + b == [a[0]] + (a[1..] + b) && a == [a[0]] + a[1..];
    }
  }

  // ---------- trust ----------

  datatype Trust = Trust(signedBy: string, sha256: string)

  datatype Note = NoBlock | NoHash | HashError | Mismatch | Verified

  function FoldChar(c: char): char {
    if 'A' <= c <= 'Z' then (c as int + 32) as char else c
  }

  /** strings.EqualFold against hex digits. */
  predicate EqualFold(s: string, t: string) {
    |s| == |t| && forall k :: 0 <= k < |s| ==> FoldChar(s[k]) == FoldChar(t[k])
  }

  /** Equal up to the case of ASCII letters. */
  predicate SameUpToCase(s: string, t: string) {
    |s| == |t| && forall k :: 0 <= k < |s| ==>
      || s[k] == t[k]
      || ('A' <= s[k] <= 'Z' && t[k] as int == s[k] as int + 32)
      || ('A' <= t[k] <= 'Z' && s[k] as int == t[k] as int + 32)
  }

  lemma EqualFoldMeans(s: string, t: string)
    ensures EqualFold(s, t) <==> SameUpToCase(s, t)
  {
  }

  method VerifyTrust(trust: Option<Trust>, fs: seq<Found>, sha: string -> string) returns (verified: bool, note: Note)
    ensures verified <==> trust.Some? && trust.value.sha256 != "" && HashOf(fs, sha).Some? &&
                          EqualFold(HashOf(fs, sha).value, trust.value.sha256)
    ensures verified <==> trust.Some? && trust.value.sha256 != "" && HashOf(fs, sha).Some? &&
                          SameUpToCase(HashOf(fs, sha).value, trust.value.sha256)
    ensures verified <==> note.Verified?
    ensures note.NoBlock? <==> trust.None?
    ensures note.NoHash? <==> trust.Some? && trust.value.sha256 == ""
    ensures note.HashError? <==> trust.Some? && trust.value.sha256 != "" && HashOf(fs, sha).None?
  {
    if trust.None? {
      return false, NoBlock;
    }
    if trust.value.sha256 == "" {
      return false, NoHash;
    }
    var got := ComputePackHash(fs, sha);
    if got.Some? { EqualFoldMeans(got.value, trust.value.sha256); }
    if got.None? {
      return false, HashError;
    }
    if !EqualFold(got.value, trust.value.sha256) {
      return false, Mismatch;
    }
    return true, Verified;
  }

  /** The gate in Install: a declared hash that does not check out refuses the pack. */
  predicate Refused(trust: Option<Trust>, verified: bool) {
    !verified && trust.Some? && trust.value.sha256 != ""
  }

  lemma FoldDigests(g: string, h: string, want: string)
    requires |g| == |h| && EqualFold(h, want)
    requires forall k :: 0 <= k < |g| ==> g[k] in "0123456789abcdef"
    requires forall k :: 0 <= k < |h| ==> h[k] in "0123456789abcdef"
    ensures EqualFold(g, want) <==> g == h
  {
    if EqualFold(g, want) {
      forall k | 0 <= k < |g| ensures g[k] == h[k] { assert FoldChar(g[k]) == FoldChar(want[k]) == FoldChar(h[k]); }
    }
  }

  function FilesOf(pack: seq<Entry>): seq<Found> {
    Hashed(WalkEntries("", pack))
  }

  /** Two directory trees with the same files, the manifest aside. */
  ghost predicate SameFiles(a: seq<Entry>, b: seq<Entry>) {
    forall f: Found :: f.path != "helmdeck-pack.yaml" ==> (f in WalkEntries("", a) <==> f in WalkEntries("", b))
  }

  lemma {:induction false} HashedMembers(fs: seq<Found>, f: Found)
    ensures f in Hashed(fs) <==> f in fs && f.path != "helmdeck-pack.yaml"
  {
    if fs != [] {
      assert fs == [fs[0]] + fs[1..];
      HashedMembers(fs[1..], f);
    }
  }

  lemma {:induction false} HashedInOrder(fs: seq<Found>)
    requires InWalkOrder(fs)
    ensures InWalkOrder(Hashed(fs))
  {
    if fs != [] {
      HashedInOrder(fs[1..]);
      forall f, g | f in [fs[0]] && g in Hashed(fs[1..]) ensures SlashLess(f.path, g.path) {
        HashedMembers(fs[1..], g);
        var j :| 0 <= j < |fs| - 1 && fs[1..][j] == g;
        assert fs[j + 1] == g;
      }
      JoinInOrder([fs[0]], Hashed(fs[1..]));
      assert [] + Hashed(fs[1..]) == Hashed(fs[1..]);
    }
  }

  /** What is hashed of a tree depends on its files alone: the walk leaves no choice of order. */
  lemma SameFilesSameWalk(a: seq<Entry>, b: seq<Entry>)
    requires WellFormed(a) && WellFormed(b)
    ensures FilesOf(a) == FilesOf(b) <==> SameFiles(a, b)
  {
    var v, w := WalkEntries("", a), WalkEntries("", b);
    WalkIsInOrder("", a);
    WalkIsInOrder("", b);
    HashedInOrder(v);
    HashedInOrder(w);
    forall f ensures f in Hashed(v) <==> f in v && f.path != "helmdeck-pack.yaml" { HashedMembers(v, f); }
    forall f ensures f in Hashed(w) <==> f in w && f.path != "helmdeck-pack.yaml" { HashedMembers(w, f); }
    if SameFiles(a, b) { OneWalk(Hashed(v), Hashed(w)); }
  }

  lemma HashedPathsAreNulFree(a: seq<Entry>, b: seq<Entry>)
    requires WellFormed(a) && WellFormed(b)
    ensures forall f :: f in FilesOf(a) + FilesOf(b) ==> NUL !in f.path
  {
    forall f | f in FilesOf(a) + FilesOf(b) ensures NUL !in f.path {
      HashedMembers(WalkEntries("", a), f);
      HashedMembers(WalkEntries("", b), f);
      if f in WalkEntries("", a) { PathsAreNulFree("", a, f); } else { PathsAreNulFree("", b, f); }
    }
  }

  /** A manifest that carries the hash of a signed tree, in whatever letter case, lets through exactly the
      trees with the signed files, and besides them only a tree whose hashed texts collide with the signed
      ones. The manifest's own bytes play no part, and nothing is assumed of the hash but its output. */
  method InstallGate(trust: Trust, ghost signed: seq<Entry>, pack: seq<Entry>, sha: string -> string) returns (installs: bool)
    requires IsHash(sha) && WellFormed(signed) && WellFormed(pack)
    requires Readable(FilesOf(signed)) && EqualFold(HashOf(WalkEntries("", signed), sha).value, trust.sha256)
    ensures installs <==> SameFiles(pack, signed) || (Readable(FilesOf(pack)) && Forged(FilesOf(pack), FilesOf(signed), sha))
  {
    var fs := WalkEntries("", pack);
    ghost var gs := WalkEntries("", signed);
    var verified, note := VerifyTrust(Some(trust), fs, sha);
    installs := !Refused(Some(trust), verified);
    SameFilesSameWalk(pack, signed);
    if Readable(Hashed(fs)) {
      HashedPathsAreNulFree(pack, signed);
      HashIdentifiesContent(fs, gs, sha);
      FoldDigests(HashOf(fs, sha).value, HashOf(gs, sha).value, trust.sha256);
    }
  }

  /** With a hash that has no collision among the texts hashed for the two trees, only the signed files pass. */
  lemma NoForgeryWithoutCollision(x: seq<Found>, y: seq<Found>, sha: string -> string)
    requires Readable(x) && Readable(y)
    requires !Collide(sha, Stream(LinesOf(x, sha)), Stream(LinesOf(y, sha)))
    requires forall f, g :: f in x && g in y && f.path == g.path ==> !Collide(sha, f.body.value, g.body.value)
    ensures !Forged(x, y, sha)
  {
    assert forall k :: 0 <= k < |x| ==> x[k] in x;
    assert forall k :: 0 <= k < |y| ==> y[k] in y;
  }

  /** Without a declared hash every pack installs, unverified. */
  method UnsignedInstalls(trust: Option<Trust>, fs: seq<Found>, sha: string -> string) returns (installs: bool)
    requires trust.None? || trust.value.sha256 == ""
    ensures installs
  {
    var verified, note := VerifyTrust(trust, fs, sha);
    installs := !Refused(trust, verified);
  }
}
