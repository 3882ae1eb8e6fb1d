/** SQLiteStore (internal/memory/sqlite.go): rows unique on (namespace, key) with times as text, and how
    far it is from the table that is never purged. Values are kept in the clear here. */
module Sqlite {
  import opened Text
  import opened Orders
  import opened Memory
  import L = Like
  import T = Timestamps

  datatype Row = Row(
    value: string, category: string, tags: seq<string>, created: string, updated: string, expires: Option<string>)

  type Key = (string, string)
  type Rows = map<Key, Row>

  /** How times are written to the table and parsed back, and which times survive that. */
  datatype Codec = Codec(text: nat -> string, time: string -> Option<nat>, fits: int -> bool)

  /** The zero time.Time, the first instant of the year 1: what a parse that fails leaves behind. */
  const ZERO_TIME: Time := 366 * 86400 * T.SECOND

  lemma ZeroTimeIsYearOne()
    ensures var t := T.Instant(1, 1, 1, 0, 0, 0, 0); T.Valid(t) && T.Nanos(t) == ZERO_TIME
  {
    assert T.DaysBeforeYear(1) == 366;
  }

  /** Reading undoes writing, and the order of texts may be wrong only inside one second. */
  ghost predicate Faithful(f: Codec) {
    && (forall n :: f.fits(n) ==> n >= 0)
    && (forall n: nat :: f.fits(n) ==> f.time(f.text(n)) == Some(n))
    && (forall m: nat, n: nat :: f.fits(m) && f.fits(n) && m + T.SECOND <= n ==> !Less(f.text(n), f.text(m)))
    && (forall m: nat, n: nat :: f.fits(m) && f.fits(n) && n + T.SECOND <= m ==> Less(f.text(n), f.text(m)))
  }

  const RFC3339NANO := Codec(T.TextOf, (s: string) => Some(T.TimeOf(s)), T.InRange)

  lemma Rfc3339NanoIsFaithful()
    ensures Faithful(RFC3339NANO)
  {
    forall n: nat | T.InRange(n) ensures T.TimeOf(T.TextOf(n)) == n { T.TimeOfText(n); }
    forall m: nat, n: nat | T.InRange(m) && T.InRange(n)
      ensures m + T.SECOND <= n ==> !Less(T.TextOf(n), T.TextOf(m))
      ensures n + T.SECOND <= m ==> Less(T.TextOf(n), T.TextOf(m))
    {
      T.TextComparisonWithinASecond(m, n);
    }
  }

  ghost predicate WriteOk(f: Codec, w: Write, now: Time) {
    f.fits(now) && (w.ttl > 0 ==> f.fits(now + w.ttl))
  }

  /** INSERT ... ON CONFLICT DO UPDATE: everything is replaced but created_at. */
  function Upsert(f: Codec, c: Rows, ns: string, key: string, w: Write, now: Time): Rows
    requires 0 <= now
  {
    var k := (ns, key);
    c[k := Row(w.value, w.category, w.tags, if k in c then c[k].created else f.text(now), f.text(now),
               if w.ttl > 0 then Some(f.text(now + w.ttl)) else None)]
  }

  function TimeOr(f: Codec, s: string, default: Time): Time {
    if f.time(s).Some? then f.time(s).value else default
  }

  /** scan: the entry a row stands for; parse errors are ignored, and a zero expiry is none. */
  function Scan(f: Codec, k: Key, r: Row): Entry {
    Entry(k.0, k.1, r.value, r.category, r.tags, TimeOr(f, r.created, ZERO_TIME), TimeOr(f, r.updated, ZERO_TIME),
          if r.expires.Some? && f.time(r.expires.value).Some? then Some(f.time(r.expires.value).value) else None)
  }

  function LiveRow(f: Codec, c: Rows, k: Key, now: Time): Option<Entry> {
    if k in c && !Expired(Scan(f, k, c[k]), now) then Some(Scan(f, k, c[k])) else None
  }

  function AfterGet(f: Codec, c: Rows, k: Key, now: Time): Rows {
    if LiveRow(f, c, k, now).Some? then c else c - {k}
  }

  /** SELECT ... WHERE namespace = ? AND key LIKE ?, without the expired. */
  function Selected(f: Codec, c: Rows, ns: string, prefix: string, eq: L.CharEq, at: Key -> Time): set<Entry> {
    set k | k in c && k.0 == ns && L.Matches(L.LikePrefix(prefix), k.1, None, eq) && !Expired(Scan(f, k, c[k]), at(k))
      :: Scan(f, k, c[k])
  }

  /** DELETE ... WHERE namespace = ? AND key LIKE ? ESCAPE '\'. */
  function AfterDeletePrefix(c: Rows, ns: string, prefix: string, eq: L.CharEq): Rows {
    map k | k in c && !(k.0 == ns && L.Matches(L.Escape(prefix) + "%", k.1, Some(L.ESC), eq)) :: c[k]
  }

  /** DELETE ... WHERE expires_at IS NOT NULL AND expires_at <= ?, on texts. */
  function AfterDeleteExpired(f: Codec, c: Rows, now: Time): Rows
    requires 0 <= now
  {
    map k | k in c && !(c[k].expires.Some? && !Less(f.text(now), c[k].expires.value)) :: c[k]
  }

  /** The row of k expires at the instant x. */
  predicate ExpiresAt(c: Rows, k: Key, x: nat) {
    k in c && T.InRange(x) && c[k].expires == Some(T.TextOf(x))
  }

  /** Which rows DeleteExpired removes, by the instants they expire at. */
  lemma ExpiredGo(c: Rows, now: nat)
    requires T.InRange(now)
    ensures forall k, x: nat :: ExpiresAt(c, k, x) ==>
              var goes := k !in AfterDeleteExpired(RFC3339NANO, c, now);
              && (goes <==> ((x <= now) != T.Clash(T.FromNanos(x), T.FromNanos(now))))
              && (x + T.SECOND <= now ==> goes) && (now + T.SECOND <= x ==> !goes)
  {
    forall k, x: nat | ExpiresAt(c, k, x)
      ensures var goes := k !in AfterDeleteExpired(RFC3339NANO, c, now);
              && (goes <==> ((x <= now) != T.Clash(T.FromNanos(x), T.FromNanos(now))))
              && (x + T.SECOND <= now ==> goes) && (now + T.SECOND <= x ==> !goes)
    {
      T.TextComparisonRightIffNoClash(x, now);
      T.TextComparisonWithinASecond(x, now);
      assert T.TextAtMost(x, now) <==> !Less(RFC3339NANO.text(now), c[k].expires.value);
    }
  }

  ghost predicate Reflexive(eq: L.CharEq) {
    forall x :: eq(x, x)
  }

  /** The DELETE removes exactly the namespace's rows whose key starts with the prefix under eq. */
  lemma DeletePrefixMeans(c: Rows, ns: string, prefix: string, eq: L.CharEq)
    ensures AfterDeletePrefix(c, ns, prefix, eq) == map k | k in c && !(k.0 == ns && L.PrefixUnder(eq, prefix, k.1)) :: c[k]
  {
    forall k | k in c
      ensures L.Matches(L.Escape(prefix) + "%", k.1, Some(L.ESC), eq) <==> L.PrefixUnder(eq, prefix, k.1)
    {
      L.EscapedPatternIsPrefix(prefix, k.1, eq);
    }
  }

  /** No key that the operation's pattern matches lies off the prefix. For a List only live rows matter. */
  ghost predicate NoStray(f: Codec, c: Rows, op: Op, eq: L.CharEq, at: Key -> Time) {
    match op
    case DeletePrefix(ns, prefix) => forall k :: k in c && k.0 == ns && L.PrefixUnder(eq, prefix, k.1) ==> prefix <= k.1
    case List(ns, prefix) =>
      forall k :: k in c && k.0 == ns && !Expired(Scan(f, k, c[k]), at(k)) && L.Matches(L.LikePrefix(prefix), k.1, None, eq)
                  ==> prefix <= k.1
    case _ => true
  }

  lemma PrefixIsUnder(eq: L.CharEq, p: string, s: string)
    requires Reflexive(eq) && p <= s
    ensures L.PrefixUnder(eq, p, s)
  {
    assert forall i :: 0 <= i < |p| ==> p[i] == s[i];
  }

  /** DeletePrefix does what the table does exactly when no key of the namespace starts with the prefix under
      eq without starting with it. */
  lemma DeletePrefixExactIff(f: Codec, c: Rows, ns: string, prefix: string, eq: L.CharEq, at: Key -> Time)
    requires Reflexive(eq)
    ensures AfterDeletePrefix(c, ns, prefix, eq) == (map k | k in c && !(k.0 == ns && prefix <= k.1) :: c[k])
            <==> NoStray(f, c, Op.DeletePrefix(ns, prefix), eq, at)
  {
    DeletePrefixMeans(c, ns, prefix, eq);
    forall k | k in c && prefix <= k.1 ensures L.PrefixUnder(eq, prefix, k.1) { PrefixIsUnder(eq, prefix, k.1); }
    var left, want := AfterDeletePrefix(c, ns, prefix, eq), map k | k in c && !(k.0 == ns && prefix <= k.1) :: c[k];
    if left == want {
      forall k | k in c && k.0 == ns && L.PrefixUnder(eq, prefix, k.1) ensures prefix <= k.1 {
        assert k !in left && k !in want;
      }
    }
  }

  function UnderPrefix(f: Codec, c: Rows, ns: string, prefix: string, at: Key -> Time): set<Entry> {
    set k | k in c && k.0 == ns && prefix <= k.1 && !Expired(Scan(f, k, c[k]), at(k)) :: Scan(f, k, c[k])
  }

  /** List reports the live entries under the prefix exactly when the pattern matches no other live key. */
  lemma ListExactIff(f: Codec, c: Rows, ns: string, prefix: string, eq: L.CharEq, at: Key -> Time)
    requires Reflexive(eq)
    ensures Selected(f, c, ns, prefix, eq, at) == UnderPrefix(f, c, ns, prefix, at)
            <==> NoStray(f, c, Op.List(ns, prefix), eq, at)
  {
    forall k | k in c && prefix <= k.1 ensures L.Matches(L.LikePrefix(prefix), k.1, None, eq) {
      PrefixIsUnder(eq, prefix, k.1);
      L.ListPatternIsSuperset(prefix, k.1, eq);
    }
    if Selected(f, c, ns, prefix, eq, at) == UnderPrefix(f, c, ns, prefix, at) {
      forall k | k in c && k.0 == ns && !Expired(Scan(f, k, c[k]), at(k)) && L.Matches(L.LikePrefix(prefix), k.1, None, eq)
        ensures prefix <= k.1
      {
        assert Scan(f, k, c[k]) in UnderPrefix(f, c, ns, prefix, at);
      }
    }
  }

  /** For a prefix without wildcards a List strays only where a DeletePrefix does, on keys equal to the prefix
      under eq alone. */
  lemma ListStraysLikeDeletePrefix(f: Codec, c: Rows, ns: string, prefix: string, eq: L.CharEq, at: Key -> Time)
    requires forall i :: 0 <= i < |prefix| ==> !L.Wild(prefix[i])
    requires NoStray(f, c, Op.DeletePrefix(ns, prefix), eq, at)
    ensures NoStray(f, c, Op.List(ns, prefix), eq, at)
  {
    assert "" + "%" == "%";
    forall k | k in c ensures L.Matches(L.LikePrefix(prefix), k.1, None, eq) <==> L.PrefixUnder(eq, prefix, k.1) {
      L.WildcardFreeIsPrefix(prefix, k.1, eq);
    }
  }

  function Lower(c: char): char {
    if 'A' <= c <= 'Z' then c + 32 as char else c
  }

  /** The letter comparison of LIKE in the database the program opens: SQLite's default. */
  predicate AsciiFold(x: char, y: char) {
    Lower(x) == Lower(y)
  }

  /** Letters that LIKE does not tell apart: a capital and its small letter, and no others. */
  lemma AsciiFoldMeans(x: char, y: char)
    ensures AsciiFold(x, y) <==>
              || x == y
              || ('A' <= x <= 'Z' && y as int == x as int + 32)
              || ('A' <= y <= 'Z' && x as int == y as int + 32)
  {
  }

  predicate Same(x: char, y: char) {
    x == y
  }

  /** With exact letters neither operation strays, as long as a listed prefix has no wildcard. */
  lemma ExactLettersNeverStray(f: Codec, c: Rows, op: Op, at: Key -> Time)
    requires op.List? ==> forall i :: 0 <= i < |op.prefix| ==> !L.Wild(op.prefix[i])
    ensures NoStray(f, c, op, Same, at)
  {
    if op.DeletePrefix? || op.List? {
      forall k | k in c && L.PrefixUnder(Same, op.prefix, k.1) ensures op.prefix <= k.1 {
        assert forall i :: 0 <= i < |op.prefix| ==> Same(op.prefix[i], k.1[i]);
        assert op.prefix == k.1[..|op.prefix|];
      }
      if op.List? { ListStraysLikeDeletePrefix(f, c, op.ns, op.prefix, Same, at); }
    }
  }

  predicate NoCapitals(s: string) {
    forall i :: 0 <= i < |s| ==> Lower(s[i]) == s[i]
  }

  /** Under folding DeletePrefix does not stray when neither the prefix nor the namespace's keys have capitals. */
  lemma FoldingHarmlessWithoutCapitals(f: Codec, c: Rows, ns: string, prefix: string, at: Key -> Time)
    requires NoCapitals(prefix) && forall k :: k in c && k.0 == ns ==> NoCapitals(k.1)
    ensures NoStray(f, c, Op.DeletePrefix(ns, prefix), AsciiFold, at)
  {
    forall k | k in c && k.0 == ns && L.PrefixUnder(AsciiFold, prefix, k.1) ensures prefix <= k.1 {
      assert forall i :: 0 <= i < |prefix| ==> AsciiFold(prefix[i], k.1[i]) && prefix[i] == k.1[i];
      assert prefix == k.1[..|prefix|];
    }
  }

  /** With a capital it deletes a key that does not start with the prefix. */
  lemma FoldingDeletesMore(r: Row)
    ensures AfterDeletePrefix(map[("ns", "A") := r], "ns", "a", AsciiFold) == map[]
    ensures !("a" <= "A")
  {
    DeletePrefixMeans(map[("ns", "A") := r], "ns", "a", AsciiFold);
    assert "a"[0] != "A"[0];
  }

  class SqliteStore {
    const f: Codec
    const eq: L.CharEq
    var rows: Rows

    constructor (f: Codec, eq: L.CharEq)
      ensures rows == map[] && this.f == f && this.eq == eq
    {
      this.f := f;
      this.eq := eq;
      rows := map[];
    }

    /** The returned entry has the row's creation time, read back; where that does not parse, the clock's. */
    method Put(ns: string, key: string, w: Write, now: Time) returns (e: Entry)
      requires 0 <= now
      modifies this
      ensures rows == Upsert(f, old(rows), ns, key, w, now)
      ensures e == NewEntry(ns, key, w, TimeOr(f, rows[(ns, key)].created, now), now)
      ensures Faithful(f) && WriteOk(f, w, now) && f.time(rows[(ns, key)].created).Some? ==> e == Scan(f, (ns, key), rows[(ns, key)])
    {
      var k := (ns, key);
      var r := Row(w.value, w.category, w.tags, f.text(now), f.text(now), None);
      e := Entry(ns, key, w.value, w.category, w.tags, now, now, None);
      if w.ttl > 0 {
        e := e.(expiresAt := Some(now + w.ttl));
        r := r.(expires := Some(f.text(now + w.ttl)));
      }
      if k in rows {
        r := r.(created := rows[k].created);
      }
      rows := rows[k := r];
      var created := f.time(rows[k].created);
      if created.Some? {
        e := e.(createdAt := created.value);
      }
    }

    method Get(ns: string, key: string, now: Time) returns (e: Option<Entry>)
      modifies this
      ensures e == LiveRow(f, old(rows), (ns, key), now)
      ensures rows == AfterGet(f, old(rows), (ns, key), now)
    {
      var k := (ns, key);
      if k !in rows {
        assert rows - {k} == rows;
        return None;
      }
      var found := Scan(f, k, rows[k]);
      if Expired(found, now) {
        rows := rows - {k};
        return None;
      }
      e := Some(found);
    }

    method DeletePrefix(ns: string, prefix: string) returns (n: nat)
      modifies this
      ensures rows == map k | k in old(rows) && !(k.0 == ns && L.PrefixUnder(eq, prefix, k.1)) :: old(rows)[k]
      ensures n == |old(rows)| - |rows|
    {
      DeletePrefixMeans(rows, ns, prefix, eq);
      var left := AfterDeletePrefix(rows, ns, prefix, eq);
      SubmapSize(left, rows);
      n := |rows| - |left|;
      rows := left;
    }

    /** On RFC 3339 texts a row goes exactly when it has expired, unless its expiry and the clock clash:
        then exactly when it has not. */
    method DeleteExpired(now: Time) returns (n: nat)
      requires 0 <= now
      modifies this
      ensures rows == AfterDeleteExpired(f, old(rows), now)
      ensures n == |old(rows)| - |rows|
      ensures forall k :: k in rows ==> k in old(rows) && rows[k] == old(rows)[k]
      ensures forall k :: k in old(rows) && old(rows)[k].expires.None? ==> k in rows
      ensures f == RFC3339NANO && T.InRange(now) ==>
                forall k, x: nat :: ExpiresAt(old(rows), k, x) ==>
                  (k !in rows <==> ((x <= now) != T.Clash(T.FromNanos(x), T.FromNanos(now))))
      ensures f == RFC3339NANO && T.InRange(now) ==>
                forall k, x: nat :: ExpiresAt(old(rows), k, x) ==>
                  (x + 1_000_000_000 <= now ==> k !in rows) && (now + 1_000_000_000 <= x ==> k in rows)
    {
      ghost var exact := f == RFC3339NANO && T.InRange(now);
      if exact { ExpiredGo(rows, now); }
      var left := AfterDeleteExpired(f, rows, now);
      SubmapSize(left, rows);
      n := |rows| - |left|;
      rows := left;
    }
  }

  lemma {:induction false} SubsetSize<X>(a: set<X>, b: set<X>)
    requires a <= b
    ensures |a| <= |b|
  {
    assert b == a + (b - a);
  }

  lemma SubmapSize(a: Rows, b: Rows)
    requires a.Keys <= b.Keys
    ensures |a| <= |b|
  {
    SubsetSize(a.Keys, b.Keys);
    assert |a| == |a.Keys| && |b| == |b.Keys|;
  }

  // ---------- distance from the table ----------

  /** The row is the table's entry, in text; only created_at may be younger. */
  ghost predicate Encodes(f: Codec, r: Row, e: Entry) {
    && SameButCreated(Scan(f, (e.ns, e.key), r), e)
    && f.time(r.created).Some? && e.createdAt <= f.time(r.created).value
    && (e.expiresAt.Some? <==> r.expires.Some?)
    && (e.expiresAt.Some? ==> f.fits(e.expiresAt.value) && r.expires.value == f.text(e.expiresAt.value))
  }

  /** An entry whose expiry lies at most `slack` after t. */
  predicate Doomed(e: Entry, t: Time, slack: nat) {
    e.expiresAt.Some? && e.expiresAt.value <= t + slack
  }

  ghost predicate Tracks(f: Codec, c: Rows, a: Table, t: Time, slack: nat) {
    && TableOk(a)
    && (forall k :: k in a ==> a[k].createdAt <= t)
    && (forall k :: k in c ==> k in a && Encodes(f, c[k], a[k]))
    && (forall k :: k in a ==> k in c || Doomed(a[k], t, slack))
  }

  function RowsAfter(f: Codec, eq: L.CharEq, c: Rows, op: Op, now: Time, at: Key -> Time): Rows
    requires 0 <= now
  {
    match op
    case Put(ns, key, w) => Upsert(f, c, ns, key, w, now)
    case Get(ns, key) => AfterGet(f, c, (ns, key), at((ns, key)))
    case List(_, _) => c
    case Delete(ns, key) => c - {(ns, key)}
    case DeletePrefix(ns, prefix) => AfterDeletePrefix(c, ns, prefix, eq)
    case DeleteExpired => AfterDeleteExpired(f, c, now)
  }

  function RowsReply(f: Codec, eq: L.CharEq, c: Rows, op: Op, at: Key -> Time): Answer {
    match op
    case Get(ns, key) =>
      var e := LiveRow(f, c, (ns, key), at((ns, key)));
      Got(if e.Some? then Some(Undated(e.value)) else None)
    case List(ns, prefix) => Listed(set e | e in Selected(f, c, ns, prefix, eq, at) :: Undated(e))
    case _ => Done
  }

  /** The times of an operation can be written, and its pattern does not stray off its prefix. */
  ghost predicate OpOk(f: Codec, eq: L.CharEq, c: Rows, op: Op, now: Time, at: Key -> Time) {
    f.fits(now) && (op.Put? ==> WriteOk(f, op.w, now)) && NoStray(f, c, op, eq, at)
  }

  lemma UpsertTracks(f: Codec, c: Rows, a: Table, t: Time, slack: nat, op: Op, now: Time, until: Time)
    requires Faithful(f) && Tracks(f, c, a, t, slack) && op.Put? && WriteOk(f, op.w, now) && t <= now <= until
    ensures Tracks(f, Upsert(f, c, op.ns, op.key, op.w, now), Put1(a, op, now), until, slack)
  {
    var k := (op.ns, op.key);
    var c2, a2 := Upsert(f, c, op.ns, op.key, op.w, now), Put1(a, op, now);
    forall k2 | k2 in a2 ensures k2 in c2 || Doomed(a2[k2], until, slack) {
      if k2 != k { assert k2 in c || Doomed(a[k2], t, slack); }
    }
    assert Encodes(f, c2[k], a2[k]);
  }

  /** Rows may only disappear when they are doomed. */
  lemma LoseTracks(f: Codec, c: Rows, c2: Rows, a: Table, t: Time, until: Time, slack: nat)
    requires Faithful(f) && Tracks(f, c, a, t, slack) && t <= until
    requires forall k :: k in c2 ==> k in c && c2[k] == c[k]
    requires forall k :: k in c && k !in c2 ==> Doomed(a[k], until, slack)
    ensures Tracks(f, c2, a, until, slack)
  {
  }

  lemma StepTracks(f: Codec, eq: L.CharEq, c: Rows, a: Table, t: Time, slack: nat, op: Op, now: Time, at: Key -> Time, until: Time)
    requires Faithful(f) && Reflexive(eq) && Tracks(f, c, a, t, slack) && OpOk(f, eq, c, op, now, at)
    requires t <= now <= until && forall k :: now <= at(k) <= until
    requires op.DeleteExpired? ==> slack >= T.SECOND - 1
    ensures Tracks(f, RowsAfter(f, eq, c, op, now, at), Effect(a, op, now), until, slack)
  {
    var c2, a2 := RowsAfter(f, eq, c, op, now, at), Effect(a, op, now);
    match op
    case Put(_, _, _) => UpsertTracks(f, c, a, t, slack, op, now, until);
    case Get(ns, key) => LoseTracks(f, c, c2, a, t, until, slack);
    case List(_, _) => LoseTracks(f, c, c, a, t, until, slack);
    case Delete(ns, key) =>
    case DeletePrefix(ns, prefix) => DeletePrefixExactIff(f, c, ns, prefix, eq, at);
    case DeleteExpired =>
      forall k | k in c && k !in c2 ensures Doomed(a[k], until, slack) {
        assert f.fits(a[k].expiresAt.value) && f.fits(now);
      }
      LoseTracks(f, c, c2, a, t, until, slack);
  }

  /** How an answer may differ from the table's: an entry about to expire may be missing. */
  ghost predicate Close(sql: Answer, table: Answer, op: Op, at: Key -> Time, slack: nat) {
    match op
    case Get(ns, key) =>
      sql.Got? && table.Got? &&
      (sql == table || (sql.e.None? && table.e.Some? && Doomed(table.e.value, at((ns, key)), slack)))
    case List(_, _) =>
      sql.Listed? && table.Listed? && sql.es <= table.es &&
      forall e :: e in table.es && e !in sql.es ==> Doomed(e, at((e.ns, e.key)), slack)
    case _ => sql == table
  }

  lemma ListClose(f: Codec, eq: L.CharEq, c: Rows, a: Table, t: Time, slack: nat, ns: string, prefix: string, at: Key -> Time)
    requires Faithful(f) && Reflexive(eq) && Tracks(f, c, a, t, slack) && forall k :: t <= at(k)
    requires NoStray(f, c, Op.List(ns, prefix), eq, at)
    ensures Close(RowsReply(f, eq, c, Op.List(ns, prefix), at), Reply(a, Op.List(ns, prefix), at), Op.List(ns, prefix), at, slack)
  {
    var op := Op.List(ns, prefix);
    var es, fs := RowsReply(f, eq, c, op, at).es, Reply(a, op, at).es;
    ListExactIff(f, c, ns, prefix, eq, at);
    forall e | e in es ensures e in fs {
      var x :| x in UnderPrefix(f, c, ns, prefix, at) && e == Undated(x);
      var k :| k in c && k.0 == ns && prefix <= k.1 && !Expired(Scan(f, k, c[k]), at(k)) && x == Scan(f, k, c[k]);
      assert k in a && !Expired(a[k], at(k)) && Undated(a[k]) == e;
    }
    forall e | e in fs && e !in es ensures Doomed(e, at((e.ns, e.key)), slack) {
      var k :| k in a && k.0 == ns && prefix <= k.1 && !Expired(a[k], at(k)) && e == Undated(a[k]);
      assert k in c ==> Scan(f, k, c[k]) in UnderPrefix(f, c, ns, prefix, at) && Undated(Scan(f, k, c[k])) == e;
      assert Doomed(a[k], t, slack) && k == (e.ns, e.key);
    }
  }

  lemma ReplyClose(f: Codec, eq: L.CharEq, c: Rows, a: Table, t: Time, slack: nat, op: Op, now: Time, at: Key -> Time)
    requires Faithful(f) && Reflexive(eq) && Tracks(f, c, a, t, slack) && OpOk(f, eq, c, op, now, at) && forall k :: t <= at(k)
    ensures Close(RowsReply(f, eq, c, op, at), Reply(a, op, at), op, at, slack)
  {
    if op.List? { ListClose(f, eq, c, a, t, slack, op.ns, op.prefix, at); }
  }

  datatype Event = Event(op: Op, now: Time, at: Key -> Time, until: Time)

  /** A run on rows c: the clock never goes back, and each operation is in order on the rows it finds. */
  ghost predicate EventsOk(f: Codec, eq: L.CharEq, c: Rows, t: Time, events: seq<Event>)
    decreases |events|
  {
    |events| == 0 ||
    (var e := events[0];
     && 0 <= e.now && t <= e.now <= e.until && OpOk(f, eq, c, e.op, e.now, e.at) && (forall k :: e.now <= e.at(k) <= e.until)
     && EventsOk(f, eq, RowsAfter(f, eq, c, e.op, e.now, e.at), e.until, events[1..]))
  }

  ghost predicate AllClose(f: Codec, eq: L.CharEq, c: Rows, a: Table, t: Time, events: seq<Event>, slack: nat)
    requires EventsOk(f, eq, c, t, events)
    decreases |events|
  {
    |events| == 0 ||
    (var e := events[0];
     && Close(RowsReply(f, eq, c, e.op, e.at), Reply(a, e.op, e.at), e.op, e.at, slack)
     && AllClose(f, eq, RowsAfter(f, eq, c, e.op, e.now, e.at), Effect(a, e.op, e.now), e.until, events[1..], slack))
  }

  lemma {:induction false} RunTracks(f: Codec, eq: L.CharEq, c: Rows, a: Table, t: Time, events: seq<Event>, slack: nat)
    requires Faithful(f) && Reflexive(eq) && Tracks(f, c, a, t, slack) && EventsOk(f, eq, c, t, events)
    requires slack >= T.SECOND - 1 || forall i :: 0 <= i < |events| ==> !events[i].op.DeleteExpired?
    ensures AllClose(f, eq, c, a, t, events, slack)
    decreases |events|
  {
    if |events| > 0 {
      var e := events[0];
      ReplyClose(f, eq, c, a, t, slack, e.op, e.now, e.at);
      StepTracks(f, eq, c, a, t, slack, e.op, e.now, e.at, e.until);
      RunTracks(f, eq, RowsAfter(f, eq, c, e.op, e.now, e.at), Effect(a, e.op, e.now), e.until, events[1..], slack);
    }
  }

  /** From an empty database with the program's own letter folding, and as long as no DeletePrefix and no List
      strays, every Get and every List answers as the table does, except that an entry may be missing during
      the last second of its life; and not even that in a run without DeleteExpired, where a missing entry
      would already have to be expired. */
  lemma SqliteStoreTracksTheTable(t: Time, events: seq<Event>)
    requires EventsOk(RFC3339NANO, AsciiFold, map[], t, events)
    ensures AllClose(RFC3339NANO, AsciiFold, map[], map[], t, events, T.SECOND - 1)
    ensures (forall i :: 0 <= i < |events| ==> !events[i].op.DeleteExpired?) ==>
              AllClose(RFC3339NANO, AsciiFold, map[], map[], t, events, 0)
  {
    Rfc3339NanoIsFaithful();
    RunTracks(RFC3339NANO, AsciiFold, map[], map[], t, events, T.SECOND - 1);
    if forall i :: 0 <= i < |events| ==> !events[i].op.DeleteExpired? {
      RunTracks(RFC3339NANO, AsciiFold, map[], map[], t, events, 0);
    }
  }

  /** With no slack an answer that is close is the table's own. */
  lemma CloseWithoutSlackIsEqual(a: Table, op: Op, at: Key -> Time, sql: Answer)
    requires TableOk(a) && Close(sql, Reply(a, op, at), op, at, 0)
    ensures sql == Reply(a, op, at)
  {
    var table := Reply(a, op, at);
    if op.List? {
      forall e | e in table.es ensures e in sql.es {
        var k :| k in a && k.0 == op.ns && op.prefix <= k.1 && !Expired(a[k], at(k)) && e == Undated(a[k]);
      }
    }
  }

  /** ORDER BY updated_at DESC compares texts too: an entry listed before another is at most a second older. */
  lemma ListOrderWithinASecond(x: nat, y: nat)
    requires T.InRange(x) && T.InRange(y)
    requires !Less(T.TextOf(x), T.TextOf(y))
    ensures y < x + T.SECOND
  {
    T.TextComparisonWithinASecond(y, x);
    T.TextComparisonWithinASecond(x, y);
  }
}
