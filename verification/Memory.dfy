/** The memory store's contract (internal/memory/memory.go): one table from (namespace, key) to entry
    that is never purged and filters by expiry when read. */
module Memory {
  import opened Text
  import opened Orders

  type Time = int      // nanoseconds

  datatype Entry = Entry(
    ns: string, key: string, value: string, category: string, tags: seq<string>,
    createdAt: Time, updatedAt: Time, expiresAt: Option<Time>)

  datatype Write = Write(value: string, category: string, tags: seq<string>, ttl: Time)

  /** isExpired: an entry lives strictly before its expiry. */
  predicate Expired(e: Entry, now: Time) {
    e.expiresAt.Some? && !(now < e.expiresAt.value)
  }

  function NewEntry(ns: string, key: string, w: Write, created: Time, now: Time): Entry {
    Entry(ns, key, w.value, w.category, w.tags, created, now, if w.ttl > 0 then Some(now + w.ttl) else None)
  }

  /** All fields but CreatedAt. */
  predicate SameButCreated(e: Entry, f: Entry) {
    e == f.(createdAt := e.createdAt)
  }

  function Undated(e: Entry): Entry {
    e.(createdAt := 0)
  }

  predicate NulFree(s: string) {
    NUL !in s
  }

  type Table = map<(string, string), Entry>

  ghost predicate TableOk(a: Table) {
    forall k :: k in a ==> k == (a[k].ns, a[k].key)
  }

  /** Newest first, the order in which entries are listed. */
  predicate NewerFirst(e: Entry, f: Entry) {
    e.updatedAt > f.updatedAt
  }

  lemma NewerFirstIsOrder()
    ensures StrictWeak(NewerFirst)
  {
  }

  /** `at` gives the clock reading at which an operation looked at a row; the clock is read per row. */
  datatype Op =
    | Put(ns: string, key: string, w: Write)
    | Get(ns: string, key: string)
    | List(ns: string, prefix: string)
    | Delete(ns: string, key: string)
    | DeletePrefix(ns: string, prefix: string)
    | DeleteExpired

  /** What a caller learns; lists as sets, since the order among equal times is the map's. CreatedAt is
      left out because it depends on purging. */
  datatype Answer = Done | Got(e: Option<Entry>) | Listed(es: set<Entry>)

  function Put1(a: Table, op: Op, now: Time): Table
    requires op.Put?
  {
    var k := (op.ns, op.key);
    a[k := NewEntry(op.ns, op.key, op.w, if k in a then a[k].createdAt else now, now)]
  }

  /** The effect of an operation on the table that is never purged. */
  function Effect(a: Table, op: Op, now: Time): Table {
    match op
    case Put(_, _, _) => Put1(a, op, now)
    case Delete(ns, key) => a - {(ns, key)}
    case DeletePrefix(ns, prefix) => map k | k in a && !(k.0 == ns && prefix <= k.1) :: a[k]
    case _ => a
  }

  /** Its answer, with `at` the clock reading for each row. */
  function Reply(a: Table, op: Op, at: ((string, string)) -> Time): Answer {
    match op
    case Get(ns, key) =>
      var k := (ns, key);
      Got(if k in a && !Expired(a[k], at(k)) then Some(Undated(a[k])) else None)
    case List(ns, prefix) =>
      Listed(set k | k in a && k.0 == ns && prefix <= k.1 && !Expired(a[k], at(k)) :: Undated(a[k]))
    case _ => Done
  }
}

/** InMemoryStore: a Go map under flattened keys that drops expired rows when it reads them. */
module InMemory {
  import opened Text
  import opened Orders
  import opened Memory

  function MapKey(ns: string, key: string): string {
    ns + [NUL] + key
  }

  type Rows = map<string, Entry>

  /** For namespaces without NUL a flattened key has one reading, and prefixes of flattened keys are
      prefixes of keys inside one namespace. */
  lemma {:induction false} FlattenedPrefix(ns: string, key: string, ns2: string, prefix: string)
    requires NulFree(ns) && NulFree(ns2)
    ensures MapKey(ns2, prefix) <= MapKey(ns, key) <==> ns == ns2 && prefix <= key
  {
    var m, p := MapKey(ns, key), MapKey(ns2, prefix);
    assert m[|ns|] == NUL && p[|ns2|] == NUL;
    assert |ns2| < |ns| ==> m[|ns2|] == ns[|ns2|] != NUL;
    assert |ns| < |ns2| ==> p[|ns|] == ns2[|ns|] != NUL;
    if p <= m {
      assert m[|ns2|] == p[|ns2|] && (|ns| < |p| ==> p[|ns|] == m[|ns|]);
      assert ns == m[..|ns|] == p[..|ns2|] == ns2;
      assert prefix == p[|ns| + 1..] && key == m[|ns| + 1..];
      assert forall i :: 0 <= i < |prefix| ==> prefix[i] == p[|ns| + 1 + i] && key[i] == m[|ns| + 1 + i];
    }
    if ns == ns2 && prefix <= key {
      assert key == prefix + key[|prefix|..];
      assert m == p + key[|prefix|..];
    }
  }

  lemma MapKeyInjective(ns: string, key: string, ns2: string, key2: string)
    requires NulFree(ns) && NulFree(ns2)
    ensures MapKey(ns, key) == MapKey(ns2, key2) <==> ns == ns2 && key == key2
  {
    FlattenedPrefix(ns, key, ns2, key2);
    FlattenedPrefix(ns2, key2, ns, key);
  }

  /** Two different pairs under one flattened key. */
  predicate Collides(ns: string, key: string, ns2: string, key2: string) {
    MapKey(ns, key) == MapKey(ns2, key2) && (ns, key) != (ns2, key2)
  }

  /** Cutting a namespace at its first NUL gives a pair with a NUL-free namespace and the same flattened key. */
  lemma {:induction false} NulCollides(ns: string, key: string) returns (ns2: string, key2: string)
    requires !NulFree(ns)
    ensures NulFree(ns2) && Collides(ns, key, ns2, key2)
  {
    if ns[0] == NUL {
      ns2, key2 := "", MapKey(ns[1..], key);
      assert MapKey(ns, key) == [NUL] + MapKey(ns[1..], key);
    } else {
      assert NUL in ns[1..] by { assert ns == [ns[0]] + ns[1..]; }
      var tail, rest := NulCollides(ns[1..], key);
      ns2, key2 := [ns[0]] + tail, rest;
      assert MapKey(ns, key) == [ns[0]] + MapKey(ns[1..], key);
      assert MapKey(ns2, key2) == [ns[0]] + MapKey(tail, rest);
      assert ns != ns2 by { assert NUL in ns && NUL !in ns2; }
    }
  }

  /** A row shares its flattened key with a pair of a NUL-free namespace exactly when its own has a NUL. */
  lemma CollidesIffNul(ns: string, key: string)
    ensures (exists ns2, key2 :: NulFree(ns2) && Collides(ns, key, ns2, key2)) <==> !NulFree(ns)
  {
    if NulFree(ns) {
      forall ns2, key2 | NulFree(ns2) ensures !Collides(ns, key, ns2, key2) { MapKeyInjective(ns, key, ns2, key2); }
    } else {
      var ns2, key2 := NulCollides(ns, key);
    }
  }

  // ---------- the operations on the Go map ----------

  /** A row is alive strictly before its expiry, if it has one. */
  predicate Alive(e: Entry, now: Time) {
    e.expiresAt.None? || now < e.expiresAt.value
  }

  function PutRow(c: Rows, ns: string, key: string, w: Write, now: Time): Rows {
    var mk := MapKey(ns, key);
    c[mk := NewEntry(ns, key, w, if mk in c then c[mk].createdAt else now, now)]
  }

  function Live(c: Rows, ns: string, key: string, now: Time): Option<Entry> {
    var mk := MapKey(ns, key);
    if mk in c && !Expired(c[mk], now) then Some(c[mk]) else None
  }

  /** A Get that misses leaves no row: a missing key has none, an expired row is dropped. */
  function AfterGet(c: Rows, ns: string, key: string, now: Time): Rows {
    if Live(c, ns, key, now).Some? then c else c - {MapKey(ns, key)}
  }

  /** The rows a List of (ns, prefix) reports. */
  function Matching(c: Rows, ns: string, prefix: string, at: string -> Time): set<Entry> {
    set mk | mk in c && c[mk].ns == ns && !Expired(c[mk], at(mk)) && prefix <= c[mk].key :: c[mk]
  }

  /** The rows a List of namespace ns leaves: the expired ones it walks over are dropped. */
  function AfterList(c: Rows, ns: string, at: string -> Time): Rows {
    map mk | mk in c && !Dropped(c[mk], ns, at(mk)) :: c[mk]
  }

  predicate Dropped(e: Entry, ns: string, now: Time) {
    e.ns == ns && Expired(e, now)
  }

  function AfterDeletePrefix(c: Rows, ns: string, prefix: string): Rows {
    map mk | mk in c && !(MapKey(ns, prefix) <= mk) :: c[mk]
  }

  function AfterDeleteExpired(c: Rows, at: string -> Time): Rows {
    map mk | mk in c && !Expired(c[mk], at(mk)) :: c[mk]
  }

  /** A row with a NUL in its namespace is read as the other pair's, and goes with a DeletePrefix of the
      other namespace. */
  lemma CollisionLeaks(c: Rows, ns: string, key: string, ns2: string, key2: string, prefix: string, now: Time)
    requires MapKey(ns, key) in c && Collides(ns, key, ns2, key2) && prefix <= key2
    ensures Live(c, ns2, key2, now) == Live(c, ns, key, now)
    ensures MapKey(ns, key) !in AfterDeletePrefix(c, ns2, prefix)
  {
    assert MapKey(ns2, key2) == MapKey(ns2, prefix) + key2[|prefix|..];
  }

  /** Every row is stored under the flattening of its own namespace and key. */
  ghost predicate Keyed(c: Rows) {
    forall mk :: mk in c ==> mk == MapKey(c[mk].ns, c[mk].key)
  }

  ghost predicate Listing(out: seq<Entry>, es: set<Entry>) {
    multiset(out) == multiset(es) && Sorted(NewerFirst, out)
  }

  /** Which rows a List reports, and which it leaves. */
  lemma ListMeans(c: Rows, ns: string, prefix: string, at: string -> Time)
    requires Keyed(c)
    ensures forall mk :: mk in c ==>
              && (c[mk] in Matching(c, ns, prefix, at) <==> c[mk].ns == ns && prefix <= c[mk].key && Alive(c[mk], at(mk)))
              && (mk in AfterList(c, ns, at) <==> c[mk].ns != ns || Alive(c[mk], at(mk)))
  {
  }

  lemma DeleteExpiredMeans(c: Rows, at: string -> Time)
    ensures AfterDeleteExpired(c, at) == map mk | mk in c && Alive(c[mk], at(mk)) :: c[mk]
  {
  }

  lemma ListedMembers(out: seq<Entry>, es: set<Entry>)
    requires multiset(out) == multiset(es)
    ensures forall e :: e in out <==> e in es
  {
    forall e ensures e in out <==> e in es { assert e in out <==> e in multiset(out); }
  }

  /** The namespace ListNamespaces reads off a flattened key: what precedes the first NUL, if anything. */
  function NsOf(mk: string): Option<string> {
    if NUL !in mk || mk[0] == NUL then None else Some(UpToNul(mk))
  }

  function UpToNul(s: string): string {
    if s == "" || s[0] == NUL then "" else [s[0]] + UpToNul(s[1..])
  }

  lemma {:induction false} NsOfMapKey(ns: string, key: string)
    requires NulFree(ns)
    ensures NsOf(MapKey(ns, key)) == if ns == "" then None else Some(ns)
  {
    UpToNulMapKey(ns, key);
    assert MapKey(ns, key)[|ns|] == NUL;
    if ns != "" { assert MapKey(ns, key)[0] == ns[0] && ns[0] in ns; }
  }

  lemma {:induction false} UpToNulMapKey(ns: string, key: string)
    requires NulFree(ns)
    ensures UpToNul(MapKey(ns, key)) == ns
  {
    if ns != "" {
      assert ns[0] in ns && MapKey(ns, key)[1..] == MapKey(ns[1..], key);
      assert forall c :: c in ns[1..] ==> c in ns;
      UpToNulMapKey(ns[1..], key);
      assert ns == [ns[0]] + ns[1..];
    }
  }

  datatype NamespaceCount = NamespaceCount(ns: string, count: nat)

  /** Busiest first, then by name. */
  predicate Busier(x: NamespaceCount, y: NamespaceCount) {
    x.count > y.count || (x.count == y.count && Less(x.ns, y.ns))
  }

  lemma BusierIsOrder()
    ensures StrictWeak(Busier)
  {
    forall x: NamespaceCount ensures !Busier(x, x) { LessIrreflexive(x.ns); }
    forall x, y, z | Busier(x, y) && Busier(y, z) ensures Busier(x, z) {
      if x.count == z.count { LessTransitive(x.ns, y.ns, z.ns); }
    }
    forall x, y, z | Busier(x, z) && !Busier(x, y) ensures Busier(y, z) {
      LessTotal(x.ns, y.ns);
      if x.count == y.count == z.count && x.ns != y.ns { LessTransitive(y.ns, x.ns, z.ns); }
    }
  }

  lemma BusiestFirst(out: seq<NamespaceCount>)
    requires Sorted(Busier, out) && forall i, j :: 0 <= i < j < |out| ==> out[i].ns != out[j].ns
    ensures forall i, j :: 0 <= i < j < |out| ==>
              out[i].count > out[j].count || (out[i].count == out[j].count && Less(out[i].ns, out[j].ns))
  {
    forall i, j | 0 <= i < j < |out|
      ensures out[i].count > out[j].count || (out[i].count == out[j].count && Less(out[i].ns, out[j].ns))
    {
      assert !Busier(out[j], out[i]);
      LessTotal(out[i].ns, out[j].ns);
    }
  }

  /** How many rows ListNamespaces attributes to a namespace. */
  function RowsIn(c: Rows, ns: string): nat {
    |set mk | mk in c && NsOf(mk) == Some(ns)|
  }

  /** sortNamespaceCounts: insertion by swaps, in place. */
  method SortNamespaceCounts(s: array<NamespaceCount>)
    modifies s
    ensures Sorted(Busier, s[..]) && multiset(s[..]) == multiset(old(s[..]))
  {
    BusierIsOrder();
    var i := 1;
    while i < s.Length
      invariant 1 <= i
      invariant forall k, m :: 0 <= k < m < i && m < s.Length ==> !Busier(s[m], s[k])
      invariant multiset(s[..]) == multiset(old(s[..]))
    {
      SinkIn(Busier, s, i);
      i := i + 1;
    }
  }

  /** The rows in the middle of a sweep: those still to visit, and the visited ones that stay. */
  function Swept(c: Rows, todo: set<string>, gone: (string, Entry) -> bool): Rows {
    map mk | mk in c && (mk in todo || !gone(mk, c[mk])) :: c[mk]
  }

  lemma SweptStep(c: Rows, todo: set<string>, mk: string, gone: (string, Entry) -> bool)
    requires todo <= c.Keys && mk in todo
    ensures var before, after := Swept(c, todo, gone), Swept(c, todo - {mk}, gone);
            && mk in before && before[mk] == c[mk]
            && after == (if gone(mk, c[mk]) then before - {mk} else before)
            && |after| == |before| - if gone(mk, c[mk]) then 1 else 0
  {
    var before, after := Swept(c, todo, gone), Swept(c, todo - {mk}, gone);
    if gone(mk, c[mk]) {
      assert after == before - {mk};
      RemoveShrinks(before, mk);
    } else {
      assert after == before;
    }
  }

  class InMemoryStore {
    var entries: Rows

    constructor ()
      ensures entries == map[] && Keyed(entries)
    {
      entries := map[];
    }

    method Put(ns: string, key: string, w: Write, now: Time) returns (e: Entry)
      requires Keyed(entries)
      modifies this
      ensures entries == PutRow(old(entries), ns, key, w, now) && Keyed(entries)
      ensures e == entries[MapKey(ns, key)]
      ensures entries == old(entries)[ns + [NUL] + key := e]
      ensures e.createdAt == if MapKey(ns, key) in old(entries) then old(entries)[MapKey(ns, key)].createdAt else now
      ensures e.ns == ns && e.key == key && e.value == w.value && e.category == w.category && e.tags == w.tags
      ensures e.updatedAt == now && e.expiresAt == if w.ttl > 0 then Some(now + w.ttl) else None
    {
      var mk := MapKey(ns, key);
      var created := now;
      if mk in entries {
        created := entries[mk].createdAt;
      }
      e := Entry(ns, key, w.value, w.category, w.tags, created, now, None);
      if w.ttl > 0 {
        e := e.(expiresAt := Some(now + w.ttl));
      }
      entries := entries[mk := e];
    }

    /** A read of an expired row removes it. */
    method Get(ns: string, key: string, now: Time) returns (e: Option<Entry>)
      requires Keyed(entries)
      modifies this
      ensures Keyed(entries)
      ensures e == Live(old(entries), ns, key, now)
      ensures entries == AfterGet(old(entries), ns, key, now)
      ensures var mk := ns + [NUL] + key;
              if mk in old(entries) && Alive(old(entries)[mk], now) then e == Some(old(entries)[mk]) && entries == old(entries)
              else e == None && entries == old(entries) - {mk}
    {
      var mk := MapKey(ns, key);
      if mk !in entries {
        assert entries - {mk} == entries;
        return None;
      }
      if Expired(entries[mk], now) {
        entries := entries - {mk};
        return None;
      }
      e := Some(entries[mk]);
    }

    /** The loop of List: collects the matches in map order and drops the expired rows it meets. */
    method Collect(ns: string, prefix: string, at: string -> Time) returns (out: seq<Entry>)
      requires Keyed(entries)
      modifies this
      ensures entries == AfterList(old(entries), ns, at)
      ensures multiset(out) == multiset(Seen(old(entries), old(entries).Keys, ns, prefix, at))
    {
      ghost var c := entries;
      ghost var gone := (mk: string, e: Entry) => Dropped(e, ns, at(mk));
      ghost var all := multiset(Seen(c, c.Keys, ns, prefix, at));
      var todo := entries.Keys;
      out := [];
      while todo != {}
        invariant todo <= c.Keys && entries == Swept(c, todo, gone)
        invariant multiset(out) + multiset(Seen(c, todo, ns, prefix, at)) == all
        decreases |todo|
      {
        var mk :| mk in todo;
        SeenShrinks(c, todo, mk, ns, prefix, at, multiset(out));
        SweptStep(c, todo, mk, gone);
        todo := todo - {mk};
        var e := entries[mk];
        if e.ns == ns {
          if Expired(e, at(mk)) {
            entries := entries - {mk};
          } else if prefix == "" || prefix <= e.key {
            out := out + [e];
          }
        }
      }
      assert Seen(c, todo, ns, prefix, at) == {};
    }

    method List(ns: string, prefix: string, at: string -> Time) returns (out: seq<Entry>)
      requires Keyed(entries)
      modifies this
      ensures entries == AfterList(old(entries), ns, at) && Keyed(entries)
      ensures Listing(out, Matching(old(entries), ns, prefix, at))
      ensures forall i, j :: 0 <= i < j < |out| ==> out[i].updatedAt >= out[j].updatedAt
      ensures forall mk :: mk in old(entries) ==>
                var e := old(entries)[mk];
                && (e in out <==> e.ns == ns && prefix <= e.key && Alive(e, at(mk)))
                && (mk in entries <==> e.ns != ns || Alive(e, at(mk)))
    {
      ghost var c := entries;
      ListMeans(c, ns, prefix, at);
      out := Collect(ns, prefix, at);
      assert Matching(c, ns, prefix, at) == Seen(c, c.Keys, ns, prefix, at);
      NewerFirstIsOrder();
      StableSortSorts(NewerFirst, out);
      out := StableSort(NewerFirst, out);
      ListedMembers(out, Matching(c, ns, prefix, at));
    }

    method Delete(ns: string, key: string)
      requires Keyed(entries)
      modifies this
      ensures entries == old(entries) - {MapKey(ns, key)} && Keyed(entries)
    {
      entries := entries - {MapKey(ns, key)};
    }

    method DeletePrefix(ns: string, prefix: string) returns (deleted: nat)
      requires Keyed(entries)
      modifies this
      ensures entries == AfterDeletePrefix(old(entries), ns, prefix) && Keyed(entries)
      ensures entries == map mk | mk in old(entries) && !(ns + [NUL] + prefix <= mk) :: old(entries)[mk]
      ensures deleted == |old(entries)| - |entries|
    {
      ghost var c := entries;
      var nsPrefix := MapKey(ns, prefix);
      ghost var gone := (mk: string, e: Entry) => nsPrefix <= mk;
      var todo := entries.Keys;
      deleted := 0;
      while todo != {}
        invariant todo <= c.Keys && entries == Swept(c, todo, gone)
        invariant deleted == |c| - |entries|
        decreases |todo|
      {
        var mk :| mk in todo;
        SweptStep(c, todo, mk, gone);
        if nsPrefix <= mk {
          entries := entries - {mk};
          deleted := deleted + 1;
        }
        todo := todo - {mk};
      }
    }

    method DeleteExpired(at: string -> Time) returns (n: nat)
      requires Keyed(entries)
      modifies this
      ensures entries == AfterDeleteExpired(old(entries), at) && Keyed(entries)
      ensures entries == map mk | mk in old(entries) && Alive(old(entries)[mk], at(mk)) :: old(entries)[mk]
      ensures n == |old(entries)| - |entries|
    {
      ghost var c := entries;
      DeleteExpiredMeans(c, at);
      ghost var gone := (mk: string, e: Entry) => Expired(e, at(mk));
      var todo := entries.Keys;
      n := 0;
      while todo != {}
        invariant todo <= c.Keys && entries == Swept(c, todo, gone)
        invariant n == |c| - |entries|
        decreases |todo|
      {
        var mk :| mk in todo;
        SweptStep(c, todo, mk, gone);
        if Expired(entries[mk], at(mk)) {
          entries := entries - {mk};
          n := n + 1;
        }
        todo := todo - {mk};
      }
    }

    method CountRows() returns (counts: map<string, nat>)
      ensures forall ns :: RowsIn(entries, ns) == if ns in counts then counts[ns] else 0
      ensures forall ns :: ns in counts ==> counts[ns] > 0
    {
      counts := map[];
      var todo := entries.Keys;
      while todo != {}
        invariant todo <= entries.Keys
        invariant forall ns :: (if ns in counts then counts[ns] else 0) == Attributed(entries.Keys - todo, ns)
        invariant forall ns :: ns in counts ==> counts[ns] > 0
        decreases |todo|
      {
        var mk :| mk in todo;
        ghost var done := entries.Keys - todo;
        todo := todo - {mk};
        assert entries.Keys - todo == done + {mk};
        forall ns ensures Attributed(done + {mk}, ns) == Attributed(done, ns) + if NsOf(mk) == Some(ns) then 1 else 0 {
          CountOne(done, mk, ns);
        }
        var ns := NsOf(mk);
        if ns.Some? {
          counts := counts[ns.value := (if ns.value in counts then counts[ns.value] else 0) + 1];
        }
      }
      assert entries.Keys - todo == entries.Keys;
      forall ns ensures RowsIn(entries, ns) == Attributed(entries.Keys, ns) {
        assert (set mk | mk in entries.Keys && NsOf(mk) == Some(ns)) == set mk | mk in entries && NsOf(mk) == Some(ns);
      }
    }

    /** One line per namespace with its row count, expired rows included, the busiest first. */
    method ListNamespaces() returns (out: seq<NamespaceCount>)
      ensures Sorted(Busier, out)
      ensures forall x :: x in out <==> x.count == RowsIn(entries, x.ns) && x.count > 0
      ensures forall i, j :: 0 <= i < j < |out| ==> out[i].ns != out[j].ns
      ensures forall i, j :: 0 <= i < j < |out| ==>
                out[i].count > out[j].count || (out[i].count == out[j].count && Less(out[i].ns, out[j].ns))
    {
      var counts := CountRows();
      var rows := Lines(counts);
      var a := new NamespaceCount[|rows|](i requires 0 <= i < |rows| => rows[i]);
      assert a[..] == rows;
      SortNamespaceCounts(a);
      out := a[..];
      PermutationMembers(rows, out);
      DistinctNames(rows, out);
      BusiestFirst(out);
    }
  }

  /** One line for every counted namespace, in map order. */
  method Lines(counts: map<string, nat>) returns (rows: seq<NamespaceCount>)
    ensures forall x :: x in rows <==> x.ns in counts && x.count == counts[x.ns]
    ensures forall i, j :: 0 <= i < j < |rows| ==> rows[i].ns != rows[j].ns
  {
    rows := [];
    var names := counts.Keys;
    while names != {}
      invariant names <= counts.Keys
      invariant forall x :: x in rows <==> x.ns in counts && x.ns !in names && x.count == counts[x.ns]
      invariant forall i, j :: 0 <= i < j < |rows| ==> rows[i].ns != rows[j].ns
      decreases |names|
    {
      var ns :| ns in names;
      names := names - {ns};
      assert forall i :: 0 <= i < |rows| ==> rows[i] in rows;
      rows := rows + [NamespaceCount(ns, counts[ns])];
    }
  }

  function Seen(c: Rows, done: set<string>, ns: string, prefix: string, at: string -> Time): set<Entry> {
    set mk | mk in done && mk in c && c[mk].ns == ns && !Expired(c[mk], at(mk)) && prefix <= c[mk].key :: c[mk]
  }

  lemma SeenGrows(c: Rows, done: set<string>, mk: string, ns: string, prefix: string, at: string -> Time)
    requires Keyed(c) && done <= c.Keys && mk in c && mk !in done
    ensures multiset(Seen(c, done + {mk}, ns, prefix, at)) ==
            multiset(Seen(c, done, ns, prefix, at)) +
            if c[mk].ns == ns && !Expired(c[mk], at(mk)) && prefix <= c[mk].key then multiset{c[mk]} else multiset{}
  {
    var before, after := Seen(c, done, ns, prefix, at), Seen(c, done + {mk}, ns, prefix, at);
    if c[mk].ns == ns && !Expired(c[mk], at(mk)) && prefix <= c[mk].key {
      assert after == before + {c[mk]};
      assert c[mk] !in before;
    } else {
      assert after == before;
    }
  }

  lemma SeenShrinks(c: Rows, todo: set<string>, mk: string, ns: string, prefix: string, at: string -> Time, out: multiset<Entry>)
    requires Keyed(c) && todo <= c.Keys && mk in todo
    ensures out + multiset(Seen(c, todo, ns, prefix, at)) ==
            out + (if c[mk].ns == ns && !Expired(c[mk], at(mk)) && prefix <= c[mk].key then multiset{c[mk]} else multiset{}) +
            multiset(Seen(c, todo - {mk}, ns, prefix, at))
  {
    SeenGrows(c, todo - {mk}, mk, ns, prefix, at);
    assert todo - {mk} + {mk} == todo;
  }

  lemma RemoveShrinks(c: Rows, mk: string)
    requires mk in c
    ensures |c - {mk}| == |c| - 1
  {
    assert (c - {mk}).Keys == c.Keys - {mk};
    assert |c - {mk}| == |(c - {mk}).Keys|;
  }

  function Attributed(done: set<string>, ns: string): nat {
    |set mk | mk in done && NsOf(mk) == Some(ns)|
  }

  lemma CountOne(done: set<string>, mk: string, ns: string)
    requires mk !in done
    ensures Attributed(done + {mk}, ns) == Attributed(done, ns) + if NsOf(mk) == Some(ns) then 1 else 0
  {
    var before := set m | m in done && NsOf(m) == Some(ns);
    var after := set m | m in done + {mk} && NsOf(m) == Some(ns);
    if NsOf(mk) == Some(ns) { assert after == before + {mk}; } else { assert after == before; }
  }

  lemma DistinctNames(rows: seq<NamespaceCount>, out: seq<NamespaceCount>)
    requires multiset(rows) == multiset(out)
    requires forall i, j :: 0 <= i < j < |rows| ==> rows[i].ns != rows[j].ns
    ensures forall i, j :: 0 <= i < j < |out| ==> out[i].ns != out[j].ns
  {
    forall i, j | 0 <= i < j < |out| ensures out[i].ns != out[j].ns {
      PermutationMembers(rows, out);
      assert out[i] in rows && out[j] in rows;
      if out[i].ns == out[j].ns {
        assert out[i] == out[j];
        OnceInDistinct(rows, out[i]);
        TwiceInSeq(out, i, j);
      }
    }
  }

  lemma {:induction false} OnceInDistinct(rows: seq<NamespaceCount>, x: NamespaceCount)
    requires forall i, j :: 0 <= i < j < |rows| ==> rows[i].ns != rows[j].ns
    ensures multiset(rows)[x] <= 1
  {
    if rows != [] {
      assert rows == [rows[0]] + rows[1..];
      OnceInDistinct(rows[1..], x);
      if rows[0] == x { assert x !in rows[1..]; }
    }
  }

  lemma TwiceInSeq<T>(s: seq<T>, i: nat, j: nat)
    requires i < j < |s| && s[i] == s[j]
    ensures multiset(s)[s[i]] >= 2
  {
    assert s == s[..i] + [s[i]] + s[i + 1..j] + [s[j]] + s[j + 1..];
  }

  /** For NUL-free namespaces the counts are those of the entries; the empty namespace is not listed. */
  lemma CountsAreRowsOfNamespace(c: Rows, ns: string)
    requires Keyed(c) && forall mk :: mk in c ==> NulFree(c[mk].ns)
    ensures RowsIn(c, ns) == if ns == "" then 0 else |set mk | mk in c && c[mk].ns == ns|
  {
    forall mk | mk in c ensures NsOf(mk) == if c[mk].ns == "" then None else Some(c[mk].ns) {
      NsOfMapKey(c[mk].ns, c[mk].key);
    }
    if ns == "" {
      assert (set mk | mk in c && NsOf(mk) == Some(ns)) == {};
    } else {
      assert (set mk | mk in c && NsOf(mk) == Some(ns)) == set mk | mk in c && c[mk].ns == ns;
    }
  }
}
