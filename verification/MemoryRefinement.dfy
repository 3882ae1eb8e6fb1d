/** InMemoryStore answers every sequence of operations as the table that is never purged. */
module MemoryRefinement {
  import opened Text
  import opened Memory
  import opened InMemory

  /** What InMemoryStore's method for op leaves in its map; `at` is the clock reading for each row. */
  function RowsAfter(c: Rows, op: Op, now: Time, at: string -> Time): Rows {
    match op
    case Put(ns, key, w) => PutRow(c, ns, key, w, now)
    case Get(ns, key) => AfterGet(c, ns, key, at(MapKey(ns, key)))
    case List(ns, _) => AfterList(c, ns, at)
    case Delete(ns, key) => c - {MapKey(ns, key)}
    case DeletePrefix(ns, prefix) => AfterDeletePrefix(c, ns, prefix)
    case DeleteExpired => AfterDeleteExpired(c, at)
  }

  function RowsReply(c: Rows, op: Op, at: string -> Time): Answer {
    match op
    case Get(ns, key) =>
      var e := Live(c, ns, key, at(MapKey(ns, key)));
      Got(if e.Some? then Some(Undated(e.value)) else None)
    case List(ns, prefix) => Listed(set e | e in Matching(c, ns, prefix, at) :: Undated(e))
    case _ => Done
  }

  /** The same clock readings, indexed by namespace and key. */
  function ByKey(at: string -> Time): ((string, string)) -> Time {
    (k: (string, string)) => at(MapKey(k.0, k.1))
  }

  function Flat(k: (string, string)): string {
    MapKey(k.0, k.1)
  }

  ghost predicate NulFreeTable(a: Table) {
    forall k :: k in a ==> NulFree(k.0)
  }

  /** The map holds the table's rows except some that are expired; only CreatedAt may be younger. */
  ghost predicate Refines(c: Rows, a: Table, now: Time) {
    && TableOk(a) && NulFreeTable(a) && Keyed(c)
    && (forall mk :: mk in c ==>
          && (c[mk].ns, c[mk].key) in a
          && SameButCreated(c[mk], a[(c[mk].ns, c[mk].key)])
          && a[(c[mk].ns, c[mk].key)].createdAt <= c[mk].createdAt)
    && (forall k :: k in a ==> a[k].createdAt <= now)
    && (forall k :: k in a ==> Flat(k) in c || Expired(a[k], now))
  }

  predicate NulFreeOp(op: Op) {
    op.DeleteExpired? || NulFree(op.ns)
  }

  lemma FlatInjective(k: (string, string), k2: (string, string))
    requires NulFree(k.0) && NulFree(k2.0)
    ensures Flat(k) == Flat(k2) <==> k == k2
  {
    MapKeyInjective(k.0, k.1, k2.0, k2.1);
  }

  /** Under the relation a flattened key is present only as the row of its own pair. */
  lemma RowAt(c: Rows, a: Table, now: Time, k: (string, string))
    requires Refines(c, a, now) && NulFree(k.0)
    ensures Flat(k) in c ==> k in a && (c[Flat(k)].ns, c[Flat(k)].key) == k && SameButCreated(c[Flat(k)], a[k])
  {
    if Flat(k) in c { FlatInjective(k, (c[Flat(k)].ns, c[Flat(k)].key)); }
  }

  lemma PutRowRefines(c: Rows, a: Table, t: Time, op: Op, now: Time, mk: string)
    requires Refines(c, a, t) && op.Put? && NulFree(op.ns) && t <= now
    requires mk in PutRow(c, op.ns, op.key, op.w, now)
    ensures var e, a2 := PutRow(c, op.ns, op.key, op.w, now)[mk], Put1(a, op, now);
            && mk == Flat((e.ns, e.key)) && (e.ns, e.key) in a2
            && SameButCreated(e, a2[(e.ns, e.key)]) && a2[(e.ns, e.key)].createdAt <= e.createdAt
  {
    RowAt(c, a, t, (op.ns, op.key));
    if mk != Flat((op.ns, op.key)) { assert mk in c; }
  }

  lemma PutRefines(c: Rows, a: Table, t: Time, op: Op, now: Time)
    requires Refines(c, a, t) && op.Put? && NulFree(op.ns) && t <= now
    ensures Refines(PutRow(c, op.ns, op.key, op.w, now), Put1(a, op, now), now)
  {
    var k := (op.ns, op.key);
    var c2, a2 := PutRow(c, op.ns, op.key, op.w, now), Put1(a, op, now);
    forall mk | mk in c2
      ensures mk == Flat((c2[mk].ns, c2[mk].key)) && (c2[mk].ns, c2[mk].key) in a2
      ensures SameButCreated(c2[mk], a2[(c2[mk].ns, c2[mk].key)])
      ensures a2[(c2[mk].ns, c2[mk].key)].createdAt <= c2[mk].createdAt
    {
      PutRowRefines(c, a, t, op, now, mk);
    }
    forall k2 | k2 in a2 ensures Flat(k2) in c2 || Expired(a2[k2], now) {
      if k2 != k { assert Flat(k2) in c || Expired(a[k2], t); }
    }
  }

  /** Dropping expired rows, at whatever reading up to `until`, keeps the relation. */
  lemma PurgeRefines(c: Rows, c2: Rows, a: Table, t: Time, until: Time)
    requires Refines(c, a, t) && t <= until
    requires forall mk :: mk in c2 ==> mk in c && c2[mk] == c[mk]
    requires forall mk :: mk in c && mk !in c2 ==> Expired(c[mk], until)
    ensures Refines(c2, a, until)
  {
    forall k | k in a ensures Flat(k) in c2 || Expired(a[k], until) {
      RowAt(c, a, t, k);
    }
  }

  /** Removing the same rows on both sides keeps it too. */
  lemma RemoveRefines(c: Rows, c2: Rows, a: Table, a2: Table, t: Time, until: Time)
    requires Refines(c, a, t) && t <= until
    requires forall mk :: mk in c2 ==> mk in c && c2[mk] == c[mk]
    requires forall k :: k in a2 ==> k in a && a2[k] == a[k]
    requires forall k :: k in a && Flat(k) in c ==> (k in a2 <==> Flat(k) in c2)
    ensures Refines(c2, a2, until)
  {
    forall mk | mk in c2 ensures (c2[mk].ns, c2[mk].key) in a2 {
      assert Flat((c[mk].ns, c[mk].key)) == mk;
    }
  }

  /** DeletePrefix on flattened keys removes exactly the rows of that namespace with that key prefix. */
  lemma DeletePrefixIsExact(c: Rows, ns: string, prefix: string, mk: string)
    requires Keyed(c) && mk in c && NulFree(ns) && NulFree(c[mk].ns)
    ensures mk in AfterDeletePrefix(c, ns, prefix) <==> !(c[mk].ns == ns && prefix <= c[mk].key)
  {
    FlattenedPrefix(c[mk].ns, c[mk].key, ns, prefix);
  }

  lemma StepRefines(c: Rows, a: Table, t: Time, op: Op, now: Time, at: string -> Time, until: Time)
    requires Refines(c, a, t) && NulFreeOp(op)
    requires t <= now <= until && forall mk :: now <= at(mk) <= until
    ensures Refines(RowsAfter(c, op, now, at), Effect(a, op, now), until)
  {
    var c2, a2 := RowsAfter(c, op, now, at), Effect(a, op, now);
    match op
    case Put(_, _, _) =>
      PutRefines(c, a, t, op, now);
      PurgeRefines(c2, c2, a2, now, until);
    case Get(ns, key) => PurgeRefines(c, c2, a, t, until);
    case List(ns, _) => PurgeRefines(c, c2, a, t, until);
    case DeleteExpired => PurgeRefines(c, c2, a, t, until);
    case Delete(ns, key) =>
      forall k | k in a ensures k in a2 || Flat(k) == MapKey(ns, key)
                        ensures k in a2 ==> Flat(k) != MapKey(ns, key) { FlatInjective(k, (ns, key)); }
      RemoveRefines(c, c2, a, a2, t, until);
    case DeletePrefix(ns, prefix) =>
      forall k | k in a && Flat(k) in c ensures k in a2 <==> Flat(k) in c2 {
        RowAt(c, a, t, k);
        DeletePrefixIsExact(c, ns, prefix, Flat(k));
      }
      RemoveRefines(c, c2, a, a2, t, until);
  }

  lemma ListAgrees(c: Rows, a: Table, t: Time, ns: string, prefix: string, at: string -> Time)
    requires Refines(c, a, t) && NulFree(ns) && forall mk :: t <= at(mk)
    ensures RowsReply(c, List(ns, prefix), at) == Reply(a, List(ns, prefix), ByKey(at))
  {
    var es, fs := RowsReply(c, List(ns, prefix), at).es, Reply(a, List(ns, prefix), ByKey(at)).es;
    forall e | e in es ensures e in fs {
      var mk :| mk in c && c[mk].ns == ns && !Expired(c[mk], at(mk)) && prefix <= c[mk].key && e == Undated(c[mk]);
      var k := (c[mk].ns, c[mk].key);
      assert Flat(k) == mk && Undated(a[k]) == e;
      assert k in a && k.0 == ns && prefix <= k.1 && !Expired(a[k], ByKey(at)(k));
    }
    forall f | f in fs ensures f in es {
      var k :| k in a && k.0 == ns && prefix <= k.1 && !Expired(a[k], ByKey(at)(k)) && f == Undated(a[k]);
      RowAt(c, a, t, k);
      var e := c[Flat(k)];
      assert e in Matching(c, ns, prefix, at) && Undated(e) == f;
    }
  }

  lemma ReplyAgrees(c: Rows, a: Table, t: Time, op: Op, at: string -> Time)
    requires Refines(c, a, t) && NulFreeOp(op) && forall mk :: t <= at(mk)
    ensures RowsReply(c, op, at) == Reply(a, op, ByKey(at))
  {
    match op
    case Get(ns, key) => RowAt(c, a, t, (ns, key));
    case List(ns, prefix) => ListAgrees(c, a, t, ns, prefix, at);
    case _ =>
  }

  /** One call: the clock at its start, its reading for each row, and the clock when it is over. */
  datatype Event = Event(op: Op, now: Time, at: string -> Time, until: Time)

  ghost predicate ClockOk(t: Time, events: seq<Event>)
    decreases |events|
  {
    |events| == 0 ||
    (var e := events[0];
     t <= e.now <= e.until && (forall mk :: e.now <= e.at(mk) <= e.until) && ClockOk(e.until, events[1..]))
  }

  function RowAnswers(c: Rows, events: seq<Event>): seq<Answer>
    decreases |events|
  {
    if |events| == 0 then []
    else
      var e := events[0];
      [RowsReply(c, e.op, e.at)] + RowAnswers(RowsAfter(c, e.op, e.now, e.at), events[1..])
  }

  function TableAnswers(a: Table, events: seq<Event>): seq<Answer>
    decreases |events|
  {
    if |events| == 0 then []
    else
      var e := events[0];
      [Reply(a, e.op, ByKey(e.at))] + TableAnswers(Effect(a, e.op, e.now), events[1..])
  }

  lemma {:induction false} RunRefines(c: Rows, a: Table, t: Time, events: seq<Event>)
    requires Refines(c, a, t) && ClockOk(t, events)
    requires forall i :: 0 <= i < |events| ==> NulFreeOp(events[i].op)
    ensures RowAnswers(c, events) == TableAnswers(a, events)
    decreases |events|
  {
    if |events| > 0 {
      var e := events[0];
      assert NulFreeOp(events[0].op);
      ReplyAgrees(c, a, t, e.op, e.at);
      StepRefines(c, a, t, e.op, e.now, e.at, e.until);
      RunRefines(RowsAfter(c, e.op, e.now, e.at), Effect(a, e.op, e.now), e.until, events[1..]);
    }
  }

  /** From an empty store, under a clock that never goes back and with NUL-free namespaces, every Get and
      List answers as if expired rows were never purged. */
  lemma InMemoryStoreIsTheTable(t: Time, events: seq<Event>)
    requires ClockOk(t, events)
    requires forall i :: 0 <= i < |events| ==> NulFreeOp(events[i].op)
    ensures RowAnswers(map[], events) == TableAnswers(map[], events)
  {
    RunRefines(map[], map[], t, events);
  }

  // ---------- CreatedAt, the one field that shows purging ----------

  type Key = (string, string)

  /** A read or sweep that meets the entry e of key k expired; `at` is its reading of the clock for that row. */
  predicate Meets(op: Op, k: Key, e: Entry, at: Time) {
    && Expired(e, at)
    && match op
       case Get(ns, key) => k == (ns, key)
       case List(ns, _) => k.0 == ns
       case DeleteExpired => true
       case _ => false
  }

  /** The keys met expired since the table's entry was created; a Put of a new key creates one. */
  function MetAfter(a: Table, met: set<Key>, op: Op, now: Time, at: string -> Time): set<Key> {
    set k | k in a && k in Effect(a, op, now) && (k in met || Meets(op, k, a[k], at(Flat(k))))
  }

  /** No entry expires before it is created. */
  ghost predicate Dated(a: Table) {
    forall k :: k in a && a[k].expiresAt.Some? ==> a[k].createdAt < a[k].expiresAt.value
  }

  ghost predicate Dates(c: Rows, a: Table, met: set<Key>) {
    && (forall k :: k in a && k !in met ==> Flat(k) in c)
    && (forall k :: k in a && Flat(k) in c ==> (c[Flat(k)].createdAt == a[k].createdAt <==> k !in met))
  }

  lemma PutDates(c: Rows, a: Table, t: Time, met: set<Key>, op: Op, now: Time, at: string -> Time)
    requires Refines(c, a, t) && Dated(a) && Dates(c, a, met) && met <= a.Keys
    requires op.Put? && NulFree(op.ns) && t <= now
    ensures Dated(Put1(a, op, now))
    ensures Dates(PutRow(c, op.ns, op.key, op.w, now), Put1(a, op, now), MetAfter(a, met, op, now, at))
  {
    var k := (op.ns, op.key);
    RowAt(c, a, t, k);
    var c2, a2, met2 := PutRow(c, op.ns, op.key, op.w, now), Put1(a, op, now), MetAfter(a, met, op, now, at);
    assert met2 == met;
    forall j | j in a2 ensures j !in met2 ==> Flat(j) in c2
                       ensures Flat(j) in c2 ==> (c2[Flat(j)].createdAt == a2[j].createdAt <==> j !in met2)
    {
      FlatInjective(j, k);
      if j == k && k in a && Flat(k) !in c {
        assert Expired(a[k], t) && a[k].createdAt < now;
      }
    }
  }

  lemma StepDates(c: Rows, a: Table, t: Time, met: set<Key>, op: Op, now: Time, at: string -> Time, until: Time)
    requires Refines(c, a, t) && Dated(a) && Dates(c, a, met) && met <= a.Keys && NulFreeOp(op)
    requires t <= now <= until && forall mk :: now <= at(mk) <= until
    ensures var a2, met2 := Effect(a, op, now), MetAfter(a, met, op, now, at);
            Dated(a2) && Dates(RowsAfter(c, op, now, at), a2, met2) && met2 <= a2.Keys
  {
    var c2, a2, met2 := RowsAfter(c, op, now, at), Effect(a, op, now), MetAfter(a, met, op, now, at);
    if op.Put? {
      PutDates(c, a, t, met, op, now, at);
    } else {
      forall k | k in a2 ensures k !in met2 ==> Flat(k) in c2
                         ensures Flat(k) in c2 ==> (c2[Flat(k)].createdAt == a2[k].createdAt <==> k !in met2)
      {
        RowAt(c, a, t, k);
        if Flat(k) in c { KeptUnlessMet(c, a, t, op, now, at, k); }
      }
    }
  }

  /** A row whose entry stays in the table goes only when it is met expired, and then it does. */
  lemma KeptUnlessMet(c: Rows, a: Table, t: Time, op: Op, now: Time, at: string -> Time, k: Key)
    requires Refines(c, a, t) && NulFreeOp(op) && !op.Put? && k in Effect(a, op, now) && Flat(k) in c
    ensures k in a && Effect(a, op, now)[k] == a[k]
    ensures Flat(k) in RowsAfter(c, op, now, at) <==> !Meets(op, k, a[k], at(Flat(k)))
    ensures Flat(k) in RowsAfter(c, op, now, at) ==> RowsAfter(c, op, now, at)[Flat(k)] == c[Flat(k)]
  {
    RowAt(c, a, t, k);
    match op
    case Get(ns, key) => FlatInjective(k, (ns, key));
    case Delete(ns, key) => FlatInjective(k, (ns, key));
    case DeletePrefix(ns, prefix) => DeletePrefixIsExact(c, ns, prefix, Flat(k));
    case _ =>
  }

  function RowsAfterRun(c: Rows, events: seq<Event>): Rows
    decreases |events|
  {
    if |events| == 0 then c else RowsAfterRun(RowsAfter(c, events[0].op, events[0].now, events[0].at), events[1..])
  }

  function TableAfterRun(a: Table, events: seq<Event>): Table
    decreases |events|
  {
    if |events| == 0 then a else TableAfterRun(Effect(a, events[0].op, events[0].now), events[1..])
  }

  function MetAfterRun(a: Table, met: set<Key>, events: seq<Event>): set<Key>
    decreases |events|
  {
    if |events| == 0 then met
    else
      var e := events[0];
      MetAfterRun(Effect(a, e.op, e.now), MetAfter(a, met, e.op, e.now, e.at), events[1..])
  }

  lemma {:induction false} RunDates(c: Rows, a: Table, t: Time, met: set<Key>, events: seq<Event>)
    requires Refines(c, a, t) && Dated(a) && Dates(c, a, met) && met <= a.Keys && ClockOk(t, events)
    requires forall i :: 0 <= i < |events| ==> NulFreeOp(events[i].op)
    ensures Dates(RowsAfterRun(c, events), TableAfterRun(a, events), MetAfterRun(a, met, events))
    decreases |events|
  {
    if |events| > 0 {
      var e := events[0];
      assert NulFreeOp(events[0].op);
      StepRefines(c, a, t, e.op, e.now, e.at, e.until);
      StepDates(c, a, t, met, e.op, e.now, e.at, e.until);
      RunDates(RowsAfter(c, e.op, e.now, e.at), Effect(a, e.op, e.now), e.until, MetAfter(a, met, e.op, e.now, e.at), events[1..]);
    }
  }

  /** The i-th operation of a run meets key k expired, and the table keeps the entry from then on. */
  ghost predicate MetSince(a: Table, events: seq<Event>, k: Key, i: nat)
    requires i < |events|
  {
    && k in TableAfterRun(a, events[..i])
    && Meets(events[i].op, k, TableAfterRun(a, events[..i])[k], events[i].at(Flat(k)))
    && StaysFrom(a, events, k, i)
  }

  ghost predicate StaysFrom(a: Table, events: seq<Event>, k: Key, i: nat) {
    forall j: nat :: i <= j <= |events| ==> k in TableAfterRun(a, events[..j])
  }

  lemma TableOneOn(a: Table, events: seq<Event>, j: nat)
    requires j < |events|
    ensures TableAfterRun(a, events[..j + 1]) == TableAfterRun(Effect(a, events[0].op, events[0].now), events[1..][..j])
  {
    assert events[..j + 1][1..] == events[1..][..j];
  }

  lemma StaysOneOn(a: Table, events: seq<Event>, k: Key, i: nat)
    requires |events| > 0
    ensures StaysFrom(a, events, k, i + 1) <==> StaysFrom(Effect(a, events[0].op, events[0].now), events[1..], k, i)
  {
    var b, rest := Effect(a, events[0].op, events[0].now), events[1..];
    forall j: nat | j < |events| ensures TableAfterRun(a, events[..j + 1]) == TableAfterRun(b, rest[..j]) { TableOneOn(a, events, j); }
    if StaysFrom(a, events, k, i + 1) {
      forall j: nat | i <= j <= |rest| ensures k in TableAfterRun(b, rest[..j]) { assert k in TableAfterRun(a, events[..j + 1]); }
    }
    if StaysFrom(b, rest, k, i) {
      forall j: nat | i + 1 <= j <= |events| ensures k in TableAfterRun(a, events[..j]) { assert k in TableAfterRun(b, rest[..j - 1]); }
    }
  }

  /** MetAfterRun said with the run's positions. */
  lemma {:induction false} MetAfterRunMeans(a: Table, met: set<Key>, events: seq<Event>, k: Key)
    requires met <= a.Keys
    ensures k in MetAfterRun(a, met, events) <==>
            (k in met && StaysFrom(a, events, k, 0)) || exists i: nat :: i < |events| && MetSince(a, events, k, i)
    decreases |events|
  {
    if |events| == 0 {
      assert events[..0] == [];
    } else {
      var e, rest := events[0], events[1..];
      var b, met2 := Effect(a, e.op, e.now), MetAfter(a, met, e.op, e.now, e.at);
      MetAfterRunMeans(b, met2, rest, k);
      assert events[..0] == [];
      StaysOneOn(a, events, k, 0);
      assert StaysFrom(a, events, k, 0) <==> k in a && StaysFrom(b, rest, k, 0) by { StaysHead(a, events, k); }
      assert StaysFrom(b, rest, k, 0) ==> k in b by { StaysHead(b, rest, k); }
      forall i: nat | i < |rest| ensures MetSince(a, events, k, i + 1) <==> MetSince(b, rest, k, i) {
        TableOneOn(a, events, i);
        StaysOneOn(a, events, k, i);
      }
      if i: nat :| i < |rest| && MetSince(b, rest, k, i) { assert MetSince(a, events, k, i + 1); }
      if i: nat :| i < |events| && MetSince(a, events, k, i) {
        if i > 0 { assert MetSince(b, rest, k, i - 1); }
      }
      assert k in met2 && k !in met && StaysFrom(b, rest, k, 0) ==> MetSince(a, events, k, 0);
    }
  }

  lemma StaysHead(a: Table, events: seq<Event>, k: Key)
    ensures StaysFrom(a, events, k, 0) <==> k in a && StaysFrom(a, events, k, 1)
  {
    assert events[..0] == [];
    if k in a && StaysFrom(a, events, k, 1) {
      forall j: nat | j <= |events| ensures k in TableAfterRun(a, events[..j]) { }
    }
  }

  /** Over every run: a row's CreatedAt is the table's exactly when, since the table's was set, no Get of the
      key, no List of its namespace and no DeleteExpired met the row expired. */
  lemma CreatedAtShowsPurging(t: Time, events: seq<Event>, k: Key)
    requires ClockOk(t, events)
    requires forall i :: 0 <= i < |events| ==> NulFreeOp(events[i].op)
    requires k in TableAfterRun(map[], events) && Flat(k) in RowsAfterRun(map[], events)
    ensures RowsAfterRun(map[], events)[Flat(k)].createdAt == TableAfterRun(map[], events)[k].createdAt
            <==> forall i: nat :: i < |events| ==> !MetSince(map[], events, k, i)
  {
    RunDates(map[], map[], t, {}, events);
    MetAfterRunMeans(map[], {}, events, k);
  }

  /** A Put after a read or sweep keeps the first CreatedAt exactly when that one did not meet the row expired. */
  lemma CreatedAtOfRewrittenKey(c: Rows, ns: string, key: string, w: Write, now: Time, op: Op, at: string -> Time)
    requires MapKey(ns, key) in c && c[MapKey(ns, key)].ns == ns && c[MapKey(ns, key)].createdAt < now
    requires op == Get(ns, key) || op == DeleteExpired || (op.List? && op.ns == ns)
    ensures var mk := MapKey(ns, key);
            PutRow(RowsAfter(c, op, now, at), ns, key, w, now)[mk].createdAt == c[mk].createdAt
            <==> !Expired(c[mk], at(mk))
  {
  }
}
