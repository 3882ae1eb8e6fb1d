/** The CDP client cache of internal/api/browser.go. `Get` looks the session up under the mutex, dials
    without it, and takes it again to insert the new client or to close it when another caller won;
    `Evict` removes under the mutex and closes after releasing it. One Step is one critical section, or
    one action between two of them, of one of arbitrarily many callers. */
module CdpCache {
  import opened Text

  type SessionId = string
  type Client = nat
  type Thread = nat

  datatype Pc =
    | Idle
    | Dialing(id: SessionId)                      // Get missed and released the mutex
    | GetHolding(id: SessionId, client: Client)   // Get dialled and waits for the mutex again
    | EvictHolding(client: Client)                // Evict removed the client and has not closed it yet

  /** `closed` lists the Close calls in order; clients are numbered as they are dialled. */
  datatype State = State(
    cache: map<SessionId, Client>, pcs: map<Thread, Pc>, closed: seq<Client>, created: nat)
  {
    function Pc(t: Thread): Pc {
      if t in pcs then pcs[t] else Idle
    }
  }

  const Init := State(map[], map[], [], 0)

  datatype Step =
    | GetLookup(t: Thread, id: SessionId)
    | DialFails(t: Thread)
    | DialSucceeds(t: Thread)
    | GetInsert(t: Thread)
    | EvictTake(t: Thread, id: SessionId)
    | EvictClose(t: Thread)

  predicate Enabled(s: State, step: Step) {
    match step
    case GetLookup(t, _) => s.Pc(t).Idle?
    case DialFails(t) => s.Pc(t).Dialing?
    case DialSucceeds(t) => s.Pc(t).Dialing?
    case GetInsert(t) => s.Pc(t).GetHolding?
    case EvictTake(t, _) => s.Pc(t).Idle?
    case EvictClose(t) => s.Pc(t).EvictHolding?
  }

  function Apply(s: State, step: Step): State
    requires Enabled(s, step)
  {
    match step
    case GetLookup(t, id) =>
      if id in s.cache then s else s.(pcs := s.pcs[t := Dialing(id)])
    case DialFails(t) =>
      s.(pcs := s.pcs[t := Idle])
    case DialSucceeds(t) =>
      s.(pcs := s.pcs[t := GetHolding(s.Pc(t).id, s.created)], created := s.created + 1)
    case GetInsert(t) =>
      var GetHolding(id, c) := s.Pc(t);
      if id in s.cache
      then s.(pcs := s.pcs[t := Idle], closed := s.closed + [c])
      else s.(pcs := s.pcs[t := Idle], cache := s.cache[id := c])
    case EvictTake(t, id) =>
      if id in s.cache
      then s.(pcs := s.pcs[t := EvictHolding(s.cache[id])], cache := s.cache - {id})
      else s
    case EvictClose(t) =>
      s.(pcs := s.pcs[t := Idle], closed := s.closed + [s.Pc(t).client])
  }

  /** The session and client that a Get hands to its caller in this step, if it does. */
  function Returned(s: State, step: Step): Option<(SessionId, Client)>
    requires Enabled(s, step)
  {
    match step
    case GetLookup(t, id) => if id in s.cache then Some((id, s.cache[id])) else None
    case GetInsert(t) =>
      var GetHolding(id, c) := s.Pc(t);
      Some((id, if id in s.cache then s.cache[id] else c))
    case _ => None
  }

  predicate Valid(s: State, run: seq<Step>)
    decreases |run|
  {
    run == [] || (Enabled(s, run[0]) && Valid(Apply(s, run[0]), run[1..]))
  }

  function Exec(s: State, run: seq<Step>): State
    requires Valid(s, run)
    decreases |run|
  {
    if run == [] then s else Exec(Apply(s, run[0]), run[1..])
  }

  // ---------- every client is in exactly one place ----------

  datatype Place = InGet(t: Thread) | InCache(id: SessionId) | InEvict(t: Thread) | InClosed(n: nat)

  predicate Occupies(s: State, c: Client, p: Place) {
    match p
    case InGet(t) => s.Pc(t).GetHolding? && s.Pc(t).client == c
    case InCache(id) => id in s.cache && s.cache[id] == c
    case InEvict(t) => s.Pc(t).EvictHolding? && s.Pc(t).client == c
    case InClosed(n) => n < |s.closed| && s.closed[n] == c
  }

  ghost predicate OnlyIn(s: State, c: Client, p: Place) {
    Occupies(s, c, p) && forall q :: Occupies(s, c, q) ==> q == p
  }

  ghost predicate OnePlaceEach(s: State) {
    && (forall c: Client, p :: Occupies(s, c, p) ==> c < s.created)
    && (forall c: Client :: c < s.created ==> HasOnePlace(s, c))
  }

  ghost predicate HasOnePlace(s: State, c: Client) {
    exists p :: OnlyIn(s, c, p)
  }

  lemma SamePlace(s: State, c: Client, p: Place, q: Place)
    requires OnePlaceEach(s) && Occupies(s, c, p) && Occupies(s, c, q)
    ensures p == q
  {
    assert HasOnePlace(s, c);
    var only :| OnlyIn(s, c, only);
  }

  /** From s to s2 client c moved from one place to another and nothing else moved. */
  ghost predicate Moves(s: State, s2: State, c: Client, from: Place, to: Place) {
    && Occupies(s, c, from)
    && s2.created == s.created
    && forall d, q :: Occupies(s2, d, q) <==>
         (Occupies(s, d, q) && !(d == c && q == from)) || (d == c && q == to)
  }

  lemma MoveKeepsOnePlace(s: State, s2: State, c: Client, from: Place, to: Place)
    requires OnePlaceEach(s) && Moves(s, s2, c, from, to)
    ensures OnePlaceEach(s2)
  {
    forall d: Client | d < s2.created ensures HasOnePlace(s2, d) {
      assert HasOnePlace(s, d);
      var p :| OnlyIn(s, d, p);
      if d == c {
        assert OnlyIn(s2, d, to);
      } else {
        assert OnlyIn(s2, d, p);
      }
    }
  }

  lemma StillKeepsOnePlace(s: State, s2: State)
    requires OnePlaceEach(s) && s2.created == s.created
    requires forall d, q :: Occupies(s2, d, q) <==> Occupies(s, d, q)
    ensures OnePlaceEach(s2)
  {
    forall d: Client | d < s2.created ensures HasOnePlace(s2, d) {
      assert HasOnePlace(s, d);
      var p :| OnlyIn(s, d, p);
      assert OnlyIn(s2, d, p);
    }
  }

  lemma DialKeepsOnePlace(s: State, t: Thread)
    requires OnePlaceEach(s) && s.Pc(t).Dialing?
    ensures OnePlaceEach(Apply(s, DialSucceeds(t)))
  {
    var s2 := Apply(s, DialSucceeds(t));
    forall d, q ensures Occupies(s2, d, q) <==> Occupies(s, d, q) || (d == s.created && q == InGet(t)) { }
    forall d: Client | d < s2.created ensures HasOnePlace(s2, d) {
      if d == s.created {
        assert OnlyIn(s2, d, InGet(t));
      } else {
        assert HasOnePlace(s, d);
        var p :| OnlyIn(s, d, p);
        assert OnlyIn(s2, d, p);
      }
    }
  }

  lemma StepKeepsOnePlace(s: State, step: Step)
    requires OnePlaceEach(s) && Enabled(s, step)
    ensures OnePlaceEach(Apply(s, step))
  {
    var s2 := Apply(s, step);
    match step
    case GetLookup(t, id) => StillKeepsOnePlace(s, s2);
    case DialFails(t) => StillKeepsOnePlace(s, s2);
    case DialSucceeds(t) => DialKeepsOnePlace(s, t);
    case GetInsert(t) =>
      var GetHolding(id, c) := s.Pc(t);
      MoveKeepsOnePlace(s, s2, c, InGet(t), if id in s.cache then InClosed(|s.closed|) else InCache(id));
    case EvictTake(t, id) =>
      if id in s.cache { MoveKeepsOnePlace(s, s2, s.cache[id], InCache(id), InEvict(t)); }
    case EvictClose(t) =>
      MoveKeepsOnePlace(s, s2, s.Pc(t).client, InEvict(t), InClosed(|s.closed|));
  }

  /** In every interleaving each client ever dialled is held by one in-flight Get, cached under one
      session, held by one Evict, or closed once; never two of these and never none. */
  lemma {:induction false} EveryClientInOnePlace(s: State, run: seq<Step>)
    requires OnePlaceEach(s) && Valid(s, run)
    ensures OnePlaceEach(Exec(s, run))
    decreases |run|
  {
    if run != [] {
      StepKeepsOnePlace(s, run[0]);
      EveryClientInOnePlace(Apply(s, run[0]), run[1..]);
    }
  }

  /** No client is closed twice, and once every caller is done each one is cached or closed. */
  lemma NoLeakNoDoubleClose(run: seq<Step>)
    requires Valid(Init, run)
    ensures var s := Exec(Init, run);
            && (forall i, j :: 0 <= i < j < |s.closed| ==> s.closed[i] != s.closed[j])
            && ((forall t :: s.Pc(t).Idle?) ==>
                  forall c: Client | c < s.created :: c in s.closed <==> c !in s.cache.Values)
  {
    EveryClientInOnePlace(Init, run);
    var s := Exec(Init, run);
    forall i, j | 0 <= i < j < |s.closed| ensures s.closed[i] != s.closed[j] {
      if s.closed[i] == s.closed[j] { SamePlace(s, s.closed[i], InClosed(i), InClosed(j)); }
    }
    if forall t :: s.Pc(t).Idle? {
      forall c: Client | c < s.created ensures c in s.closed <==> c !in s.cache.Values {
        assert HasOnePlace(s, c);
        var p :| OnlyIn(s, c, p);
        assert p.InCache? || p.InClosed?;
        if c in s.closed && c in s.cache.Values {
          var n :| 0 <= n < |s.closed| && s.closed[n] == c;
          var id :| id in s.cache && s.cache[id] == c;
          SamePlace(s, c, InClosed(n), InCache(id));
        }
      }
    }
  }

  // ---------- what callers get ----------

  /** A client handed out is the cached one of that session, and it is open at that moment. */
  lemma ReturnedClientIsCachedAndOpen(s: State, step: Step)
    requires OnePlaceEach(s) && Enabled(s, step) && Returned(s, step).Some?
    ensures var (id, c) := Returned(s, step).value;
            var s2 := Apply(s, step);
            id in s2.cache && s2.cache[id] == c && c !in s2.closed
  {
    var (id, c) := Returned(s, step).value;
    var s2 := Apply(s, step);
    StepKeepsOnePlace(s, step);
    forall n | 0 <= n < |s2.closed| ensures s2.closed[n] != c {
      if s2.closed[n] == c { SamePlace(s2, c, InCache(id), InClosed(n)); }
    }
  }

  predicate Evicts(step: Step, id: SessionId) {
    step.EvictTake? && step.id == id
  }

  lemma {:induction false} CachedUntilEvicted(s: State, run: seq<Step>, id: SessionId)
    requires Valid(s, run) && id in s.cache
    requires forall k :: 0 <= k < |run| ==> !Evicts(run[k], id)
    ensures id in Exec(s, run).cache && Exec(s, run).cache[id] == s.cache[id]
    decreases |run|
  {
    if run != [] {
      assert !Evicts(run[0], id);
      CachedUntilEvicted(Apply(s, run[0]), run[1..], id);
    }
  }

  /** Two Gets of one session with no Evict of it between their returns hand out the same client,
      whatever else runs in between. */
  lemma SameClientBetweenEvictions(s: State, first: Step, run: seq<Step>, last: Step)
    requires Enabled(s, first) && Valid(Apply(s, first), run)
    requires Enabled(Exec(Apply(s, first), run), last)
    requires Returned(s, first).Some? && Returned(Exec(Apply(s, first), run), last).Some?
    requires Returned(s, first).value.0 == Returned(Exec(Apply(s, first), run), last).value.0
    requires forall k :: 0 <= k < |run| ==> !Evicts(run[k], Returned(s, first).value.0)
    ensures Returned(s, first) == Returned(Exec(Apply(s, first), run), last)
  {
    var id := Returned(s, first).value.0;
    assert id in Apply(s, first).cache;
    CachedUntilEvicted(Apply(s, first), run, id);
  }

  // ---------- what an eviction guarantees afterwards ----------

  ghost predicate InFlight(s: State, id: SessionId) {
    exists t :: (s.Pc(t).Dialing? || s.Pc(t).GetHolding?) && s.Pc(t).id == id
  }

  /** An evicted session stays evicted when no Get of it was in flight and none starts. */
  lemma {:induction false} EvictIsFinalWhenNoGetInFlight(s: State, run: seq<Step>, id: SessionId)
    requires Valid(s, run) && id !in s.cache && !InFlight(s, id)
    requires forall k :: 0 <= k < |run| ==> !(run[k].GetLookup? && run[k].id == id)
    ensures id !in Exec(s, run).cache && !InFlight(Exec(s, run), id)
    decreases |run|
  {
    if run != [] {
      assert !(run[0].GetLookup? && run[0].id == id);
      var s2 := Apply(s, run[0]);
      assert forall t :: s2.Pc(t) == s.Pc(t) || !(s2.Pc(t).Dialing? || s2.Pc(t).GetHolding?) || s2.Pc(t).id != id;
      EvictIsFinalWhenNoGetInFlight(s2, run[1..], id);
    }
  }

  lemma RunOfCons(s: State, step: Step, rest: seq<Step>)
    requires Enabled(s, step) && Valid(Apply(s, step), rest)
    ensures Valid(s, [step] + rest) && Exec(s, [step] + rest) == Exec(Apply(s, step), rest)
  {
    assert ([step] + rest)[1..] == rest;
  }

  predicate NoLookup(run: seq<Step>, id: SessionId) {
    forall k :: 0 <= k < |run| ==> !(run[k].GetLookup? && run[k].id == id)
  }

  /** A run without any new lookup of the session puts it back into the cache. */
  ghost predicate ComesBack(s: State, id: SessionId, run: seq<Step>) {
    Valid(s, run) && NoLookup(run, id) && id in Exec(s, run).cache
  }

  /** With a Get in flight an evicted session comes back: the Get finishes its dial, if it has to, and
      inserts the client it holds. */
  lemma EvictUndoneByGetInFlight(s: State, t: Thread, id: SessionId) returns (run: seq<Step>)
    requires id !in s.cache && (s.Pc(t).Dialing? || s.Pc(t).GetHolding?) && s.Pc(t).id == id
    ensures ComesBack(s, id, run)
    ensures Exec(s, run).cache == s.cache[id := if s.Pc(t).Dialing? then s.created else s.Pc(t).client]
  {
    var last := [GetInsert(t)];
    assert last == [GetInsert(t)] + [];
    if s.Pc(t).GetHolding? {
      RunOfCons(s, GetInsert(t), []);
      run := last;
    } else {
      var s2 := Apply(s, DialSucceeds(t));
      RunOfCons(s2, GetInsert(t), []);
      RunOfCons(s, DialSucceeds(t), last);
      run := [DialSucceeds(t)] + last;
    }
  }

  /** A session that is not cached can come back without a new lookup exactly when a Get of it is in flight. */
  lemma ComesBackIffInFlight(s: State, id: SessionId)
    requires id !in s.cache
    ensures (exists run :: ComesBack(s, id, run)) <==> InFlight(s, id)
  {
    if InFlight(s, id) {
      var t :| (s.Pc(t).Dialing? || s.Pc(t).GetHolding?) && s.Pc(t).id == id;
      var run := EvictUndoneByGetInFlight(s, t, id);
    } else {
      forall run | Valid(s, run) && NoLookup(run, id) ensures !ComesBack(s, id, run) {
        EvictIsFinalWhenNoGetInFlight(s, run, id);
      }
    }
  }

  /** The state after two Gets of a session raced, one of them returned its client, and the session was
      evicted: the other Get is still dialling. */
  function EvictedInFlight(id: SessionId): State {
    State(map[], map[0 := Dialing(id), 1 := Idle, 2 := EvictHolding(0)], [], 1)
  }

  /** Such a state is reached from the start by a run that ends with the Evict, and from it the session
      comes back. */
  lemma EvictIsUndoneInAReachableState(id: SessionId)
    ensures var run := [GetLookup(0, id), GetLookup(1, id), DialSucceeds(1), GetInsert(1), EvictTake(2, id)];
            Valid(Init, run) && Exec(Init, run) == EvictedInFlight(id)
    ensures exists run :: ComesBack(EvictedInFlight(id), id, run)
  {
    var a, b, c, d, e := GetLookup(0, id), GetLookup(1, id), DialSucceeds(1), GetInsert(1), EvictTake(2, id);
    var s1 := Apply(Init, a);
    var s2 := Apply(s1, b);
    var s3 := Apply(s2, c);
    var s4 := Apply(s3, d);
    var s5 := Apply(s4, e);
    assert s4.cache == map[id := 0] && s5 == EvictedInFlight(id);
    RunOfCons(s4, e, []);
    RunOfCons(s3, d, [e] + []);
    RunOfCons(s2, c, [d] + ([e] + []));
    RunOfCons(s1, b, [c] + ([d] + ([e] + [])));
    RunOfCons(Init, a, [b] + ([c] + ([d] + ([e] + []))));
    assert [a, b, c, d, e] == [a] + ([b] + ([c] + ([d] + ([e] + []))));
    assert s5.Pc(0) == Dialing(id);
    ComesBackIffInFlight(s5, id);
  }

  // ---------- the factory object ----------

  /** defaultCDPFactory with the locals of its callers; each method is one critical section, or the
      action between two, and does one step of the protocol. */
  class Factory {
    var cache: map<SessionId, Client>
    var pcs: map<Thread, Pc>
    var closed: seq<Client>
    var created: nat

    function View(): State
      reads this
    {
      State(cache, pcs, closed, created)
    }

    constructor ()
      ensures View() == Init && OnePlaceEach(View())
    {
      cache, pcs, closed, created := map[], map[], [], 0;
    }

    method LookUp(t: Thread, id: SessionId) returns (hit: Option<Client>)
      requires OnePlaceEach(View()) && Enabled(View(), GetLookup(t, id))
      modifies this
      ensures View() == Apply(old(View()), GetLookup(t, id)) && OnePlaceEach(View())
      ensures hit == if id in old(cache) then Some(old(cache)[id]) else None
    {
      StepKeepsOnePlace(View(), GetLookup(t, id));
      if id in cache {
        return Some(cache[id]);
      }
      pcs := pcs[t := Dialing(id)];
      hit := None;
    }

    method Dial(t: Thread, succeeds: bool)
      requires OnePlaceEach(View()) && View().Pc(t).Dialing?
      modifies this
      ensures View() == Apply(old(View()), if succeeds then DialSucceeds(t) else DialFails(t))
      ensures OnePlaceEach(View())
    {
      StepKeepsOnePlace(View(), if succeeds then DialSucceeds(t) else DialFails(t));
      if succeeds {
        pcs := pcs[t := GetHolding(pcs[t].id, created)];
        created := created + 1;
      } else {
        pcs := pcs[t := Idle];
      }
    }

    method InsertOrClose(t: Thread) returns (client: Client)
      requires OnePlaceEach(View()) && Enabled(View(), GetInsert(t))
      modifies this
      ensures View() == Apply(old(View()), GetInsert(t)) && OnePlaceEach(View())
      ensures cache[old(pcs)[t].id] == client && client !in closed
    {
      StepKeepsOnePlace(View(), GetInsert(t));
      ReturnedClientIsCachedAndOpen(View(), GetInsert(t));
      var GetHolding(id, c) := pcs[t];
      pcs := pcs[t := Idle];
      if id in cache {
        closed := closed + [c];
        return cache[id];
      }
      cache := cache[id := c];
      client := c;
    }

    method Take(t: Thread, id: SessionId)
      requires OnePlaceEach(View()) && Enabled(View(), EvictTake(t, id))
      modifies this
      ensures View() == Apply(old(View()), EvictTake(t, id)) && OnePlaceEach(View())
      ensures id !in cache
    {
      StepKeepsOnePlace(View(), EvictTake(t, id));
      if id in cache {
        pcs := pcs[t := EvictHolding(cache[id])];
      }
      cache := cache - {id};
    }

    method Close(t: Thread)
      requires OnePlaceEach(View()) && Enabled(View(), EvictClose(t))
      modifies this
      ensures View() == Apply(old(View()), EvictClose(t)) && OnePlaceEach(View())
      ensures old(pcs)[t].client !in old(closed)
    {
      StepKeepsOnePlace(View(), EvictClose(t));
      forall n | 0 <= n < |closed| ensures closed[n] != pcs[t].client {
        if closed[n] == pcs[t].client { SamePlace(View(), closed[n], InEvict(t), InClosed(n)); }
      }
      closed := closed + [pcs[t].client];
      pcs := pcs[t := Idle];
    }
  }
}
