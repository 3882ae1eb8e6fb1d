/** All threads of the async job layer running together: callers of pack.start, pack.status,
    pack.result and tasks/get, the detached workers with their webhook delivery, and sweepers. Taking a
    mutex is one step; the critical section up to its unlock is one step of the owner. */
module JobProtocol {
  import opened Text
  import opened Jobs

  type Thread = nat

  datatype Lock = RegistryLock | JobLock(id: JobId)

  datatype Query = PackStatus | PackResult | TasksGet

  datatype Section =
    | Put(id: JobId)                                   // startAsync: jobs.put
    | Progress(id: JobId, pct: real, message: string)  // the progress callback
    | Finish(id: JobId, outcome: Outcome)              // after engine.Execute returned
    | Snapshot(id: JobId)                              // buildWebhookPayload, first lock
    | Body(id: JobId, snap: Job)                       // buildWebhookPayload, second lock
    | Find(query: Query, id: JobId)                    // lookupJobByID
    | Read(query: Query, id: JobId)                    // the reader's copy under the job mutex
    | Drop(id: JobId, snap: Job)                       // pack.result on a completed job
    | StartSweep(now: Time)

  function LockOf(sec: Section): Lock {
    match sec
    case Put(_) => RegistryLock
    case Find(_, _) => RegistryLock
    case Drop(_, _) => RegistryLock
    case StartSweep(_) => RegistryLock
    case _ => JobLock(sec.id)
  }

  /** A delivery's content: the snapshot plus the result and error read under a second lock. */
  datatype Hook = Hook(snap: Job, result: Option<Payload>, err: Option<Payload>)

  datatype Pc =
    | Idle
    | Want(sec: Section)
    | In(sec: Section)
    | Spawning(id: JobId)                // registered, goroutine not started yet
    | Running(id: JobId)                 // the worker inside engine.Execute
    | Delivering(id: JobId, hook: Hook)  // the worker inside the delivery loop
    | Sweeping(now: Time, todo: set<JobId>, start: set<JobId>)
    | SweepWant(now: Time, todo: set<JobId>, start: set<JobId>, next: JobId)
    | SweepIn(now: Time, todo: set<JobId>, start: set<JobId>, next: JobId)

  function Holds(pc: Pc): set<Lock> {
    match pc
    case In(sec) => {LockOf(sec)}
    case Sweeping(_, _, _) => {RegistryLock}
    case SweepWant(_, _, _, _) => {RegistryLock}
    case SweepIn(_, _, _, k) => {RegistryLock, JobLock(k)}
    case _ => {}
  }

  function Wants(pc: Pc): Option<Lock> {
    match pc
    case Want(sec) => Some(LockOf(sec))
    case SweepWant(_, _, _, k) => Some(JobLock(k))
    case _ => None
  }

  datatype Reply = NotFound(query: Query, id: JobId) | Found(query: Query, id: JobId, job: Job)

  datatype Send = Send(hook: Hook, response: Response)

  /** `heap` has every job ever created, `registry` the ids that still reach theirs. `start` inside a
      sweeper's pc, `replies` and `sent` are history. */
  datatype State = State(
    clock: Time, heap: map<JobId, Job>, registry: set<JobId>, locks: map<Lock, Thread>,
    pcs: map<Thread, Pc>, replies: seq<Reply>, sent: map<JobId, seq<Send>>)
  {
    function Pc(t: Thread): Pc {
      if t in pcs then pcs[t] else Idle
    }
    function Sent(id: JobId): seq<Send> {
      if id in sent then sent[id] else []
    }
    function Go(t: Thread, pc: Pc): State {
      this.(pcs := pcs[t := pc])
    }
    function Release(l: Lock): State {
      this.(locks := locks - {l})
    }
  }

  const Init := State(0, map[], {}, map[], map[], [], map[])

  datatype Step =
    | Tick(to: Time)
    | Start(t: Thread, id: JobId, pack: string, webhook: bool)
    | Spawn(t: Thread, worker: Thread)
    | Report(t: Thread, pct: real, message: string)
    | Return(t: Thread, outcome: Outcome)
    | Call(t: Thread, query: Query, id: JobId)
    | BeginSweep(t: Thread)
    | Acquire(t: Thread)
    | Exec(t: Thread)
    | SweepPick(t: Thread, k: JobId)
    | SweepTest(t: Thread)
    | SweepEnd(t: Thread)
    | Deliver(t: Thread, response: Response)
    | GiveUp(t: Thread)   // the payload does not marshal, or the URL is malformed

  function Actor(step: Step): Thread {
    if step.Tick? then 0 else step.t
  }

  predicate Enabled(s: State, step: Step) {
    match step
    case Tick(to) => to >= s.clock
    case Start(t, id, _, _) => s.Pc(t).Idle? && id !in s.heap
    case Spawn(t, w) => s.Pc(t).Spawning? && s.Pc(w).Idle?
    case Report(t, _, _) => s.Pc(t).Running?
    case Return(t, _) => s.Pc(t).Running?
    case Call(t, _, _) => s.Pc(t).Idle?
    case BeginSweep(t) => s.Pc(t).Idle?
    case Acquire(t) => Wants(s.Pc(t)).Some? && Wants(s.Pc(t)).value !in s.locks
    case Exec(t) => s.Pc(t).In?
    case SweepPick(t, k) => s.Pc(t).Sweeping? && k in s.Pc(t).todo
    case SweepTest(t) => s.Pc(t).SweepIn?
    case SweepEnd(t) => s.Pc(t).Sweeping? && s.Pc(t).todo == {}
    case Deliver(t, _) => s.Pc(t).Delivering?
    case GiveUp(t) => s.Pc(t).Delivering?
  }

  function JobAt(s: State, id: JobId): Job {
    if id in s.heap then s.heap[id] else NewJob("", false, 0)
  }

  function ExecSection(s: State, t: Thread, sec: Section): State {
    var s1 := s.Release(LockOf(sec));
    match sec
    case Put(id) =>
      s1.(registry := s.registry + {id}).Go(t, Spawning(id))
    case Progress(id, pct, m) =>
      s1.(heap := s.heap[id := Reported(JobAt(s, id), pct, m)]).Go(t, Running(id))
    case Finish(id, o) =>
      s1.(heap := s.heap[id := Finished(JobAt(s, id), o, s.clock)])
        .Go(t, if JobAt(s, id).webhook then Want(Snapshot(id)) else Idle)
    case Snapshot(id) =>
      s1.Go(t, Want(Body(id, JobAt(s, id))))
    case Body(id, snap) =>
      s1.Go(t, Delivering(id, Hook(snap, JobAt(s, id).result, JobAt(s, id).err)))
    case Find(q, raw) =>
      var id := RawId(raw);
      if id in s.registry then s1.Go(t, Want(Read(q, id)))
      else s1.(replies := s.replies + [NotFound(q, id)]).Go(t, Idle)
    case Read(q, id) =>
      var j := JobAt(s, id);
      if q.PackResult? && j.state.Completed? then s1.Go(t, Want(Drop(id, j)))
      else s1.(replies := s.replies + [Found(q, id, j)]).Go(t, Idle)
    case Drop(id, snap) =>
      s1.(registry := s.registry - {id}, replies := s.replies + [Found(PackResult, id, snap)]).Go(t, Idle)
    case StartSweep(now) =>
      s.Go(t, Sweeping(now, s.registry, s.registry))
  }

  function Apply(s: State, step: Step): State
    requires Enabled(s, step)
  {
    match step
    case Tick(to) => s.(clock := to)
    case Start(t, id, pack, webhook) =>
      s.(heap := s.heap[id := NewJob(pack, webhook, s.clock)]).Go(t, Want(Put(id)))
    case Spawn(t, w) =>
      s.Go(t, Idle).Go(w, Running(s.Pc(t).id))
    case Report(t, pct, m) => s.Go(t, Want(Progress(s.Pc(t).id, pct, m)))
    case Return(t, o) => s.Go(t, Want(Finish(s.Pc(t).id, o)))
    case Call(t, q, id) => s.Go(t, Want(Find(q, id)))
    case BeginSweep(t) => s.Go(t, Want(StartSweep(s.clock)))
    case Acquire(t) =>
      var s1 := s.(locks := s.locks[Wants(s.Pc(t)).value := t]);
      (match s.Pc(t)
       case Want(sec) => s1.Go(t, In(sec))
       case SweepWant(now, todo, start, k) => s1.Go(t, SweepIn(now, todo, start, k)))
    case Exec(t) => ExecSection(s, t, s.Pc(t).sec)
    case SweepPick(t, k) =>
      var Sweeping(now, todo, start) := s.Pc(t);
      s.Go(t, SweepWant(now, todo, start, k))
    case SweepTest(t) =>
      var SweepIn(now, todo, start, k) := s.Pc(t);
      var s1 := s.Release(JobLock(k)).Go(t, Sweeping(now, todo - {k}, start));
      if Expired(JobAt(s, k), now) then s1.(registry := s.registry - {k}) else s1
    case SweepEnd(t) => s.Release(RegistryLock).Go(t, Idle)
    case Deliver(t, response) =>
      var Delivering(id, hook) := s.Pc(t);
      var n := |s.Sent(id)| + 1;
      s.(sent := s.sent[id := s.Sent(id) + [Send(hook, response)]])
       .Go(t, if Final(response) || n >= MAX_DELIVERIES then Idle else Delivering(id, hook))
    case GiveUp(t) => s.Go(t, Idle)
  }

  // ---------- the invariant ----------

  /** The job a thread alone drives: from its creation to the end of its webhook delivery. */
  function Owns(pc: Pc): Option<JobId> {
    match pc
    case Want(sec) => SectionOwner(sec)
    case In(sec) => SectionOwner(sec)
    case Spawning(id) => Some(id)
    case Running(id) => Some(id)
    case Delivering(id, _) => Some(id)
    case _ => None
  }

  function SectionOwner(sec: Section): Option<JobId> {
    if sec.Put? || sec.Progress? || sec.Finish? || sec.Snapshot? || sec.Body? then Some(sec.id) else None
  }

  ghost predicate JobsOk(s: State) {
    forall id :: id in s.heap ==>
      Coherent(s.heap[id]) && (s.heap[id].endedAt.Some? ==> s.heap[id].endedAt.value <= s.clock)
  }

  ghost predicate OwnersOk(s: State) {
    forall t, u :: Owns(s.Pc(t)).Some? && Owns(s.Pc(t)) == Owns(s.Pc(u)) ==> t == u
  }

  ghost predicate LocksOk(s: State) {
    forall l, t :: l in Holds(s.Pc(t)) <==> l in s.locks && s.locks[l] == t
  }

  predicate AllRetryable(sends: seq<Send>) {
    forall k :: 0 <= k < |sends| ==> !Final(sends[k].response)
  }

  /** A delivery tells the job's final state, with its result or its error. */
  predicate Tells(h: Hook, j: Job) {
    Terminal(j) && h == Hook(j, j.result, j.err)
  }

  /** The deliveries made for job j so far. */
  predicate SentOk(j: Job, sends: seq<Send>) {
    && |sends| <= MAX_DELIVERIES
    && (forall k :: 0 <= k < |sends| ==> Tells(sends[k].hook, j))
    && (sends != [] ==> j.webhook && AllRetryable(sends[..|sends| - 1]))
  }

  ghost predicate AllSentOk(s: State) {
    && (forall id :: id in s.heap ==> SentOk(s.heap[id], s.Sent(id)))
    && (forall id :: s.Sent(id) != [] ==> id in s.heap)
  }

  predicate ReplyOk(s: State, r: Reply) {
    r.Found? ==>
      r.id in s.heap && Coherent(r.job) && (Terminal(r.job) ==> r.job == s.heap[r.id])
  }

  ghost predicate RepliesOk(s: State) {
    forall k :: 0 <= k < |s.replies| ==> ReplyOk(s, s.replies[k])
  }

  predicate SectionOk(s: State, sec: Section) {
    match sec
    case Put(id) => id in s.heap && s.heap[id].state.Working? && id !in s.registry && s.Sent(id) == []
    case Progress(id, _, _) => id in s.heap && s.heap[id].state.Working? && s.Sent(id) == []
    case Finish(id, _) => id in s.heap && s.heap[id].state.Working? && s.Sent(id) == []
    case Snapshot(id) => id in s.heap && Terminal(s.heap[id]) && s.heap[id].webhook && s.Sent(id) == []
    case Body(id, snap) =>
      id in s.heap && Terminal(s.heap[id]) && s.heap[id].webhook && snap == s.heap[id] && s.Sent(id) == []
    case Find(_, _) => true
    case Read(_, id) => id in s.heap
    case Drop(id, snap) => id in s.heap && snap.state.Completed? && snap == s.heap[id]
    case StartSweep(now) => now <= s.clock
  }

  /** What is left of the registry in the middle of a sweep. */
  ghost predicate SweepOk(s: State, now: Time, todo: set<JobId>, start: set<JobId>) {
    && now <= s.clock && todo <= start <= s.heap.Keys
    && forall k :: k in s.registry <==> k in start && (k in todo || !Expired(s.heap[k], now))
  }

  ghost predicate PcOk(s: State, pc: Pc) {
    match pc
    case Idle => true
    case Want(sec) => SectionOk(s, sec)
    case In(sec) => SectionOk(s, sec)
    case Spawning(id) => id in s.heap && s.heap[id].state.Working? && s.Sent(id) == []
    case Running(id) => id in s.heap && s.heap[id].state.Working? && s.Sent(id) == []
    case Delivering(id, hook) =>
      id in s.heap && s.heap[id].webhook && Tells(hook, s.heap[id]) &&
      AllRetryable(s.Sent(id)) && |s.Sent(id)| < MAX_DELIVERIES
    case Sweeping(now, todo, start) => SweepOk(s, now, todo, start)
    case SweepWant(now, todo, start, k) => SweepOk(s, now, todo, start) && k in todo
    case SweepIn(now, todo, start, k) => SweepOk(s, now, todo, start) && k in todo
  }

  ghost predicate PcsOk(s: State) {
    forall t :: PcOk(s, s.Pc(t))
  }

  ghost predicate Inv(s: State) {
    JobsOk(s) && s.registry <= s.heap.Keys && OwnersOk(s) && LocksOk(s) &&
    AllSentOk(s) && RepliesOk(s) && PcsOk(s)
  }

  lemma InitOk()
    ensures Inv(Init)
  {
  }

  /** Only the acting thread and a worker it spawns move. */
  lemma OthersStay(s: State, step: Step, u: Thread)
    requires Enabled(s, step)
    requires u != Actor(step) && !(step.Spawn? && u == step.worker)
    ensures Apply(s, step).Pc(u) == s.Pc(u)
  {
    if step.Exec? { OthersStayOutside(s, step.t, s.Pc(step.t).sec, u); }
  }

  lemma OthersStayOutside(s: State, t: Thread, sec: Section, u: Thread)
    requires u != t
    ensures ExecSection(s, t, sec).Pc(u) == s.Pc(u)
  {
  }

  /** The only writes to jobs: creation, progress of a running one, and the terminal step. */
  lemma HeapAfter(s: State, step: Step)
    requires Enabled(s, step)
    ensures var s2, pc := Apply(s, step), s.Pc(Actor(step));
            || s2.heap == s.heap
            || (step.Start? && s2.heap == s.heap[step.id := NewJob(step.pack, step.webhook, s.clock)])
            || (step.Exec? && pc.sec.Progress? &&
                s2.heap == s.heap[pc.sec.id := Reported(JobAt(s, pc.sec.id), pc.sec.pct, pc.sec.message)])
            || (step.Exec? && pc.sec.Finish? &&
                s2.heap == s.heap[pc.sec.id := Finished(JobAt(s, pc.sec.id), pc.sec.outcome, s.clock)])
  {
  }

  /** The only writes to the registry: a put of the owner, a drop, and the sweeper's deletion. */
  lemma RegistryAfter(s: State, step: Step)
    requires Enabled(s, step)
    ensures var s2, pc := Apply(s, step), s.Pc(Actor(step));
            || s2.registry == s.registry
            || (step.Exec? && pc.sec.Put? && s2.registry == s.registry + {pc.sec.id})
            || (step.Exec? && pc.sec.Drop? && s2.registry == s.registry - {pc.sec.id})
            || (step.SweepTest? && Expired(JobAt(s, pc.next), pc.now) && s2.registry == s.registry - {pc.next})
  {
  }

  lemma StepKeepsJobs(s: State, step: Step)
    requires Enabled(s, step) && PcOk(s, s.Pc(Actor(step)))
    requires JobsOk(s) && s.registry <= s.heap.Keys
    ensures JobsOk(Apply(s, step)) && Apply(s, step).registry <= Apply(s, step).heap.Keys
    ensures s.heap.Keys <= Apply(s, step).heap.Keys && s.clock <= Apply(s, step).clock
  {
    HeapAfter(s, step);
    RegistryAfter(s, step);
    assert s.clock <= Apply(s, step).clock;
  }

  lemma StepKeepsOwners(s: State, step: Step)
    requires Enabled(s, step) && OwnersOk(s) && PcsOk(s)
    ensures OwnersOk(Apply(s, step))
  {
    var s2, a := Apply(s, step), Actor(step);
    forall t, u | t != u && Owns(s2.Pc(t)).Some? ensures Owns(s2.Pc(t)) != Owns(s2.Pc(u)) {
      OwnerAfter(s, step, t);
      OwnerAfter(s, step, u);
      assert PcOk(s, s.Pc(t)) && PcOk(s, s.Pc(u));
    }
  }

  /** A thread owns after a step what it owned before, unless it is the spawned worker or the starter. */
  lemma OwnerAfter(s: State, step: Step, t: Thread)
    requires Enabled(s, step)
    ensures var o := Owns(Apply(s, step).Pc(t));
            o == None
            || (o == Owns(s.Pc(t)) && !(step.Spawn? && t == step.t))
            || (step.Spawn? && t == step.worker && o == Owns(s.Pc(step.t)))
            || (step.Start? && t == step.t && o == Some(step.id))
  {
    if t != Actor(step) && !(step.Spawn? && t == step.worker) { OthersStay(s, step, t); }
  }

  function Takes(s: State, step: Step): set<Lock>
    requires Enabled(s, step)
  {
    if step.Acquire? then {Wants(s.Pc(step.t)).value} else {}
  }

  function Frees(s: State, step: Step): set<Lock>
    requires Enabled(s, step)
  {
    match step
    case Exec(t) => if s.Pc(t).sec.StartSweep? then {} else {LockOf(s.Pc(t).sec)}
    case SweepTest(t) => {JobLock(s.Pc(t).next)}
    case SweepEnd(t) => {RegistryLock}
    case _ => {}
  }

  /** The lock map after a step. */
  ghost predicate LocksMove(s: State, step: Step)
    requires Enabled(s, step)
  {
    Apply(s, step).locks == s.locks + (map l | l in Takes(s, step) :: Actor(step)) - Frees(s, step)
  }

  lemma LocksAfterExec(s: State, step: Step)
    requires Enabled(s, step) && step.Exec?
    ensures LocksMove(s, step)
  {
    assert Apply(s, step).locks == if s.Pc(step.t).sec.StartSweep? then s.locks else s.locks - {LockOf(s.Pc(step.t).sec)};
  }

  lemma LocksAfterAcquire(s: State, step: Step)
    requires Enabled(s, step) && step.Acquire?
    ensures LocksMove(s, step)
  {
    assert Apply(s, step).locks == s.locks[Wants(s.Pc(step.t)).value := step.t];
  }

  lemma LocksAfterSweep(s: State, step: Step)
    requires Enabled(s, step) && (step.SweepTest? || step.SweepEnd?)
    ensures LocksMove(s, step)
  {
  }

  lemma LocksAfterRest(s: State, step: Step)
    requires Enabled(s, step) && !step.Exec? && !step.Acquire? && !step.SweepTest? && !step.SweepEnd?
    ensures LocksMove(s, step)
  {
    assert Apply(s, step).locks == s.locks;
  }

  lemma LocksAfter(s: State, step: Step)
    requires Enabled(s, step)
    ensures LocksMove(s, step)
  {
    if step.Exec? {
      LocksAfterExec(s, step);
    } else if step.Acquire? {
      LocksAfterAcquire(s, step);
    } else if step.SweepTest? || step.SweepEnd? {
      LocksAfterSweep(s, step);
    } else {
      LocksAfterRest(s, step);
    }
  }

  lemma OwnTakesAndFrees(s: State, step: Step)
    requires Enabled(s, step)
    ensures Takes(s, step) !! s.locks.Keys && Frees(s, step) <= Holds(s.Pc(Actor(step)))
  {
  }

  lemma OwnHoldsAfter(s: State, step: Step)
    requires Enabled(s, step)
    ensures var t := Actor(step);
            Holds(Apply(s, step).Pc(t)) == Holds(s.Pc(t)) + Takes(s, step) - Frees(s, step)
  {
  }

  lemma HoldsAfter(s: State, step: Step, u: Thread)
    requires Enabled(s, step)
    ensures Takes(s, step) !! s.locks.Keys && Frees(s, step) <= Holds(s.Pc(Actor(step)))
    ensures Holds(Apply(s, step).Pc(u)) ==
            if u == Actor(step) then Holds(s.Pc(u)) + Takes(s, step) - Frees(s, step) else Holds(s.Pc(u))
  {
    OwnTakesAndFrees(s, step);
    OwnHoldsAfter(s, step);
    if u != Actor(step) && !(step.Spawn? && u == step.worker) { OthersStay(s, step, u); }
  }

  lemma StepKeepsLocks(s: State, step: Step)
    requires Enabled(s, step) && LocksOk(s)
    ensures LocksOk(Apply(s, step))
  {
    var s2, a := Apply(s, step), Actor(step);
    LocksAfter(s, step);
    forall l, t ensures l in Holds(s2.Pc(t)) <==> l in s2.locks && s2.locks[l] == t {
      assert l in Holds(s.Pc(t)) <==> l in s.locks && s.locks[l] == t;
      assert l in Holds(s.Pc(a)) <==> l in s.locks && s.locks[l] == a;
      HoldsAfter(s, step, t);
    }
  }

  lemma SentAfter(s: State, step: Step, id: JobId)
    requires Enabled(s, step)
    ensures Apply(s, step).Sent(id) ==
            if step.Deliver? && s.Pc(step.t).id == id
            then s.Sent(id) + [Send(s.Pc(step.t).hook, step.response)] else s.Sent(id)
  {
  }

  lemma StepKeepsSent(s: State, step: Step)
    requires Enabled(s, step) && PcOk(s, s.Pc(Actor(step))) && AllSentOk(s)
    ensures AllSentOk(Apply(s, step))
  {
    var s2 := Apply(s, step);
    forall id ensures s2.Sent(id) != [] ==> id in s2.heap
              ensures id in s2.heap ==> SentOk(s2.heap[id], s2.Sent(id))
    {
      SentAfter(s, step, id);
    }
  }

  /** A job that is over never changes again. */
  lemma TerminalStepAbsorbs(s: State, step: Step, id: JobId)
    requires Enabled(s, step) && PcOk(s, s.Pc(Actor(step)))
    requires id in s.heap && Terminal(s.heap[id])
    ensures Apply(s, step).heap[id] == s.heap[id]
  {
  }

  lemma ReplyStaysOk(s: State, step: Step, r: Reply)
    requires Inv(s) && Enabled(s, step) && ReplyOk(s, r)
    ensures ReplyOk(Apply(s, step), r)
  {
    StepKeepsJobs(s, step);
    if r.Found? && Terminal(r.job) { TerminalStepAbsorbs(s, step, r.id); }
  }

  lemma NewReplyOk(s: State, step: Step, k: nat)
    requires Inv(s) && Enabled(s, step) && |s.replies| <= k < |Apply(s, step).replies|
    ensures ReplyOk(Apply(s, step), Apply(s, step).replies[k])
  {
    StepKeepsJobs(s, step);
    assert PcOk(s, s.Pc(Actor(step)));
  }

  lemma RepliesGrow(s: State, step: Step)
    requires Enabled(s, step)
    ensures s.replies <= Apply(s, step).replies
  {
  }

  lemma StepKeepsReplies(s: State, step: Step)
    requires Inv(s) && Enabled(s, step)
    ensures RepliesOk(Apply(s, step))
  {
    var s2 := Apply(s, step);
    RepliesGrow(s, step);
    forall k | 0 <= k < |s2.replies| ensures ReplyOk(s2, s2.replies[k]) {
      if k < |s.replies| {
        ReplyStaysOk(s, step, s.replies[k]);
      } else {
        NewReplyOk(s, step, k);
      }
    }
  }

  // A thread that does not move keeps its own condition.

  /** No other thread touches the job a thread owns, its registration or its deliveries. */
  lemma OwnedStays(s: State, step: Step, u: Thread)
    requires Inv(s) && Enabled(s, step) && Owns(s.Pc(u)).Some?
    requires u != Actor(step)
    ensures var id, s2 := Owns(s.Pc(u)).value, Apply(s, step);
            && id in s2.heap && s2.heap[id] == s.heap[id]
            && (id in s2.registry ==> id in s.registry)
            && s2.Sent(id) == s.Sent(id)
  {
    var id := Owns(s.Pc(u)).value;
    assert PcOk(s, s.Pc(u)) && PcOk(s, s.Pc(Actor(step)));
    HeapAfter(s, step);
    RegistryAfter(s, step);
    SentAfter(s, step, id);
    assert Owns(s.Pc(Actor(step))) != Some(id);
  }

  /** Only the holder of the registry mutex writes the registry. */
  lemma RegistryStays(s: State, step: Step, u: Thread)
    requires Inv(s) && Enabled(s, step) && RegistryLock in Holds(s.Pc(u))
    requires u != Actor(step)
    ensures Apply(s, step).registry == s.registry
  {
    RegistryAfter(s, step);
    assert RegistryLock !in Holds(s.Pc(Actor(step))) by {
      assert RegistryLock in Holds(s.Pc(u)) <==> RegistryLock in s.locks && s.locks[RegistryLock] == u;
      assert RegistryLock in Holds(s.Pc(Actor(step))) <==>
             RegistryLock in s.locks && s.locks[RegistryLock] == Actor(step);
    }
  }

  /** A job that ends after the sweep began is as young as the sweep, so its verdict never changes. */
  lemma ExpiryStays(s: State, step: Step, id: JobId, now: Time)
    requires Inv(s) && Enabled(s, step) && id in s.heap && now <= s.clock
    ensures id in Apply(s, step).heap
    ensures Expired(Apply(s, step).heap[id], now) == Expired(s.heap[id], now)
  {
    assert PcOk(s, s.Pc(Actor(step)));
    HeapAfter(s, step);
  }

  lemma SweepStays(s: State, step: Step, now: Time, todo: set<JobId>, start: set<JobId>)
    requires Inv(s) && Enabled(s, step) && SweepOk(s, now, todo, start)
    requires Apply(s, step).registry == s.registry
    ensures SweepOk(Apply(s, step), now, todo, start)
  {
    assert PcOk(s, s.Pc(Actor(step)));
    StepKeepsJobs(s, step);
    forall k | k in start ensures Expired(Apply(s, step).heap[k], now) == Expired(s.heap[k], now) {
      ExpiryStays(s, step, k, now);
    }
  }

  lemma BystanderKeeps(s: State, step: Step, u: Thread)
    requires Inv(s) && Enabled(s, step)
    requires u != Actor(step)
    ensures PcOk(Apply(s, step), s.Pc(u))
  {
    var pc := s.Pc(u);
    assert PcOk(s, pc) && PcOk(s, s.Pc(Actor(step)));
    StepKeepsJobs(s, step);
    if Owns(pc).Some? {
      OwnedStays(s, step, u);
    } else if pc.Want? || pc.In? {
      if pc.sec.Drop? { TerminalStepAbsorbs(s, step, pc.sec.id); }
    } else if RegistryLock in Holds(pc) {
      RegistryStays(s, step, u);
      SweepStays(s, step, pc.now, pc.todo, pc.start);
    }
  }

  // The thread that moves arrives at a condition that holds.

  lemma SweepTestKeeps(s: State, t: Thread)
    requires Inv(s) && s.Pc(t).SweepIn?
    ensures PcOk(Apply(s, SweepTest(t)), Apply(s, SweepTest(t)).Pc(t))
  {
    assert PcOk(s, s.Pc(t));
  }

  lemma DeliverKeeps(s: State, t: Thread, r: Response)
    requires Inv(s) && s.Pc(t).Delivering?
    ensures PcOk(Apply(s, Deliver(t, r)), Apply(s, Deliver(t, r)).Pc(t))
  {
    assert PcOk(s, s.Pc(t));
    SentAfter(s, Deliver(t, r), s.Pc(t).id);
  }

  lemma ExecKeeps(s: State, t: Thread)
    requires Inv(s) && s.Pc(t).In?
    ensures PcOk(Apply(s, Exec(t)), Apply(s, Exec(t)).Pc(t))
  {
    assert PcOk(s, s.Pc(t));
    if Owns(s.Pc(t)).Some? { SentAfter(s, Exec(t), Owns(s.Pc(t)).value); }
  }

  lemma StartKeeps(s: State, step: Step)
    requires Inv(s) && Enabled(s, step) && step.Start?
    ensures PcOk(Apply(s, step), Apply(s, step).Pc(Actor(step)))
  {
    assert s.Sent(step.id) == [];
  }

  /** The steps that only wait for a lock, start a thread or a sweep, or end one. */
  lemma QuietKeeps(s: State, step: Step)
    requires Inv(s) && Enabled(s, step)
    requires !step.SweepTest? && !step.Deliver? && !step.Exec? && !step.Start?
    ensures PcOk(Apply(s, step), Apply(s, step).Pc(Actor(step)))
  {
    assert PcOk(s, s.Pc(Actor(step)));
  }

  lemma ActorKeeps(s: State, step: Step)
    requires Inv(s) && Enabled(s, step)
    ensures PcOk(Apply(s, step), Apply(s, step).Pc(Actor(step)))
  {
    match step
    case SweepTest(t) => SweepTestKeeps(s, t);
    case Deliver(t, r) => DeliverKeeps(s, t, r);
    case Exec(t) => ExecKeeps(s, t);
    case Start(_, _, _, _) => StartKeeps(s, step);
    case _ => QuietKeeps(s, step);
  }

  lemma StepKeepsPcs(s: State, step: Step)
    requires Inv(s) && Enabled(s, step)
    ensures PcsOk(Apply(s, step))
  {
    var s2 := Apply(s, step);
    forall u ensures PcOk(s2, s2.Pc(u)) {
      if u == Actor(step) {
        ActorKeeps(s, step);
      } else if step.Spawn? && u == step.worker {
        assert PcOk(s, s.Pc(step.t));
      } else {
        OthersStay(s, step, u);
        BystanderKeeps(s, step, u);
      }
    }
  }

  lemma StepKeepsInv(s: State, step: Step)
    requires Inv(s) && Enabled(s, step)
    ensures Inv(Apply(s, step))
  {
    assert PcOk(s, s.Pc(Actor(step)));
    StepKeepsJobs(s, step);
    StepKeepsOwners(s, step);
    StepKeepsLocks(s, step);
    StepKeepsSent(s, step);
    StepKeepsReplies(s, step);
    StepKeepsPcs(s, step);
  }

  // ---------- whole runs ----------

  predicate Valid(s: State, run: seq<Step>)
    decreases |run|
  {
    run == [] || (Enabled(s, run[0]) && Valid(Apply(s, run[0]), run[1..]))
  }

  function After(s: State, run: seq<Step>): State
    requires Valid(s, run)
    decreases |run|
  {
    if run == [] then s else After(Apply(s, run[0]), run[1..])
  }

  lemma {:induction false} RunKeepsInv(s: State, run: seq<Step>)
    requires Inv(s) && Valid(s, run)
    ensures Inv(After(s, run))
    decreases |run|
  {
    if run != [] {
      StepKeepsInv(s, run[0]);
      RunKeepsInv(Apply(s, run[0]), run[1..]);
    }
  }

  /** Terminal states absorb: state, result, error, end time, progress and message are final. */
  lemma {:induction false} TerminalJobNeverChanges(s: State, run: seq<Step>, id: JobId)
    requires Inv(s) && Valid(s, run)
    requires id in s.heap && Terminal(s.heap[id])
    ensures id in After(s, run).heap && After(s, run).heap[id] == s.heap[id]
    decreases |run|
  {
    if run != [] {
      assert PcOk(s, s.Pc(Actor(run[0])));
      TerminalStepAbsorbs(s, run[0], id);
      StepKeepsInv(s, run[0]);
      TerminalJobNeverChanges(Apply(s, run[0]), run[1..], id);
    }
  }

  /** In every reachable state every job ever created, and every job any reader was ever shown, has an
      end time, a result and an error exactly as its state demands; a terminal answer is the job itself,
      so any two terminal answers about one job are equal. */
  lemma JobsAndRepliesCoherent(run: seq<Step>)
    requires Valid(Init, run)
    ensures var s := After(Init, run);
            && (forall id :: id in s.heap ==> Coherent(s.heap[id]))
            && (forall k :: 0 <= k < |s.replies| && s.replies[k].Found? ==> Coherent(s.replies[k].job))
            && (forall k, m :: 0 <= k < m < |s.replies| && s.replies[k].Found? && s.replies[m].Found? &&
                  s.replies[k].id == s.replies[m].id && Terminal(s.replies[k].job) && Terminal(s.replies[m].job)
                  ==> s.replies[k].job == s.replies[m].job)
  {
    InitOk();
    RunKeepsInv(Init, run);
    var s := After(Init, run);
    assert forall k :: 0 <= k < |s.replies| ==> ReplyOk(s, s.replies[k]);
  }

  /** The payload of buildWebhookPayload: the final snapshot, the result of a completed job, the error of
      a failed one. */
  predicate Carries(h: Hook, j: Job) {
    h.snap == j && (j.state.Completed? ==> h.result.Some?) && (j.state.Failed? ==> h.err.Some?)
  }

  /** Webhooks go out only for jobs that asked for one and are over, at most three times, each time with
      the job's final state, and never again after a 2xx or a 4xx. */
  lemma WebhookDiscipline(run: seq<Step>, id: JobId)
    requires Valid(Init, run)
    ensures var s := After(Init, run);
            s.Sent(id) != [] ==>
              && id in s.heap && s.heap[id].webhook && Terminal(s.heap[id])
              && |s.Sent(id)| <= 3
              && (forall k :: 0 <= k < |s.Sent(id)| ==> Carries(s.Sent(id)[k].hook, s.heap[id]))
              && (forall k :: 0 <= k < |s.Sent(id)| - 1 ==> TriedAgain(s.Sent(id)[k].response))
  {
    InitOk();
    RunKeepsInv(Init, run);
    var s := After(Init, run);
    if s.Sent(id) != [] {
      assert SentOk(s.heap[id], s.Sent(id)) && Tells(s.Sent(id)[0].hook, s.heap[id]);
      var init := s.Sent(id)[..|s.Sent(id)| - 1];
      forall k | 0 <= k < |s.Sent(id)| - 1 ensures TriedAgain(s.Sent(id)[k].response) {
        assert init[k] == s.Sent(id)[k];
      }
    }
  }

  // ---------- what a job tells is what its engine returned ----------

  /** The outcomes that engine.Execute returned for job id in the course of a run. */
  function Returned(s: State, run: seq<Step>, id: JobId): seq<Outcome>
    requires Valid(s, run)
    decreases |run|
  {
    if run == [] then [] else ReturnedBy(s, run[0], id) + Returned(Apply(s, run[0]), run[1..], id)
  }

  function ReturnedBy(s: State, step: Step, id: JobId): seq<Outcome> {
    if step.Return? && s.Pc(step.t) == Running(id) then [step.outcome] else []
  }

  /** State, result and error that go with an outcome. */
  predicate Shows(j: Job, o: Outcome) {
    match o
    case Succeeded(r) => j.state == Completed && j.result == Some(r) && j.err == None && j.progress == 100.0
    case Errored(e) => j.state == Failed && j.err == Some(e) && j.result == None
  }

  predicate Delivers(h: Hook, o: Outcome) {
    match o
    case Succeeded(r) => h.snap.state == Completed && h.result == Some(r) && h.err == None
    case Errored(e) => h.snap.state == Failed && h.err == Some(e) && h.result == None
  }

  predicate AllDeliver(sends: seq<Send>, o: Outcome) {
    forall k :: 0 <= k < |sends| ==> Delivers(sends[k].hook, o)
  }

  /** The thread has not come to the end of engine.Execute for id. */
  predicate BeforeReturn(pc: Pc, id: JobId) {
    match pc
    case Want(sec) => (sec.Put? || sec.Progress?) && sec.id == id
    case In(sec) => (sec.Put? || sec.Progress?) && sec.id == id
    case Spawning(id2) => id2 == id
    case Running(id2) => id2 == id
    case _ => false
  }

  /** The thread is about to write the outcome o of id. */
  predicate Writes(pc: Pc, id: JobId, o: Outcome) {
    pc == Want(Finish(id, o)) || pc == In(Finish(id, o))
  }

  /** `said` is what the engine has returned for id so far. */
  ghost predicate SaidOk(s: State, id: JobId, said: seq<Outcome>) {
    && |said| <= 1
    && (id !in s.heap ==> said == [])
    && (id in s.heap && Terminal(s.heap[id]) ==> said != [] && Shows(s.heap[id], said[0]))
    && (forall t :: BeforeReturn(s.Pc(t), id) ==> said == [])
    && (forall t, o :: Writes(s.Pc(t), id, o) ==> said == [o])
  }

  lemma FinishedShows(j: Job, o: Outcome, now: Time)
    requires Coherent(j) && !Terminal(j)
    ensures Shows(Finished(j, o, now), o)
  {
  }

  /** Only the worker's last section ends a job. */
  lemma EndedByFinish(s: State, step: Step, id: JobId)
    requires Inv(s) && Enabled(s, step)
    requires id in Apply(s, step).heap && Terminal(Apply(s, step).heap[id]) && !(id in s.heap && Terminal(s.heap[id]))
    ensures step.Exec? && s.Pc(step.t).sec.Finish? && s.Pc(step.t).sec.id == id && id in s.heap
    ensures Apply(s, step).heap[id] == Finished(s.heap[id], s.Pc(step.t).sec.outcome, s.clock)
  {
    assert PcOk(s, s.Pc(Actor(step)));
    HeapAfter(s, step);
  }

  lemma StepKeepsJobSaid(s: State, step: Step, id: JobId, said: seq<Outcome>)
    requires Inv(s) && Enabled(s, step) && SaidOk(s, id, said)
    ensures var s2 := Apply(s, step);
            && (id !in s2.heap ==> said == [])
            && (id in s2.heap && Terminal(s2.heap[id]) ==> said != [] && Shows(s2.heap[id], said[0]))
  {
    assert PcOk(s, s.Pc(Actor(step)));
    StepKeepsJobs(s, step);
    if id in s.heap && Terminal(s.heap[id]) {
      TerminalStepAbsorbs(s, step, id);
    } else if id in Apply(s, step).heap && Terminal(Apply(s, step).heap[id]) {
      EndedByFinish(s, step, id);
      var o := s.Pc(step.t).sec.outcome;
      assert s.Pc(step.t) == In(Finish(id, o));
      assert Writes(s.Pc(step.t), id, o);
      assert said == [o];
      FinishedShows(s.heap[id], o, s.clock);
    }
  }

  /** A job's life, step by step: it is born working with its caller's pack and webhook wish, keeps those
      and its start, ends at the clock of its worker's last section, and before that only its worker's
      progress reports touch it. */
  lemma JobAfterStep(s: State, step: Step, id: JobId)
    requires Inv(s) && Enabled(s, step) && id in Apply(s, step).heap
    ensures var j := Apply(s, step).heap[id];
            if id !in s.heap then
              step.Start? && step.id == id && j == Job(step.pack, step.webhook, s.clock, Working, 0.0, "", None, None, None)
            else if j == s.heap[id] then true
            else
              var was, sec := s.heap[id], s.Pc(step.t).sec;
              && step.Exec? && Owns(s.Pc(step.t)) == Some(id) && was.state == Working
              && j.pack == was.pack && j.webhook == was.webhook && j.startedAt == was.startedAt
              && match sec
                 case Progress(_, pct, message) =>
                   && j.state == Working && j.endedAt == None && j.result == None && j.err == None && j.progress == pct
                   && j.message == if message == "" then was.message else message
                 case Finish(_, outcome) =>
                   && Shows(j, outcome) && j.endedAt == Some(s.clock) && j.message == was.message
                   && (outcome.Errored? ==> j.progress == was.progress)
                 case _ => false
  {
    assert PcOk(s, s.Pc(Actor(step)));
    HeapAfter(s, step);
    if id in s.heap { assert Coherent(s.heap[id]); }
  }

  /** How a thread comes to stand before the end of engine.Execute, or right behind it. */
  lemma ActorMoves(s: State, step: Step, id: JobId, u: Thread)
    requires Enabled(s, step) && (u == Actor(step) || (step.Spawn? && u == step.worker))
    ensures var pc, pc2 := s.Pc(Actor(step)), Apply(s, step).Pc(u);
            && (BeforeReturn(pc2, id) ==> !step.Return? && (BeforeReturn(pc, id) || (step.Start? && step.id == id)))
            && (forall o :: Writes(pc2, id, o) ==> if step.Return? then pc == Running(id) && o == step.outcome else Writes(pc, id, o))
  {
    if step.Exec? { SectionMoves(s, step.t, s.Pc(step.t).sec, id); }
  }

  lemma SectionMoves(s: State, t: Thread, sec: Section, id: JobId)
    ensures var pc2 := ExecSection(s, t, sec).Pc(t);
            && (BeforeReturn(pc2, id) ==> (sec.Put? || sec.Progress?) && sec.id == id)
            && (forall o :: !Writes(pc2, id, o))
  {
  }

  lemma StepKeepsPcSaid(s: State, step: Step, id: JobId, said: seq<Outcome>, u: Thread)
    requires Inv(s) && Enabled(s, step) && SaidOk(s, id, said)
    ensures var s2, more := Apply(s, step), said + ReturnedBy(s, step, id);
            && (BeforeReturn(s2.Pc(u), id) ==> more == [])
            && (forall o :: Writes(s2.Pc(u), id, o) ==> more == [o])
  {
    var a := Actor(step);
    assert BeforeReturn(s.Pc(u), id) ==> said == [];
    assert BeforeReturn(s.Pc(a), id) ==> said == [];
    if u != a && !(step.Spawn? && u == step.worker) {
      OthersStay(s, step, u);
      if ReturnedBy(s, step, id) != [] { assert Owns(s.Pc(a)) == Some(id) != Owns(s.Pc(u)); }
    } else {
      ActorMoves(s, step, id, u);
    }
  }

  lemma ReturnedOnce(s: State, step: Step, id: JobId, said: seq<Outcome>)
    requires SaidOk(s, id, said) && ReturnedBy(s, step, id) != []
    ensures said == []
  {
    assert BeforeReturn(s.Pc(step.t), id);
  }

  lemma StepKeepsSaid(s: State, step: Step, id: JobId, said: seq<Outcome>)
    requires Inv(s) && Enabled(s, step) && SaidOk(s, id, said)
    ensures SaidOk(Apply(s, step), id, said + ReturnedBy(s, step, id))
  {
    var s2, more := Apply(s, step), said + ReturnedBy(s, step, id);
    StepKeepsJobSaid(s, step, id, said);
    if ReturnedBy(s, step, id) != [] {
      ReturnedOnce(s, step, id, said);
      assert PcOk(s, s.Pc(step.t));
    } else {
      assert more == said;
    }
    forall u ensures BeforeReturn(s2.Pc(u), id) ==> more == []
             ensures forall o :: Writes(s2.Pc(u), id, o) ==> more == [o]
    {
      StepKeepsPcSaid(s, step, id, said, u);
    }
  }

  lemma {:induction false} RunKeepsSaid(s: State, run: seq<Step>, id: JobId, said: seq<Outcome>)
    requires Inv(s) && Valid(s, run) && SaidOk(s, id, said)
    ensures SaidOk(After(s, run), id, said + Returned(s, run, id))
    decreases |run|
  {
    if run == [] {
      assert said + [] == said;
    } else {
      var more := ReturnedBy(s, run[0], id);
      StepKeepsInv(s, run[0]);
      StepKeepsSaid(s, run[0], id, said);
      RunKeepsSaid(Apply(s, run[0]), run[1..], id, said + more);
      Associates(said, more, Returned(Apply(s, run[0]), run[1..], id));
    }
  }

  /** Over every run: engine.Execute returns at most once for a job; a job that is over, every answer that
      shows it over and every webhook about it have the result, or the error, that it returned. */
  lemma AnswersAreTheEngines(run: seq<Step>, id: JobId)
    requires Valid(Init, run)
    ensures var s, said := After(Init, run), Returned(Init, run, id);
            && |said| <= 1
            && (id in s.heap && Terminal(s.heap[id]) ==> said != [] && Shows(s.heap[id], said[0]))
            && (forall k :: 0 <= k < |s.replies| && s.replies[k].Found? && s.replies[k].id == id && Terminal(s.replies[k].job)
                  ==> said != [] && Shows(s.replies[k].job, said[0]))
            && (s.Sent(id) != [] ==> said != [] && AllDeliver(s.Sent(id), said[0]))
  {
    InitOk();
    RunKeepsInv(Init, run);
    RunKeepsSaid(Init, run, id, []);
    var s, said := After(Init, run), Returned(Init, run, id);
    assert [] + said == said;
    assert forall k :: 0 <= k < |s.replies| ==> ReplyOk(s, s.replies[k]);
    if s.Sent(id) != [] { SendsShow(s, id, said); }
  }

  lemma SendsShow(s: State, id: JobId, said: seq<Outcome>)
    requires AllSentOk(s) && SaidOk(s, id, said) && s.Sent(id) != []
    ensures said != [] && AllDeliver(s.Sent(id), said[0])
  {
    var sends := s.Sent(id);
    assert SentOk(s.heap[id], sends) && Tells(sends[0].hook, s.heap[id]);
  }

  // ---------- which lookups fail ----------

  lemma {:induction false} PrefixIsValid(s: State, run: seq<Step>, k: nat)
    requires Valid(s, run) && k <= |run|
    ensures Valid(s, run[..k])
    decreases |run|
  {
    if k > 0 {
      assert run[..k][1..] == run[1..][..k - 1];
      PrefixIsValid(Apply(s, run[0]), run[1..], k - 1);
    }
  }

  /** The step answers a lookup of id with "not found" while id is not registered. */
  predicate MissesAt(s: State, step: Step, query: Query, id: JobId) {
    step.Exec? && s.Pc(step.t).In? && s.Pc(step.t).sec.Find? && s.Pc(step.t).sec.query == query &&
    RawId(s.Pc(step.t).sec.id) == id && id !in s.registry
  }

  lemma SectionReplies(s: State, t: Thread, sec: Section)
    ensures var s2 := ExecSection(s, t, sec);
            || s2.replies == s.replies
            || (exists reply :: s2.replies == s.replies + [reply] && (reply.NotFound? ==>
                  sec == Find(reply.query, if sec.Find? then sec.id else "") && RawId(sec.id) == reply.id && reply.id !in s.registry))
  {
    var s2 := ExecSection(s, t, sec);
    if s2.replies != s.replies {
      assert s2.replies == s.replies + [s2.replies[|s.replies|]];
    }
  }

  lemma OneMoreReply(s: State, step: Step)
    requires Enabled(s, step)
    ensures var s2 := Apply(s, step);
            && s.replies <= s2.replies && |s2.replies| <= |s.replies| + 1
            && (s.replies < s2.replies && s2.replies[|s.replies|].NotFound? ==>
                  MissesAt(s, step, s2.replies[|s.replies|].query, s2.replies[|s.replies|].id))
  {
    if step.Exec? { SectionReplies(s, step.t, s.Pc(step.t).sec); } else { assert Apply(s, step).replies == s.replies; }
  }

  /** Every "not found" of a run was given to a lookup at a moment at which the id was not registered. */
  lemma {:induction false} NotFoundOnlyOfUnregistered(s: State, run: seq<Step>, i: nat) returns (k: nat)
    requires Valid(s, run) && |s.replies| <= i < |After(s, run).replies| && After(s, run).replies[i].NotFound?
    ensures k < |run| && Valid(s, run[..k])
    ensures var reply := After(s, run).replies[i]; MissesAt(After(s, run[..k]), run[k], reply.query, reply.id)
    decreases |run|
  {
    var s2, rest := Apply(s, run[0]), run[1..];
    OneMoreReply(s, run[0]);
    if i < |s2.replies| {
      RepliesStay(s2, rest);
      k := 0;
    } else {
      var j := NotFoundOnlyOfUnregistered(s2, rest, i);
      k := j + 1;
      assert run[..k][1..] == rest[..j];
    }
  }

  lemma {:induction false} RepliesStay(s: State, run: seq<Step>)
    requires Valid(s, run)
    ensures s.replies <= After(s, run).replies
    decreases |run|
  {
    if run != [] {
      OneMoreReply(s, run[0]);
      RepliesStay(Apply(s, run[0]), run[1..]);
    }
  }

  /** A lookup of a registered id goes on to read the job, and the reader's section answers with the job as
      it is, or, for the result of a completed job, goes on to drop it. */
  lemma RegisteredIsRead(s: State, t: Thread, query: Query, raw: JobId)
    requires s.Pc(t) == In(Find(query, raw)) && RawId(raw) in s.registry
    ensures var s2 := Apply(s, Exec(t)); s2.replies == s.replies && s2.Pc(t) == Want(Read(query, RawId(raw)))
  {
  }

  lemma ReadAnswersTheJob(s: State, t: Thread, query: Query, id: JobId)
    requires Inv(s) && s.Pc(t) == In(Read(query, id))
    ensures var s2 := Apply(s, Exec(t));
            if query == PackResult && s.heap[id].state == Completed
            then s2.replies == s.replies && s2.Pc(t) == Want(Drop(id, s.heap[id]))
            else s2.replies == s.replies + [Found(query, id, s.heap[id])]
  {
    assert PcOk(s, s.Pc(t));
  }

  /** After a delivery the worker tries again exactly when it should and has tries left. */
  lemma DeliveryGoesOn(s: State, t: Thread, response: Response)
    requires Inv(s) && s.Pc(t).Delivering?
    ensures var s2, id := Apply(s, Deliver(t, response)), s.Pc(t).id;
            && |s2.Sent(id)| == |s.Sent(id)| + 1 && s2.Sent(id)[|s.Sent(id)|] == Send(s.Pc(t).hook, response)
            && s2.Pc(t) == if TriedAgain(response) && |s2.Sent(id)| < 3 then s.Pc(t) else Idle
  {
    SentAfter(s, Deliver(t, response), s.Pc(t).id);
  }

  /** What a worker does after each of its sections: it is started once registered, goes back to the engine
      after a report, and at the end goes on to the webhook exactly if its caller asked for one. */
  lemma WorkerGoesOn(s: State, t: Thread)
    requires Inv(s) && s.Pc(t).In?
    ensures var pc2 := Apply(s, Exec(t)).Pc(t);
            match s.Pc(t).sec
            case Put(id) => pc2 == Spawning(id)
            case Progress(id, _, _) => pc2 == Running(id)
            case Finish(id, _) => pc2 == if s.heap[id].webhook then Want(Snapshot(id)) else Idle
            case Snapshot(id) => pc2 == Want(Body(id, s.heap[id]))
            case Body(id, _) => pc2 == Delivering(id, Hook(s.heap[id], s.heap[id].result, s.heap[id].err))
            case _ => true
  {
    assert PcOk(s, s.Pc(t));
  }

  lemma {:induction false} OneStepMore(s: State, run: seq<Step>, step: Step)
    requires Valid(s, run) && Enabled(After(s, run), step)
    ensures Valid(s, run + [step]) && After(s, run + [step]) == Apply(After(s, run), step)
    decreases |run|
  {
    if run == [] {
      assert [] + [step] == [step] && [step][1..] == [];
    } else {
      assert (run + [step])[1..] == run[1..] + [step];
      OneStepMore(Apply(s, run[0]), run[1..], step);
    }
  }

  /** A state without locks and deliveries. */
  function Scene(heap: map<JobId, Job>, registry: set<JobId>, locks: map<Lock, Thread>, first: Pc, second: Pc, replies: seq<Reply>): State {
    State(0, heap, registry, locks, map[0 := first, 1 := second], replies, map[])
  }

  lemma SceneSteps(s: State, run: seq<Step>, step: Step, s2: State)
    requires Valid(Init, run) && After(Init, run) == s && Enabled(s, step) && Apply(s, step) == s2
    ensures Valid(Init, run + [step]) && After(Init, run + [step]) == s2
  {
    OneStepMore(Init, run, step);
  }

  /** From the start: a job is registered and its worker runs. */
  lemma JobIsStarted(id: JobId) returns (run: seq<Step>)
    ensures Valid(Init, run)
    ensures After(Init, run) == Scene(map[id := NewJob("p", false, 0)], {id}, map[], Idle, Running(id), [])
  {
    var heap := map[id := NewJob("p", false, 0)];
    run := [];
    var s0 := State(0, heap, {}, map[], map[0 := Want(Put(id))], [], map[]);
    SceneSteps(Init, run, Start(0, id, "p", false), s0);
    run := run + [Start(0, id, "p", false)];
    var s1 := State(0, heap, {}, map[RegistryLock := 0], map[0 := In(Put(id))], [], map[]);
    SceneSteps(s0, run, Acquire(0), s1);
    run := run + [Acquire(0)];
    var s2 := State(0, heap, {id}, map[], map[0 := Spawning(id)], [], map[]);
    assert s1.locks - {RegistryLock} == map[];
    SceneSteps(s1, run, Exec(0), s2);
    run := run + [Exec(0)];
    SceneSteps(s2, run, Spawn(0, 1), Scene(heap, {id}, map[], Idle, Running(id), []));
    run := run + [Spawn(0, 1)];
  }

  /** The worker's engine returns. */
  lemma JobIsFinished(id: JobId, result: Payload) returns (run: seq<Step>)
    ensures Valid(Init, run)
    ensures After(Init, run) ==
            Scene(map[id := Job("p", false, 0, Completed, 100.0, "", Some(result), None, Some(0))], {id}, map[], Idle, Idle, [])
  {
    run := JobIsStarted(id);
    var heap := map[id := NewJob("p", false, 0)];
    var o := Succeeded(result);
    var s3, s4 := Scene(heap, {id}, map[], Idle, Running(id), []), Scene(heap, {id}, map[], Idle, Want(Finish(id, o)), []);
    SceneSteps(s3, run, Return(1, o), s4);
    run := run + [Return(1, o)];
    var s5 := Scene(heap, {id}, map[JobLock(id) := 1], Idle, In(Finish(id, o)), []);
    SceneSteps(s4, run, Acquire(1), s5);
    run := run + [Acquire(1)];
    var done := heap[id := Job("p", false, 0, Completed, 100.0, "", Some(result), None, Some(0))];
    assert s5.locks - {JobLock(id)} == map[];
    SceneSteps(s5, run, Exec(1), Scene(done, {id}, map[], Idle, Idle, []));
    run := run + [Exec(1)];
  }

  /** Thread 0 takes its lock and runs its section. */
  lemma SectionRuns(before: seq<Step>, s: State, sec: Section, s2: State) returns (run: seq<Step>)
    requires Valid(Init, before) && After(Init, before) == s && s.Pc(0) == Want(sec) && LockOf(sec) !in s.locks
    requires s2 == ExecSection(s.(locks := s.locks[LockOf(sec) := 0]).Go(0, In(sec)), 0, sec)
    ensures Valid(Init, run) && After(Init, run) == s2
  {
    var s1 := s.(locks := s.locks[LockOf(sec) := 0]).Go(0, In(sec));
    SceneSteps(s, before, Acquire(0), s1);
    SceneSteps(s1, before + [Acquire(0)], Exec(0), s2);
    run := before + [Acquire(0)] + [Exec(0)];
  }

  lemma LockComesAndGoes(l: Lock)
    ensures map[l := 0] - {l} == map[]
  {
  }

  /** A caller looks the job up. */
  lemma JobIsFound(before: seq<Step>, heap: map<JobId, Job>, id: JobId) returns (run: seq<Step>)
    requires Valid(Init, before) && After(Init, before) == Scene(heap, {id}, map[], Idle, Idle, [])
    requires RawId(id) == id
    ensures Valid(Init, run) && After(Init, run) == Scene(heap, {id}, map[], Want(Read(PackResult, id)), Idle, [])
  {
    var sec := Find(PackResult, id);
    var s := Scene(heap, {id}, map[], Want(sec), Idle, []);
    SceneSteps(Scene(heap, {id}, map[], Idle, Idle, []), before, Call(0, PackResult, id), s);
    LockComesAndGoes(RegistryLock);
    run := SectionRuns(before + [Call(0, PackResult, id)], s, sec, Scene(heap, {id}, map[], Want(Read(PackResult, id)), Idle, []));
  }

  /** It reads the job. */
  lemma JobIsRead(before: seq<Step>, heap: map<JobId, Job>, id: JobId) returns (run: seq<Step>)
    requires Valid(Init, before) && After(Init, before) == Scene(heap, {id}, map[], Want(Read(PackResult, id)), Idle, [])
    requires id in heap && heap[id].state == Completed
    ensures Valid(Init, run) && After(Init, run) == Scene(heap, {id}, map[], Want(Drop(id, heap[id])), Idle, [])
  {
    var s := Scene(heap, {id}, map[], Want(Read(PackResult, id)), Idle, []);
    LockComesAndGoes(JobLock(id));
    run := SectionRuns(before, s, Read(PackResult, id), Scene(heap, {id}, map[], Want(Drop(id, heap[id])), Idle, []));
  }

  /** And drops it. */
  lemma JobIsDropped(before: seq<Step>, heap: map<JobId, Job>, id: JobId, j: Job) returns (run: seq<Step>)
    requires Valid(Init, before) && After(Init, before) == Scene(heap, {id}, map[], Want(Drop(id, j)), Idle, [])
    ensures Valid(Init, run) && After(Init, run) == Scene(heap, {}, map[], Idle, Idle, [Found(PackResult, id, j)])
  {
    var s := Scene(heap, {id}, map[], Want(Drop(id, j)), Idle, []);
    LockComesAndGoes(RegistryLock);
    run := SectionRuns(before, s, Drop(id, j), Scene(heap, {}, map[], Idle, Idle, [Found(PackResult, id, j)]));
  }

  /** There is a run in which a job is started, finishes, and its result is fetched and dropped. */
  lemma ResultIsFetched(id: JobId, result: Payload) returns (run: seq<Step>)
    requires Hex(id) && id != ""
    ensures Valid(Init, run)
    ensures var s := After(Init, run);
            && s.registry == {}
            && s.replies == [Found(PackResult, id, Job("p", false, 0, Completed, 100.0, "", Some(result), None, Some(0)))]
  {
    var j := Job("p", false, 0, Completed, 100.0, "", Some(result), None, Some(0));
    run := JobIsFinished(id, result);
    TaskIdResolves(id);
    run := JobIsFound(run, map[id := j], id);
    run := JobIsRead(run, map[id := j], id);
    run := JobIsDropped(run, map[id := j], id, j);
  }

  // ---------- sweeping ----------

  predicate InSweep(pc: Pc, now: Time, start: set<JobId>) {
    (pc.Sweeping? || pc.SweepWant? || pc.SweepIn?) && pc.now == now && pc.start == start
  }

  lemma {:induction false} SweepVerdictsStay(
      s: State, run: seq<Step>, t: Thread, now: Time, start: set<JobId>, id: JobId)
    requires Inv(s) && Valid(s, run) && InSweep(s.Pc(t), now, start) && id in start
    requires forall k :: 0 <= k < |run| ==> run[k] != SweepEnd(t)
    ensures InSweep(After(s, run).Pc(t), now, start)
    ensures id in s.heap && id in After(s, run).heap
    ensures Expired(After(s, run).heap[id], now) == Expired(s.heap[id], now)
    decreases |run|
  {
    assert PcOk(s, s.Pc(t));
    if run != [] {
      assert run[0] != SweepEnd(t);
      var s2 := Apply(s, run[0]);
      ExpiryStays(s, run[0], id, now);
      StepKeepsInv(s, run[0]);
      if t != Actor(run[0]) { OthersStay(s, run[0], t); }
      SweepVerdictsStay(s2, run[1..], t, now, start, id);
    }
  }

  /** A sweep of any length, with workers finishing and readers reading all the while, removes exactly the
      jobs that had ended more than the TTL before it when it took the registry, and no working one. */
  lemma SweepRemovesExactlyTheExpired(s: State, run: seq<Step>, t: Thread, now: Time)
    requires Inv(s) && Valid(s, run)
    requires s.Pc(t) == Sweeping(now, s.registry, s.registry)
    requires forall k :: 0 <= k < |run| ==> run[k] != SweepEnd(t)
    requires Enabled(After(s, run), SweepEnd(t))
    ensures After(s, run).registry == set id | id in s.registry && !Expired(s.heap[id], now)
    ensures After(s, run).registry == set id | id in s.registry && LessThanAnHour(s.heap[id].endedAt, now)
    ensures forall id :: id in s.registry && s.heap[id].state.Working? ==> id in After(s, run).registry
  {
    RunKeepsInv(s, run);
    var s2 := After(s, run);
    assert PcOk(s2, s2.Pc(t));
    forall id | id in s.registry
      ensures s2.Pc(t).now == now && s2.Pc(t).start == s.registry
      ensures Expired(s2.heap[id], now) == Expired(s.heap[id], now)
    {
      SweepVerdictsStay(s, run, t, now, s.registry, id);
    }
    if s.registry == {} { EmptySweep(s, run, t, now); }
    assert s2.registry == set id | id in s.registry && !Expired(s.heap[id], now);
  }

  lemma {:induction false} EmptySweep(s: State, run: seq<Step>, t: Thread, now: Time)
    requires Inv(s) && Valid(s, run) && InSweep(s.Pc(t), now, {})
    requires forall k :: 0 <= k < |run| ==> run[k] != SweepEnd(t)
    ensures InSweep(After(s, run).Pc(t), now, {})
    decreases |run|
  {
    if run != [] {
      assert run[0] != SweepEnd(t);
      StepKeepsInv(s, run[0]);
      if t != Actor(run[0]) { OthersStay(s, run[0], t); }
      EmptySweep(Apply(s, run[0]), run[1..], t, now);
    }
  }

  // ---------- a job that is over leaves for good ----------

  /** Once a terminal job has left the registry, by a sweep or by its first retrieval, no later lookup
      finds it. */
  lemma {:induction false} GoneStaysGone(s: State, run: seq<Step>, id: JobId)
    requires Inv(s) && Valid(s, run)
    requires id in s.heap && Terminal(s.heap[id]) && id !in s.registry
    ensures id !in After(s, run).registry
    decreases |run|
  {
    if run != [] {
      assert PcOk(s, s.Pc(Actor(run[0])));
      RegistryAfter(s, run[0]);
      TerminalStepAbsorbs(s, run[0], id);
      StepKeepsInv(s, run[0]);
      StepKeepsJobs(s, run[0]);
      GoneStaysGone(Apply(s, run[0]), run[1..], id);
    }
  }

  /** pack.result answers a completed job by the step that removes it. */
  lemma CompletedResultDrops(s: State, t: Thread, id: JobId, snap: Job)
    requires Inv(s) && s.Pc(t) == In(Drop(id, snap))
    ensures var s2 := Apply(s, Exec(t));
            && s2.replies == s.replies + [Found(PackResult, id, s.heap[id])]
            && s2.heap[id].state.Completed? && id !in s2.registry
  {
    assert PcOk(s, s.Pc(t));
  }

  // ---------- deadlock freedom ----------

  ghost predicate CanStep(s: State, t: Thread) {
    exists step :: Actor(step) == t && !step.Tick? && Enabled(s, step)
  }

  /** The one thread that keeps t from taking the mutex it wants. */
  ghost predicate WaitsFor(s: State, t: Thread, u: Thread) {
    Wants(s.Pc(t)).Some? && Wants(s.Pc(t)).value in s.locks && s.locks[Wants(s.Pc(t)).value] == u
  }

  lemma FreeThreadCanStep(s: State, t: Thread)
    requires forall u :: !WaitsFor(s, t, u)
    requires s.Pc(t).Spawning? ==> exists w :: s.Pc(w).Idle?
    ensures CanStep(s, t)
  {
    match s.Pc(t)
    case Idle => assert Enabled(s, BeginSweep(t)) && Actor(BeginSweep(t)) == t;
    case Want(sec) =>
      assert !WaitsFor(s, t, if LockOf(sec) in s.locks then s.locks[LockOf(sec)] else 0);
      assert Enabled(s, Acquire(t)) && Actor(Acquire(t)) == t;
    case In(sec) => assert Enabled(s, Exec(t)) && Actor(Exec(t)) == t;
    case Spawning(id) =>
      var w :| s.Pc(w).Idle?;
      assert Enabled(s, Spawn(t, w)) && Actor(Spawn(t, w)) == t;
    case Running(id) => assert Enabled(s, Report(t, 0.0, "")) && Actor(Report(t, 0.0, "")) == t;
    case Delivering(id, hook) => assert Enabled(s, Deliver(t, NetworkError)) && Actor(Deliver(t, NetworkError)) == t;
    case Sweeping(now, todo, start) =>
      if k :| k in todo {
        assert Enabled(s, SweepPick(t, k)) && Actor(SweepPick(t, k)) == t;
      } else {
        assert Enabled(s, SweepEnd(t)) && Actor(SweepEnd(t)) == t;
      }
    case SweepWant(now, todo, start, k) =>
      assert !WaitsFor(s, t, if JobLock(k) in s.locks then s.locks[JobLock(k)] else 0);
      assert Enabled(s, Acquire(t)) && Actor(Acquire(t)) == t;
    case SweepIn(now, todo, start, k) => assert Enabled(s, SweepTest(t)) && Actor(SweepTest(t)) == t;
  }

  lemma SomeThreadIsIdle(s: State)
    ensures exists w: Thread :: s.Pc(w).Idle?
  {
    var w: Thread := FreshThread(s.pcs.Keys);
    assert s.Pc(w).Idle?;
  }

  lemma {:induction false} FreshThread(used: set<Thread>) returns (w: Thread)
    ensures forall u: Thread :: u >= w ==> u !in used
    decreases |used|
  {
    if used == {} {
      w := 0;
    } else {
      var u :| u in used;
      var v := FreshThread(used - {u});
      w := if u < v then v else u + 1;
      forall x: Thread | x >= w ensures x !in used { assert x !in used - {u}; }
    }
  }

  /** Registry before job: a thread that waits for a job's mutex waits for one that can move; one that
      waits for the registry waits for one that can move or waits for such a job holder. Hence no
      deadlock: following at most two waits always reaches a thread that can take a step. */
  lemma NoDeadlock(s: State, t: Thread)
    requires Inv(s)
    ensures || CanStep(s, t)
            || (exists u :: WaitsFor(s, t, u) && CanStep(s, u))
            || (exists u, v :: WaitsFor(s, t, u) && WaitsFor(s, u, v) && CanStep(s, v))
  {
    SomeThreadIsIdle(s);
    if u :| WaitsFor(s, t, u) {
      HolderHolds(s, t, u);
      if v :| WaitsFor(s, u, v) {
        HolderHolds(s, u, v);
        if w :| WaitsFor(s, v, w) { HolderHolds(s, v, w); }
        FreeThreadCanStep(s, v);
      } else {
        FreeThreadCanStep(s, u);
      }
    } else {
      FreeThreadCanStep(s, t);
    }
  }

  lemma HolderHolds(s: State, t: Thread, u: Thread)
    requires Inv(s) && WaitsFor(s, t, u)
    ensures Wants(s.Pc(t)).value in Holds(s.Pc(u))
    ensures Wants(s.Pc(u)).Some? ==> Wants(s.Pc(t)) == Some(RegistryLock) && s.Pc(u).SweepWant?
  {
  }
}
