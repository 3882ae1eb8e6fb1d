/** The asynchronous job registry of internal/mcp/jobs.go and the webhook delivery of
    internal/mcp/webhook.go, as one job's life and as a protocol between threads that take the registry
    mutex and the job mutexes one step at a time. */
module Jobs {
  import opened Text

  type JobId = string
  type Payload = string
  type Time = int      // nanoseconds

  const JOB_TTL: Time := 3_600_000_000_000
  const MAX_DELIVERIES: nat := 3

  datatype JobState = Working | Completed | Failed | Cancelled

  datatype Outcome = Succeeded(result: Payload) | Errored(error: Payload)

  datatype Job = Job(
    pack: string, webhook: bool, startedAt: Time,
    state: JobState, progress: real, message: string,
    result: Option<Payload>, err: Option<Payload>, endedAt: Option<Time>)

  function NewJob(pack: string, webhook: bool, now: Time): Job {
    Job(pack, webhook, now, Working, 0.0, "", None, None, None)
  }

  function Reported(j: Job, pct: real, message: string): Job {
    j.(progress := pct, message := if message != "" then message else j.message)
  }

  function Finished(j: Job, o: Outcome, now: Time): Job {
    match o
    case Errored(e) => j.(endedAt := Some(now), state := Failed, err := Some(e))
    case Succeeded(r) => j.(endedAt := Some(now), state := Completed, result := Some(r), progress := 100.0)
  }

  predicate Terminal(j: Job) {
    !j.state.Working?
  }

  predicate Expired(j: Job, now: Time) {
    j.endedAt.Some? && now - j.endedAt.value > JOB_TTL
  }

  /** Not over, or over for at most an hour. */
  predicate LessThanAnHour(endedAt: Option<Time>, now: Time) {
    match endedAt case None => true case Some(t) => now - t <= 3600 * 1_000_000_000
  }

  /** What a reader may rely on: an end time exactly when the job is over, a result exactly when it
      completed, an error exactly when it failed. */
  predicate Coherent(j: Job) {
    && (j.endedAt.Some? <==> Terminal(j))
    && (j.result.Some? <==> j.state.Completed?)
    && (j.err.Some? <==> j.state.Failed?)
    && !j.state.Cancelled?
  }

  datatype Response = NetworkError | Status(code: int)

  /** fireWebhook stops on 2xx and on 4xx. */
  predicate Final(r: Response) {
    r.Status? && (200 <= r.code < 300 || 400 <= r.code < 500)
  }

  /** A network error or any status but 2xx and 4xx is tried again. */
  predicate TriedAgain(r: Response) {
    match r case NetworkError => true case Status(code) => code < 200 || 300 <= code < 400 || code >= 500
  }

  /** The number of POSTs fireWebhook makes against a receiver that would answer these responses: one
      per back-off slot, up to and including the first final answer. */
  function Deliveries(responses: seq<Response>): nat {
    if responses == [] then 0
    else if Final(responses[0]) then 1
    else 1 + Deliveries(responses[1..])
  }

  // ---------- the objects ----------

  class AsyncJob {
    var job: Job

    constructor (pack: string, webhook: bool, now: Time)
      ensures job == NewJob(pack, webhook, now)
      ensures job.pack == pack && job.webhook == webhook && job.startedAt == now && job.state == Working
      ensures job.progress == 0.0 && job.message == "" && job.result == None && job.err == None && job.endedAt == None
    {
      job := Job(pack, webhook, now, Working, 0.0, "", None, None, None);
    }

    method ReportProgress(pct: real, message: string)
      modifies this
      ensures job == Reported(old(job), pct, message)
      ensures job.progress == pct
      ensures message != "" ==> job.message == message
      ensures message == "" ==> job.message == old(job.message)
      ensures job.state == old(job.state) && job.result == old(job.result) && job.err == old(job.err)
      ensures job.endedAt == old(job.endedAt) && job.startedAt == old(job.startedAt)
      ensures job.pack == old(job.pack) && job.webhook == old(job.webhook)
    {
      job := job.(progress := pct);
      if message != "" {
        job := job.(message := message);
      }
    }

    method Finish(o: Outcome, now: Time)
      requires Coherent(job) && !Terminal(job)
      modifies this
      ensures job == Finished(old(job), o, now) && Coherent(job) && Terminal(job)
      ensures job.endedAt == Some(now)
      ensures match o
              case Succeeded(r) => job.state == Completed && job.result == Some(r) && job.err == None && job.progress == 100.0
              case Errored(e) =>
                job.state == Failed && job.err == Some(e) && job.result == None && job.progress == old(job.progress)
      ensures job.pack == old(job.pack) && job.webhook == old(job.webhook) && job.startedAt == old(job.startedAt)
      ensures job.message == old(job.message)
    {
      job := job.(endedAt := Some(now));
      match o
      case Errored(e) => job := job.(state := Failed, err := Some(e));
      case Succeeded(r) => job := job.(state := Completed, result := Some(r), progress := 100.0);
    }
  }

  class JobRegistry {
    var jobs: map<JobId, AsyncJob>

    constructor ()
      ensures jobs == map[]
    {
      jobs := map[];
    }

    method Put(id: JobId, j: AsyncJob)
      modifies this
      ensures jobs == old(jobs)[id := j]
    {
      jobs := jobs[id := j];
    }

    method Drop(id: JobId)
      modifies this
      ensures jobs == old(jobs) - {id}
    {
      jobs := jobs - {id};
    }

    /** Walks the registry in any order and keeps exactly the entries that are not expired. */
    method Sweep(now: Time)
      modifies this
      ensures jobs == map id | id in old(jobs) && !Expired(old(jobs)[id].job, now) :: old(jobs)[id]
      ensures forall id :: id in old(jobs) ==>
                (id in jobs <==> LessThanAnHour(old(jobs)[id].job.endedAt, now))
    {
      var todo := jobs.Keys;
      while todo != {}
        invariant todo <= old(jobs).Keys
        invariant jobs ==
                  map id | id in old(jobs) && (id in todo || !Expired(old(jobs)[id].job, now)) :: old(jobs)[id]
        decreases |todo|
      {
        var id :| id in todo;
        var expired := Expired(jobs[id].job, now);
        if expired {
          jobs := jobs - {id};
        }
        todo := todo - {id};
      }
    }

    /** pack.result: a completed job leaves the registry with its first retrieval. */
    method Result(id: JobId) returns (j: Option<Job>)
      modifies this
      ensures j == if id in old(jobs) then Some(old(jobs)[id].job) else None
      ensures jobs == if j.Some? && j.value.state.Completed? then old(jobs) - {id} else old(jobs)
    {
      if id !in jobs {
        return None;
      }
      j := Some(jobs[id].job);
      if jobs[id].job.state.Completed? {
        Drop(id);
      }
    }
  }

  /** fireWebhook's delivery loop; `responses` is what the receiver would answer to each attempt. */
  method FireWebhook(responses: seq<Response>) returns (sent: nat)
    requires |responses| == MAX_DELIVERIES
    ensures sent == Deliveries(responses)
    ensures 1 <= sent <= MAX_DELIVERIES
    ensures forall k :: 0 <= k < sent - 1 ==> !Final(responses[k])
    ensures sent < MAX_DELIVERIES ==> Final(responses[sent - 1])
    ensures 1 <= sent <= 3
    ensures forall k :: 0 <= k < sent - 1 ==> TriedAgain(responses[k])
    ensures sent == 3 || !TriedAgain(responses[sent - 1])
  {
    sent := 0;
    for attempt := 0 to MAX_DELIVERIES
      invariant sent == attempt
      invariant forall k :: 0 <= k < attempt ==> !Final(responses[k])
      invariant Deliveries(responses) == attempt + Deliveries(responses[attempt..])
    {
      sent := sent + 1;
      var response := responses[attempt];
      if response.Status? && response.code >= 200 && response.code < 300 { return; }
      if response.Status? && response.code >= 400 && response.code < 500 { return; }
    }
  }

  // ---------- job references ----------

  const TASK_PREFIX := "pack_"

  function TaskId(id: JobId): string {
    TASK_PREFIX + id
  }

  /** lookupJobByID's stripping of the task prefix. */
  function RawId(id: string): JobId {
    if |id| > 5 && id[..5] == TASK_PREFIX then id[5..] else id
  }

  predicate Hex(id: string) {
    forall i :: 0 <= i < |id| ==> '0' <= id[i] <= '9' || 'a' <= id[i] <= 'f'
  }

  /** Both spellings of a job's identity reach the job; the prefix comes off whatever follows it, and
      nothing else does. */
  lemma TaskIdResolves(id: JobId)
    requires id != "" && Hex(id)
    ensures RawId(TaskId(id)) == id && RawId(id) == id && RawId("pack_" + id) == id
    ensures forall other :: !("pack_" < other) ==> RawId(other) == other
  {
    assert ("pack_" + id)[5..] == id;
    assert TaskId(id)[..5] == TASK_PREFIX && TaskId(id)[5..] == id;
    assert TASK_PREFIX[0] == 'p' && (|id| > 5 ==> id[..5][0] == id[0]);
  }
}
