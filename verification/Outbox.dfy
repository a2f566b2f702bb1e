/** The extraction outbox and its workers (src/extraction_worker.rs).

    Jobs live in one table; any number of workers claim due jobs in batches, run them one by one
    and record the result.  Time is in nanoseconds, on one clock. */
module Outbox {
  import opened Common

  const NANOS_PER_SECOND: int := 1_000_000_000
  const INT4_MAX: nat := 0x7FFF_FFFF
  const U64_MAX: nat := 0xFFFF_FFFF_FFFF_FFFF
  const I64_MAX: nat := 0x7FFF_FFFF_FFFF_FFFF

  type JobId = nat
  type WorkerId = nat

  datatype Status = Pending | InProgress | Done | Failed

  datatype Job = Job(payload: string, status: Status, attempts: nat, nextAttemptAt: int, lastError: Option<string>)

  type Jobs = map<JobId, Job>

  /** The copy of a claimed row that a worker carries: its id and attempt number. */
  datatype Claimed = Claimed(id: JobId, attempts: nat)

  datatype Config = Config(maxAttempts: nat, backoffBase: nat) {
    predicate Valid() {
      backoffBase <= U64_MAX
    }

    /** The most times one job can run. */
    function RunLimit(): nat {
      if maxAttempts == 0 then 1 else maxAttempts
    }
  }

  // ---- Backoff -------------------------------------------------------------------------

  function Pow2(n: nat): nat {
    if n == 0 then 1 else 2 * Pow2(n - 1)
  }

  /** Saturating `base * 2^(attempts - 1)`, the exponent capped at 30. */
  function BackoffSeconds(attempts: nat, base: nat): nat
    requires attempts >= 1
  {
    var exponent := Min(attempts - 1, 30);
    Min(Min(base * Pow2(exponent), U64_MAX), I64_MAX)
  }

  lemma {:induction false} Pow2Grows(m: nat, n: nat)
    requires m <= n
    ensures 1 <= Pow2(m) <= Pow2(n)
  {
    if m == n {
      if m > 0 { Pow2Grows(m - 1, m - 1); }
    } else {
      Pow2Grows(m, n - 1);
    }
  }

  /** The first wait is the configured base; waiting never gets shorter, and doubles with each attempt
      until it saturates, from the thirty-first on at 2^30 times the base. */
  lemma BackoffDoubles(attempts: nat, base: nat)
    requires attempts >= 1
    ensures BackoffSeconds(1, base) == Min(base, 0x7FFF_FFFF_FFFF_FFFF)
    ensures attempts >= 31 ==> BackoffSeconds(attempts, base) == Min(base * 0x4000_0000, 0x7FFF_FFFF_FFFF_FFFF)
    ensures BackoffSeconds(attempts, base) <= BackoffSeconds(attempts + 1, base) <= I64_MAX
    ensures attempts <= 30 ==>
      BackoffSeconds(attempts + 1, base) == Min(2 * BackoffSeconds(attempts, base), I64_MAX)
  {
    Pow2Grows(Min(attempts - 1, 30), Min(attempts, 30));
    var a, b := Pow2(Min(attempts - 1, 30)), Pow2(Min(attempts, 30));
    assert attempts <= 30 ==> b == 2 * a;
    assert Pow2(0) == 1;
    assert Pow2(30) == 0x4000_0000 by { Pow2Thirty(); }
    hide Pow2;
    Scaled(base, a, b);
  }

  lemma Pow2Thirty()
    ensures Pow2(30) == 0x4000_0000
  {
    assert Pow2(10) == 1024;
    assert Pow2(20) == 1024 * Pow2(10);
    assert Pow2(30) == 1024 * Pow2(20);
  }

  /** In closed form. */
  lemma BackoffIs(attempts: nat, base: nat)
    requires attempts >= 1
    ensures BackoffSeconds(attempts, base) == Min(base * Pow2(Min(attempts - 1, 30)), 0x7FFF_FFFF_FFFF_FFFF)
  {
  }

  lemma Scaled(base: nat, a: nat, b: nat)
    requires a <= b
    ensures base * a <= base * b && (b == 2 * a ==> base * b == 2 * (base * a))
  {
  }

  // ---- Claiming ------------------------------------------------------------------------

  function Due(jobs: Jobs, now: int, skipped: set<JobId>): set<JobId> {
    set id | id in jobs && jobs[id].status == Pending && jobs[id].nextAttemptAt <= now && id !in skipped
  }

  /** What `ORDER BY next_attempt_at LIMIT limit FOR UPDATE SKIP LOCKED` may return when the rows
      in `skipped` are locked by others: ties are broken either way. */
  ghost predicate Picks(jobs: Jobs, now: int, skipped: set<JobId>, limit: nat, batch: seq<JobId>) {
    var due := Due(jobs, now, skipped);
    && Distinct(batch)
    && (forall id :: id in batch ==> id in due)
    && |batch| == Min(limit, |due|)
    && (forall p, q :: p in batch && q in due && q !in batch ==> jobs[p].nextAttemptAt <= jobs[q].nextAttemptAt)
  }

  /** A job that could be claimed. */
  predicate IsDue(jobs: Jobs, now: int, skipped: set<JobId>, id: JobId) {
    id in jobs && jobs[id].status == Pending && jobs[id].nextAttemptAt <= now && id !in skipped
  }

  /** A pick in terms of each job: all are due, and a due job is passed over only for as many as fit,
      none due later. */
  ghost predicate PicksEach(jobs: Jobs, now: int, skipped: set<JobId>, limit: nat, batch: seq<JobId>) {
    && Distinct(batch) && |batch| <= limit
    && (forall p :: p in batch ==> IsDue(jobs, now, skipped, p))
    && (forall q :: IsDue(jobs, now, skipped, q) && q !in batch ==>
          |batch| == limit && forall p :: p in batch ==> jobs[p].nextAttemptAt <= jobs[q].nextAttemptAt)
  }

  /** As many as fit are picked exactly if there are no more, or none is left. */
  lemma PickedCount(batch: seq<JobId>, due: set<JobId>)
    requires Distinct(batch) && forall p :: p in batch ==> p in due
    ensures |batch| <= |due| && (|batch| == |due| <==> forall q :: q in due ==> q in batch)
  {
    var picked := set p | p in batch;
    DistinctCount(batch);
    SubsetSize(picked, due);
    assert due == picked + (due - picked);
    if q :| q in due && q !in batch {
      assert q in due - picked;
    } else {
      assert due == picked;
    }
  }

  lemma PicksIff(jobs: Jobs, now: int, skipped: set<JobId>, limit: nat, batch: seq<JobId>)
    ensures Picks(jobs, now, skipped, limit, batch) <==> PicksEach(jobs, now, skipped, limit, batch)
  {
    var due := Due(jobs, now, skipped);
    assert forall q :: IsDue(jobs, now, skipped, q) <==> q in due;
    hide Due, IsDue;
    if Distinct(batch) && forall p :: p in batch ==> p in due {
      PickedCount(batch, due);
      hide Distinct;
    }
  }

  function Claim(jobs: Jobs, batch: seq<JobId>): Jobs {
    map id | id in jobs ::
      if id in batch then jobs[id].(status := InProgress, attempts := jobs[id].attempts + 1) else jobs[id]
  }

  function Carried(jobs: Jobs, batch: seq<JobId>): (r: seq<Claimed>)
    requires forall id :: id in batch ==> id in jobs
    ensures |r| == |batch|
    ensures forall i :: 0 <= i < |batch| ==> r[i] == Claimed(batch[i], jobs[batch[i]].attempts + 1)
  {
    if batch == [] then []
    else [Claimed(batch[0], jobs[batch[0]].attempts + 1)] + Carried(jobs, batch[1..])
  }

  // ---- Finishing -----------------------------------------------------------------------

  /** The row after `finish_job`; `error` is absent when the run succeeded. */
  function Finished(cfg: Config, job: Job, attempts: nat, error: Option<string>, now: int): Job
    requires attempts >= 1
  {
    match error
    case None => job.(status := Done, lastError := None)
    case Some(_) =>
      if attempts < cfg.maxAttempts
      then job.(status := Pending, lastError := error,
                nextAttemptAt := now + BackoffSeconds(attempts, cfg.backoffBase) * NANOS_PER_SECOND)
      else job.(status := Failed, lastError := error)
  }

  /** The nanoseconds to wait after the failure of run `k`: the base in seconds, doubled for each run
      before, thirty times at most. */
  function RetryDelay(base: nat, k: nat): int
    requires k >= 1
  {
    Min(base * Pow2(Min(k - 1, 30)), 0x7FFF_FFFF_FFFF_FFFF) * 1_000_000_000
  }

  /** Success ends a job; a failure is tried again after a delay, or ends it at the last attempt.  The
      error is kept, and nothing else changes. */
  ghost predicate IsRecorded(cfg: Config, was: Job, job: Job, attempts: nat, error: Option<string>, now: int)
    requires attempts >= 1
  {
    && job.payload == was.payload && job.attempts == was.attempts && job.lastError == error
    && (error.None? ==> job.status == Done)
    && (error.Some? && attempts < cfg.maxAttempts ==>
          job.status == Pending && job.nextAttemptAt == now + RetryDelay(cfg.backoffBase, attempts))
    && (error.Some? && attempts >= cfg.maxAttempts ==> job.status == Failed)
    && (job.status != Pending ==> job.nextAttemptAt == was.nextAttemptAt)
  }

  lemma FinishedIs(cfg: Config, job: Job, attempts: nat, error: Option<string>, now: int)
    requires attempts >= 1
    ensures IsRecorded(cfg, job, Finished(cfg, job, attempts, error, now), attempts, error, now)
  {
    BackoffIs(attempts, cfg.backoffBase);
    hide BackoffSeconds, Pow2, Min;
  }

  function Finish(cfg: Config, jobs: Jobs, held: Claimed, error: Option<string>, now: int): Jobs
    requires held.attempts >= 1
  {
    if held.id in jobs
    then jobs[held.id := Finished(cfg, jobs[held.id], held.attempts, error, now)]
    else jobs
  }

  // ---- The imperative worker -----------------------------------------------------------

  /** How one run ended, when, and whether the row could be updated afterwards. */
  datatype Outcome = Outcome(error: Option<string>, now: int, written: bool)

  /** The table after recording the runs of `held`, in order. */
  function Recorded(cfg: Config, jobs: Jobs, held: seq<Claimed>, outcomes: seq<Outcome>): Jobs
    requires |outcomes| == |held| && forall c :: c in held ==> c.attempts >= 1
  {
    if held == [] then jobs else
      var n := |held| - 1;
      var before := Recorded(cfg, jobs, held[..n], outcomes[..n]);
      if outcomes[n].written then Finish(cfg, before, held[n], outcomes[n].error, outcomes[n].now) else before
  }

  class Table {
    var jobs: Jobs

    method MarkDone(id: JobId)
      modifies this
      ensures jobs == if id in old(jobs)
                      then old(jobs)[id := old(jobs)[id].(status := Done, lastError := None)]
                      else old(jobs)
    {
      if id in jobs { jobs := jobs[id := jobs[id].(status := Done, lastError := None)]; }
    }

    method MarkRetry(id: JobId, nextAttemptAt: int, lastError: string)
      modifies this
      ensures jobs == if id in old(jobs)
                      then old(jobs)[id := old(jobs)[id].(status := Pending, nextAttemptAt := nextAttemptAt,
                                                                  lastError := Some(lastError))]
                      else old(jobs)
    {
      if id in jobs {
        jobs := jobs[id := jobs[id].(status := Pending, nextAttemptAt := nextAttemptAt, lastError := Some(lastError))];
      }
    }

    method MarkFailed(id: JobId, lastError: string)
      modifies this
      ensures jobs == if id in old(jobs)
                      then old(jobs)[id := old(jobs)[id].(status := Failed, lastError := Some(lastError))]
                      else old(jobs)
    {
      if id in jobs { jobs := jobs[id := jobs[id].(status := Failed, lastError := Some(lastError))]; }
    }

    method FinishJob(cfg: Config, held: Claimed, error: Option<string>, now: int)
      requires held.attempts >= 1
      modifies this
      ensures jobs == Finish(cfg, old(jobs), held, error, now)
      ensures jobs.Keys == old(jobs).Keys && forall k :: k in jobs && k != held.id ==> jobs[k] == old(jobs)[k]
      ensures held.id in jobs ==>
        IsRecorded(cfg, old(jobs)[held.id], jobs[held.id], held.attempts, error, now)
    {
      if held.id in jobs { FinishedIs(cfg, jobs[held.id], held.attempts, error, now); }
      hide Pow2, IsRecorded, BackoffSeconds;
      match error {
        case None => MarkDone(held.id);
        case Some(lastError) =>
          if held.attempts < cfg.maxAttempts {
            var seconds := BackoffSeconds(held.attempts, cfg.backoffBase);
            MarkRetry(held.id, now + seconds * NANOS_PER_SECOND, lastError);
          } else {
            MarkFailed(held.id, lastError);
          }
      }
    }

    /** Repeatedly takes a due job with the least `nextAttemptAt`. */
    method SelectDue(limit: nat, now: int, skipped: set<JobId>) returns (batch: seq<JobId>)
      ensures Picks(jobs, now, skipped, limit, batch)
      ensures PicksEach(jobs, now, skipped, limit, batch)
    {
      batch := [];
      ghost var due := Due(jobs, now, skipped);
      var rest := Due(jobs, now, skipped);
      while |batch| < limit && rest != {}
        invariant rest <= due && |batch| <= limit && |batch| + |rest| == |due|
        invariant Distinct(batch)
        invariant forall id :: id in due <==> id in rest || id in batch
        invariant forall id :: id in batch ==> id !in rest
        invariant forall p, q :: p in batch && q in rest ==> jobs[p].nextAttemptAt <= jobs[q].nextAttemptAt
        decreases rest
      {
        var id := Earliest(rest);
        batch := batch + [id];
        rest := rest - {id};
      }
      PicksIff(jobs, now, skipped, limit, batch);
    }

    method Earliest(ids: set<JobId>) returns (id: JobId)
      requires ids != {} && forall k :: k in ids ==> k in jobs
      ensures id in ids
      ensures forall k :: k in ids ==> jobs[id].nextAttemptAt <= jobs[k].nextAttemptAt
    {
      id :| id in ids;
      var rest := ids - {id};
      while rest != {}
        invariant id in ids && rest <= ids
        invariant forall k :: k in ids ==> k in rest || jobs[id].nextAttemptAt <= jobs[k].nextAttemptAt
        decreases rest
      {
        var k :| k in rest;
        if jobs[k].nextAttemptAt < jobs[id].nextAttemptAt { id := k; }
        rest := rest - {k};
      }
    }

    /** `None` when the statement fails because a counter would leave the INT column's range. */
    method ClaimDueJobs(limit: nat, now: int, skipped: set<JobId>)
      returns (held: Option<seq<Claimed>>, ghost batch: seq<JobId>)
      modifies this
      ensures Picks(old(jobs), now, skipped, limit, batch)
      ensures held == if forall id :: id in batch ==> old(jobs)[id].attempts < INT4_MAX
                      then Some(Carried(old(jobs), batch)) else None
      ensures jobs == if held.Some? then Claim(old(jobs), batch) else old(jobs)
      ensures held.Some? ==> jobs.Keys == old(jobs).Keys && forall k :: k in jobs ==>
        jobs[k] == if k in batch then old(jobs)[k].(status := InProgress, attempts := old(jobs)[k].attempts + 1)
                   else old(jobs)[k]
    {
      var ids := SelectDue(limit, now, skipped);
      batch := ids;
      if forall id :: id in ids ==> jobs[id].attempts < INT4_MAX {
        held := Some(Carried(jobs, ids));
        jobs := Claim(jobs, ids);
      } else {
        held := None;
      }
    }

    /** One poll: claim a batch, run its jobs in order, record each result that can be recorded. */
    method DrainDueJobs(cfg: Config, limit: nat, now: int, skipped: set<JobId>, run: (nat, Claimed) -> Outcome)
        returns (processed: Option<nat>, ghost batch: seq<JobId>, ghost outcomes: seq<Outcome>)
      modifies this
      ensures Picks(old(jobs), now, skipped, limit, batch)
      ensures processed.None? ==> jobs == old(jobs)
      ensures processed.Some? ==>
        var held := Carried(old(jobs), batch);
        && processed.value == |held| == |outcomes|
        && (forall i :: 0 <= i < |held| ==> outcomes[i] == run(i, held[i]))
        && jobs == Recorded(cfg, Claim(old(jobs), batch), held, outcomes)
    {
      var claimed;
      outcomes := [];
      claimed, batch := ClaimDueJobs(limit, now, skipped);
      match claimed {
        case None => processed := None;
        case Some(held) =>
          outcomes := RunAll(cfg, held, run);
          processed := Some(|held|);
      }
    }

    method RunAll(cfg: Config, held: seq<Claimed>, run: (nat, Claimed) -> Outcome)
      returns (ghost outcomes: seq<Outcome>)
      requires forall c :: c in held ==> c.attempts >= 1
      modifies this
      ensures |outcomes| == |held| && forall i :: 0 <= i < |held| ==> outcomes[i] == run(i, held[i])
      ensures jobs == Recorded(cfg, old(jobs), held, outcomes)
    {
      outcomes := [];
      for i := 0 to |held|
        invariant |outcomes| == i
        invariant forall j :: 0 <= j < i ==> outcomes[j] == run(j, held[j])
        invariant jobs == Recorded(cfg, old(jobs), held[..i], outcomes)
      {
        var o := run(i, held[i]);
        assert held[..i + 1][..i] == held[..i] && (outcomes + [o])[..i] == outcomes;
        if o.written { FinishJob(cfg, held[i], o.error, o.now); }
        outcomes := outcomes + [o];
      }
      assert held[..|held|] == held;
    }
  }

  // ---- Many workers --------------------------------------------------------------------

  /** `lost` records the jobs whose worker stopped, or whose result could not be written. */
  datatype State = State(jobs: Jobs, hands: map<WorkerId, seq<Claimed>>, lost: set<JobId>)

  datatype Action =
    | Enqueue(id: JobId, payload: string, at: int)
    | ClaimBatch(worker: WorkerId, limit: nat, at: int, skipped: set<JobId>, batch: seq<JobId>)
    | FinishNext(worker: WorkerId, error: Option<string>, at: int)
    | LoseNext(worker: WorkerId)

  function Hand(s: State, w: WorkerId): seq<Claimed> {
    if w in s.hands then s.hands[w] else []
  }

  /** A worker polls only with empty hands; the claim statement fails rather than overflow. */
  ghost predicate Enabled(s: State, a: Action) {
    match a
    case Enqueue(id, _, _) => id !in s.jobs
    case ClaimBatch(w, limit, at, skipped, batch) =>
      && Hand(s, w) == []
      && Picks(s.jobs, at, skipped, limit, batch)
      && (forall id :: id in batch ==> s.jobs[id].attempts < INT4_MAX)
    case FinishNext(w, _, _) => Hand(s, w) != [] && Hand(s, w)[0].attempts >= 1
    case LoseNext(w) => Hand(s, w) != []
  }

  ghost function Next(cfg: Config, s: State, a: Action): State
    requires Enabled(s, a)
  {
    match a
    case Enqueue(id, payload, at) => s.(jobs := s.jobs[id := Job(payload, Pending, 0, at, None)])
    case ClaimBatch(w, limit, at, skipped, batch) =>
      State(Claim(s.jobs, batch), s.hands[w := Carried(s.jobs, batch)], s.lost)
    case FinishNext(w, error, at) =>
      State(Finish(cfg, s.jobs, Hand(s, w)[0], error, at), s.hands[w := Hand(s, w)[1..]], s.lost)
    case LoseNext(w) =>
      State(s.jobs, s.hands[w := Hand(s, w)[1..]], s.lost + {Hand(s, w)[0].id})
  }

  ghost function Initial(): State {
    State(map[], map[], {})
  }

  /** `acts` can be performed one after the other from the empty table. */
  ghost predicate Run(cfg: Config, acts: seq<Action>)
    decreases |acts|, 0
  {
    acts != [] ==>
      Run(cfg, acts[..|acts| - 1]) && Enabled(After(cfg, acts[..|acts| - 1]), acts[|acts| - 1])
  }

  ghost function After(cfg: Config, acts: seq<Action>): State
    requires Run(cfg, acts)
    decreases |acts|, 1
  {
    if acts == [] then Initial()
    else Next(cfg, After(cfg, acts[..|acts| - 1]), acts[|acts| - 1])
  }

  lemma OneMore(cfg: Config, acts: seq<Action>, a: Action)
    requires Run(cfg, acts) && Enabled(After(cfg, acts), a)
    ensures Run(cfg, acts + [a]) && After(cfg, acts + [a]) == Next(cfg, After(cfg, acts), a)
  {
    assert (acts + [a])[..|acts|] == acts;
  }

  /** The step a worker takes for the outcome of the first job in its hand. */
  function StepFor(w: WorkerId, o: Outcome): Action {
    if o.written then FinishNext(w, o.error, o.now) else LoseNext(w)
  }

  function Steps(w: WorkerId, outcomes: seq<Outcome>): (r: seq<Action>)
    ensures |r| == |outcomes|
  {
    if outcomes == [] then []
    else Steps(w, outcomes[..|outcomes| - 1]) + [StepFor(w, outcomes[|outcomes| - 1])]
  }

  lemma OutcomeIsAStep(cfg: Config, acts: seq<Action>, w: WorkerId, held: seq<Claimed>, n: nat, o: Outcome)
    requires Run(cfg, acts) && n < |held| && held[n].attempts >= 1 && Hand(After(cfg, acts), w) == held[n..]
    ensures Run(cfg, acts + [StepFor(w, o)])
    ensures var s, s' := After(cfg, acts), After(cfg, acts + [StepFor(w, o)]);
      && s'.jobs == (if o.written then Finish(cfg, s.jobs, held[n], o.error, o.now) else s.jobs)
      && Hand(s', w) == held[n + 1..]
  {
    assert held[n..][0] == held[n] && held[n..][1..] == held[n + 1..];
    OneMore(cfg, acts, StepFor(w, o));
  }

  lemma RecordedLast(cfg: Config, jobs: Jobs, held: seq<Claimed>, outcomes: seq<Outcome>)
    requires 0 < |outcomes| <= |held| && forall c :: c in held ==> c.attempts >= 1
    ensures var n := |outcomes| - 1;
      var before := Recorded(cfg, jobs, held[..n], outcomes[..n]);
      Recorded(cfg, jobs, held[..n + 1], outcomes) ==
        if outcomes[n].written then Finish(cfg, before, held[n], outcomes[n].error, outcomes[n].now) else before
  {
    var n := |outcomes| - 1;
    assert held[..n + 1][..n] == held[..n];
  }

  /** What `DrainDueJobs` leaves in the table is what the worker's steps leave there. */
  lemma {:induction false} DrainIsARun(cfg: Config, acts: seq<Action>, w: WorkerId, held: seq<Claimed>,
                                       outcomes: seq<Outcome>)
    requires Run(cfg, acts) && Hand(After(cfg, acts), w) == held && |outcomes| <= |held|
    requires forall c :: c in held ==> c.attempts >= 1
    ensures Run(cfg, acts + Steps(w, outcomes))
    ensures After(cfg, acts + Steps(w, outcomes)).jobs
            == Recorded(cfg, After(cfg, acts).jobs, held[..|outcomes|], outcomes)
    ensures Hand(After(cfg, acts + Steps(w, outcomes)), w) == held[|outcomes|..]
    decreases |outcomes|
  {
    if outcomes == [] {
      assert acts + Steps(w, outcomes) == acts;
    } else {
      var n := |outcomes| - 1;
      DrainIsARun(cfg, acts, w, held, outcomes[..n]);
      OutcomeIsAStep(cfg, acts + Steps(w, outcomes[..n]), w, held, n, outcomes[n]);
      assert acts + Steps(w, outcomes) == acts + Steps(w, outcomes[..n]) + [StepFor(w, outcomes[n])];
      RecordedLast(cfg, After(cfg, acts).jobs, held, outcomes);
    }
  }

  // ---- Safety --------------------------------------------------------------------------

  ghost predicate Holds(s: State, w: WorkerId, i: int, id: JobId) {
    0 <= i < |Hand(s, w)| && Hand(s, w)[i].id == id
  }

  ghost predicate Carries(s: State, c: Claimed) {
    c.id in s.jobs && c.id !in s.lost && s.jobs[c.id].status == InProgress && s.jobs[c.id].attempts == c.attempts >= 1
  }

  ghost predicate Inv(cfg: Config, s: State) {
    && (forall w, i :: 0 <= i < |Hand(s, w)| ==> Carries(s, Hand(s, w)[i]))
    && (forall w, i, v, j, id :: Holds(s, w, i, id) && Holds(s, v, j, id) ==> w == v && i == j)
    && (forall id :: id in s.lost ==> id in s.jobs && s.jobs[id].status == InProgress)
    && (forall id :: id in s.jobs && s.jobs[id].status == InProgress && id !in s.lost ==>
          exists w, i :: Holds(s, w, i, id))
    && (forall id :: id in s.jobs ==> s.jobs[id].attempts <= cfg.RunLimit())
    && (forall id :: id in s.jobs && s.jobs[id].status == Pending ==> s.jobs[id].attempts < cfg.RunLimit())
  }

  lemma ClaimFillsHand(cfg: Config, s: State, a: Action, w: WorkerId, i: int)
    requires Inv(cfg, s) && Enabled(s, a) && a.ClaimBatch?
    requires 0 <= i < |Hand(Next(cfg, s, a), w)|
    ensures var c := Hand(Next(cfg, s, a), w)[i];
      && Carries(Next(cfg, s, a), c)
      && c.id in s.jobs
      && (w == a.worker ==> i < |a.batch| && c.id == a.batch[i] && s.jobs[c.id].status == Pending)
      && (w != a.worker ==> i < |Hand(s, w)| && c == Hand(s, w)[i] && s.jobs[c.id].status == InProgress)
  {
    var s' := Next(cfg, s, a);
    if w == a.worker {
      assert a.batch[i] in a.batch;
    } else {
      assert Hand(s', w) == Hand(s, w);
      assert Carries(s, Hand(s, w)[i]);
      assert Hand(s, w)[i].id !in a.batch;
    }
  }

  lemma ClaimKeepsInv(cfg: Config, s: State, a: Action)
    requires Inv(cfg, s) && Enabled(s, a) && a.ClaimBatch?
    ensures Inv(cfg, Next(cfg, s, a))
  {
    var s' := Next(cfg, s, a);
    forall w, i | 0 <= i < |Hand(s', w)| ensures Carries(s', Hand(s', w)[i]) {
      ClaimFillsHand(cfg, s, a, w, i);
    }
    forall w, i, v, j, id | Holds(s', w, i, id) && Holds(s', v, j, id) ensures w == v && i == j {
      ClaimFillsHand(cfg, s, a, w, i);
      ClaimFillsHand(cfg, s, a, v, j);
      if w != a.worker && v != a.worker {
        assert Holds(s, w, i, id) && Holds(s, v, j, id);
      }
    }
    forall id | id in s'.jobs && s'.jobs[id].status == InProgress && id !in s'.lost
      ensures exists w, i :: Holds(s', w, i, id)
    {
      if id in a.batch {
        var i :| 0 <= i < |a.batch| && a.batch[i] == id;
        assert Holds(s', a.worker, i, id);
      } else {
        var w, i :| Holds(s, w, i, id);
        assert Holds(s', w, i, id);
      }
    }
  }

  /** Dropping the first claim in a hand leaves every other claim where it was. */
  lemma DropKeepsOthers(s: State, s': State, w: WorkerId)
    requires Hand(s, w) != [] && s'.hands == s.hands[w := Hand(s, w)[1..]]
    ensures forall v, i, id :: Holds(s', v, i, id) ==> Holds(s, v, if v == w then i + 1 else i, id)
    ensures forall v, i, id :: Holds(s, v, i, id) && id != Hand(s, w)[0].id ==> exists j :: Holds(s', v, j, id)
  {
    forall v, i, id | Holds(s, v, i, id) && id != Hand(s, w)[0].id ensures exists j :: Holds(s', v, j, id) {
      assert Holds(s', v, if v == w then i - 1 else i, id);
    }
  }

  lemma DropKeepsInv(cfg: Config, s: State, a: Action)
    requires Inv(cfg, s) && Enabled(s, a) && (a.FinishNext? || a.LoseNext?)
    ensures Inv(cfg, Next(cfg, s, a))
  {
    var s', w := Next(cfg, s, a), a.worker;
    var c := Hand(s, w)[0];
    DropKeepsOthers(s, s', w);
    assert Holds(s, w, 0, c.id);
    forall v, i | 0 <= i < |Hand(s', v)|
      ensures Hand(s', v)[i].id != c.id && Carries(s', Hand(s', v)[i])
    {
      var d := Hand(s', v)[i];
      assert Holds(s', v, i, d.id);
      assert Holds(s, v, if v == w then i + 1 else i, d.id);
    }
    forall p, i, q, j, id | Holds(s', p, i, id) && Holds(s', q, j, id) ensures p == q && i == j {
      assert Holds(s, p, if p == w then i + 1 else i, id) && Holds(s, q, if q == w then j + 1 else j, id);
    }
  }

  lemma EnqueueKeepsInv(cfg: Config, s: State, a: Action)
    requires Inv(cfg, s) && Enabled(s, a) && a.Enqueue?
    ensures Inv(cfg, Next(cfg, s, a))
  {
    var s' := Next(cfg, s, a);
    assert forall w :: Hand(s', w) == Hand(s, w);
    forall w, i | 0 <= i < |Hand(s', w)| ensures Carries(s', Hand(s', w)[i]) {
      assert Carries(s, Hand(s, w)[i]);
    }
    forall w, i, v, j, k | Holds(s', w, i, k) && Holds(s', v, j, k) ensures w == v && i == j {
      assert Holds(s, w, i, k) && Holds(s, v, j, k);
    }
    forall k | k in s'.jobs && s'.jobs[k].status == InProgress && k !in s'.lost
      ensures exists w, i :: Holds(s', w, i, k)
    {
      var w, i :| Holds(s, w, i, k);
      assert Holds(s', w, i, k);
    }
  }

  lemma {:induction false} InvHolds(cfg: Config, acts: seq<Action>)
    requires Run(cfg, acts)
    ensures Inv(cfg, After(cfg, acts))
    decreases |acts|
  {
    if acts != [] {
      var s, a := After(cfg, acts[..|acts| - 1]), acts[|acts| - 1];
      InvHolds(cfg, acts[..|acts| - 1]);
      match a {
        case ClaimBatch(_, _, _, _, _) => ClaimKeepsInv(cfg, s, a);
        case Enqueue(_, _, _) => EnqueueKeepsInv(cfg, s, a);
        case _ => DropKeepsInv(cfg, s, a);
      }
    }
  }

  /** An in-progress job has exactly one claimer, unless its worker stopped before recording it;
      a job that is not in progress has none. */
  lemma OneClaimer(cfg: Config, acts: seq<Action>, id: JobId)
    requires Run(cfg, acts) && id in After(cfg, acts).jobs
    ensures var s := After(cfg, acts);
      && (s.jobs[id].status == InProgress && id !in s.lost <==> exists w, i :: Holds(s, w, i, id))
      && (forall w, i, v, j :: Holds(s, w, i, id) && Holds(s, v, j, id) ==> w == v && i == j)
      && (id in s.lost ==> s.jobs[id].status == InProgress)
  {
    InvHolds(cfg, acts);
    var s := After(cfg, acts);
    forall w, i | Holds(s, w, i, id) ensures s.jobs[id].status == InProgress && id !in s.lost {
      assert Hand(s, w)[i].id == id;
    }
  }

  /** No step removes a job or changes what it carries, and a job that is done, failed or lost
      never changes again: a lost job is never picked up. */
  lemma StepConserves(cfg: Config, s: State, a: Action, id: JobId)
    requires Inv(cfg, s) && Enabled(s, a) && id in s.jobs
    ensures var s' := Next(cfg, s, a);
      && id in s'.jobs && s'.jobs[id].payload == s.jobs[id].payload
      && (s.jobs[id].status in {Done, Failed} || id in s.lost ==> s'.jobs[id] == s.jobs[id])
      && s.lost <= s'.lost
  {
    if a.FinishNext? {
      assert Carries(s, Hand(s, a.worker)[0]);
    }
  }

  lemma {:induction false} FinishedStaysFinished(cfg: Config, acts: seq<Action>, more: seq<Action>, id: JobId)
    requires Run(cfg, acts + more) && Run(cfg, acts) && id in After(cfg, acts).jobs
    ensures var s, s' := After(cfg, acts), After(cfg, acts + more);
      && id in s'.jobs && s'.jobs[id].payload == s.jobs[id].payload
      && (s.jobs[id].status in {Done, Failed} || id in s.lost ==> s'.jobs[id] == s.jobs[id])
      && s.lost <= s'.lost
    decreases |more|
  {
    if more == [] {
      assert acts + more == acts;
    } else {
      var n := |more| - 1;
      assert (acts + more)[..|acts + more| - 1] == acts + more[..n];
      FinishedStaysFinished(cfg, acts, more[..n], id);
      InvHolds(cfg, acts + more[..n]);
      StepConserves(cfg, After(cfg, acts + more[..n]), more[n], id);
    }
  }

  // ---- Accounting and termination ------------------------------------------------------

  predicate Claims(a: Action, id: JobId) {
    a.ClaimBatch? && id in a.batch
  }

  /** The step takes the job out of its worker's hand. */
  ghost predicate Releases(s: State, a: Action, id: JobId) {
    (a.FinishNext? || a.LoseNext?) && Hand(s, a.worker) != [] && Hand(s, a.worker)[0].id == id
  }

  function TimesClaimed(acts: seq<Action>, id: JobId): nat {
    if acts == [] then 0
    else TimesClaimed(acts[..|acts| - 1], id) + if Claims(acts[|acts| - 1], id) then 1 else 0
  }

  /** Claims and releases of one job in a run. */
  ghost function Touches(cfg: Config, acts: seq<Action>, id: JobId): nat
    requires Run(cfg, acts)
    decreases |acts|
  {
    if acts == [] then 0 else
      var before, a := acts[..|acts| - 1], acts[|acts| - 1];
      Touches(cfg, before, id) + if Claims(a, id) || Releases(After(cfg, before), a, id) then 1 else 0
  }

  /** The measure: how often the job can still be claimed or released. */
  ghost function Weight(cfg: Config, s: State, id: JobId): int {
    if id !in s.jobs then 2 * cfg.RunLimit()
    else if s.jobs[id].status == Pending then 2 * (cfg.RunLimit() - s.jobs[id].attempts)
    else if s.jobs[id].status == InProgress && id !in s.lost then 2 * (cfg.RunLimit() - s.jobs[id].attempts) + 1
    else 0
  }

  lemma ClaimLowersWeight(cfg: Config, s: State, a: Action, id: JobId)
    requires Inv(cfg, s) && Enabled(s, a) && a.ClaimBatch?
    ensures Weight(cfg, Next(cfg, s, a), id) == Weight(cfg, s, id) - if Claims(a, id) then 1 else 0
  {
    assert id in a.batch ==> id in Due(s.jobs, a.at, a.skipped);
    assert id in s.lost ==> id in s.jobs && s.jobs[id].status == InProgress;
    hide Inv, Picks, Enabled, Carried;
  }

  lemma ReleaseLowersWeight(cfg: Config, s: State, a: Action, id: JobId)
    requires Inv(cfg, s) && Enabled(s, a) && (a.FinishNext? || a.LoseNext?)
    ensures Releases(s, a, id) ==> Weight(cfg, Next(cfg, s, a), id) < Weight(cfg, s, id)
    ensures !Releases(s, a, id) ==> Weight(cfg, Next(cfg, s, a), id) == Weight(cfg, s, id)
  {
    var c := Hand(s, a.worker)[0];
    assert Carries(s, c) && s.jobs[c.id].attempts <= cfg.RunLimit();
    assert Releases(s, a, id) <==> c.id == id;
    var s' := Next(cfg, s, a);
    assert a.FinishNext? ==> s'.jobs == Finish(cfg, s.jobs, c, a.error, a.at) && s'.lost == s.lost;
    assert a.LoseNext? ==> s'.jobs == s.jobs && s'.lost == s.lost + {c.id};
    hide Inv, Enabled, Next, Finish, Releases, Weight, Hand;
    if a.FinishNext? {
      FinishLowersWeight(cfg, s, s', c, a.error, a.at, id);
    } else {
      LossLowersWeight(cfg, s, s', c, id);
    }
  }

  lemma LossLowersWeight(cfg: Config, s: State, s': State, c: Claimed, id: JobId)
    requires Carries(s, c) && s.jobs[c.id].attempts <= cfg.RunLimit()
    requires s'.jobs == s.jobs && s'.lost == s.lost + {c.id}
    ensures c.id == id ==> Weight(cfg, s', id) < Weight(cfg, s, id)
    ensures c.id != id ==> Weight(cfg, s', id) == Weight(cfg, s, id)
  {
  }

  lemma FinishLowersWeight(cfg: Config, s: State, s': State, c: Claimed, error: Option<string>, at: int, id: JobId)
    requires Carries(s, c) && s.jobs[c.id].attempts <= cfg.RunLimit()
    requires s'.jobs == Finish(cfg, s.jobs, c, error, at) && s'.lost == s.lost
    ensures c.id == id ==> Weight(cfg, s', id) < Weight(cfg, s, id)
    ensures c.id != id ==> Weight(cfg, s', id) == Weight(cfg, s, id)
  {
    hide BackoffSeconds;
  }

  lemma WeightIsNat(cfg: Config, s: State, id: JobId)
    requires Inv(cfg, s)
    ensures Weight(cfg, s, id) >= 0
  {
  }

  lemma StepLowersWeight(cfg: Config, s: State, a: Action, id: JobId)
    requires Inv(cfg, s) && Enabled(s, a)
    ensures Weight(cfg, s, id) >= 0
    ensures Claims(a, id) || Releases(s, a, id) ==> Weight(cfg, Next(cfg, s, a), id) < Weight(cfg, s, id)
    ensures !(Claims(a, id) || Releases(s, a, id)) ==> Weight(cfg, Next(cfg, s, a), id) == Weight(cfg, s, id)
  {
    WeightIsNat(cfg, s, id);
    match a {
      case ClaimBatch(_, _, _, _, _) => ClaimLowersWeight(cfg, s, a, id);
      case Enqueue(_, _, _) => assert a.id !in s.lost;
      case _ => ReleaseLowersWeight(cfg, s, a, id);
    }
  }

  /** The attempt counter counts the claims, and no job runs more than `max(1, max_attempts)` times. */
  lemma {:induction false} AttemptsCountClaims(cfg: Config, acts: seq<Action>, id: JobId)
    requires Run(cfg, acts)
    ensures var s := After(cfg, acts);
      && (id in s.jobs ==> s.jobs[id].attempts == TimesClaimed(acts, id))
      && (id !in s.jobs ==> TimesClaimed(acts, id) == 0)
      && TimesClaimed(acts, id) <= cfg.RunLimit()
    decreases |acts|
  {
    InvHolds(cfg, acts);
    if acts != [] {
      var before, a := acts[..|acts| - 1], acts[|acts| - 1];
      AttemptsCountClaims(cfg, before, id);
      InvHolds(cfg, before);
      if a.FinishNext? {
        assert Carries(After(cfg, before), Hand(After(cfg, before), a.worker)[0]);
      }
    }
  }

  /** Over any interleaving, a job is claimed or released at most `2 * max(1, max_attempts)` times. */
  lemma {:induction false} RunsTerminate(cfg: Config, acts: seq<Action>, id: JobId)
    requires Run(cfg, acts)
    ensures Touches(cfg, acts, id) + Weight(cfg, After(cfg, acts), id) <= 2 * cfg.RunLimit()
    ensures Weight(cfg, After(cfg, acts), id) >= 0
    decreases |acts|
  {
    if acts != [] {
      var before, a := acts[..|acts| - 1], acts[|acts| - 1];
      RunsTerminate(cfg, before, id);
      InvHolds(cfg, before);
      StepLowersWeight(cfg, After(cfg, before), a, id);
    }
    InvHolds(cfg, acts);
  }

  // ---- Backoff between runs ------------------------------------------------------------

  /** Until it is claimed again, a pending job does not change. */
  lemma {:induction false} PendingWaits(cfg: Config, acts: seq<Action>, more: seq<Action>, id: JobId)
    requires Run(cfg, acts) && Run(cfg, acts + more)
    requires id in After(cfg, acts).jobs && After(cfg, acts).jobs[id].status == Pending
    requires forall a :: a in more ==> !Claims(a, id)
    ensures id in After(cfg, acts + more).jobs && After(cfg, acts + more).jobs[id] == After(cfg, acts).jobs[id]
    decreases |more|
  {
    if more == [] {
      assert acts + more == acts;
    } else {
      var n := |more| - 1;
      assert (acts + more)[..|acts + more| - 1] == acts + more[..n];
      PendingWaits(cfg, acts, more[..n], id);
      InvHolds(cfg, acts + more[..n]);
      var s, a := After(cfg, acts + more[..n]), more[n];
      assert Enabled(s, a) && After(cfg, acts + more) == Next(cfg, s, a);
      assert a in more;
      hide Run, After;
      PendingStays(cfg, s, a, id);
    }
  }

  lemma PendingStays(cfg: Config, s: State, a: Action, id: JobId)
    requires Inv(cfg, s) && Enabled(s, a) && id in s.jobs && s.jobs[id].status == Pending && !Claims(a, id)
    ensures id in Next(cfg, s, a).jobs && Next(cfg, s, a).jobs[id] == s.jobs[id]
  {
    if a.FinishNext? {
      assert Carries(s, Hand(s, a.worker)[0]);
    }
  }

  lemma ClaimNeedsDue(cfg: Config, s: State, claim: Action, id: JobId)
    requires Enabled(s, claim) && Claims(claim, id)
    ensures id in s.jobs && s.jobs[id].status == Pending && s.jobs[id].nextAttemptAt <= claim.at
    ensures id in Next(cfg, s, claim).jobs && Next(cfg, s, claim).jobs[id].attempts == s.jobs[id].attempts + 1
  {
    assert id in Due(s.jobs, claim.at, claim.skipped);
  }

  lemma FailureReschedules(cfg: Config, s: State, fail: Action, id: JobId)
    requires Inv(cfg, s) && Enabled(s, fail) && fail.FinishNext? && fail.error.Some? && Releases(s, fail, id)
    ensures id in s.jobs && s.jobs[id].attempts >= 1
    ensures id in Next(cfg, s, fail).jobs
    ensures var job, before := Next(cfg, s, fail).jobs[id], s.jobs[id];
      && job.attempts == before.attempts
      && job.status in {Pending, Failed}
      && (job.status == Pending ==>
           job.nextAttemptAt == fail.at + RetryDelay(cfg.backoffBase, before.attempts))
  {
    assert Carries(s, Hand(s, fail.worker)[0]);
    hide Inv, RetryDelay, Finished;
    assert Next(cfg, s, fail).jobs == Finish(cfg, s.jobs, Hand(s, fail.worker)[0], fail.error, fail.at);
    hide Next, Enabled;
    FinishedIs(cfg, s.jobs[id], s.jobs[id].attempts, fail.error, fail.at);
  }

  lemma LastStep(cfg: Config, acts: seq<Action>, a: Action)
    requires Run(cfg, acts + [a])
    ensures Run(cfg, acts) && Enabled(After(cfg, acts), a)
    ensures After(cfg, acts + [a]) == Next(cfg, After(cfg, acts), a)
  {
    assert (acts + [a])[..|acts|] == acts;
  }

  /** After the failure of run `k` is recorded at `fail.at`, run `k + 1` is claimed no earlier
      than `base * 2^(k-1)` seconds later. */
  lemma RetryWaitsOutBackoff(cfg: Config, acts: seq<Action>, fail: Action, between: seq<Action>, claim: Action,
                             id: JobId)
    requires Run(cfg, acts + [fail] + between + [claim]) && Run(cfg, acts + [fail]) && Run(cfg, acts)
    requires fail.FinishNext? && fail.error.Some? && Releases(After(cfg, acts), fail, id)
    requires Claims(claim, id) && forall a :: a in between ==> !Claims(a, id)
    ensures var k := TimesClaimed(acts, id);
      && k >= 1
      && claim.at >= fail.at + RetryDelay(cfg.backoffBase, k)
      && id in After(cfg, acts + [fail] + between + [claim]).jobs
      && After(cfg, acts + [fail] + between + [claim]).jobs[id].attempts == k + 1
  {
    hide Next, Inv, Enabled, Releases, Claims, RetryDelay, Run, After, TimesClaimed;
    var all := acts + [fail] + between;
    LastStep(cfg, all, claim);
    LastStep(cfg, acts, fail);
    InvHolds(cfg, acts);
    AttemptsCountClaims(cfg, acts, id);
    FailureReschedules(cfg, After(cfg, acts), fail, id);
    ClaimNeedsDue(cfg, After(cfg, all), claim, id);
    var s1 := After(cfg, acts + [fail]);
    InvHolds(cfg, acts + [fail]);
    if s1.jobs[id].status == Pending {
      PendingWaits(cfg, acts + [fail], between, id);
    } else {
      FinishedStaysFinished(cfg, acts + [fail], between, id);
      assert false;
    }
  }

  /** What a worker records in any run: success, or the error of run `k`, which is tried again if and
      only if `k` is below the configured number. */
  lemma ResultIsRecorded(cfg: Config, acts: seq<Action>, finish: Action, id: JobId)
    requires Run(cfg, acts + [finish]) && Run(cfg, acts)
    requires finish.FinishNext? && Releases(After(cfg, acts), finish, id)
    ensures var k := TimesClaimed(acts, id);
      var jobs := After(cfg, acts + [finish]).jobs;
      && k >= 1 && id in jobs && jobs[id].lastError == finish.error
      && (jobs[id].status == Done <==> finish.error.None?)
      && (jobs[id].status == Pending <==> finish.error.Some? && k < cfg.maxAttempts)
      && (jobs[id].status == Failed <==> finish.error.Some? && k >= cfg.maxAttempts)
  {
    var s := After(cfg, acts);
    LastStep(cfg, acts, finish);
    InvHolds(cfg, acts);
    AttemptsCountClaims(cfg, acts, id);
    hide Run, After, TimesClaimed;
    assert Carries(s, Hand(s, finish.worker)[0]);
    FinishedIs(cfg, s.jobs[id], s.jobs[id].attempts, finish.error, finish.at);
    hide Inv, Finished, RetryDelay;
  }

  /** A job's first run is claimed no earlier than it was enqueued for, and carries what was enqueued. */
  lemma FirstRunIsDue(cfg: Config, acts: seq<Action>, enqueue: Action, between: seq<Action>, claim: Action)
    requires Run(cfg, acts + [enqueue] + between + [claim]) && Run(cfg, acts + [enqueue]) && enqueue.Enqueue?
    requires Claims(claim, enqueue.id) && forall a :: a in between ==> !Claims(a, enqueue.id)
    ensures claim.at >= enqueue.at
    ensures var jobs := After(cfg, acts + [enqueue] + between).jobs;
      enqueue.id in jobs && jobs[enqueue.id] == Job(enqueue.payload, Pending, 0, enqueue.at, None)
  {
    LastStep(cfg, acts, enqueue);
    LastStep(cfg, acts + [enqueue] + between, claim);
    hide Run, After;
    PendingWaits(cfg, acts + [enqueue], between, enqueue.id);
    ClaimNeedsDue(cfg, After(cfg, acts + [enqueue] + between), claim, enqueue.id);
  }

  // ---- Which claimed jobs can still be finished ----------------------------------------

  ghost predicate StillClaimed(s: State, id: JobId) {
    id in s.jobs && s.jobs[id].status == InProgress
  }

  /** Some continuation of the run takes the job out of `in_progress`. */
  ghost predicate CanLeave(cfg: Config, acts: seq<Action>, id: JobId) {
    exists more :: Run(cfg, acts + more) && !StillClaimed(After(cfg, acts + more), id)
  }

  function FirstOff(w: WorkerId, i: nat, abandon: bool): Action {
    if i == 0 && abandon then LoseNext(w) else FinishNext(w, None, 0)
  }

  lemma FirstComesOff(cfg: Config, s: State, w: WorkerId, i: nat, id: JobId, abandon: bool)
    requires Inv(cfg, s) && Holds(s, w, i, id)
    ensures Enabled(s, FirstOff(w, i, abandon))
    ensures var s' := Next(cfg, s, FirstOff(w, i, abandon));
      && (i > 0 ==> Holds(s', w, i - 1, id))
      && (i == 0 && !abandon ==> !StillClaimed(s', id))
      && (i == 0 && abandon ==> StillClaimed(s', id) && id in s'.lost)
  {
    assert Carries(s, Hand(s, w)[0]);
    hide Inv;
  }

  /** The worker records the jobs before this one, then records or abandons it. */
  lemma {:induction false} WorkOff(cfg: Config, acts: seq<Action>, w: WorkerId, i: nat, id: JobId, abandon: bool)
    returns (more: seq<Action>)
    requires Run(cfg, acts) && Holds(After(cfg, acts), w, i, id)
    ensures Run(cfg, acts + more)
    ensures !abandon ==> !StillClaimed(After(cfg, acts + more), id)
    ensures abandon ==> StillClaimed(After(cfg, acts + more), id) && id in After(cfg, acts + more).lost
    decreases i
  {
    hide Inv, Holds, StillClaimed, Enabled, Next, Run, After, FirstOff;
    var a := FirstOff(w, i, abandon);
    InvHolds(cfg, acts);
    FirstComesOff(cfg, After(cfg, acts), w, i, id, abandon);
    OneMore(cfg, acts, a);
    if i == 0 {
      more := [a];
    } else {
      var rest := WorkOff(cfg, acts + [a], w, i - 1, id, abandon);
      more := [a] + rest;
      Regrouped(acts, [a], rest);
    }
  }

  /** A job in progress can still be finished if and only if its worker has not been lost: nothing
      ever returns an abandoned one to `pending`. */
  lemma CanLeaveIff(cfg: Config, acts: seq<Action>, id: JobId)
    requires Run(cfg, acts) && StillClaimed(After(cfg, acts), id)
    ensures CanLeave(cfg, acts, id) <==> id !in After(cfg, acts).lost
  {
    var s := After(cfg, acts);
    if id in s.lost {
      forall more | Run(cfg, acts + more) ensures StillClaimed(After(cfg, acts + more), id) {
        FinishedStaysFinished(cfg, acts, more, id);
      }
    } else {
      OneClaimer(cfg, acts, id);
      var w, i :| Holds(s, w, i, id);
      var more := WorkOff(cfg, acts, w, i, id, false);
    }
  }

  /** And every claimed job can be lost: from any run in which a worker holds it, one goes on to
      where it stays claimed for ever. */
  lemma AnyClaimCanBeLost(cfg: Config, acts: seq<Action>, id: JobId)
    requires Run(cfg, acts) && StillClaimed(After(cfg, acts), id)
    ensures exists more ::
      Run(cfg, acts + more) && StillClaimed(After(cfg, acts + more), id) && !CanLeave(cfg, acts + more, id)
  {
    var s := After(cfg, acts);
    var more := [];
    assert acts + more == acts;
    if id !in s.lost {
      OneClaimer(cfg, acts, id);
      var w, i :| Holds(s, w, i, id);
      more := WorkOff(cfg, acts, w, i, id, true);
    }
    CanLeaveIff(cfg, acts + more, id);
    assert Run(cfg, acts + more) && StillClaimed(After(cfg, acts + more), id) && !CanLeave(cfg, acts + more, id);
  }

  /** Not in the abstract: enqueued, claimed, and abandoned. */
  lemma AJobIsLost(cfg: Config)
    ensures exists acts :: Run(cfg, acts) && StillClaimed(After(cfg, acts), 0) && !CanLeave(cfg, acts, 0)
  {
    var acts := [];
    var a, b := Enqueue(0, "", 0), ClaimBatch(0, 10, 0, {}, [0]);
    OneMore(cfg, acts, a);
    var s := After(cfg, acts + [a]);
    assert s.jobs == map[0 := Job("", Pending, 0, 0, None)];
    assert Due(s.jobs, 0, {}) == {0};
    assert Picks(s.jobs, 0, {}, 10, [0]);
    OneMore(cfg, acts + [a], b);
    AnyClaimCanBeLost(cfg, acts + [a] + [b], 0);
  }
}
