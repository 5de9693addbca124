/** What the history protocol guarantees for every run: order of the queries, semaphores, progress, teardown. */
module HistoryProperties {
  import opened HistoryProtocol
  import opened HistorySafety

  // ------------------------------------------------ the order of the queries

  /**
   When the database worker runs the timestamp query of a type, the queries that have run or reported their SQL
   error contain a row query for each well-formed item of the reply, and no other query of that type was or will
   be posted.
   */
  lemma {:induction false} StampRunsLast(c: Config, s: State, r: nat)
    requires Reachable(c, s) && s.running
    requires |s.results| < |s.jobs| && s.jobs[|s.results|] == Stamp(r)
    ensures r < Total(c) && c.outcomes[r].Reply?
    ensures forall k: nat :: Row(r, k) in s.jobs[..|s.results|] <==>
              k < Good(c.outcomes[r].items, |c.outcomes[r].items|)
    ensures forall p :: |s.results| < p < |s.jobs| ==> s.jobs[p].request != r
    ensures s.requests[r].pc == AwaitStamp
  {
    ReachableInv(c, s);
    StampLast(s.requests, s.jobs, |s.results|, r);
    CountGrows(s.jobs, |s.results| + 1, |s.jobs|, r);
    assert RequestInv(c.outcomes[r], s.requests[r], CountOf(s.jobs, |s.jobs|, r), CountOf(s.jobs, |s.results|, r),
                      r < Destroyed(s.main, Total(c)));
  }

  lemma {:induction false} StampLast(requests: seq<Request>, jobs: seq<Job>, n: nat, r: nat)
    requires JobsInv(requests, jobs) && n < |jobs| && jobs[n] == Stamp(r)
    ensures r < |requests| && Stamped(requests[r].pc)
    ensures forall k: nat :: Row(r, k) in jobs[..n] <==> k < requests[r].queries
    ensures forall p :: n < p < |jobs| ==> jobs[p].request != r
  {
    assert JobInv(requests, jobs, n);
    forall k: nat | Row(r, k) in jobs[..n] ensures k < requests[r].queries {
      var p: nat :| p < n && jobs[p] == Row(r, k);
      assert JobInv(requests, jobs, p);
    }
    forall p | n < p < |jobs| ensures jobs[p].request != r {
      assert JobInv(requests, jobs, p);
      assert jobs[n] != jobs[p];
      assert forall e :: 0 <= e < n ==> jobs[e] != jobs[p];
    }
  }

  ghost predicate StampsPosted(c: Config, s: State)
    requires Shaped(c, s)
  {
    forall r :: 0 <= r < Total(c) && c.outcomes[r].Reply? && Stamped(s.requests[r].pc) ==> Stamp(r) in s.jobs
  }

  lemma {:induction false} StampsKept(c: Config, s: State, step: Step)
    requires Shaped(c, s) && Enabled(c, s, step) && StampsPosted(c, s)
    requires WorkersInv(s.posted, s.queues, s.busy, s.requests)
    ensures StampsPosted(c, Next(c, s, step))
  {
    var t := Next(c, s, step);
    forall r | 0 <= r < Total(c) && c.outcomes[r].Reply? && Stamped(t.requests[r].pc) ensures Stamp(r) in t.jobs {
      if step == PassRows(r) {
        assert t.jobs[|s.jobs|] == Stamp(r);
      } else if step.Take? {
        assert InQueue(s.requests, step.w, s.queues[step.w][0]);
        assert Stamp(r) in s.jobs;
      } else {
        assert Stamp(r) in s.jobs;
      }
    }
  }

  lemma {:induction false} StampsPostedInRun(c: Config, s: State, run: seq<Step>)
    requires Inv(c, s) && IsRun(c, s, run) && StampsPosted(c, s)
    ensures StampsPosted(c, After(c, s, run))
    decreases |run|
  {
    if run != [] {
      StepKeeps(c, s, run[0]);
      StampsKept(c, s, run[0]);
      StampsPostedInRun(c, Next(c, s, run[0]), run[1..]);
    }
  }

  lemma {:induction false} FinishedJob(jobs: seq<Job>, n: nat, p: nat)
    requires n <= |jobs| && p < |jobs| && CountOf(jobs, n, jobs[p].request) == CountOf(jobs, |jobs|, jobs[p].request)
    ensures p < n
  {
    if n <= p {
      CountGrows(jobs, n, p, jobs[p].request);
      CountGrows(jobs, p + 1, |jobs|, jobs[p].request);
    }
  }

  /**
   A finished request whose reply arrived has had a row query for every well-formed item and its timestamp query
   run; a failed one has posted none.
   */
  lemma {:induction false} DoneMeansStored(c: Config, s: State, r: nat)
    requires Reachable(c, s) && r < Total(c) && s.requests[r].pc == Done
    ensures c.outcomes[r].Reply? ==> Stamp(r) in s.jobs[..|s.results|]
    ensures c.outcomes[r].Reply? ==>
              forall k: nat :: Row(r, k) in s.jobs[..|s.results|] <==>
                k < Good(c.outcomes[r].items, |c.outcomes[r].items|)
    ensures c.outcomes[r].HttpError? ==> forall p :: 0 <= p < |s.jobs| ==> s.jobs[p].request != r
  {
    var run: seq<Step> :| IsRun(c, Initial(c), run) && After(c, Initial(c), run) == s;
    InitialInv(c);
    RunKeeps(c, Initial(c), run);
    StampsPostedInRun(c, Initial(c), run);
    DoneMeansRun(c, s, r);
    StoredRows(s.requests, s.jobs, |s.results|, r);
  }

  lemma {:induction false} DoneMeansRun(c: Config, s: State, r: nat)
    requires Shaped(c, s) && r < Total(c) && s.requests[r].pc == Done
    requires RequestsInv(c.outcomes, s.requests, s.jobs, |s.results|, Destroyed(s.main, Total(c)))
    ensures c.outcomes[r].Reply? ==> s.requests[r].queries == Good(c.outcomes[r].items, |c.outcomes[r].items|)
    ensures forall p :: 0 <= p < |s.jobs| && s.jobs[p].request == r ==> c.outcomes[r].Reply? && p < |s.results|
  {
    assert RequestInv(c.outcomes[r], s.requests[r], CountOf(s.jobs, |s.jobs|, r), CountOf(s.jobs, |s.results|, r),
                      r < Destroyed(s.main, Total(c)));
    forall p | 0 <= p < |s.jobs| && s.jobs[p].request == r ensures c.outcomes[r].Reply? && p < |s.results| {
      CountGrows(s.jobs, p + 1, |s.jobs|, r);
      FinishedJob(s.jobs, |s.results|, p);
    }
  }

  lemma {:induction false} StoredRows(requests: seq<Request>, jobs: seq<Job>, n: nat, r: nat)
    requires JobsInv(requests, jobs) && n <= |jobs| && r < |requests|
    requires forall p :: 0 <= p < |jobs| && jobs[p].request == r ==> p < n
    ensures forall j: Job :: j in jobs && j.request == r ==> j in jobs[..n]
    ensures forall k: nat :: Row(r, k) in jobs[..n] <==> k < requests[r].queries
  {
    forall j: Job | j in jobs && j.request == r ensures j in jobs[..n] {
      var p: nat :| p < |jobs| && jobs[p] == j;
      assert jobs[..n][p] == j;
    }
    forall k: nat | Row(r, k) in jobs[..n] ensures k < requests[r].queries {
      var p: nat :| p < n && jobs[p] == Row(r, k);
      assert JobInv(requests, jobs, p);
    }
  }

  // ------------------------------------------------ round robin

  ghost predicate RoundRobin(c: Config, s: State)
    requires Shaped(c, s)
  {
    && s.next == s.posted % c.workers
    && forall r :: 0 <= r < s.posted ==> s.requests[r].worker == r % c.workers
  }

  lemma {:induction false} RotateIsModulo(a: nat, n: nat)
    requires n > 0
    ensures Rotate(a % n, n) == (a + 1) % n
  {
    var q, m := a / n, a % n;
    assert a == n * q + m;
    if m + 1 == n {
      assert a + 1 == n * (q + 1);
      Remainder(n, q + 1, 0);
    } else {
      Remainder(n, q, m + 1);
    }
  }

  lemma {:induction false} Multiples(n: nat, a: nat, b: nat)
    requires a < b
    ensures n * a + n <= n * b
  {
    assert n * b == n * (b - a - 1) + n * (a + 1);
  }

  lemma {:induction false} Remainder(n: nat, q: nat, m: nat)
    requires m < n
    ensures (n * q + m) % n == m
  {
    var x := n * q + m;
    assert n * (x / n) + x % n == x;
    if x / n < q {
      Multiples(n, x / n, q);
    } else if x / n > q {
      Multiples(n, q, x / n);
    }
  }

  lemma {:induction false} RoundRobinKept(c: Config, s: State, step: Step)
    requires Shaped(c, s) && Enabled(c, s, step) && RoundRobin(c, s)
    ensures RoundRobin(c, Next(c, s, step))
  {
    RotateIsModulo(s.posted, c.workers);
  }

  lemma {:induction false} RoundRobinInRun(c: Config, s: State, run: seq<Step>)
    requires IsRun(c, s, run) && RoundRobin(c, s)
    ensures RoundRobin(c, After(c, s, run))
    decreases |run|
  {
    if run != [] {
      RoundRobinKept(c, s, run[0]);
      RoundRobinInRun(c, Next(c, s, run[0]), run[1..]);
    }
  }

  /** The r-th request goes to worker r modulo the number of workers. */
  lemma {:induction false} SpreadsRoundRobin(c: Config, s: State, r: nat)
    requires Reachable(c, s) && r < s.posted
    ensures s.requests[r].worker == r % c.workers
  {
    var run: seq<Step> :| IsRun(c, Initial(c), run) && After(c, Initial(c), run) == s;
    InitialInv(c);
    Remainder(c.workers, 0, 0);
    RoundRobinInRun(c, Initial(c), run);
  }

  // ------------------------------------------------ each worker in turn

  /** Requests wait in the order of posting; those posted to a worker before one it has taken are finished. */
  ghost predicate InTurn(c: Config, s: State)
    requires Shaped(c, s)
  {
    Ascending(s.queues) && Turns(s.posted, s.requests)
  }

  predicate Ascending(queues: seq<seq<nat>>) {
    forall w, i, j :: 0 <= w < |queues| && 0 <= i < j < |queues[w]| ==> queues[w][i] < queues[w][j]
  }

  predicate Turns(posted: nat, requests: seq<Request>)
    requires posted <= |requests|
  {
    forall q, r :: 0 <= q < r < posted ==> TurnOf(requests[q], requests[r])
  }

  predicate TurnOf(before: Request, q: Request) {
    before.worker == q.worker && !q.pc.Posted? ==> before.pc.Done?
  }

  lemma {:induction false} TurnsKept(c: Config, s: State, step: Step)
    requires Shaped(c, s) && Enabled(c, s, step) && InTurn(c, s)
    requires WorkersInv(s.posted, s.queues, s.busy, s.requests)
    ensures Shaped(c, Next(c, s, step))
    ensures InTurn(c, Next(c, s, step))
  {
    if step.PostRequest? {
      PostedInTurn(c, s);
    } else if step.Take? {
      TakenInTurn(c, s, step.w);
    } else {
      GoneOnInTurn(c, s, step);
    }
  }

  lemma {:induction false} PostedInTurn(c: Config, s: State)
    requires Shaped(c, s) && Enabled(c, s, PostRequest) && InTurn(c, s)
    requires WorkersInv(s.posted, s.queues, s.busy, s.requests)
    ensures Shaped(c, Next(c, s, PostRequest))
    ensures InTurn(c, Next(c, s, PostRequest))
  {
    forall w, i | 0 <= w < |s.queues| && 0 <= i < |s.queues[w]| ensures s.queues[w][i] < s.posted {
      var r := s.queues[w][i];
      assert InQueue(s.requests, w, r);
      assert PlaceInv(s.posted, s.queues, s.busy, s.requests[r], r);
    }
  }

  lemma {:induction false} TakenInTurn(c: Config, s: State, w: nat)
    requires Shaped(c, s) && Enabled(c, s, Take(w)) && InTurn(c, s)
    requires WorkersInv(s.posted, s.queues, s.busy, s.requests)
    ensures Shaped(c, Next(c, s, Take(w)))
    ensures InTurn(c, Next(c, s, Take(w)))
  {
    var r, t := s.queues[w][0], Next(c, s, Take(w));
    assert InQueue(s.requests, w, r);
    FrontTaken(s.queues, w);
    forall q | 0 <= q < r && q < s.posted && s.requests[q].worker == w ensures s.requests[q].pc.Done? {
      FirstInQueue(c, s, w, q);
    }
    TurnTaken(s.posted, s.requests, r, t.requests[r]);
  }

  lemma {:induction false} FrontTaken(queues: seq<seq<nat>>, w: nat)
    requires Ascending(queues) && w < |queues| && queues[w] != []
    ensures Ascending(queues[w := queues[w][1..]])
  {
    var fewer := queues[w := queues[w][1..]];
    forall v, i, j | 0 <= v < |fewer| && 0 <= i < j < |fewer[v]| ensures fewer[v][i] < fewer[v][j] {
      var d := if v == w then 1 else 0;
      assert fewer[v][i] == queues[v][i + d] && fewer[v][j] == queues[v][j + d];
    }
  }

  lemma {:induction false} TurnTaken(posted: nat, requests: seq<Request>, r: nat, q: Request)
    requires posted <= |requests| && Turns(posted, requests) && r < |requests|
    requires requests[r].pc.Posted? && q.worker == requests[r].worker
    requires forall p :: 0 <= p < r && p < posted && requests[p].worker == q.worker ==> requests[p].pc.Done?
    ensures Turns(posted, requests[r := q])
  {
    var after := requests[r := q];
    forall p, u | 0 <= p < u < posted ensures TurnOf(after[p], after[u]) {
      assert TurnOf(requests[p], requests[u]);
    }
  }

  lemma {:induction false} FirstInQueue(c: Config, s: State, w: nat, q: nat)
    requires Shaped(c, s) && Enabled(c, s, Take(w)) && InTurn(c, s) && q < s.queues[w][0] && q < s.posted
    requires WorkersInv(s.posted, s.queues, s.busy, s.requests) && s.requests[q].worker == w
    ensures s.requests[q].pc.Done?
  {
    assert PlaceInv(s.posted, s.queues, s.busy, s.requests[q], q);
  }

  lemma {:induction false} GoneOnInTurn(c: Config, s: State, step: Step)
    requires Shaped(c, s) && Enabled(c, s, step) && InTurn(c, s) && !step.PostRequest? && !step.Take?
    ensures Shaped(c, Next(c, s, step))
    ensures InTurn(c, Next(c, s, step))
  {
    var t := Next(c, s, step);
    assert t.queues == s.queues && t.posted == s.posted;
    forall q, r | 0 <= q < r < s.posted ensures TurnOf(t.requests[q], t.requests[r]) {
      assert TurnOf(s.requests[q], s.requests[r]);
      SameTurn(c, s, step, q);
      SameTurn(c, s, step, r);
    }
  }

  lemma {:induction false} SameTurn(c: Config, s: State, step: Step, r: nat)
    requires Shaped(c, s) && Enabled(c, s, step) && !step.PostRequest? && !step.Take? && r < Total(c)
    ensures var q, q' := s.requests[r], Next(c, s, step).requests[r];
            && q'.worker == q.worker && (q'.pc.Posted? <==> q.pc.Posted?) && (q.pc.Done? ==> q'.pc.Done?)
  {
  }

  lemma {:induction false} InTurnInRun(c: Config, s: State, run: seq<Step>)
    requires Inv(c, s) && IsRun(c, s, run) && InTurn(c, s)
    ensures InTurn(c, After(c, s, run))
    decreases |run|
  {
    if run != [] {
      StepKeeps(c, s, run[0]);
      TurnsKept(c, s, run[0]);
      InTurnInRun(c, Next(c, s, run[0]), run[1..]);
    }
  }

  /** A worker handles its requests one after the other, in the order in which they were posted. */
  lemma {:induction false} HandledInOrder(c: Config, s: State, q: nat, r: nat)
    requires Reachable(c, s) && q < r < s.posted && s.requests[q].worker == s.requests[r].worker
    ensures !s.requests[r].pc.Posted? ==> s.requests[q].pc.Done?
  {
    var run: seq<Step> :| IsRun(c, Initial(c), run) && After(c, Initial(c), run) == s;
    InitialInv(c);
    InTurnInRun(c, Initial(c), run);
    assert TurnOf(s.requests[q], s.requests[r]);
  }

  // ------------------------------------------------ the semaphores

  /**
   The main semaphore counts the finished requests; unless SIGINT arrived the main thread gets past its wait only
   when all are finished. The count of a request never exceeds what its wait asks for with equality.
   */
  lemma {:induction false} SemaphoresCount(c: Config, s: State)
    requires Reachable(c, s)
    ensures s.parent == DoneCount(s.requests) <= Total(c)
    ensures !s.interrupted && !s.main.PostingRequests? && !s.main.Waiting? ==>
              forall r :: 0 <= r < Total(c) ==> s.requests[r].pc == Done
    ensures forall r :: 0 <= r < Total(c) ==>
              && (s.requests[r].pc.Posting? ==> s.requests[r].count <= s.requests[r].queries)
              && (s.requests[r].pc.AwaitStamp? ==>
                    s.requests[r].queries <= s.requests[r].count <= s.requests[r].queries + 1)
  {
    ReachableInv(c, s);
    DoneCountBound(s.requests);
    forall r | 0 <= r < Total(c) && Active(s.requests[r].pc)
      ensures s.requests[r].count == CountOf(s.jobs, |s.results|, r)
    {
      NotDestroyed(c, s, r);
    }
  }

  function Finalizations(run: seq<Step>, r: nat): nat {
    if run == [] then 0 else (if run[0] == Finalize(r) then 1 else 0) + Finalizations(run[1..], r)
  }

  /** In every run a request releases the main semaphore at most once: exactly once when it ends finished. */
  lemma {:induction false} ReleasesOnce(c: Config, run: seq<Step>, r: nat)
    requires c.workers > 0 && IsRun(c, Initial(c), run) && r < Total(c)
    ensures Finalizations(run, r) == if After(c, Initial(c), run).requests[r].pc.Done? then 1 else 0
  {
    InitialInv(c);
    ReleasesFrom(c, Initial(c), run, r);
  }

  lemma {:induction false} StepReleases(c: Config, s: State, step: Step, r: nat)
    requires Shaped(c, s) && Enabled(c, s, step) && r < Total(c)
    requires WorkersInv(s.posted, s.queues, s.busy, s.requests)
    ensures Next(c, s, step).requests[r].pc.Done? <==> s.requests[r].pc.Done? || step == Finalize(r)
    ensures step == Finalize(r) ==> !s.requests[r].pc.Done?
  {
    assert PlaceInv(s.posted, s.queues, s.busy, s.requests[r], r);
    if step.Take? {
      assert InQueue(s.requests, step.w, s.queues[step.w][0]);
    }
  }

  lemma {:induction false} ReleasesFrom(c: Config, s: State, run: seq<Step>, r: nat)
    requires Inv(c, s) && IsRun(c, s, run) && r < Total(c)
    ensures Finalizations(run, r) + (if s.requests[r].pc.Done? then 1 else 0) ==
            if After(c, s, run).requests[r].pc.Done? then 1 else 0
    decreases |run|
  {
    if run != [] {
      StepKeeps(c, s, run[0]);
      StepReleases(c, s, run[0], r);
      ReleasesFrom(c, Next(c, s, run[0]), run[1..], r);
    }
  }

  // ------------------------------------------------ teardown

  /**
   Once the workers are joined, every request is untouched or complete, the database worker has run every query
   ever posted, and no destructor blocks.
   */
  lemma {:induction false} TeardownIsClean(c: Config, s: State)
    requires Reachable(c, s) && (s.main.Destroying? || s.main.Finished?)
    ensures forall r :: 0 <= r < Total(c) ==> s.requests[r].pc == Posted || s.requests[r].pc == Done
    ensures |s.results| == |s.jobs| && !s.running
    ensures s.main.Destroying? ==> Enabled(c, s, if s.main.r < Total(c) then DestroyRequest else CloseDatabase)
  {
    ReachableInv(c, s);
    NoneLeft(c, s);
  }

  lemma {:induction false} NoneLeft(c: Config, s: State)
    requires Inv(c, s) && (s.main.Destroying? || s.main.Finished?)
    ensures forall r :: 0 <= r < Total(c) ==> s.requests[r].pc == Posted || s.requests[r].pc == Done
    ensures |s.results| == |s.jobs| && !s.running
    ensures s.main.Destroying? ==> Enabled(c, s, if s.main.r < Total(c) then DestroyRequest else CloseDatabase)
  {
    forall r | 0 <= r < Total(c) ensures s.requests[r].pc == Posted || s.requests[r].pc == Done {
      assert PlaceInv(s.posted, s.queues, s.busy, s.requests[r], r);
    }
    if |s.results| < |s.jobs| {
      var r := s.jobs[|s.results|].request;
      assert JobInv(s.requests, s.jobs, |s.results|);
      CountGrows(s.jobs, |s.results| + 1, |s.jobs|, r);
    }
  }

  /** SIGINT ends the wait of the main thread whatever the requests are at; the first worker is stopped next. */
  lemma {:induction false} InterruptEndsWait(c: Config, s: State)
    requires Shaped(c, s) && s.main.Waiting?
    ensures !s.interrupted ==> Enabled(c, s, Interrupt) && Next(c, s, Interrupt) == s.(interrupted := true)
    ensures s.interrupted ==> Enabled(c, s, Wake) && Next(c, s, Wake) == s.(main := Stopping(0))
  {
  }

  /** Workers the teardown has come to. */
  predicate StopReached(main: MainPc, v: nat) {
    match main
    case Stopping(w) => v < w
    case Joining(w) => v <= w
    case Destroying(_) => true
    case Finished => true
    case _ => false
  }

  /** Only they are stopped, and a destroyed request that had row queries has acquired all it was released. */
  ghost predicate Orderly(c: Config, s: State)
    requires Shaped(c, s)
  {
    && (forall v :: 0 <= v < |s.stopped| && s.stopped[v] ==> StopReached(s.main, v))
    && forall r :: 0 <= r < Total(c) && r < Destroyed(s.main, Total(c)) ==> Emptied(s.requests[r])
  }

  predicate Emptied(q: Request) {
    q.queries > 0 ==> q.count == 0
  }

  lemma {:induction false} StaysOrderly(c: Config, s: State, step: Step)
    requires Inv(c, s) && Enabled(c, s, step) && Orderly(c, s)
    ensures Shaped(c, Next(c, s, step)) && Orderly(c, Next(c, s, step))
  {
    if s.main.Destroying? || s.main.Finished? {
      NoneLeft(c, s);
      EmptiedInOrder(c, s, step);
    } else {
      StoppedInOrder(c, s, step);
    }
  }

  lemma {:induction false} StoppedInOrder(c: Config, s: State, step: Step)
    requires Shaped(c, s) && Enabled(c, s, step) && Orderly(c, s) && !s.main.Destroying? && !s.main.Finished?
    ensures Shaped(c, Next(c, s, step)) && Orderly(c, Next(c, s, step))
  {
  }

  lemma {:induction false} EmptiedInOrder(c: Config, s: State, step: Step)
    requires Inv(c, s) && Enabled(c, s, step) && Orderly(c, s) && (s.main.Destroying? || s.main.Finished?)
    requires forall r :: 0 <= r < Total(c) ==> s.requests[r].pc == Posted || s.requests[r].pc == Done
    requires |s.results| == |s.jobs|
    ensures Shaped(c, Next(c, s, step)) && Orderly(c, Next(c, s, step))
  {
    if step.DestroyRequest? {
      var r := s.main.r;
      assert RequestInv(c.outcomes[r], s.requests[r], CountOf(s.jobs, |s.jobs|, r), CountOf(s.jobs, |s.results|, r),
                        r < Destroyed(s.main, Total(c)));
    }
  }

  lemma {:induction false} OrderlyInRun(c: Config, s: State, run: seq<Step>)
    requires Inv(c, s) && IsRun(c, s, run) && Orderly(c, s)
    ensures Orderly(c, After(c, s, run))
    decreases |run|
  {
    if run != [] {
      StepKeeps(c, s, run[0]);
      StaysOrderly(c, s, run[0]);
      OrderlyInRun(c, Next(c, s, run[0]), run[1..]);
    }
  }

  /** Workers are stopped one after the other, and destructors leave nothing on the semaphores they acquire. */
  lemma {:induction false} TeardownIsOrderly(c: Config, s: State)
    requires Reachable(c, s)
    ensures Orderly(c, s)
  {
    var run: seq<Step> :| IsRun(c, Initial(c), run) && After(c, Initial(c), run) == s;
    InitialInv(c);
    OrderlyInRun(c, Initial(c), run);
  }
}
