/**
 The fetch-and-store protocol of apps/history_reader.cpp as a state machine: the main thread posts requests
 round-robin to single-threaded HTTP workers; each request posts its row queries to one single-threaded
 database worker, waits on its own semaphore until all have run, posts one timestamp query, waits again and
 releases the main thread's semaphore. SIGINT may end the main thread's wait early; then the HTTP workers are
 stopped and joined one by one, the requests are destroyed, and the database worker is stopped and joined.

 Follows HistoryHandler (history_reader.cpp:93-274), Semaphore (libs/Semaphore/Semaphore.cpp:21-45),
 DatabaseConnection (libs/QueryRunner/QueryRunner.cpp:53-84) and HTTPSRequestHandlerGroup
 (libs/HTTPSRequestHandler/HTTPSRequestHandler.cpp:111-172, 180-210).
 */
module HistoryProtocol {
  import opened Wrappers

  /**
   What a request will meet: a failure before `handleResponse`, or a reply with its items, each a well-formed
   record or one for which building the query throws. A reply that is no JSON is a reply without items.
   */
  datatype Outcome = HttpError | Reply(items: seq<bool>)

  datatype Config = Config(workers: nat, outcomes: seq<Outcome>)

  datatype Job = Row(request: nat, k: nat) | Stamp(request: nat)

  datatype RequestPc =
    | NotPosted
    | Posted            // in a worker's queue
    | Posting(i: nat)   // in handleResponse, next item i; behind the last one it waits for its rows
    | AwaitStamp        // waits for its timestamp query
    | Finalizing
    | Done

  /**
   `worker` is the handler the request was posted to, `queries` the length of its query vector, `count` its own
   semaphore.
   */
  datatype Request = Request(pc: RequestPc, worker: nat, queries: nat, count: nat)

  datatype MainPc =
    | PostingRequests
    | Waiting
    | Stopping(w: nat)    // ioService.stop() of worker w
    | Joining(w: nat)     // thread.join() of worker w
    | Destroying(r: nat)  // ~HistoryRequest of request r, behind the last one ~DatabaseConnection
    | Finished

  /**
   `jobs` are all queries ever posted to the database worker, in order; the first |results| have run (true) or
   reported an SQL error (false), and `running` says that the next one is being run.
   */
  datatype State = State(
    main: MainPc, posted: nat, next: nat, parent: nat, interrupted: bool,
    queues: seq<seq<nat>>, busy: seq<Option<nat>>, stopped: seq<bool>,
    requests: seq<Request>,
    jobs: seq<Job>, results: seq<bool>, running: bool)

  datatype Step =
    | PostRequest | StartWaiting | Interrupt | Wake | StopWorker | JoinWorker | DestroyRequest | CloseDatabase
    | Take(w: nat) | PostItem(r: nat) | PassRows(r: nat) | PassStamp(r: nat) | Finalize(r: nat)
    | TakeJob | FinishJob(ok: bool)

  function Initial(c: Config): State {
    var m := |c.outcomes|;
    State(PostingRequests, 0, 0, 0, false,
          seq(c.workers, _ => []), seq(c.workers, _ => None), seq(c.workers, _ => false),
          seq(m, _ => Request(NotPosted, 0, 0, 0)), [], [], false)
  }

  function Total(c: Config): nat {
    |c.outcomes|
  }

  /** The shapes every reachable state has; they make the step relation well-formed. */
  predicate Shaped(c: Config, s: State) {
    && s.next < c.workers
    && |s.queues| == |s.busy| == |s.stopped| == c.workers
    && |s.requests| == Total(c)
    && s.posted <= Total(c)
    && |s.results| <= |s.jobs|
  }

  predicate AllPosted(c: Config, s: State, r: nat)
    requires Shaped(c, s) && r < Total(c)
  {
    c.outcomes[r].Reply? && s.requests[r].pc == Posting(|c.outcomes[r].items|)
  }

  /**
   When a step can be taken. That a queued request, a query's request and a request's worker exist is part of it only
   to make the next state well-formed; it holds in every reachable state.
   */
  predicate Enabled(c: Config, s: State, step: Step)
    requires Shaped(c, s)
  {
    match step
    case PostRequest => s.main.PostingRequests? && s.posted < Total(c)
    case StartWaiting => s.main.PostingRequests? && s.posted == Total(c)
    case Interrupt => !s.interrupted
    case Wake => s.main.Waiting? && (s.interrupted || s.parent >= Total(c))
    case StopWorker => s.main.Stopping? && s.main.w < c.workers
    case JoinWorker => s.main.Joining? && s.main.w < c.workers && s.busy[s.main.w] == None
    case DestroyRequest =>
      s.main.Destroying? && s.main.r < Total(c) &&
      // the destructor acquires only if there were queries
      (s.requests[s.main.r].queries == 0 || s.requests[s.main.r].count >= s.requests[s.main.r].queries + 1)
    case CloseDatabase => s.main.Destroying? && s.main.r == Total(c) && !s.running
    case Take(w) => w < c.workers && !s.stopped[w] && s.busy[w] == None && s.queues[w] != []
                    && s.queues[w][0] < Total(c)
    case PostItem(r) =>
      r < Total(c) && c.outcomes[r].Reply? && s.requests[r].pc.Posting?
      && s.requests[r].pc.i < |c.outcomes[r].items|
    case PassRows(r) => r < Total(c) && AllPosted(c, s, r) && s.requests[r].count == s.requests[r].queries
    case PassStamp(r) => r < Total(c) && s.requests[r].pc.AwaitStamp?
                         && s.requests[r].count == s.requests[r].queries + 1
    case Finalize(r) => r < Total(c) && s.requests[r].pc.Finalizing? && s.requests[r].worker < c.workers
    case TakeJob => !s.main.Finished? && !s.running && |s.results| < |s.jobs|
    case FinishJob(_) => s.running && |s.results| < |s.jobs| && s.jobs[|s.results|].request < Total(c)
  }

  /** next = (next + 1) % handlers.size() */
  function Rotate(next: nat, n: nat): nat
    requires next < n
  {
    if next + 1 == n then 0 else next + 1
  }

  function SetRequest(s: State, r: nat, q: Request): State
    requires r < |s.requests|
  {
    s.(requests := s.requests[r := q])
  }

  function Next(c: Config, s: State, step: Step): State
    requires Shaped(c, s) && Enabled(c, s, step)
  {
    match step
    case PostRequest =>
      var w, r := s.next, s.posted;
      SetRequest(s.(posted := r + 1, next := Rotate(w, c.workers), queues := s.queues[w := s.queues[w] + [r]]), r,
                 s.requests[r].(pc := Posted, worker := w))
    case StartWaiting => s.(main := Waiting)
    case Interrupt => s.(interrupted := true)
    case Wake => s.(main := Stopping(0))
    case StopWorker => s.(main := Joining(s.main.w), stopped := s.stopped[s.main.w := true])
    case JoinWorker => s.(main := if s.main.w + 1 < c.workers then Stopping(s.main.w + 1) else Destroying(0))
    case DestroyRequest =>
      var r := s.main.r;
      var q := s.requests[r];
      var left := if q.queries == 0 then q.count else q.count - (q.queries + 1);
      SetRequest(s.(main := Destroying(r + 1)), r, q.(count := left))
    case CloseDatabase => s.(main := Finished)
    case Take(w) =>
      var r := s.queues[w][0];
      SetRequest(s.(queues := s.queues[w := s.queues[w][1..]], busy := s.busy[w := Some(r)]), r,
                 s.requests[r].(pc := if c.outcomes[r].HttpError? then Finalizing else Posting(0)))
    case PostItem(r) =>
      var q := s.requests[r];
      if c.outcomes[r].items[q.pc.i] then
        SetRequest(s.(jobs := s.jobs + [Row(r, q.queries)]), r,
                   q.(pc := Posting(q.pc.i + 1), queries := q.queries + 1))
      else
        SetRequest(s, r, q.(pc := Posting(q.pc.i + 1)))
    case PassRows(r) => SetRequest(s.(jobs := s.jobs + [Stamp(r)]), r, s.requests[r].(pc := AwaitStamp))
    case PassStamp(r) => SetRequest(s, r, s.requests[r].(pc := Finalizing))
    case Finalize(r) =>
      SetRequest(s.(parent := s.parent + 1, busy := s.busy[s.requests[r].worker := None]), r,
                 s.requests[r].(pc := Done))
    case TakeJob => s.(running := true)
    case FinishJob(ok) =>
      var r := s.jobs[|s.results|].request;
      SetRequest(s.(running := false, results := s.results + [ok]), r,
                 s.requests[r].(count := s.requests[r].count + 1))
  }

  // ------------------------------------------------ runs

  /** A run from `s`: each step is enabled where it is taken. */
  predicate IsRun(c: Config, s: State, run: seq<Step>)
    decreases |run|
  {
    Shaped(c, s) && (run == [] || (Enabled(c, s, run[0]) && IsRun(c, Next(c, s, run[0]), run[1..])))
  }

  function After(c: Config, s: State, run: seq<Step>): (t: State)
    requires IsRun(c, s, run)
    ensures Shaped(c, t)
    decreases |run|
  {
    if run == [] then s else After(c, Next(c, s, run[0]), run[1..])
  }

  ghost predicate Reachable(c: Config, s: State): (yes: bool)
    ensures yes ==> Shaped(c, s)
  {
    c.workers > 0 && exists run: seq<Step> :: IsRun(c, Initial(c), run) && After(c, Initial(c), run) == s
  }

  // ------------------------------------------------ the invariant

  /** How many of the first `n` jobs belong to a request. */
  function CountOf(jobs: seq<Job>, n: nat, r: nat): nat
    requires n <= |jobs|
  {
    if n == 0 then 0 else CountOf(jobs, n - 1, r) + (if jobs[n - 1].request == r then 1 else 0)
  }

  /** How many of the first `n` items become queries. */
  function Good(items: seq<bool>, n: nat): nat
    requires n <= |items|
  {
    if n == 0 then 0 else Good(items, n - 1) + (if items[n - 1] then 1 else 0)
  }

  predicate Active(pc: RequestPc) {
    pc.Posting? || pc.AwaitStamp? || pc.Finalizing?
  }

  /** The timestamp query has been posted, or the request failed. */
  predicate Stamped(pc: RequestPc) {
    pc.AwaitStamp? || pc.Finalizing? || pc.Done?
  }

  /** The requests destroyed so far. */
  function Destroyed(main: MainPc, total: nat): nat {
    match main
    case Destroying(r) => r
    case Finished => total
    case _ => 0
  }

  /** Where one request is, how many queries it has posted and how many of them have run. */
  predicate RequestInv(o: Outcome, q: Request, total: nat, done: nat, destroyed: bool) {
    && done <= total
    && (!destroyed ==> q.count == done)
    && match q.pc
       case NotPosted => q.queries == 0 && total == 0
       case Posted => q.queries == 0 && total == 0
       case Posting(i) => o.Reply? && i <= |o.items| && q.queries == Good(o.items, i) && total == q.queries
       case AwaitStamp =>
         o.Reply? && q.queries == Good(o.items, |o.items|) && total == q.queries + 1 && done >= q.queries
       case _ =>
         if o.HttpError? then q.queries == 0 && total == 0
         else q.queries == Good(o.items, |o.items|) && total == q.queries + 1 && done == total
  }

  ghost predicate RequestsInv(outcomes: seq<Outcome>, requests: seq<Request>, jobs: seq<Job>, n: nat, destroyed: nat) {
    && |outcomes| == |requests|
    && n <= |jobs|
    && forall r :: 0 <= r < |requests| ==>
         RequestInv(outcomes[r], requests[r], CountOf(jobs, |jobs|, r), CountOf(jobs, n, r), r < destroyed)
  }

  /**
   Every job belongs to a request; no job is posted twice; the rows of a request are numbered by its query
   vector; a timestamp comes behind all rows of its request.
   */
  ghost predicate JobsInv(requests: seq<Request>, jobs: seq<Job>) {
    && (forall p :: 0 <= p < |jobs| ==> JobInv(requests, jobs, p))
    && (forall p, p' :: 0 <= p < p' < |jobs| ==> jobs[p] != jobs[p'])
    && (forall r, k: nat :: 0 <= r < |requests| && k < requests[r].queries ==> Row(r, k) in jobs)
  }

  ghost predicate JobInv(requests: seq<Request>, jobs: seq<Job>, p: nat)
    requires p < |jobs|
  {
    && jobs[p].request < |requests|
    && match jobs[p]
       case Row(r, k) => k < requests[r].queries
       case Stamp(r) => Stamped(requests[r].pc) && RowsBefore(requests[r].queries, jobs, p, r)
  }

  ghost predicate RowsBefore(queries: nat, jobs: seq<Job>, p: nat, r: nat)
    requires p <= |jobs|
  {
    forall k: nat :: k < queries ==> Row(r, k) in jobs[..p]
  }

  /** A posted request is in its worker's queue, an active one is what its worker is busy with. */
  ghost predicate WorkersInv(posted: nat, queues: seq<seq<nat>>, busy: seq<Option<nat>>, requests: seq<Request>) {
    && |queues| == |busy|
    && (forall r :: 0 <= r < |requests| ==> PlaceInv(posted, queues, busy, requests[r], r))
    && (forall w, i :: 0 <= w < |queues| && 0 <= i < |queues[w]| ==> InQueue(requests, w, queues[w][i]))
    && (forall w, i, j :: 0 <= w < |queues| && 0 <= i < j < |queues[w]| ==> queues[w][i] != queues[w][j])
    && (forall w :: 0 <= w < |busy| && busy[w].Some? ==> IsBusy(requests, w, busy[w].value))
  }

  predicate PlaceInv(posted: nat, queues: seq<seq<nat>>, busy: seq<Option<nat>>, q: Request, r: nat)
    requires |queues| == |busy|
  {
    && (q.pc.NotPosted? <==> r >= posted)
    && (!q.pc.NotPosted? ==> q.worker < |queues|)
    && (q.pc.Posted? ==> r in queues[q.worker])
    && (Active(q.pc) ==> busy[q.worker] == Some(r))
  }

  predicate InQueue(requests: seq<Request>, w: nat, r: nat) {
    r < |requests| && requests[r].worker == w && requests[r].pc.Posted?
  }

  predicate IsBusy(requests: seq<Request>, w: nat, r: nat) {
    r < |requests| && requests[r].worker == w && Active(requests[r].pc)
  }

  function DoneCount(requests: seq<Request>): nat {
    if requests == [] then 0 else (if requests[0].pc.Done? then 1 else 0) + DoneCount(requests[1..])
  }

  /** The first `n` workers are stopped and idle. */
  ghost predicate Joined(stopped: seq<bool>, busy: seq<Option<nat>>, n: nat) {
    && n <= |stopped| == |busy|
    && forall v :: 0 <= v < n ==> stopped[v] && busy[v] == None
  }

  /** The teardown: which workers are stopped and joined. */
  ghost predicate MainInv(main: MainPc, stopped: seq<bool>, busy: seq<Option<nat>>, total: nat) {
    && |stopped| == |busy|
    && match main
       case PostingRequests => forall v :: 0 <= v < |stopped| ==> !stopped[v]
       case Waiting => forall v :: 0 <= v < |stopped| ==> !stopped[v]
       case Stopping(w) => w < |stopped| && Joined(stopped, busy, w)
       case Joining(w) => w < |stopped| && stopped[w] && Joined(stopped, busy, w)
       case Destroying(r) => r <= total && Joined(stopped, busy, |stopped|)
       case Finished => Joined(stopped, busy, |stopped|)
  }

  /** The main thread's semaphore counts the finished requests; without SIGINT it waits for all. */
  predicate ParentInv(c: Config, s: State) {
    && s.parent == DoneCount(s.requests)
    && (!s.main.PostingRequests? ==> s.posted == Total(c))
    && (s.running ==> |s.results| < |s.jobs|)
    && (!s.interrupted && !s.main.PostingRequests? && !s.main.Waiting? ==> s.parent == Total(c))
  }

  ghost predicate Inv(c: Config, s: State) {
    && Shaped(c, s)
    && RequestsInv(c.outcomes, s.requests, s.jobs, |s.results|, Destroyed(s.main, Total(c)))
    && JobsInv(s.requests, s.jobs)
    && WorkersInv(s.posted, s.queues, s.busy, s.requests)
    && MainInv(s.main, s.stopped, s.busy, Total(c))
    && ParentInv(c, s)
  }
}
