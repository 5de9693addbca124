/** The history protocol never gets stuck, every run is finite, and a run that cannot go on has done everything. */
module HistoryProgress {
  import opened Wrappers
  import opened HistoryProtocol
  import opened HistorySafety
  import opened HistoryProperties

  // ------------------------------------------------ a step that does not need SIGINT

  /** A step that neither is SIGINT nor a wake-up the main thread's semaphore does not bring about itself. */
  predicate Sure(c: Config, s: State, step: Step)
    requires Shaped(c, s)
  {
    Enabled(c, s, step) && step != Interrupt && (step == Wake ==> s.parent >= Total(c))
  }

  function DatabaseStep(s: State): Step {
    if s.running then FinishJob(true) else TakeJob
  }

  lemma {:induction false} DatabaseGoesOn(c: Config, s: State)
    requires Inv(c, s) && |s.results| < |s.jobs|
    ensures Sure(c, s, DatabaseStep(s))
  {
    var r := s.jobs[|s.results|].request;
    assert JobInv(s.requests, s.jobs, |s.results|);
    CountGrows(s.jobs, |s.results| + 1, |s.jobs|, r);
    if s.main.Finished? || s.main.Destroying? {
      NoneLeft(c, s);
    }
  }

  lemma {:induction false} UnfinishedJob(jobs: seq<Job>, n: nat, r: nat)
    requires n <= |jobs| && CountOf(jobs, n, r) < CountOf(jobs, |jobs|, r)
    ensures n < |jobs|
  {
  }

  /** What an active request, or the database worker for it, does next. */
  function RequestStep(c: Config, s: State, r: nat): Step
    requires Shaped(c, s) && r < Total(c)
  {
    var q := s.requests[r];
    match q.pc
    case Posting(i) =>
      if c.outcomes[r].Reply? && i < |c.outcomes[r].items| then PostItem(r)
      else if q.count == q.queries then PassRows(r) else DatabaseStep(s)
    case AwaitStamp => if q.count == q.queries + 1 then PassStamp(r) else DatabaseStep(s)
    case _ => Finalize(r)
  }

  lemma {:induction false} RequestGoesForward(c: Config, s: State, r: nat)
    requires Inv(c, s) && r < Total(c) && Active(s.requests[r].pc)
    ensures Sure(c, s, RequestStep(c, s, r))
  {
    NotDestroyed(c, s, r);
    assert RequestInv(c.outcomes[r], s.requests[r], CountOf(s.jobs, |s.jobs|, r), CountOf(s.jobs, |s.results|, r),
                      false);
    if RequestStep(c, s, r) == DatabaseStep(s) {
      UnfinishedJob(s.jobs, |s.results|, r);
      DatabaseGoesOn(c, s);
    }
  }

  /** A worker that is neither stopped nor idle can go on, and so can one with a queued request. */
  lemma {:induction false} WorkerGoesOn(c: Config, s: State, w: nat) returns (step: Step)
    requires Inv(c, s) && w < c.workers && (s.busy[w].Some? || (s.queues[w] != [] && !s.stopped[w]))
    ensures Sure(c, s, step)
  {
    if s.busy[w].Some? {
      var r := s.busy[w].value;
      assert IsBusy(s.requests, w, r);
      RequestGoesForward(c, s, r);
      step := RequestStep(c, s, r);
    } else {
      assert InQueue(s.requests, w, s.queues[w][0]);
      step := Take(w);
    }
  }

  lemma {:induction false} SomeUnfinished(requests: seq<Request>) returns (r: nat)
    requires DoneCount(requests) < |requests|
    ensures r < |requests| && !requests[r].pc.Done?
  {
    DoneCountBound(requests);
    r :| r < |requests| && !requests[r].pc.Done?;
  }

  lemma {:induction false} WaitingGoesOn(c: Config, s: State) returns (step: Step)
    requires Inv(c, s) && s.main == Waiting
    ensures Sure(c, s, step)
  {
    if s.parent >= Total(c) {
      step := Wake;
    } else {
      var r := SomeUnfinished(s.requests);
      assert PlaceInv(s.posted, s.queues, s.busy, s.requests[r], r);
      step := WorkerGoesOn(c, s, s.requests[r].worker);
    }
  }

  lemma {:induction false} MainGoesOn(c: Config, s: State) returns (step: Step)
    requires Inv(c, s) && !s.main.Finished? && s.main != Waiting
    ensures Sure(c, s, step)
  {
    match s.main
    case PostingRequests => step := if s.posted < Total(c) then PostRequest else StartWaiting;
    case Stopping(w) => step := StopWorker;
    case Joining(w) =>
      if s.busy[w] == None {
        step := JoinWorker;
      } else {
        step := WorkerGoesOn(c, s, w);
      }
    case Destroying(r) =>
      NoneLeft(c, s);
      step := if r < Total(c) then DestroyRequest else CloseDatabase;
  }

  /** No reachable unfinished state is stuck, whether or not SIGINT ever arrives or wakes anybody. */
  lemma {:induction false} NeverStuck(c: Config, s: State) returns (step: Step)
    requires Reachable(c, s) && !s.main.Finished?
    ensures Sure(c, s, step)
  {
    ReachableInv(c, s);
    if s.main == Waiting {
      step := WaitingGoesOn(c, s);
    } else {
      step := MainGoesOn(c, s);
    }
  }

  // ------------------------------------------------ the measure

  function RequestRank(o: Outcome, pc: RequestPc): nat {
    var whole := if o.HttpError? then 2 else 3 * |o.items| + 6;
    match pc
    case NotPosted => whole + 1
    case Posted => whole
    case Posting(i) => if o.Reply? && i <= |o.items| then 3 * (|o.items| - i) + 5 else 0
    case AwaitStamp => 2
    case Finalizing => 1
    case Done => 0
  }

  function RequestsRank(outcomes: seq<Outcome>, requests: seq<Request>, n: nat): nat
    requires n <= |outcomes| && n <= |requests|
  {
    if n == 0 then 0
    else RequestsRank(outcomes, requests, n - 1) + RequestRank(outcomes[n - 1], requests[n - 1].pc)
  }

  function MainRank(main: MainPc, workers: nat, total: nat): int {
    match main
    case PostingRequests => 2 * workers + total + 5
    case Waiting => 2 * workers + total + 4
    case Stopping(w) => 2 * (workers - w) + total + 3
    case Joining(w) => 2 * (workers - w) + total + 2
    case Destroying(r) => total - r + 1
    case Finished => 0
  }

  /** Bounds how many steps the protocol can still take. */
  function Rank(c: Config, s: State): int
    requires Shaped(c, s)
  {
    RequestsRank(c.outcomes, s.requests, Total(c))
    + 2 * (|s.jobs| - |s.results|) - (if s.running then 1 else 0)
    + MainRank(s.main, c.workers, Total(c))
    + (if s.interrupted then 0 else 1)
  }

  lemma {:induction false} RankUpdate(outcomes: seq<Outcome>, requests: seq<Request>, n: nat, r: nat, q: Request)
    requires n <= |outcomes| && n <= |requests| && r < |requests| && r < |outcomes|
    ensures RequestsRank(outcomes, requests[r := q], n) == RequestsRank(outcomes, requests, n)
              + if r < n then RequestRank(outcomes[r], q.pc) - RequestRank(outcomes[r], requests[r].pc) else 0
  {
    if n > 0 {
      RankUpdate(outcomes, requests, n - 1, r, q);
    }
  }

  /** The request a step changes, if any. */
  function Changed(s: State, step: Step): Option<nat> {
    match step
    case PostRequest => Some(s.posted)
    case DestroyRequest => if s.main.Destroying? then Some(s.main.r) else None
    case Take(w) => if w < |s.queues| && s.queues[w] != [] then Some(s.queues[w][0]) else None
    case PostItem(r) => Some(r)
    case PassRows(r) => Some(r)
    case PassStamp(r) => Some(r)
    case Finalize(r) => Some(r)
    case FinishJob(_) => if |s.results| < |s.jobs| then Some(s.jobs[|s.results|].request) else None
    case _ => None
  }

  lemma {:induction false} RankNat(c: Config, s: State)
    requires Inv(c, s)
    ensures Rank(c, s) >= 0
  {
  }

  /** A posted request was new and a taken one was queued. */
  predicate Placed(c: Config, s: State, step: Step)
    requires Shaped(c, s) && Enabled(c, s, step)
  {
    && (step.PostRequest? ==> s.requests[s.posted].pc.NotPosted?)
    && (step.Take? ==> s.requests[s.queues[step.w][0]].pc.Posted?)
  }

  lemma {:induction false} StepPlaced(c: Config, s: State, step: Step)
    requires Shaped(c, s) && Enabled(c, s, step) && WorkersInv(s.posted, s.queues, s.busy, s.requests)
    ensures Placed(c, s, step)
  {
    if step.Take? {
      assert InQueue(s.requests, step.w, s.queues[step.w][0]);
    } else if step.PostRequest? {
      assert PlaceInv(s.posted, s.queues, s.busy, s.requests[s.posted], s.posted);
    }
  }

  /** A step leaves all other requests alone. */
  lemma {:induction false} OneChanged(c: Config, s: State, step: Step)
    requires Shaped(c, s) && Enabled(c, s, step)
    ensures var t, r := Next(c, s, step), Changed(s, step);
            if r.None? then t.requests == s.requests
            else r.value < |s.requests| == |t.requests| && t.requests == s.requests[r.value := t.requests[r.value]]
  {
  }

  /** By how much a step brings its request closer to its end. */
  function Drop(step: Step): nat {
    if step.PostItem? || step.PassRows? then 3
    else if step.PostRequest? || step.Take? || step.PassStamp? || step.Finalize? then 1
    else 0
  }

  lemma {:induction false} RequestDrops(c: Config, s: State, step: Step, r: nat)
    requires Shaped(c, s) && Enabled(c, s, step) && Placed(c, s, step)
    requires Changed(s, step) == Some(r) && r < |s.requests|
    ensures var t := Next(c, s, step);
            r < |t.requests| &&
            RequestRank(c.outcomes[r], t.requests[r].pc) + Drop(step) <= RequestRank(c.outcomes[r], s.requests[r].pc)
  {
  }

  /** How a step changes the ranks of the requests. */
  lemma {:induction false} RequestsDrop(c: Config, s: State, step: Step)
    requires Shaped(c, s) && Enabled(c, s, step) && Placed(c, s, step)
    ensures RequestsRank(c.outcomes, Next(c, s, step).requests, Total(c)) + Drop(step) <=
            RequestsRank(c.outcomes, s.requests, Total(c))
  {
    var t := Next(c, s, step);
    OneChanged(c, s, step);
    if Changed(s, step).Some? {
      var r := Changed(s, step).value;
      RequestDrops(c, s, step, r);
      RankUpdate(c.outcomes, s.requests, Total(c), r, t.requests[r]);
    }
  }

  /** Every step, of whatever thread, brings the protocol closer to its end. */
  lemma {:induction false} StepDrops(c: Config, s: State, step: Step)
    requires Shaped(c, s) && Enabled(c, s, step) && Placed(c, s, step)
    ensures Rank(c, Next(c, s, step)) < Rank(c, s)
  {
    RequestsDrop(c, s, step);
  }

  /** No run is longer than the rank of the state it starts in. */
  lemma {:induction false} RunsAreShort(c: Config, s: State, run: seq<Step>)
    requires Inv(c, s) && IsRun(c, s, run)
    ensures |run| + Rank(c, After(c, s, run)) <= Rank(c, s)
    decreases |run|
  {
    if run != [] {
      StepKeeps(c, s, run[0]);
      StepPlaced(c, s, run[0]);
      StepDrops(c, s, run[0]);
      RunsAreShort(c, Next(c, s, run[0]), run[1..]);
    }
  }

  /**
   Every run from the start is bounded, and where it cannot go on without SIGINT the program has ended: each request
   is untouched or complete, all posted queries have run, and if SIGINT never came, every request is complete and
   the main semaphore counted it.
   */
  lemma {:induction false} RunsEndWell(c: Config, run: seq<Step>)
    requires c.workers > 0 && IsRun(c, Initial(c), run)
    ensures |run| <= Rank(c, Initial(c))
    ensures var s := After(c, Initial(c), run);
            (forall step :: !Sure(c, s, step)) ==>
              && s.main == Finished
              && (forall r :: 0 <= r < Total(c) ==> s.requests[r].pc == Posted || s.requests[r].pc == Done)
              && |s.results| == |s.jobs|
              && (!s.interrupted ==> s.parent == Total(c))
              && (!s.interrupted ==> forall r :: 0 <= r < Total(c) ==> s.requests[r].pc == Done)
  {
    var s := After(c, Initial(c), run);
    InitialInv(c);
    RunKeeps(c, Initial(c), run);
    RunsAreShort(c, Initial(c), run);
    RankNat(c, s);
    assert Reachable(c, s);
    if forall step :: !Sure(c, s, step) {
      if !s.main.Finished? {
        var step := NeverStuck(c, s);
      }
      NoneLeft(c, s);
      SemaphoresCount(c, s);
    }
  }
}
