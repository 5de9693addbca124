/** The invariant of the history protocol holds in every reachable state, under every interleaving. */
module HistorySafety {
  import opened Wrappers
  import opened HistoryProtocol

  // ------------------------------------------------ counting

  lemma {:induction false} CountAppend(jobs: seq<Job>, j: Job, n: nat, r: nat)
    requires n <= |jobs|
    ensures CountOf(jobs + [j], n, r) == CountOf(jobs, n, r)
  {
    if n > 0 {
      CountAppend(jobs, j, n - 1, r);
    }
  }

  lemma {:induction false} CountGrows(jobs: seq<Job>, n: nat, m: nat, r: nat)
    requires n <= m <= |jobs|
    ensures CountOf(jobs, n, r) <= CountOf(jobs, m, r)
  {
    if n < m {
      CountGrows(jobs, n, m - 1, r);
    }
  }

  lemma {:induction false} DoneCountUpdate(requests: seq<Request>, r: nat, q: Request)
    requires r < |requests|
    ensures DoneCount(requests[r := q]) ==
            DoneCount(requests) - (if requests[r].pc.Done? then 1 else 0) + (if q.pc.Done? then 1 else 0)
  {
    if r == 0 {
      assert requests[0 := q][1..] == requests[1..];
    } else {
      DoneCountUpdate(requests[1..], r - 1, q);
      assert requests[r := q][1..] == requests[1..][r - 1 := q];
    }
  }

  lemma {:induction false} DoneCountBound(requests: seq<Request>)
    ensures DoneCount(requests) <= |requests|
    ensures DoneCount(requests) == |requests| <==> forall r :: 0 <= r < |requests| ==> requests[r].pc.Done?
  {
    if requests != [] {
      DoneCountBound(requests[1..]);
      assert forall r :: 0 < r < |requests| ==> requests[r] == requests[1..][r - 1];
    }
  }

  // ------------------------------------------------ the queries of the requests

  lemma {:induction false} RequestSet(outcomes: seq<Outcome>, requests: seq<Request>, jobs: seq<Job>, n: nat,
                                      destroyed: nat, r: nat, q: Request)
    requires RequestsInv(outcomes, requests, jobs, n, destroyed) && r < |requests|
    requires RequestInv(outcomes[r], q, CountOf(jobs, |jobs|, r), CountOf(jobs, n, r), r < destroyed)
    ensures RequestsInv(outcomes, requests[r := q], jobs, n, destroyed)
  {
  }

  lemma {:induction false} JobPosted(outcomes: seq<Outcome>, requests: seq<Request>, jobs: seq<Job>, j: Job, n: nat,
                                     destroyed: nat, q: Request)
    requires RequestsInv(outcomes, requests, jobs, n, destroyed) && j.request < |requests|
    requires var r := j.request;
             RequestInv(outcomes[r], q, CountOf(jobs, |jobs|, r) + 1, CountOf(jobs, n, r), r < destroyed)
    ensures RequestsInv(outcomes, requests[j.request := q], jobs + [j], n, destroyed)
  {
    var after, all := requests[j.request := q], jobs + [j];
    forall v | 0 <= v < |requests|
      ensures RequestInv(outcomes[v], after[v], CountOf(all, |all|, v), CountOf(all, n, v), v < destroyed)
    {
      CountAppend(jobs, j, |jobs|, v);
      CountAppend(jobs, j, n, v);
    }
  }

  lemma {:induction false} JobRun(outcomes: seq<Outcome>, requests: seq<Request>, jobs: seq<Job>, n: nat,
                                  destroyed: nat)
    requires RequestsInv(outcomes, requests, jobs, n, destroyed)
    requires n < |jobs| && jobs[n].request < |requests|
    ensures var r := jobs[n].request;
            RequestsInv(outcomes, requests[r := requests[r].(count := requests[r].count + 1)], jobs, n + 1, destroyed)
  {
    var r, m := jobs[n].request, n + 1;
    var after := requests[r := requests[r].(count := requests[r].count + 1)];
    forall v | 0 <= v < |requests|
      ensures RequestInv(outcomes[v], after[v], CountOf(jobs, |jobs|, v), CountOf(jobs, m, v), v < destroyed)
    {
      CountGrows(jobs, m, |jobs|, v);
      assert RequestInv(outcomes[v], requests[v], CountOf(jobs, |jobs|, v), CountOf(jobs, n, v), v < destroyed);
    }
  }

  lemma {:induction false} RequestGone(outcomes: seq<Outcome>, requests: seq<Request>, jobs: seq<Job>, n: nat, r: nat,
                                       count: nat)
    requires RequestsInv(outcomes, requests, jobs, n, r) && r < |requests|
    ensures RequestsInv(outcomes, requests[r := requests[r].(count := count)], jobs, n, r + 1)
  {
  }

  // ------------------------------------------------ the queries of the database worker

  lemma {:induction false} JobsKept(requests: seq<Request>, jobs: seq<Job>, r: nat, q: Request)
    requires JobsInv(requests, jobs) && r < |requests|
    requires q.queries == requests[r].queries && (Stamped(requests[r].pc) ==> Stamped(q.pc))
    ensures JobsInv(requests[r := q], jobs)
  {
    var after := requests[r := q];
    forall p | 0 <= p < |jobs| ensures JobInv(after, jobs, p) {
      assert JobInv(requests, jobs, p);
    }
  }

  /** A posted job keeps the others in place. */
  lemma {:induction false} OldJobKept(requests: seq<Request>, jobs: seq<Job>, j: Job, q: Request, p: nat)
    requires JobsInv(requests, jobs) && j.request < |requests| && p < |jobs|
    requires !Stamped(requests[j.request].pc) && q.queries >= requests[j.request].queries
    ensures JobInv(requests[j.request := q], jobs + [j], p)
  {
    assert JobInv(requests, jobs, p);
    assert (jobs + [j])[..p] == jobs[..p];
  }

  lemma {:induction false} RowPosted(requests: seq<Request>, jobs: seq<Job>, r: nat, q: Request)
    requires JobsInv(requests, jobs) && r < |requests| && !Stamped(requests[r].pc)
    requires q.queries == requests[r].queries + 1
    ensures JobsInv(requests[r := q], jobs + [Row(r, requests[r].queries)])
  {
    var after, k0 := requests[r := q], requests[r].queries;
    var j := Row(r, k0);
    var all := jobs + [j];
    forall p | 0 <= p < |all| ensures JobInv(after, all, p) {
      if p < |jobs| {
        OldJobKept(requests, jobs, j, q, p);
      }
    }
    forall p, p' | 0 <= p < p' < |all| ensures all[p] != all[p'] {
      assert JobInv(requests, jobs, p);
    }
    forall v, k: nat | 0 <= v < |after| && k < after[v].queries ensures Row(v, k) in all {
      if v == r && k == k0 {
        assert all[|jobs|] == Row(v, k);
      } else {
        assert Row(v, k) in jobs;
      }
    }
  }

  lemma {:induction false} StampPosted(requests: seq<Request>, jobs: seq<Job>, r: nat, q: Request)
    requires JobsInv(requests, jobs) && r < |requests| && !Stamped(requests[r].pc)
    requires q.queries == requests[r].queries && Stamped(q.pc)
    ensures JobsInv(requests[r := q], jobs + [Stamp(r)])
  {
    var after, j := requests[r := q], Stamp(r);
    var all := jobs + [j];
    assert all[..|jobs|] == jobs;
    assert RowsBefore(q.queries, all, |jobs|, r);
    forall p | 0 <= p < |all| ensures JobInv(after, all, p) {
      if p < |jobs| {
        OldJobKept(requests, jobs, j, q, p);
      }
    }
    forall p, p' | 0 <= p < p' < |all| ensures all[p] != all[p'] {
      assert JobInv(requests, jobs, p);
    }
  }

  // ------------------------------------------------ the HTTP workers

  lemma {:induction false} RequestEnqueued(posted: nat, queues: seq<seq<nat>>, busy: seq<Option<nat>>,
                                           requests: seq<Request>, w: nat, q: Request)
    requires WorkersInv(posted, queues, busy, requests) && posted < |requests| && w < |queues|
    requires q.pc == Posted && q.worker == w
    ensures WorkersInv(posted + 1, queues[w := queues[w] + [posted]], busy, requests[posted := q])
  {
    var more, after := queues[w := queues[w] + [posted]], requests[posted := q];
    forall r | 0 <= r < |after| ensures PlaceInv(posted + 1, more, busy, after[r], r) {
      assert PlaceInv(posted, queues, busy, requests[r], r);
      assert more[w][|queues[w]|] == posted;
    }
    forall v, i | 0 <= v < |more| && 0 <= i < |more[v]| ensures InQueue(after, v, more[v][i]) {
      if i < |queues[v]| {
        assert InQueue(requests, v, queues[v][i]);
      }
    }
    forall v, i, j | 0 <= v < |more| && 0 <= i < j < |more[v]| ensures more[v][i] != more[v][j] {
      assert InQueue(requests, v, queues[v][i]);
    }
    forall v | 0 <= v < |busy| && busy[v].Some? ensures IsBusy(after, v, busy[v].value) {
      assert IsBusy(requests, v, busy[v].value);
    }
  }

  lemma {:induction false} RequestTaken(posted: nat, queues: seq<seq<nat>>, busy: seq<Option<nat>>,
                                        requests: seq<Request>, w: nat, q: Request)
    requires WorkersInv(posted, queues, busy, requests) && w < |queues| && queues[w] != [] && busy[w] == None
    requires queues[w][0] < |requests| && q.worker == requests[queues[w][0]].worker && Active(q.pc)
    ensures var r := queues[w][0];
            WorkersInv(posted, queues[w := queues[w][1..]], busy[w := Some(r)], requests[r := q])
  {
    var r := queues[w][0];
    var fewer, now, after := queues[w := queues[w][1..]], busy[w := Some(r)], requests[r := q];
    assert InQueue(requests, w, queues[w][0]);
    forall v | 0 <= v < |after| ensures PlaceInv(posted, fewer, now, after[v], v) {
      assert PlaceInv(posted, queues, busy, requests[v], v);
    }
    forall v, i | 0 <= v < |fewer| && 0 <= i < |fewer[v]| ensures InQueue(after, v, fewer[v][i]) {
      var i' := if v == w then i + 1 else i;
      assert fewer[v][i] == queues[v][i'];
      assert InQueue(requests, v, queues[v][i']);
    }
    forall v | 0 <= v < |now| && now[v].Some? ensures IsBusy(after, v, now[v].value) {
      assert v != w ==> IsBusy(requests, v, busy[v].value);
    }
  }

  /** A request that its worker is busy with goes on, or ends and frees the worker. */
  lemma {:induction false} RequestGoesOn(posted: nat, queues: seq<seq<nat>>, busy: seq<Option<nat>>,
                                         requests: seq<Request>, r: nat, q: Request)
    requires WorkersInv(posted, queues, busy, requests) && r < |requests| && Active(requests[r].pc)
    requires q.worker == requests[r].worker && (Active(q.pc) || q.pc == Done) && q.worker < |busy|
    ensures WorkersInv(posted, queues, if q.pc == Done then busy[q.worker := None] else busy, requests[r := q])
  {
    var now, after := if q.pc == Done then busy[q.worker := None] else busy, requests[r := q];
    assert PlaceInv(posted, queues, busy, requests[r], r);
    forall v | 0 <= v < |after| ensures PlaceInv(posted, queues, now, after[v], v) {
      assert PlaceInv(posted, queues, busy, requests[v], v);
    }
    forall v, i | 0 <= v < |queues| && 0 <= i < |queues[v]| ensures InQueue(after, v, queues[v][i]) {
      assert InQueue(requests, v, queues[v][i]);
    }
    forall v | 0 <= v < |now| && now[v].Some? ensures IsBusy(after, v, now[v].value) {
      assert IsBusy(requests, v, busy[v].value);
    }
  }

  /** The semaphore of a request does not matter to the workers. */
  lemma {:induction false} CountIgnored(posted: nat, queues: seq<seq<nat>>, busy: seq<Option<nat>>,
                                        requests: seq<Request>, r: nat, count: nat)
    requires WorkersInv(posted, queues, busy, requests) && r < |requests|
    ensures WorkersInv(posted, queues, busy, requests[r := requests[r].(count := count)])
  {
    var after := requests[r := requests[r].(count := count)];
    forall v | 0 <= v < |after| ensures PlaceInv(posted, queues, busy, after[v], v) {
      assert PlaceInv(posted, queues, busy, requests[v], v);
    }
    forall v, i | 0 <= v < |queues| && 0 <= i < |queues[v]| ensures InQueue(after, v, queues[v][i]) {
      assert InQueue(requests, v, queues[v][i]);
    }
    forall v | 0 <= v < |busy| && busy[v].Some? ensures IsBusy(after, v, busy[v].value) {
      assert IsBusy(requests, v, busy[v].value);
    }
  }

  // ------------------------------------------------ the steps

  /** The destructors run only when no worker is busy. */
  lemma {:induction false} NotDestroyed(c: Config, s: State, r: nat)
    requires Inv(c, s) && r < Total(c) && Active(s.requests[r].pc)
    ensures Destroyed(s.main, Total(c)) == 0 && !s.main.Finished?
    ensures s.requests[r].worker < c.workers && s.busy[s.requests[r].worker] == Some(r)
  {
    assert PlaceInv(s.posted, s.queues, s.busy, s.requests[r], r);
  }

  lemma {:induction false} PostRequestKeeps(c: Config, s: State)
    requires Inv(c, s) && Enabled(c, s, PostRequest)
    ensures Inv(c, Next(c, s, PostRequest))
  {
    var r, q := s.posted, s.requests[s.posted].(pc := Posted, worker := s.next);
    assert PlaceInv(s.posted, s.queues, s.busy, s.requests[r], r);
    RequestSet(c.outcomes, s.requests, s.jobs, |s.results|, 0, r, q);
    JobsKept(s.requests, s.jobs, r, q);
    RequestEnqueued(s.posted, s.queues, s.busy, s.requests, s.next, q);
    DoneCountUpdate(s.requests, r, q);
  }

  lemma {:induction false} TakeKeeps(c: Config, s: State, w: nat)
    requires Inv(c, s) && Enabled(c, s, Take(w))
    ensures Inv(c, Next(c, s, Take(w)))
  {
    var r, t := s.queues[w][0], Next(c, s, Take(w));
    var q := t.requests[r];
    assert InQueue(s.requests, w, s.queues[w][0]);
    assert ParentInv(c, t) by { DoneCountUpdate(s.requests, r, q); }
    assert RequestsInv(c.outcomes, t.requests, t.jobs, |t.results|, Destroyed(t.main, Total(c))) by {
      RequestSet(c.outcomes, s.requests, s.jobs, |s.results|, Destroyed(s.main, Total(c)), r, q);
    }
    assert JobsInv(t.requests, t.jobs) by { JobsKept(s.requests, s.jobs, r, q); }
    assert WorkersInv(t.posted, t.queues, t.busy, t.requests) by {
      RequestTaken(s.posted, s.queues, s.busy, s.requests, w, q);
    }
  }

  lemma {:induction false} PostRowKeeps(c: Config, s: State, r: nat)
    requires Inv(c, s) && Enabled(c, s, PostItem(r)) && c.outcomes[r].items[s.requests[r].pc.i]
    ensures Inv(c, Next(c, s, PostItem(r)))
  {
    NotDestroyed(c, s, r);
    var t := Next(c, s, PostItem(r));
    var q, j := t.requests[r], Row(r, s.requests[r].queries);
    assert ParentInv(c, t) by { DoneCountUpdate(s.requests, r, q); }
    assert RequestsInv(c.outcomes, t.requests, t.jobs, |t.results|, 0) by {
      JobPosted(c.outcomes, s.requests, s.jobs, j, |s.results|, 0, q);
    }
    assert JobsInv(t.requests, t.jobs) by { RowPosted(s.requests, s.jobs, r, q); }
    assert WorkersInv(t.posted, t.queues, t.busy, t.requests) by {
      RequestGoesOn(s.posted, s.queues, s.busy, s.requests, r, q);
    }
  }

  /** A request goes on without posting a query. */
  lemma {:induction false} RequestMoves(c: Config, s: State, r: nat, q: Request)
    requires Inv(c, s) && r < Total(c) && Active(s.requests[r].pc) && Active(q.pc)
    requires q == s.requests[r].(pc := q.pc) && (Stamped(s.requests[r].pc) ==> Stamped(q.pc))
    requires RequestInv(c.outcomes[r], q, CountOf(s.jobs, |s.jobs|, r), CountOf(s.jobs, |s.results|, r), false)
    ensures Inv(c, SetRequest(s, r, q))
  {
    NotDestroyed(c, s, r);
    RequestSet(c.outcomes, s.requests, s.jobs, |s.results|, 0, r, q);
    JobsKept(s.requests, s.jobs, r, q);
    RequestGoesOn(s.posted, s.queues, s.busy, s.requests, r, q);
    DoneCountUpdate(s.requests, r, q);
  }

  lemma {:induction false} SkipItemKeeps(c: Config, s: State, r: nat)
    requires Inv(c, s) && Enabled(c, s, PostItem(r)) && !c.outcomes[r].items[s.requests[r].pc.i]
    ensures Inv(c, Next(c, s, PostItem(r)))
  {
    NotDestroyed(c, s, r);
    var i, q := s.requests[r].pc.i, s.requests[r].(pc := Posting(s.requests[r].pc.i + 1));
    assert RequestInv(c.outcomes[r], q, CountOf(s.jobs, |s.jobs|, r), CountOf(s.jobs, |s.results|, r), false) by {
      assert RequestInv(c.outcomes[r], s.requests[r], CountOf(s.jobs, |s.jobs|, r), CountOf(s.jobs, |s.results|, r),
                        false);
      assert Good(c.outcomes[r].items, i + 1) == Good(c.outcomes[r].items, i);
    }
    assert Next(c, s, PostItem(r)) == SetRequest(s, r, q);
    RequestMoves(c, s, r, q);
  }

  lemma {:induction false} PassRowsKeeps(c: Config, s: State, r: nat)
    requires Inv(c, s) && Enabled(c, s, PassRows(r))
    ensures Inv(c, Next(c, s, PassRows(r)))
  {
    NotDestroyed(c, s, r);
    var q := s.requests[r].(pc := AwaitStamp);
    JobPosted(c.outcomes, s.requests, s.jobs, Stamp(r), |s.results|, 0, q);
    StampPosted(s.requests, s.jobs, r, q);
    RequestGoesOn(s.posted, s.queues, s.busy, s.requests, r, q);
    DoneCountUpdate(s.requests, r, q);
  }

  lemma {:induction false} PassStampKeeps(c: Config, s: State, r: nat)
    requires Inv(c, s) && Enabled(c, s, PassStamp(r))
    ensures Inv(c, Next(c, s, PassStamp(r)))
  {
    NotDestroyed(c, s, r);
    RequestMoves(c, s, r, s.requests[r].(pc := Finalizing));
  }

  lemma {:induction false} FinalizeKeeps(c: Config, s: State, r: nat)
    requires Inv(c, s) && Enabled(c, s, Finalize(r))
    ensures Inv(c, Next(c, s, Finalize(r)))
  {
    NotDestroyed(c, s, r);
    var q := s.requests[r].(pc := Done);
    RequestSet(c.outcomes, s.requests, s.jobs, |s.results|, 0, r, q);
    JobsKept(s.requests, s.jobs, r, q);
    RequestGoesOn(s.posted, s.queues, s.busy, s.requests, r, q);
    DoneCountUpdate(s.requests, r, q);
    DoneCountBound(s.requests);
  }

  lemma {:induction false} FinishJobKeeps(c: Config, s: State, ok: bool)
    requires Inv(c, s) && Enabled(c, s, FinishJob(ok))
    ensures Inv(c, Next(c, s, FinishJob(ok)))
  {
    var t := Next(c, s, FinishJob(ok));
    FinishedRequests(c, s, ok);
    FinishedElsewhere(c, s, ok);
    assert Shaped(c, t) && MainInv(t.main, t.stopped, t.busy, Total(c));
  }

  lemma {:induction false} FinishedRequests(c: Config, s: State, ok: bool)
    requires Shaped(c, s) && Enabled(c, s, FinishJob(ok))
    requires RequestsInv(c.outcomes, s.requests, s.jobs, |s.results|, Destroyed(s.main, Total(c)))
    ensures var t := Next(c, s, FinishJob(ok));
            RequestsInv(c.outcomes, t.requests, t.jobs, |t.results|, Destroyed(t.main, Total(c)))
  {
    JobRun(c.outcomes, s.requests, s.jobs, |s.results|, Destroyed(s.main, Total(c)));
  }

  lemma {:induction false} FinishedElsewhere(c: Config, s: State, ok: bool)
    requires Shaped(c, s) && Enabled(c, s, FinishJob(ok)) && ParentInv(c, s)
    requires JobsInv(s.requests, s.jobs) && WorkersInv(s.posted, s.queues, s.busy, s.requests)
    ensures var t := Next(c, s, FinishJob(ok));
            && ParentInv(c, t) && JobsInv(t.requests, t.jobs)
            && WorkersInv(t.posted, t.queues, t.busy, t.requests)
  {
    var r := s.jobs[|s.results|].request;
    var q := s.requests[r].(count := s.requests[r].count + 1);
    DoneCountUpdate(s.requests, r, q);
    JobsKept(s.requests, s.jobs, r, q);
    CountIgnored(s.posted, s.queues, s.busy, s.requests, r, q.count);
  }

  lemma {:induction false} DestroyKeeps(c: Config, s: State)
    requires Inv(c, s) && Enabled(c, s, DestroyRequest)
    ensures Inv(c, Next(c, s, DestroyRequest))
  {
    var r, t := s.main.r, Next(c, s, DestroyRequest);
    var q := t.requests[r];
    RequestGone(c.outcomes, s.requests, s.jobs, |s.results|, r, q.count);
    JobsKept(s.requests, s.jobs, r, q);
    CountIgnored(s.posted, s.queues, s.busy, s.requests, r, q.count);
    DoneCountUpdate(s.requests, r, q);
  }

  /** The steps that touch no request. */
  lemma {:induction false} OtherKeeps(c: Config, s: State, step: Step)
    requires Inv(c, s) && Enabled(c, s, step)
    requires step.StartWaiting? || step.Interrupt? || step.Wake? || step.StopWorker? || step.JoinWorker?
             || step.CloseDatabase? || step.TakeJob?
    ensures Inv(c, Next(c, s, step))
  {
    DoneCountBound(s.requests);
  }

  /** Every step keeps the invariant. */
  lemma {:induction false} StepKeeps(c: Config, s: State, step: Step)
    requires Inv(c, s) && Enabled(c, s, step)
    ensures Inv(c, Next(c, s, step))
  {
    match step
    case PostRequest => PostRequestKeeps(c, s);
    case Take(w) => TakeKeeps(c, s, w);
    case PostItem(r) =>
      if c.outcomes[r].items[s.requests[r].pc.i] { PostRowKeeps(c, s, r); } else { SkipItemKeeps(c, s, r); }
    case PassRows(r) => PassRowsKeeps(c, s, r);
    case PassStamp(r) => PassStampKeeps(c, s, r);
    case Finalize(r) => FinalizeKeeps(c, s, r);
    case FinishJob(ok) => FinishJobKeeps(c, s, ok);
    case DestroyRequest => DestroyKeeps(c, s);
    case _ => OtherKeeps(c, s, step);
  }

  lemma {:induction false} NoJobs(outcomes: seq<Outcome>, requests: seq<Request>)
    requires |outcomes| == |requests| && forall r :: 0 <= r < |requests| ==> requests[r] == Request(NotPosted, 0, 0, 0)
    ensures DoneCount(requests) == 0
    ensures RequestsInv(outcomes, requests, [], 0, 0)
  {
    if requests != [] {
      NoJobs(outcomes[1..], requests[1..]);
    }
  }

  /** The initial state satisfies the invariant: only a group without handlers makes posting throw. */
  lemma {:induction false} InitialInv(c: Config)
    requires c.workers > 0
    ensures Inv(c, Initial(c))
  {
    NoJobs(c.outcomes, Initial(c).requests);
  }

  /** Every state reached by any run satisfies the invariant. */
  lemma {:induction false} RunKeeps(c: Config, s: State, run: seq<Step>)
    requires Inv(c, s) && IsRun(c, s, run)
    ensures Inv(c, After(c, s, run))
    decreases |run|
  {
    if run != [] {
      StepKeeps(c, s, run[0]);
      RunKeeps(c, Next(c, s, run[0]), run[1..]);
    }
  }

  lemma {:induction false} ReachableInv(c: Config, s: State)
    requires Reachable(c, s)
    ensures Inv(c, s)
  {
    var run: seq<Step> :| IsRun(c, Initial(c), run) && After(c, Initial(c), run) == s;
    InitialInv(c);
    RunKeeps(c, Initial(c), run);
  }
}
