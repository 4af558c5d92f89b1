/** Worker threads: the shared budget of a drain under every interleaving, and the bound on a pool's unfinished work. */
module Pool {
  import opened Basics

  // ---- `drain_synchronously` ----------------------------------------------------------------

  /** At the top of its loop, holding a token while its item runs, or returned. */
  datatype Phase = AtTop | Running | Returned

  datatype Worker = Worker(phase: Phase, ran: nat)

  datatype Drain = Drain(left: int, workers: seq<Worker>)

  /** What a worker's next step meets: `worked` says that its claim found work and the run did not raise. */
  datatype Step = Step(worker: nat, worked: bool)

  predicate CanStep(d: Drain, s: Step) {
    s.worker < |d.workers| && !d.workers[s.worker].phase.Returned?
  }

  /** One step of one worker; each is atomic, as the counter is only touched under its lock. */
  function Next(d: Drain, s: Step): Drain
    requires CanStep(d, s)
  {
    var w := d.workers[s.worker];
    if w.phase.AtTop? then
      if d.left <= 0 then d.(workers := d.workers[s.worker := w.(phase := Returned)])
      else Drain(d.left - 1, d.workers[s.worker := w.(phase := Running)])
    else if s.worked then d.(workers := d.workers[s.worker := Worker(AtTop, w.ran + 1)])
    else Drain(d.left + 1, d.workers[s.worker := w.(phase := Returned)])
  }

  predicate Schedule(d: Drain, steps: seq<Step>)
    decreases |steps|
  {
    steps == [] || (CanStep(d, steps[0]) && Schedule(Next(d, steps[0]), steps[1..]))
  }

  function Play(d: Drain, steps: seq<Step>): Drain
    requires Schedule(d, steps)
    decreases |steps|
  {
    if steps == [] then d else Play(Next(d, steps[0]), steps[1..])
  }

  function Start(maxItems: int, workers: nat): Drain {
    Drain(maxItems, seq(workers, i => Worker(AtTop, 0)))
  }

  function Held(workers: seq<Worker>): nat {
    if workers == [] then 0
    else Held(workers[..|workers| - 1]) + if workers[|workers| - 1].phase.Running? then 1 else 0
  }

  function Ran(workers: seq<Worker>): nat {
    if workers == [] then 0 else Ran(workers[..|workers| - 1]) + workers[|workers| - 1].ran
  }

  function Active(workers: seq<Worker>): nat {
    if workers == [] then 0
    else Active(workers[..|workers| - 1]) + if workers[|workers| - 1].phase.Returned? then 0 else 1
  }

  lemma {:induction false} OneWorkerChanges(workers: seq<Worker>, i: nat, w: Worker)
    requires i < |workers|
    ensures Held(workers[i := w]) ==
              Held(workers) - (if workers[i].phase.Running? then 1 else 0) + if w.phase.Running? then 1 else 0
    ensures Ran(workers[i := w]) == Ran(workers) - workers[i].ran + w.ran
    ensures Active(workers[i := w]) ==
              Active(workers) - (if workers[i].phase.Returned? then 0 else 1) + if w.phase.Returned? then 0 else 1
  {
    var last := |workers| - 1;
    if i < last {
      assert workers[i := w][..last] == workers[..last][i := w];
      OneWorkerChanges(workers[..last], i, w);
    } else {
      assert workers[i := w][..last] == workers[..last];
    }
  }

  /** Tokens left, tokens held and items run add up to `max_items`, and no token is ever owed. */
  predicate Balanced(d: Drain, maxItems: int) {
    d.left + Held(d.workers) + Ran(d.workers) == maxItems && if maxItems >= 0 then d.left >= 0 else d.left == maxItems
  }

  /** What the next step can still use up: workers, then tokens, then runs under way. */
  function Remaining(d: Drain): (nat, nat, nat) {
    (Active(d.workers), if d.left > 0 then d.left else 0, Held(d.workers))
  }

  predicate Less(a: (nat, nat, nat), b: (nat, nat, nat)) {
    a.0 < b.0 || (a.0 == b.0 && (a.1 < b.1 || (a.1 == b.1 && a.2 < b.2)))
  }

  lemma StepBalances(d: Drain, s: Step, maxItems: int)
    requires CanStep(d, s) && Balanced(d, maxItems)
    ensures Balanced(Next(d, s), maxItems)
    ensures Less(Remaining(Next(d, s)), Remaining(d))
  {
    OneWorkerChanges(d.workers, s.worker, Next(d, s).workers[s.worker]);
    hide Held, Ran, Active;
  }

  lemma {:induction false} FreshWorkers(n: nat)
    ensures Held(seq(n, i => Worker(AtTop, 0))) == 0 && Ran(seq(n, i => Worker(AtTop, 0))) == 0
  {
    if n > 0 {
      assert seq(n, i => Worker(AtTop, 0))[..n - 1] == seq(n - 1, i => Worker(AtTop, 0));
      FreshWorkers(n - 1);
    }
  }

  lemma {:induction false} ScheduleBalances(d: Drain, steps: seq<Step>, maxItems: int)
    requires Schedule(d, steps) && Balanced(d, maxItems)
    ensures Balanced(Play(d, steps), maxItems) && |Play(d, steps).workers| == |d.workers|
    decreases |steps|
  {
    if steps != [] {
      StepBalances(d, steps[0], maxItems);
      ScheduleBalances(Next(d, steps[0]), steps[1..], maxItems);
    }
  }

  /** Under every interleaving the balance holds, so at most `max_items` runs are ever counted. */
  lemma EveryInterleavingBalances(maxItems: int, workers: nat, steps: seq<Step>)
    requires Schedule(Start(maxItems, workers), steps)
    ensures var d := Play(Start(maxItems, workers), steps);
            && d.left + Held(d.workers) + Ran(d.workers) == maxItems
            && (if maxItems >= 0 then d.left >= 0 && Ran(d.workers) <= maxItems else Ran(d.workers) == 0)
  {
    FreshWorkers(workers);
    ScheduleBalances(Start(maxItems, workers), steps, maxItems);
  }

  ghost predicate Endless(drains: nat -> Drain, steps: nat -> Step) {
    forall k: nat :: CanStep(drains(k), steps(k)) && drains(k + 1) == Next(drains(k), steps(k))
  }

  /** No interleaving goes on for ever: every worker stops. */
  lemma {:induction false} EveryWorkerStops(drains: nat -> Drain, steps: nat -> Step, k: nat, maxItems: int,
                                           m: (nat, nat, nat))
    requires Endless(drains, steps) && Balanced(drains(k), maxItems) && m == Remaining(drains(k))
    ensures false
    decreases m.0, m.1, m.2
  {
    assert CanStep(drains(k), steps(k)) && drains(k + 1) == Next(drains(k), steps(k));
    StepBalances(drains(k), steps(k), maxItems);
    EveryWorkerStops(drains, steps, k + 1, maxItems, Remaining(drains(k + 1)));
  }

  lemma {:induction false} NoneHeldAtTheEnd(workers: seq<Worker>)
    requires forall w :: w in workers ==> w.phase.Returned?
    ensures Held(workers) == 0
  {
    if workers != [] {
      NoneHeldAtTheEnd(workers[..|workers| - 1]);
      assert workers[|workers| - 1] in workers;
    }
  }

  /** Once every worker has returned, the sum of the runs they counted is what `max_items` lacks of the tokens left. */
  lemma DrainReturnsWhatItSpent(maxItems: int, workers: nat, steps: seq<Step>)
    requires Schedule(Start(maxItems, workers), steps)
    requires forall w :: w in Play(Start(maxItems, workers), steps).workers ==> w.phase.Returned?
    ensures var d := Play(Start(maxItems, workers), steps); Ran(d.workers) == maxItems - d.left
  {
    EveryInterleavingBalances(maxItems, workers, steps);
    NoneHeldAtTheEnd(Play(Start(maxItems, workers), steps).workers);
    hide Held, Ran, Play;
  }

  // ---- `WorkPool` ---------------------------------------------------------------------------

  /** A submitted run: finished or not, and whether it found work. */
  datatype Future = Future(done: bool, worked: bool)

  function Unfinished(futures: seq<Future>): nat {
    if futures == [] then 0
    else Unfinished(futures[..|futures| - 1]) + if futures[|futures| - 1].done then 0 else 1
  }

  function Worked(futures: seq<Future>): nat {
    if futures == [] then 0
    else
      var last := futures[|futures| - 1];
      Worked(futures[..|futures| - 1]) + if last.done && last.worked then 1 else 0
  }

  function NotDone(futures: seq<Future>): seq<Future> {
    if futures == [] then []
    else
      var last := futures[|futures| - 1];
      NotDone(futures[..|futures| - 1]) + if last.done then [] else [last]
  }

  lemma OneMoreFuture(futures: seq<Future>, f: Future)
    ensures Unfinished(futures + [f]) == Unfinished(futures) + if f.done then 0 else 1
    ensures Worked(futures + [f]) == Worked(futures) + if f.done && f.worked then 1 else 0
    ensures NotDone(futures + [f]) == NotDone(futures) + if f.done then [] else [f]
  {
    assert (futures + [f])[..|futures|] == futures;
  }

  lemma {:induction false} FinishingLowers(before: seq<Future>, after: seq<Future>)
    requires |before| == |after| && forall i | 0 <= i < |before| :: before[i].done ==> after[i].done
    ensures Unfinished(after) <= Unfinished(before)
  {
    if before != [] {
      FinishingLowers(before[..|before| - 1], after[..|after| - 1]);
    }
  }

  class WorkPool {
    const concurrency: nat
    var inFlight: seq<Future>

    ghost predicate Valid()
      reads this
    {
      concurrency >= 1 && Unfinished(inFlight) <= concurrency
    }

    constructor (concurrency: int)
      ensures Valid() && inFlight == [] && this.concurrency == if concurrency > 1 then concurrency else 1
    {
      this.concurrency := if concurrency > 1 then concurrency else 1;
      inFlight := [];
    }

    method InFlightCount() returns (count: nat)
      ensures count == Unfinished(inFlight)
    {
      count := 0;
      for i := 0 to |inFlight|
        invariant count == Unfinished(inFlight[..i])
      {
        assert inFlight[..i + 1] == inFlight[..i] + [inFlight[i]];
        OneMoreFuture(inFlight[..i], inFlight[i]);
        if !inFlight[i].done {
          count := count + 1;
        }
      }
      assert inFlight[..|inFlight|] == inFlight;
    }

    /** Workers finish whenever they like, between the pool's own steps. */
    method WorkersProgress(after: seq<Future>)
      requires Valid() && |after| == |inFlight|
      requires forall i | 0 <= i < |after| :: inFlight[i].done ==> after[i] == inFlight[i]
      modifies this`inFlight
      ensures Valid() && inFlight == after
    {
      FinishingLowers(inFlight, after);
      inFlight := after;
    }

    /** Drop finished futures; returns how many of them ran work. */
    method Reap() returns (ran: nat)
      requires Valid()
      modifies this`inFlight
      ensures Valid() && inFlight == NotDone(old(inFlight))
      ensures Unfinished(inFlight) == Unfinished(old(inFlight)) == |inFlight|
      ensures ran == Worked(old(inFlight))
    {
      ghost var before := inFlight;
      var kept: seq<Future> := [];
      ran := 0;
      for i := 0 to |inFlight|
        invariant inFlight == before && kept == NotDone(before[..i])
        invariant Unfinished(kept) == |kept| == Unfinished(before[..i]) && ran == Worked(before[..i])
      {
        var f := inFlight[i];
        assert before[..i + 1] == before[..i] + [f];
        OneMoreFuture(before[..i], f);
        if f.done {
          if f.worked {
            ran := ran + 1;
          }
        } else {
          OneMoreFuture(kept, f);
          kept := kept + [f];
        }
      }
      assert before[..|before|] == before;
      inFlight := kept;
    }

    /** Top the pool up: as many as asked for, but never beyond its concurrency. */
    method Dispatch(limit: int) returns (slots: nat)
      requires Valid()
      modifies this`inFlight
      ensures Valid() && Unfinished(inFlight) == Unfinished(old(inFlight)) + slots
      ensures |inFlight| == |old(inFlight)| + slots
      ensures old(inFlight) <= inFlight
      ensures limit >= 0 ==> slots == limit || Unfinished(inFlight) == concurrency
      ensures limit < 0 ==> slots == 0
    {
      var count := InFlightCount();
      var room := concurrency - count;
      slots := if limit < 0 then 0 else if limit < room then limit else room;
      ghost var before := inFlight;
      for i := 0 to slots
        invariant Unfinished(inFlight) == Unfinished(before) + i && |inFlight| == |before| + i && before <= inFlight
      {
        OneMoreFuture(inFlight, Future(false, false));
        inFlight := inFlight + [Future(false, false)];
      }
    }
  }
}
