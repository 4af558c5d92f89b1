/**
 The scheduler: when a schedule is due, catch-up, and occurrences that are launched at most once per
 instant. Instants are whole microseconds.
 */
module Schedules {
  import opened Basics

  // ---- Clocks -------------------------------------------------------------------------------

  /** `next(t)` is the first fire after `t`; nothing fires between. */
  ghost predicate IsClock(next: int -> int) {
    && (forall t :: next(t) > t)
    && (forall t, u :: t <= u < next(t) ==> next(u) == next(t))
  }

  /** A cron expression is its `next` function. */
  datatype Timing = Interval(every: int) | Cron(next: int -> int) | Date(at: int)

  ghost predicate GoodTiming(timing: Timing) {
    match timing
    case Interval(every) => every > 0
    case Cron(next) => IsClock(next)
    case Date(_) => true
  }

  /** `next_fire_time` of an interval schedule. */
  function IntervalNext(anchor: int, every: int, now: int): int
    requires every > 0
  {
    anchor + (Max(now - anchor, 0) / every + 1) * every
  }

  ghost function Next(timing: Timing, created: int, t: int): int
    requires GoodTiming(timing) && !timing.Date?
  {
    match timing
    case Interval(every) => IntervalNext(created, every, t)
    case Cron(next) => next(t)
  }

  lemma IntervalQuotient(anchor: int, every: int, t: int)
    requires every > 0
    ensures var q := Max(t - anchor, 0) / every;
            q >= 0 && q * every <= Max(t - anchor, 0) < (q + 1) * every
            && IntervalNext(anchor, every, t) == anchor + (q + 1) * every
  {
  }

  lemma MulKeepsOrder(a: int, b: int, every: int)
    requires every > 0 && a * every < b * every
    ensures a < b
  {
    if b <= a {
      MulMonotone(b, a, every);
    }
  }

  lemma MulMonotone(a: int, b: int, every: int)
    requires every > 0 && a <= b
    ensures a * every <= b * every
  {
    assert (b - a) * every >= 0;
  }

  ghost predicate OnGrid(anchor: int, every: int, t: int) {
    exists k :: k >= 1 && t == anchor + k * every
  }

  /** The interval formula gives the first grid point after `t`. */
  lemma IntervalNextIsFirst(anchor: int, every: int, t: int, p: int)
    requires every > 0
    ensures IntervalNext(anchor, every, t) > t && OnGrid(anchor, every, IntervalNext(anchor, every, t))
    ensures OnGrid(anchor, every, p) && p > t ==> IntervalNext(anchor, every, t) <= p
  {
    IntervalQuotient(anchor, every, t);
    var q := Max(t - anchor, 0) / every;
    assert q + 1 >= 1 && IntervalNext(anchor, every, t) == anchor + (q + 1) * every;
    if OnGrid(anchor, every, p) && p > t {
      var k :| k >= 1 && p == anchor + k * every;
      MulMonotone(1, k, every);
      MulKeepsOrder(q, k, every);
      MulMonotone(q + 1, k, every);
    }
  }

  lemma NextIsClock(timing: Timing, created: int, t: int, u: int)
    requires GoodTiming(timing) && !timing.Date?
    ensures Next(timing, created, t) > t
    ensures t <= u < Next(timing, created, t) ==> Next(timing, created, u) == Next(timing, created, t)
  {
    if timing.Interval? {
      IntervalNextIsFirst(created, timing.every, t, Next(timing, created, u));
      IntervalNextIsFirst(created, timing.every, u, Next(timing, created, t));
    }
  }

  /** `t` is an instant at which the schedule fires. */
  ghost predicate IsFire(timing: Timing, created: int, t: int)
    requires GoodTiming(timing) && !timing.Date?
  {
    Next(timing, created, t - 1) == t
  }

  /** The fires of an interval schedule are the grid `created + k * every`, k at least 1. */
  lemma IntervalFiresOnGrid(timing: Timing, created: int, t: int)
    requires timing.Interval? && GoodTiming(timing)
    ensures IsFire(timing, created, t) <==> OnGrid(created, timing.every, t)
  {
    IntervalNextIsFirst(created, timing.every, t - 1, t);
  }

  /** The fires in (start, end], in order. */
  ghost function Fires(timing: Timing, created: int, start: int, end: int): seq<int>
    requires GoodTiming(timing) && !timing.Date?
    decreases end - start
  {
    var t := Next(timing, created, start);
    NextIsClock(timing, created, start, start);
    if t > end then [] else [t] + Fires(timing, created, t, end)
  }

  lemma {:induction false} FiresAreExact(timing: Timing, created: int, start: int, end: int, t: int)
    requires GoodTiming(timing) && !timing.Date?
    ensures t in Fires(timing, created, start, end) <==> start < t <= end && IsFire(timing, created, t)
    decreases end - start
  {
    var next := Next(timing, created, start);
    NextIsClock(timing, created, start, next - 1);
    NextIsClock(timing, created, start, t - 1);
    if next <= end {
      FiresAreExact(timing, created, next, end, t);
    }
  }

  ghost predicate Ascending(times: seq<int>) {
    forall i, j | 0 <= i < j < |times| :: times[i] < times[j]
  }

  lemma {:induction false} FiresAscend(timing: Timing, created: int, start: int, end: int)
    requires GoodTiming(timing) && !timing.Date?
    ensures Ascending(Fires(timing, created, start, end))
    decreases end - start
  {
    var t := Next(timing, created, start);
    NextIsClock(timing, created, start, start);
    if t <= end {
      var rest := Fires(timing, created, t, end);
      FiresAscend(timing, created, t, end);
      forall j | 0 <= j < |rest| ensures t < rest[j] {
        FiresAreExact(timing, created, t, end, rest[j]);
      }
    }
  }

  /** Polling in the middle of a window loses no fire and repeats none. */
  lemma {:induction false} FiresSplit(timing: Timing, created: int, start: int, mid: int, end: int)
    requires GoodTiming(timing) && !timing.Date? && start <= mid <= end
    ensures Fires(timing, created, start, end)
            == Fires(timing, created, start, mid) + Fires(timing, created, mid, end)
    decreases end - start
  {
    var t := Next(timing, created, start);
    NextIsClock(timing, created, start, mid);
    if t <= mid {
      FiresSplit(timing, created, t, mid, end);
    }
  }

  /** `_interval_times`: the loop that advances by one interval at a time. */
  method IntervalTimes(every: int, anchor: int, start: int, end: int) returns (times: seq<int>)
    requires every > 0
    ensures times == Fires(Interval(every), anchor, start, end)
    ensures Ascending(times)
    ensures forall t :: t in times <==> start < t <= end && OnGrid(anchor, every, t)
  {
    ghost var timing := Interval(every);
    var elapsed := Max(start - anchor, 0) / every;
    var current := anchor + (elapsed + 1) * every;
    ghost var before := start;
    times := [];
    while current <= end
      invariant current == Next(timing, anchor, before) > before
      invariant Fires(timing, anchor, start, end) == times + Fires(timing, anchor, before, end)
      decreases end - current
    {
      StepIsNext(every, anchor, before);
      times := times + [current];
      before := current;
      current := current + every;
    }
    FiresAscend(timing, anchor, start, end);
    forall t ensures t in times <==> start < t <= end && OnGrid(anchor, every, t) {
      FiresAreExact(timing, anchor, start, end, t);
      IntervalFiresOnGrid(timing, anchor, t);
    }
  }

  lemma StepIsNext(every: int, anchor: int, before: int)
    requires every > 0
    ensures var t := IntervalNext(anchor, every, before); IntervalNext(anchor, every, t) == t + every
  {
    var t := IntervalNext(anchor, every, before);
    var q := Max(before - anchor, 0) / every;
    assert t - anchor == (q + 1) * every;
    DivOfProduct(q + 1, every);
    assert q + 1 >= 1;
    MulMonotone(1, q + 1, every);
  }

  lemma DivOfProduct(k: int, every: int)
    requires every > 0
    ensures k * every / every == k
  {
    var d := k * every / every;
    assert d * every <= k * every < (d + 1) * every;
    MulKeepsOrder(k, d + 1, every);
    if d < k {
      MulMonotone(d + 1, k, every);
    }
  }

  // ---- Due times ----------------------------------------------------------------------------

  datatype Policy = SkipMissed | Coalesce | CatchUpAll

  datatype Schedule = Schedule(
    timing: Timing, created: int, last: Option<int>, policy: Policy,
    grace: Option<int>, maxBackfill: int, enabled: bool)

  /** Python's `times[:m]`, which counts a negative `m` from the end. */
  function TakeFirst(times: seq<int>, m: int): seq<int> {
    if m >= |times| then times
    else if m >= 0 then times[..m]
    else if |times| + m >= 0 then times[..|times| + m]
    else []
  }

  function ApplyCatchup(policy: Policy, maxBackfill: int, times: seq<int>): seq<int> {
    if times == [] then []
    else if policy.CatchUpAll? then TakeFirst(times, maxBackfill)
    else [times[|times| - 1]]
  }

  function WithinGrace(times: seq<int>, now: int, grace: int): seq<int> {
    if times == [] then []
    else (if now - times[0] <= grace then [times[0]] else []) + WithinGrace(times[1..], now, grace)
  }

  function Start(s: Schedule): int {
    if s.last.Some? then s.last.value else s.created
  }

  /** `due_times`; `fired` says that a date schedule already has its occurrence. */
  ghost function DueTimes(s: Schedule, now: int, fired: bool): seq<int>
    requires GoodTiming(s.timing)
  {
    if s.timing.Date? then (if s.timing.at <= now && !fired then [s.timing.at] else [])
    else
      var times := Fires(s.timing, s.created, Start(s), now);
      ApplyCatchup(s.policy, s.maxBackfill, if s.grace.Some? then WithinGrace(times, now, s.grace.value) else times)
  }

  /** A schedule that is neither a date nor set up never to fire. */
  predicate CanFire(s: Schedule) {
    && (s.grace.Some? ==> s.grace.value >= 0)
    && (s.policy.CatchUpAll? ==> s.maxBackfill >= 1)
  }

  /**
   Right after an evaluation at `t`, nothing is due before the next fire time; at that moment
   something is, exactly when the grace is not negative and the backfill leaves room.
   */
  lemma NextFireTimeIsNextDue(s: Schedule, t: int, now: int)
    requires GoodTiming(s.timing) && !s.timing.Date? && s.last == Some(t)
    ensures t <= now < Next(s.timing, s.created, t) ==> DueTimes(s, now, false) == []
    ensures DueTimes(s, Next(s.timing, s.created, t), false) != [] <==> CanFire(s)
  {
    var next := Next(s.timing, s.created, t);
    NextIsClock(s.timing, s.created, t, now);
    NextIsClock(s.timing, s.created, next, next);
    assert Fires(s.timing, s.created, next, next) == [];
    assert Fires(s.timing, s.created, t, next) == [next];
    assert WithinGrace([], next, if s.grace.Some? then s.grace.value else 0) == [];
  }

  // ---- Occurrences --------------------------------------------------------------------------

  datatype OccurrenceStatus = OccurrencePending | OccurrenceEnqueued | OccurrenceSkipped

  /** The dedupe key of an occurrence is its schedule and its instant. */
  datatype Occurrence = Occurrence(schedule: nat, at: int, status: OccurrenceStatus)

  /**
   How a launch goes: it cannot be resolved and writes nothing, it breaks after its row is written,
   its gate finds nothing to do, or it succeeds.
   */
  datatype Launch = Unresolved | BreaksLate | GateSkips | Succeeds

  predicate Exists(occurrences: seq<Occurrence>, schedule: nat, at: int) {
    exists k | 0 <= k < |occurrences| :: occurrences[k].schedule == schedule && occurrences[k].at == at
  }

  datatype Attempt = Attempt(occurrences: seq<Occurrence>, raised: bool, launched: nat)

  /** `enqueue_occurrence`. */
  function EnqueueOne(occurrences: seq<Occurrence>, schedule: nat, at: int, launch: Launch, gated: bool): Attempt {
    if Exists(occurrences, schedule, at) then Attempt(occurrences, false, 0)
    else match launch
      case Unresolved => Attempt(occurrences, true, 0)
      case BreaksLate => Attempt(occurrences + [Occurrence(schedule, at, OccurrencePending)], true, 0)
      case GateSkips =>
        if gated then Attempt(occurrences + [Occurrence(schedule, at, OccurrenceSkipped)], false, 0)
        else Attempt(occurrences + [Occurrence(schedule, at, OccurrenceEnqueued)], false, 1)
      case Succeeds => Attempt(occurrences + [Occurrence(schedule, at, OccurrenceEnqueued)], false, 1)
  }

  /** The due times of one schedule in turn, until one raises. */
  function EnqueueAll(occurrences: seq<Occurrence>, schedule: nat, times: seq<int>, launch: int -> Launch): Attempt
    decreases |times|
  {
    if times == [] then Attempt(occurrences, false, 0)
    else
      var first := EnqueueOne(occurrences, schedule, times[0], launch(times[0]), true);
      if first.raised then first
      else
        var rest := EnqueueAll(first.occurrences, schedule, times[1..], launch);
        rest.(launched := first.launched + rest.launched)
  }

  datatype State = State(schedules: seq<Schedule>, occurrences: seq<Occurrence>)

  ghost predicate Good(st: State) {
    forall s :: s in st.schedules ==> GoodTiming(s.timing)
  }

  ghost function PollOne(st: State, i: nat, now: int, launch: int -> Launch): State
    requires Good(st) && i < |st.schedules|
  {
    var s := st.schedules[i];
    if !s.enabled then st
    else
      var fired := s.timing.Date? && Exists(st.occurrences, i, s.timing.at);
      var r := EnqueueAll(st.occurrences, i, DueTimes(s, now, fired), launch);
      State(if r.raised then st.schedules else st.schedules[i := s.(last := Some(now))], r.occurrences)
  }

  /** How the launches of one schedule go. */
  function Of(launch: (nat, int) -> Launch, i: nat): int -> Launch {
    t => launch(i, t)
  }

  /** The poll's loop over the first `n` schedules. */
  ghost function PollFirst(st: State, n: nat, now: int, launch: (nat, int) -> Launch): (r: State)
    requires Good(st) && n <= |st.schedules|
    ensures Good(r) && |r.schedules| == |st.schedules|
  {
    if n == 0 then st
    else PollOne(PollFirst(st, n - 1, now, launch), n - 1, now, Of(launch, n - 1))
  }

  datatype Op =
    | Poll(now: int, launch: (nat, int) -> Launch)
    | FireNow(schedule: nat, now: int, result: Launch)
    | Enable(schedule: nat, now: int, resumeFromNow: bool)
    | Disable(schedule: nat)
    | Retime(schedule: nat, timing: Timing, now: int)
    | Adjust(schedule: nat, policy: Policy, grace: Option<int>, maxBackfill: int)

  ghost predicate Possible(st: State, op: Op) {
    match op
    case Poll(_, _) => true
    case FireNow(i, _, _) => i < |st.schedules|
    case Enable(i, _, _) => i < |st.schedules|
    case Disable(i) => i < |st.schedules|
    case Retime(i, timing, _) => i < |st.schedules| && GoodTiming(timing)
    case Adjust(i, _, _, _) => i < |st.schedules|
  }

  ghost function Apply(st: State, op: Op): (r: State)
    requires Good(st) && Possible(st, op)
    ensures Good(r) && |r.schedules| == |st.schedules|
  {
    match op
    case Poll(now, launch) => PollFirst(st, |st.schedules|, now, launch)
    case FireNow(i, now, result) =>
      st.(occurrences := EnqueueOne(st.occurrences, i, now, result, false).occurrences)
    case Enable(i, now, resume) =>
      var s := st.schedules[i];
      if s.enabled then st
      else st.(schedules := st.schedules[i := s.(enabled := true, last := if resume then Some(now) else s.last)])
    case Disable(i) => st.(schedules := st.schedules[i := st.schedules[i].(enabled := false)])
    case Retime(i, timing, now) =>
      st.(schedules := st.schedules[i := st.schedules[i].(timing := timing, last := Some(now))])
    case Adjust(i, policy, grace, maxBackfill) =>
      var s := st.schedules[i].(policy := policy, grace := grace, maxBackfill := maxBackfill);
      st.(schedules := st.schedules[i := s])
  }

  ghost predicate History(st: State, ops: seq<Op>)
    requires Good(st)
    decreases |ops|
  {
    ops == [] || (Possible(st, ops[0]) && History(Apply(st, ops[0]), ops[1..]))
  }

  ghost function Exec(st: State, ops: seq<Op>): (r: State)
    requires Good(st) && History(st, ops)
    ensures Good(r) && |r.schedules| == |st.schedules|
    decreases |ops|
  {
    if ops == [] then st else Exec(Apply(st, ops[0]), ops[1..])
  }

  // ---- At most one occurrence per schedule and instant --------------------------------------

  ghost predicate OncePerInstant(occurrences: seq<Occurrence>) {
    forall a, b | 0 <= a < b < |occurrences| ::
      occurrences[a].schedule != occurrences[b].schedule || occurrences[a].at != occurrences[b].at
  }

  lemma {:induction false} EnqueueAllKeepsOnce(occurrences: seq<Occurrence>, schedule: nat, times: seq<int>,
                                              launch: int -> Launch)
    requires OncePerInstant(occurrences)
    ensures OncePerInstant(EnqueueAll(occurrences, schedule, times, launch).occurrences)
    ensures occurrences <= EnqueueAll(occurrences, schedule, times, launch).occurrences
    decreases |times|
  {
    if times != [] {
      var first := EnqueueOne(occurrences, schedule, times[0], launch(times[0]), true);
      if !first.raised {
        EnqueueAllKeepsOnce(first.occurrences, schedule, times[1..], launch);
      }
    }
  }

  lemma {:induction false} PollKeepsOnce(st: State, n: nat, now: int, launch: (nat, int) -> Launch)
    requires Good(st) && n <= |st.schedules| && OncePerInstant(st.occurrences)
    ensures OncePerInstant(PollFirst(st, n, now, launch).occurrences)
    ensures st.occurrences <= PollFirst(st, n, now, launch).occurrences
  {
    if n > 0 {
      PollKeepsOnce(st, n - 1, now, launch);
      var mid := PollFirst(st, n - 1, now, launch);
      var s := mid.schedules[n - 1];
      var fired := s.timing.Date? && Exists(mid.occurrences, n - 1, s.timing.at);
      EnqueueAllKeepsOnce(mid.occurrences, n - 1, DueTimes(s, now, fired), Of(launch, n - 1));
    }
  }

  /** Over any history, with polls that fail half way and manual fires, no instant of a schedule has two occurrences. */
  lemma {:induction false} NoInstantFiresTwice(st: State, ops: seq<Op>)
    requires Good(st) && History(st, ops) && OncePerInstant(st.occurrences)
    ensures OncePerInstant(Exec(st, ops).occurrences) && st.occurrences <= Exec(st, ops).occurrences
    decreases |ops|
  {
    if ops != [] {
      if ops[0].Poll? {
        PollKeepsOnce(st, |st.schedules|, ops[0].now, ops[0].launch);
      }
      NoInstantFiresTwice(Apply(st, ops[0]), ops[1..]);
    }
  }

  // ---- What becomes of a launch that fails ---------------------------------------------------

  /** How a launch that writes its row leaves it. */
  function RowStatus(launch: Launch, gated: bool): OccurrenceStatus
    requires !launch.Unresolved?
  {
    match launch
    case BreaksLate => OccurrencePending
    case GateSkips => if gated then OccurrenceSkipped else OccurrenceEnqueued
    case Succeeds => OccurrenceEnqueued
  }

  /**
   A launch that fails leaves an occurrence behind exactly when it breaks late. The next attempt at the
   instant then counts as done without a launch; otherwise it is the first attempt over again.
   */
  lemma FailureLeavesARowExactly(occurrences: seq<Occurrence>, schedule: nat, at: int,
                                 launch: Launch, gated: bool, again: Launch, gatedAgain: bool)
    requires !Exists(occurrences, schedule, at)
    requires EnqueueOne(occurrences, schedule, at, launch, gated).raised
    ensures var left := EnqueueOne(occurrences, schedule, at, launch, gated).occurrences;
            var next := EnqueueOne(left, schedule, at, again, gatedAgain);
            && (Exists(left, schedule, at) <==> launch.BreaksLate?)
            && (left == occurrences <==> !launch.BreaksLate?)
            && next == if launch.BreaksLate? then Attempt(left, false, 0)
                       else EnqueueOne(occurrences, schedule, at, again, gatedAgain)
  {
    var left := EnqueueOne(occurrences, schedule, at, launch, gated).occurrences;
    if launch.BreaksLate? {
      var last := left[|occurrences|];
      assert last.schedule == schedule && last.at == at;
    }
  }

  /** How the launch of an instant goes under an operation that fires. */
  function LaunchOf(op: Op, schedule: nat, at: int): Launch
    requires op.Poll? || op.FireNow?
  {
    if op.Poll? then op.launch(schedule, at) else op.result
  }

  /** The row is what this operation's launch of its instant leaves. */
  predicate WrittenBy(op: Op, o: Occurrence) {
    && (op.Poll? || op.FireNow?)
    && !LaunchOf(op, o.schedule, o.at).Unresolved?
    && o.status == RowStatus(LaunchOf(op, o.schedule, o.at), op.Poll?)
  }

  lemma {:induction false} EnqueueAllWrites(occurrences: seq<Occurrence>, times: seq<int>, op: Op, i: nat)
    requires op.Poll?
    ensures var r := EnqueueAll(occurrences, i, times, Of(op.launch, i)).occurrences;
            occurrences <= r && forall k: nat | |occurrences| <= k < |r| :: WrittenBy(op, r[k])
    decreases |times|
  {
    if times != [] {
      var first := EnqueueOne(occurrences, i, times[0], Of(op.launch, i)(times[0]), true);
      hide Exists;
      if !first.raised {
        EnqueueAllWrites(first.occurrences, times[1..], op, i);
      }
    }
  }

  lemma {:induction false} PollWrites(st: State, n: nat, op: Op)
    requires Good(st) && n <= |st.schedules| && op.Poll?
    ensures var r := PollFirst(st, n, op.now, op.launch).occurrences;
            st.occurrences <= r && forall k: nat | |st.occurrences| <= k < |r| :: WrittenBy(op, r[k])
  {
    if n > 0 {
      PollWrites(st, n - 1, op);
      var mid := PollFirst(st, n - 1, op.now, op.launch);
      var s := mid.schedules[n - 1];
      var fired := s.timing.Date? && Exists(mid.occurrences, n - 1, s.timing.at);
      EnqueueAllWrites(mid.occurrences, DueTimes(s, op.now, fired), op, n - 1);
      hide WrittenBy, EnqueueAll, DueTimes, Exists, Of;
    }
  }

  /** An operation only appends rows, each left as its launch leaves it. */
  lemma ApplyWrites(st: State, op: Op)
    requires Good(st) && Possible(st, op)
    ensures var r := Apply(st, op).occurrences;
            st.occurrences <= r && forall k: nat | |st.occurrences| <= k < |r| :: WrittenBy(op, r[k])
  {
    if op.Poll? {
      PollWrites(st, |st.schedules|, op);
    }
    hide Exists, PollFirst;
  }

  lemma {:induction false} RowsAreKept(st: State, ops: seq<Op>)
    requires Good(st) && History(st, ops)
    ensures st.occurrences <= Exec(st, ops).occurrences
    decreases |ops|
  {
    if ops != [] {
      ApplyWrites(st, ops[0]);
      RowsAreKept(Apply(st, ops[0]), ops[1..]);
    }
    hide Apply, WrittenBy;
  }

  /** The operation of a history that wrote row `k`. */
  ghost function Writer(st: State, ops: seq<Op>, k: nat): Op
    requires Good(st) && History(st, ops) && |st.occurrences| <= k < |Exec(st, ops).occurrences|
    decreases |ops|
  {
    if k < |Apply(st, ops[0]).occurrences| then ops[0] else Writer(Apply(st, ops[0]), ops[1..], k)
  }

  /**
   After any history a row stays pending exactly when the launch that wrote it broke late, is skipped
   exactly when a poll's gate found nothing to do, and is enqueued otherwise.
   */
  lemma {:induction false} PendingExactlyIfItBroke(st: State, ops: seq<Op>, k: nat)
    requires Good(st) && History(st, ops) && |st.occurrences| <= k < |Exec(st, ops).occurrences|
    ensures var op := Writer(st, ops, k); var o := Exec(st, ops).occurrences[k];
            && WrittenBy(op, o)
            && var launch := LaunchOf(op, o.schedule, o.at);
               && (o.status.OccurrencePending? <==> launch.BreaksLate?)
               && (o.status.OccurrenceSkipped? <==> launch.GateSkips? && op.Poll?)
               && (o.status.OccurrenceEnqueued? <==> launch.Succeeds? || (launch.GateSkips? && op.FireNow?))
    decreases |ops|
  {
    var next := Apply(st, ops[0]);
    ApplyWrites(st, ops[0]);
    RowsAreKept(next, ops[1..]);
    hide Apply;
    if k < |next.occurrences| {
      assert Exec(st, ops).occurrences[k] == next.occurrences[k];
    } else {
      PendingExactlyIfItBroke(next, ops[1..], k);
    }
  }

  /** A fire whose launch broke late is never launched: no history changes its row or adds another. */
  lemma LeftoverIsNeverLaunched(st: State, ops: seq<Op>, k: nat)
    requires Good(st) && History(st, ops) && OncePerInstant(st.occurrences)
    requires k < |st.occurrences| && st.occurrences[k].status.OccurrencePending?
    ensures var o := st.occurrences[k]; var after := Exec(st, ops).occurrences;
            IsOnlyOccurrence(after, o.schedule, o.at, k) && after[k].status.OccurrencePending?
  {
    NoInstantFiresTwice(st, ops);
    hide Exec, History;
  }

  const MINUTE := Schedule(Interval(60), 0, None, CatchUpAll, None, 10, true)

  /**
   A schedule of one minute, polled when due under a launch that breaks late, stays due; polled again
   under one that would not, it launches nothing and is taken to be up to date.
   */
  lemma LateFailureIsNotRetried()
    ensures var broken := PollOne(State([MINUTE], []), 0, 60, t => BreaksLate);
            var again := PollOne(broken, 0, 60, t => Succeeds);
            && broken == State([MINUTE], [Occurrence(0, 60, OccurrencePending)])
            && again == State([MINUTE.(last := Some(60))], broken.occurrences)
  {
    MinuteIsDue();
    var row := Occurrence(0, 60, OccurrencePending);
    assert [60][1..] == [] && [row][0] == row && Exists([row], 0, 60);
    hide Fires, DueTimes;
    assert EnqueueAll([], 0, [60], t => BreaksLate) == Attempt([row], true, 0);
    assert EnqueueAll([row], 0, [60], t => Succeeds) == Attempt([row], false, 0);
  }

  lemma MinuteIsDue()
    ensures DueTimes(MINUTE, 60, false) == [60]
  {
    assert IntervalNext(0, 60, 0) == 60 && IntervalNext(0, 60, 60) == 120;
    hide IntervalNext, ApplyCatchup, TakeFirst;
    assert Fires(Interval(60), 0, 60, 60) == [];
    assert Fires(Interval(60), 0, 0, 60) == [60];
    hide Fires;
    assert ApplyCatchup(CatchUpAll, 10, [60]) == [60] by {
      CatchUpWithRoom([60], 10);
    }
  }

  lemma CatchUpWithRoom(times: seq<int>, m: int)
    requires |times| <= m
    ensures ApplyCatchup(CatchUpAll, m, times) == times
  {
  }

  // ---- At least one, when nothing is dropped ------------------------------------------------

  /** A schedule that keeps every fire it missed. */
  ghost predicate KeepsAll(s: Schedule) {
    GoodTiming(s.timing) && !s.timing.Date? && s.policy.CatchUpAll? && s.grace.None?
  }

  /** Every fire since the schedule was created, up to its last evaluation, has its occurrence. */
  ghost predicate Covered(st: State, i: nat)
    requires i < |st.schedules| && KeepsAll(st.schedules[i])
  {
    var s := st.schedules[i];
    forall t :: s.created < t <= Start(s) && IsFire(s.timing, s.created, t) ==> Exists(st.occurrences, i, t)
  }

  /** The operation leaves timing and catch-up of schedule `i`, and has it skip nothing it missed while disabled. */
  predicate KeepsMissed(st: State, op: Op, i: nat)
    requires i < |st.schedules|
  {
    match op
    case Enable(j, _, resumeFromNow) => j != i || !resumeFromNow || st.schedules[i].enabled
    case Retime(j, _, _) => j != i
    case Adjust(j, _, _, _) => j != i
    case _ => true
  }

  /** Every operation keeps what schedule `i` missed; each poll's backlog, while it is enabled, fits `max_backfill`. */
  ghost predicate RoomyHistory(st: State, ops: seq<Op>, i: nat)
    requires Good(st) && History(st, ops) && i < |st.schedules| && !st.schedules[i].timing.Date?
    decreases |ops|
  {
    ops == [] ||
    (&& KeepsMissed(st, ops[0], i)
     && (ops[0].Poll? && st.schedules[i].enabled ==> HasRoom(st.schedules[i], ops[0].now))
     && !Apply(st, ops[0]).schedules[i].timing.Date?
     && RoomyHistory(Apply(st, ops[0]), ops[1..], i))
  }

  ghost predicate HasRoom(s: Schedule, now: int)
    requires GoodTiming(s.timing) && !s.timing.Date?
  {
    |Fires(s.timing, s.created, Start(s), now)| <= s.maxBackfill
  }

  lemma {:induction false} EnqueueAllCovers(occurrences: seq<Occurrence>, schedule: nat, times: seq<int>,
                                           launch: int -> Launch)
    ensures var r := EnqueueAll(occurrences, schedule, times, launch);
            && (forall i: nat, t :: Exists(occurrences, i, t) ==> Exists(r.occurrences, i, t))
            && (!r.raised ==> forall t :: t in times ==> Exists(r.occurrences, schedule, t))
    decreases |times|
  {
    if times != [] {
      var first := EnqueueOne(occurrences, schedule, times[0], launch(times[0]), true);
      forall i: nat, t | Exists(occurrences, i, t) ensures Exists(first.occurrences, i, t) {
        var k :| 0 <= k < |occurrences| && occurrences[k].schedule == i && occurrences[k].at == t;
        assert first.occurrences[k] == occurrences[k];
      }
      if !first.raised {
        assert Exists(first.occurrences, schedule, times[0]) by {
          var k := |first.occurrences| - 1;
          assert !Exists(occurrences, schedule, times[0]) ==>
              first.occurrences[k].schedule == schedule && first.occurrences[k].at == times[0];
        }
        EnqueueAllCovers(first.occurrences, schedule, times[1..], launch);
      }
    }
  }

  lemma PollOneCovers(st: State, i: nat, now: int, launch: int -> Launch)
    requires Good(st) && i < |st.schedules| && KeepsAll(st.schedules[i]) && Covered(st, i)
    requires st.schedules[i].enabled ==> HasRoom(st.schedules[i], now)
    ensures var r := PollOne(st, i, now, launch); KeepsAll(r.schedules[i]) && Covered(r, i)
  {
    var s := st.schedules[i];
    if s.enabled {
      var r := PollOne(st, i, now, launch);
      EnqueueAllCovers(st.occurrences, i, DueTimes(s, now, false), launch);
      forall t | s.created < t <= Start(r.schedules[i]) && IsFire(s.timing, s.created, t)
        ensures Exists(r.occurrences, i, t)
      {
        FiresAreExact(s.timing, s.created, Start(s), now, t);
      }
    }
  }

  lemma PollOtherKeepsCovered(st: State, j: nat, i: nat, now: int, launch: int -> Launch)
    requires Good(st) && i < |st.schedules| && j < |st.schedules| && i != j
    requires KeepsAll(st.schedules[i]) && Covered(st, i)
    ensures var r := PollOne(st, j, now, launch); r.schedules[i] == st.schedules[i] && Covered(r, i)
  {
    var s := st.schedules[j];
    var fired := s.timing.Date? && Exists(st.occurrences, j, s.timing.at);
    EnqueueAllCovers(st.occurrences, j, DueTimes(s, now, fired), launch);
  }

  lemma PollNextKeepsCovered(st: State, j: nat, i: nat, now: int, launch: int -> Launch)
    requires Good(st) && i < |st.schedules| && j < |st.schedules|
    requires KeepsAll(st.schedules[i]) && Covered(st, i)
    requires i >= j && st.schedules[i].enabled ==> HasRoom(st.schedules[i], now)
    ensures var r := PollOne(st, j, now, launch);
            |r.schedules| == |st.schedules| && KeepsAll(r.schedules[i]) && Covered(r, i)
            && (j < i ==> r.schedules[i] == st.schedules[i])
  {
    hide Covered, KeepsAll, HasRoom, Exists;
    if i == j {
      PollOneCovers(st, i, now, launch);
    } else {
      PollOtherKeepsCovered(st, j, i, now, launch);
    }
  }

  lemma {:induction false} PollKeepsCovered(st: State, n: nat, i: nat, now: int, launch: (nat, int) -> Launch)
    requires Good(st) && n <= |st.schedules| && i < |st.schedules|
    requires KeepsAll(st.schedules[i]) && Covered(st, i)
    requires st.schedules[i].enabled ==> HasRoom(st.schedules[i], now)
    ensures var r := PollFirst(st, n, now, launch);
            KeepsAll(r.schedules[i]) && Covered(r, i) && (n <= i ==> r.schedules[i] == st.schedules[i])
  {
    if n > 0 {
      hide Covered, KeepsAll, HasRoom, PollOne, Good, Of;
      PollKeepsCovered(st, n - 1, i, now, launch);
      var mid := PollFirst(st, n - 1, now, launch);
      assert PollFirst(st, n, now, launch) == PollOne(mid, n - 1, now, Of(launch, n - 1));
      hide PollFirst;
      PollNextKeepsCovered(mid, n - 1, i, now, Of(launch, n - 1));
    }
  }

  lemma FireNowKeepsCovered(st: State, op: Op, i: nat)
    requires Good(st) && op.FireNow? && Possible(st, op) && i < |st.schedules|
    requires KeepsAll(st.schedules[i]) && Covered(st, i)
    ensures Covered(Apply(st, op), i)
  {
    var r := Apply(st, op);
    forall j: nat, t | Exists(st.occurrences, j, t) ensures Exists(r.occurrences, j, t) {
      var k :| 0 <= k < |st.occurrences| && st.occurrences[k].schedule == j && st.occurrences[k].at == t;
      assert r.occurrences[k] == st.occurrences[k];
    }
  }

  lemma SettingsKeepCovered(st: State, op: Op, i: nat)
    requires Good(st) && Possible(st, op) && !op.Poll? && !op.FireNow? && i < |st.schedules|
    requires KeepsAll(st.schedules[i]) && Covered(st, i) && KeepsMissed(st, op, i)
    ensures KeepsAll(Apply(st, op).schedules[i]) && Covered(Apply(st, op), i)
  {
    hide Exists, IsFire;
    var s, r := st.schedules[i], Apply(st, op).schedules[i];
    assert r == s.(enabled := r.enabled);
  }

  lemma {:induction false} HistoryKeepsCovered(st: State, ops: seq<Op>, i: nat)
    requires Good(st) && History(st, ops) && i < |st.schedules|
    requires KeepsAll(st.schedules[i]) && Covered(st, i) && RoomyHistory(st, ops, i)
    ensures KeepsAll(Exec(st, ops).schedules[i]) && Covered(Exec(st, ops), i)
    decreases |ops|
  {
    if ops != [] {
      if ops[0].Poll? {
        PollKeepsCovered(st, |st.schedules|, i, ops[0].now, ops[0].launch);
      } else if ops[0].FireNow? {
        FireNowKeepsCovered(st, ops[0], i);
      } else {
        SettingsKeepCovered(st, ops[0], i);
      }
      HistoryKeepsCovered(Apply(st, ops[0]), ops[1..], i);
    }
  }

  /**
   Exactly once: with policy `all`, no grace and room for the backlog, over any history that keeps the
   timing and what was missed, each fire between creation and the last successful poll has one occurrence
   and no more. An occurrence the history wrote is pending, and so was never launched, exactly when its
   launch broke late.
   */
  lemma EveryFireExactlyOnce(st: State, ops: seq<Op>, i: nat, t: int)
    requires Good(st) && History(st, ops) && i < |st.schedules| && OncePerInstant(st.occurrences)
    requires KeepsAll(st.schedules[i]) && st.schedules[i].last.None? && RoomyHistory(st, ops, i)
    requires var s := Exec(st, ops).schedules[i];
             KeepsAll(s) && s.created < t <= Start(s) && IsFire(s.timing, s.created, t)
    ensures exists k :: IsOnlyOccurrence(Exec(st, ops).occurrences, i, t, k) && TellsItsLaunch(st, ops, i, t, k)
  {
    HistoryKeepsCovered(st, ops, i);
    NoInstantFiresTwice(st, ops);
    ExistsOnce(Exec(st, ops).occurrences, i, t);
    hide KeepsAll, RoomyHistory, IsFire, Covered, History, Exec, OncePerInstant;
    var k: nat :| IsOnlyOccurrence(Exec(st, ops).occurrences, i, t, k);
    if k >= |st.occurrences| {
      PendingExactlyIfItBroke(st, ops, k);
    }
  }

  /** Row `k` of the history, for instant `t`, is as the launch that wrote it left it. */
  ghost predicate TellsItsLaunch(st: State, ops: seq<Op>, i: nat, t: int, k: nat)
    requires Good(st) && History(st, ops) && k < |Exec(st, ops).occurrences|
  {
    k >= |st.occurrences| ==>
      var op, o := Writer(st, ops, k), Exec(st, ops).occurrences[k];
      (op.Poll? || op.FireNow?) && (o.status.OccurrencePending? <==> LaunchOf(op, i, t).BreaksLate?)
  }

  ghost predicate IsOnlyOccurrence(occurrences: seq<Occurrence>, i: nat, t: int, k: nat) {
    && k < |occurrences| && occurrences[k].schedule == i && occurrences[k].at == t
    && forall j | 0 <= j < |occurrences| && j != k :: occurrences[j].schedule != i || occurrences[j].at != t
  }

  lemma ExistsOnce(occurrences: seq<Occurrence>, i: nat, t: int)
    requires OncePerInstant(occurrences) && Exists(occurrences, i, t)
    ensures exists k :: IsOnlyOccurrence(occurrences, i, t, k)
  {
    var k :| 0 <= k < |occurrences| && occurrences[k].schedule == i && occurrences[k].at == t;
    assert IsOnlyOccurrence(occurrences, i, t, k);
  }

  // ---- The service --------------------------------------------------------------------------

  /** How many occurrences were enqueued, as opposed to skipped by a gate or left pending. */
  function Enqueued(occurrences: seq<Occurrence>): nat {
    if occurrences == [] then 0
    else
      var last := |occurrences| - 1;
      Enqueued(occurrences[..last]) + if occurrences[last].status.OccurrenceEnqueued? then 1 else 0
  }

  lemma EnqueueOneCounts(occurrences: seq<Occurrence>, schedule: nat, at: int, launch: Launch, gated: bool)
    ensures var r := EnqueueOne(occurrences, schedule, at, launch, gated);
            Enqueued(r.occurrences) == Enqueued(occurrences) + r.launched
  {
    var r := EnqueueOne(occurrences, schedule, at, launch, gated).occurrences;
    assert r != occurrences ==> r[..|r| - 1] == occurrences;
  }

  class Scheduler {
    var schedules: seq<Schedule>
    var occurrences: seq<Occurrence>

    ghost function View(): State
      reads this
    {
      State(schedules, occurrences)
    }

    ghost predicate Valid()
      reads this
    {
      Good(View())
    }

    constructor (schedules: seq<Schedule>)
      requires forall s :: s in schedules ==> GoodTiming(s.timing)
      ensures Valid() && View() == State(schedules, [])
    {
      this.schedules, occurrences := schedules, [];
    }

    /** `_cron_times`: ask the expression for one fire after another. */
    method CronTimes(next: int -> int, ghost created: int, start: int, end: int) returns (times: seq<int>)
      requires IsClock(next)
      ensures times == Fires(Cron(next), created, start, end)
    {
      times := [];
      var before := start;
      while next(before) <= end
        invariant Fires(Cron(next), created, start, end) == times + Fires(Cron(next), created, before, end)
        decreases end - before
      {
        times := times + [next(before)];
        before := next(before);
      }
    }

    method DueTimesOf(i: nat, now: int) returns (times: seq<int>)
      requires Valid() && i < |schedules|
      ensures var s := schedules[i];
              times == DueTimes(s, now, s.timing.Date? && Exists(occurrences, i, s.timing.at))
    {
      var s := schedules[i];
      match s.timing {
        case Date(at) =>
          return if at <= now && !Exists(occurrences, i, at) then [at] else [];
        case Interval(every) =>
          times := IntervalTimes(every, s.created, Start(s), now);
        case Cron(next) =>
          times := CronTimes(next, s.created, Start(s), now);
      }
      if s.grace.Some? {
        times := WithinGrace(times, now, s.grace.value);
      }
      times := ApplyCatchup(s.policy, s.maxBackfill, times);
    }

    method EnqueueOccurrence(i: nat, at: int, launch: Launch, gated: bool) returns (raised: bool, launched: nat)
      modifies this`occurrences
      ensures Attempt(occurrences, raised, launched) == EnqueueOne(old(occurrences), i, at, launch, gated)
    {
      if Exists(occurrences, i, at) {
        return false, 0;
      }
      if gated && launch.GateSkips? {
        occurrences := occurrences + [Occurrence(i, at, OccurrenceSkipped)];
        return false, 0;
      }
      if launch.Unresolved? {
        return true, 0;
      }
      occurrences := occurrences + [Occurrence(i, at, OccurrencePending)];
      if launch.BreaksLate? {
        return true, 0;
      }
      occurrences := occurrences[|occurrences| - 1 := Occurrence(i, at, OccurrenceEnqueued)];
      return false, 1;
    }

    /** Launch every due occurrence; a schedule that raises stays due. Returns how many were enqueued. */
    method PollDueSchedules(now: int, launch: (nat, int) -> Launch) returns (enqueued: nat)
      requires Valid()
      modifies this
      ensures Valid() && View() == PollFirst(old(View()), old(|schedules|), now, launch)
      ensures Enqueued(occurrences) == Enqueued(old(occurrences)) + enqueued
    {
      hide Enqueued, DueTimes, EnqueueAll, Exists, GoodTiming;
      enqueued := 0;
      for i := 0 to |schedules|
        invariant |schedules| == old(|schedules|) && Valid()
        invariant View() == PollFirst(old(View()), i, now, launch)
        invariant Enqueued(occurrences) == Enqueued(old(occurrences)) + enqueued
      {
        if schedules[i].enabled {
          var times := DueTimesOf(i, now);
          var raised, launched := LaunchAll(i, times, Of(launch, i));
          enqueued := enqueued + launched;
          if !raised {
            schedules := schedules[i := schedules[i].(last := Some(now))];
          }
        }
      }
    }

    method LaunchAll(i: nat, times: seq<int>, launch: int -> Launch) returns (raised: bool, launched: nat)
      modifies this`occurrences
      ensures Attempt(occurrences, raised, EnqueueAll(old(occurrences), i, times, launch).launched)
              == EnqueueAll(old(occurrences), i, times, launch)
      ensures Enqueued(occurrences) == Enqueued(old(occurrences)) + launched
    {
      ghost var whole := EnqueueAll(occurrences, i, times, launch);
      launched := 0;
      var k := 0;
      assert times[0..] == times;
      while k < |times|
        invariant k <= |times|
        invariant EnqueueAll(occurrences, i, times[k..], launch).occurrences == whole.occurrences
        invariant EnqueueAll(occurrences, i, times[k..], launch).raised == whole.raised
        invariant Enqueued(occurrences) == Enqueued(old(occurrences)) + launched
      {
        EnqueueOneCounts(occurrences, i, times[k], launch(times[k]), true);
        assert times[k..][0] == times[k] && times[k..][1..] == times[k + 1..];
        var broke, one := EnqueueOccurrence(i, times[k], launch(times[k]), true);
        launched := launched + one;
        if broke {
          return true, launched;
        }
        k := k + 1;
      }
      raised := false;
    }

    /** Fire by hand, past the gate; `fired` is false when the instant already has its occurrence. */
    method FireScheduleNow(i: nat, now: int, launch: Launch) returns (raised: bool, fired: bool)
      requires Valid() && i < |schedules|
      modifies this`occurrences
      ensures Valid() && View() == Apply(old(View()), FireNow(i, now, launch))
      ensures fired <==> !old(Exists(occurrences, i, now)) && !raised
      ensures raised <==> !old(Exists(occurrences, i, now)) && (launch.Unresolved? || launch.BreaksLate?)
      ensures Enqueued(occurrences) == Enqueued(old(occurrences)) + if fired then 1 else 0
    {
      hide Exists, Enqueued, GoodTiming, PollFirst;
      EnqueueOneCounts(occurrences, i, now, launch, false);
      var broke, launched := EnqueueOccurrence(i, now, launch, false);
      return broke, launched == 1;
    }

    method EnableSchedule(i: nat, now: int, resumeFromNow: bool)
      requires Valid() && i < |schedules|
      modifies this`schedules
      ensures Valid() && View() == Apply(old(View()), Enable(i, now, resumeFromNow))
    {
      ghost var result := Apply(View(), Enable(i, now, resumeFromNow));
      if !schedules[i].enabled {
        schedules := schedules[i := schedules[i].(enabled := true)];
        if resumeFromNow {
          schedules := schedules[i := schedules[i].(last := Some(now))];
        }
      }
      assert schedules == result.schedules;
    }
  }
}
