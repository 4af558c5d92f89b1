/** What a poll does to each schedule, and what the settings of a schedule do to what it owes. */
module SchedulePolls {
  import opened Basics
  import opened Schedules
  import opened ScheduleRetries

  // ---- Rows ---------------------------------------------------------------------------------

  /** The schedule fires at `t`, after its last evaluation and not after `now`, within its grace. */
  ghost predicate FiresIn(s: Schedule, t: int, now: int)
    requires GoodTiming(s.timing)
  {
    if s.timing.Date? then t == s.timing.at <= now
    else Start(s) < t <= now && IsFire(s.timing, s.created, t) && (s.grace.Some? ==> now - t <= s.grace.value)
  }

  /** Every due time is a fire in the window. */
  lemma DueTimesFire(s: Schedule, now: int, fired: bool, t: int)
    requires GoodTiming(s.timing) && t in DueTimes(s, now, fired)
    ensures FiresIn(s, t, now)
  {
    if !s.timing.Date? {
      DueByCandidates(s, now);
      CandidatesAre(s, now);
      FiresAreExact(s.timing, s.created, Start(s), now, t);
      hide Candidates, Fires, Kept;
      assert t in Candidates(s, now);
    }
  }

  lemma {:induction false} RowsAreOfTheirTimes(occurrences: seq<Occurrence>, i: nat, times: seq<int>,
                                              launch: int -> Launch)
    ensures var r := EnqueueAll(occurrences, i, times, launch).occurrences;
            occurrences <= r && forall k: nat | |occurrences| <= k < |r| :: r[k].schedule == i && r[k].at in times
    decreases |times|
  {
    if times != [] {
      var first := EnqueueOne(occurrences, i, times[0], launch(times[0]), true);
      hide Exists;
      if !first.raised {
        RowsAreOfTheirTimes(first.occurrences, i, times[1..], launch);
        assert times == [times[0]] + times[1..];
      }
    }
  }

  /** The row is for a fire of a schedule that was enabled when the poll began, one of the first `n`. */
  ghost predicate RightRow(st: State, n: nat, now: int, o: Occurrence)
    requires Good(st)
  {
    o.schedule < n && o.schedule < |st.schedules| && st.schedules[o.schedule].enabled
    && FiresIn(st.schedules[o.schedule], o.at, now)
  }

  /** One schedule's turn: its rows are for it, if it is enabled, and only its own evaluation time may change. */
  lemma OneTurn(st: State, i: nat, now: int, launch: int -> Launch)
    requires Good(st) && i < |st.schedules|
    ensures var r := PollOne(st, i, now, launch);
            && |r.schedules| == |st.schedules| && st.occurrences <= r.occurrences
            && (forall j | 0 <= j < |st.schedules| && j != i :: r.schedules[j] == st.schedules[j])
            && (!st.schedules[i].enabled ==> r == st)
            && forall k: nat | |st.occurrences| <= k < |r.occurrences| ::
                 r.occurrences[k].schedule == i && st.schedules[i].enabled
                 && FiresIn(st.schedules[i], r.occurrences[k].at, now)
  {
    var s := st.schedules[i];
    var fired := s.timing.Date? && Exists(st.occurrences, i, s.timing.at);
    var r := PollOne(st, i, now, launch);
    RowsAreOfTheirTimes(st.occurrences, i, DueTimes(s, now, fired), launch);
    forall k: nat | |st.occurrences| <= k < |r.occurrences|
      ensures r.occurrences[k].schedule == i && s.enabled && FiresIn(s, r.occurrences[k].at, now)
    {
      if s.enabled {
        DueTimesFire(s, now, fired, r.occurrences[k].at);
      }
    }
    hide EnqueueAll, DueTimes, FiresIn, Exists;
  }

  /** Every row a poll adds is for an instant at which a schedule enabled at the poll fires in its window. */
  lemma {:induction false} NewRowsAreRight(st: State, n: nat, now: int, launch: (nat, int) -> Launch)
    requires Good(st) && n <= |st.schedules|
    ensures var r := PollFirst(st, n, now, launch);
            && st.occurrences <= r.occurrences
            && (forall j | n <= j < |st.schedules| :: r.schedules[j] == st.schedules[j])
            && forall k: nat | |st.occurrences| <= k < |r.occurrences| :: RightRow(st, n, now, r.occurrences[k])
  {
    if n > 0 {
      hide PollOne, FiresIn, Of;
      NewRowsAreRight(st, n - 1, now, launch);
      var mid := PollFirst(st, n - 1, now, launch);
      OneTurn(mid, n - 1, now, Of(launch, n - 1));
      var r := PollOne(mid, n - 1, now, Of(launch, n - 1));
      assert r == PollFirst(st, n, now, launch);
      hide PollFirst;
      forall k: nat | |st.occurrences| <= k < |r.occurrences| ensures RightRow(st, n, now, r.occurrences[k]) {
        if k < |mid.occurrences| {
          assert r.occurrences[k] == mid.occurrences[k] && RightRow(st, n - 1, now, mid.occurrences[k]);
        }
      }
    }
  }

  /** A poll leaves a disabled schedule alone: its row stays, and it gets no occurrence. */
  lemma DisabledIsLeftAlone(st: State, i: nat, now: int, launch: (nat, int) -> Launch)
    requires Good(st) && i < |st.schedules| && !st.schedules[i].enabled
    ensures var r := Apply(st, Poll(now, launch));
            && r.schedules[i] == st.schedules[i] && st.occurrences <= r.occurrences
            && forall k: nat | |st.occurrences| <= k < |r.occurrences| :: r.occurrences[k].schedule != i
  {
    NewRowsAreRight(st, |st.schedules|, now, launch);
    TurnsOfOthers(st, |st.schedules|, i, now, launch);
    hide PollFirst, FiresIn;
  }

  // ---- When a schedule counts as evaluated --------------------------------------------------

  predicate Breaks(l: Launch) {
    l.Unresolved? || l.BreaksLate?
  }

  /** Some due instant without a row has a launch that fails. */
  ghost predicate SomeLaunchFails(occurrences: seq<Occurrence>, i: nat, times: seq<int>, launch: int -> Launch) {
    exists t :: t in times && !Exists(occurrences, i, t) && Breaks(launch(t))
  }

  lemma {:induction false} RaisesExactly(occurrences: seq<Occurrence>, i: nat, times: seq<int>, launch: int -> Launch)
    ensures EnqueueAll(occurrences, i, times, launch).raised <==> SomeLaunchFails(occurrences, i, times, launch)
    decreases |times|
  {
    if times != [] {
      var t := times[0];
      var first := EnqueueOne(occurrences, i, t, launch(t), true);
      assert times == [t] + times[1..];
      forall u ensures Exists(first.occurrences, i, u) <==>
                       Exists(occurrences, i, u) || (u == t && !launch(t).Unresolved?)
      {
        OneRow(occurrences, i, t, launch(t), u);
      }
      assert first.raised <==> !Exists(occurrences, i, t) && Breaks(launch(t));
      hide Exists, EnqueueOne;
      if !first.raised {
        RaisesExactly(first.occurrences, i, times[1..], launch);
        assert SomeLaunchFails(first.occurrences, i, times[1..], launch)
          ==> SomeLaunchFails(occurrences, i, times, launch);
      } else {
        assert t in times;
      }
    }
  }

  lemma OneRow(occurrences: seq<Occurrence>, i: nat, t: int, launch: Launch, u: int)
    ensures Exists(EnqueueOne(occurrences, i, t, launch, true).occurrences, i, u) <==>
            Exists(occurrences, i, u) || (u == t && !launch.Unresolved?)
  {
    var r := EnqueueOne(occurrences, i, t, launch, true).occurrences;
    if Exists(occurrences, i, u) {
      var k :| 0 <= k < |occurrences| && occurrences[k].schedule == i && occurrences[k].at == u;
      assert r[k] == occurrences[k];
    }
    if !Exists(occurrences, i, t) && !launch.Unresolved? {
      assert r[|occurrences|].schedule == i && r[|occurrences|].at == t;
    }
  }

  /** The turns of other schedules do not touch this one, nor its rows. */
  lemma {:induction false} TurnsOfOthers(st: State, n: nat, i: nat, now: int, launch: (nat, int) -> Launch)
    requires Good(st) && n <= |st.schedules| && i < |st.schedules| && (i >= n || !st.schedules[i].enabled)
    ensures PollFirst(st, n, now, launch).schedules[i] == st.schedules[i]
  {
    if n > 0 {
      TurnsOfOthers(st, n - 1, i, now, launch);
      OneTurn(PollFirst(st, n - 1, now, launch), n - 1, now, Of(launch, n - 1));
      hide PollOne;
    }
  }

  lemma RowsOfLaterSchedules(st: State, i: nat, now: int, launch: (nat, int) -> Launch, t: int)
    requires Good(st) && i < |st.schedules|
    ensures Exists(PollFirst(st, i, now, launch).occurrences, i, t) <==> Exists(st.occurrences, i, t)
  {
    NewRowsAreRight(st, i, now, launch);
    var r := PollFirst(st, i, now, launch).occurrences;
    hide PollFirst, FiresIn;
    if Exists(r, i, t) {
      var k :| 0 <= k < |r| && r[k].schedule == i && r[k].at == t;
      assert k >= |st.occurrences| ==> RightRow(st, i, now, r[k]);
      assert r[k] == st.occurrences[k];
    }
    if Exists(st.occurrences, i, t) {
      var k :| 0 <= k < |st.occurrences| && st.occurrences[k].schedule == i && st.occurrences[k].at == t;
      assert r[k] == st.occurrences[k];
    }
  }

  /** What schedule `i` owes when the poll begins. */
  ghost function Owes(st: State, i: nat, now: int): seq<int>
    requires Good(st) && i < |st.schedules|
  {
    var s := st.schedules[i];
    DueTimes(s, now, s.timing.Date? && Exists(st.occurrences, i, s.timing.at))
  }

  /**
   An enabled schedule counts as evaluated at the poll exactly if none of the launches it owes fails; then
   each instant it owes has its row. Nothing else of it changes.
   */
  lemma EvaluatedExactly(st: State, i: nat, now: int, launch: (nat, int) -> Launch)
    requires Good(st) && i < |st.schedules| && st.schedules[i].enabled
    ensures var s := st.schedules[i]; var r := Apply(st, Poll(now, launch));
            var fails := SomeLaunchFails(st.occurrences, i, Owes(st, i, now), Of(launch, i));
            && r.schedules[i] == s.(last := if fails then s.last else Some(now))
            && (!fails ==> forall t :: t in Owes(st, i, now) ==> Exists(r.occurrences, i, t))
  {
    var s := st.schedules[i];
    var mid := PollFirst(st, i, now, launch);
    var times := Owes(st, i, now);
    TurnsOfOthers(st, i, i, now, launch);
    forall t ensures Exists(mid.occurrences, i, t) <==> Exists(st.occurrences, i, t) {
      RowsOfLaterSchedules(st, i, now, launch, t);
    }
    assert Owes(mid, i, now) == times;
    RaisesExactly(mid.occurrences, i, times, Of(launch, i));
    EnqueueAllCovers(mid.occurrences, i, times, Of(launch, i));
    var turn := PollOne(mid, i, now, Of(launch, i));
    assert SomeLaunchFails(mid.occurrences, i, times, Of(launch, i))
      <==> SomeLaunchFails(st.occurrences, i, times, Of(launch, i));
    hide Exists, EnqueueAll, SomeLaunchFails;
    assert turn == PollFirst(st, i + 1, now, launch);
    AfterItsTurn(st, |st.schedules|, i, now, launch);
  }

  lemma {:induction false} AfterItsTurn(st: State, n: nat, i: nat, now: int, launch: (nat, int) -> Launch)
    requires Good(st) && i < n <= |st.schedules|
    ensures var turn, r := PollFirst(st, i + 1, now, launch), PollFirst(st, n, now, launch);
            && r.schedules[i] == turn.schedules[i]
            && forall t :: Exists(turn.occurrences, i, t) ==> Exists(r.occurrences, i, t)
  {
    if n > i + 1 {
      AfterItsTurn(st, n - 1, i, now, launch);
      var mid := PollFirst(st, n - 1, now, launch);
      OneTurn(mid, n - 1, now, Of(launch, n - 1));
      var r := PollOne(mid, n - 1, now, Of(launch, n - 1));
      hide PollOne;
      forall t | Exists(mid.occurrences, i, t) ensures Exists(r.occurrences, i, t) {
        var k :| 0 <= k < |mid.occurrences| && mid.occurrences[k].schedule == i && mid.occurrences[k].at == t;
        assert r.occurrences[k] == mid.occurrences[k];
      }
    }
  }

  // ---- Catch-up -----------------------------------------------------------------------------

  /** Which fires of the window are due: the last one, or all from the first as far as the backfill goes. */
  lemma DueExactly(s: Schedule, now: int, t: int)
    requires GoodTiming(s.timing) && !s.timing.Date?
    ensures var due := DueTimes(s, now, false);
            && (!s.policy.CatchUpAll? ==>
                  (t in due <==> FiresIn(s, t, now) && Fires(s.timing, s.created, t, now) == []))
            && (s.policy.CatchUpAll? && s.maxBackfill >= |Fires(s.timing, s.created, Start(s), now)| ==>
                  (t in due <==> FiresIn(s, t, now)))
            && (s.policy.CatchUpAll? && s.maxBackfill >= 0 ==>
                  |due| <= s.maxBackfill && Ascending(due)
                  && (FiresIn(s, t, now) && t !in due ==> |due| == s.maxBackfill && forall u :: u in due ==> u < t))
  {
    var c := Candidates(s, now);
    DueByCandidates(s, now);
    CandidatesAre(s, now);
    FiresAreExact(s.timing, s.created, Start(s), now, t);
    assert t in c <==> FiresIn(s, t, now);
    CandidatesAreFew(s, now);
    if !s.policy.CatchUpAll? {
      if FiresIn(s, t, now) {
        LastCandidate(s, t, now, c);
      } else if c != [] {
        assert c[|c| - 1] in c;
      }
    } else if s.maxBackfill >= 0 {
      hide Candidates, Fires, FiresIn, DueTimes;
      FirstOnes(c, s.maxBackfill, t);
    }
  }

  lemma CandidatesAreFew(s: Schedule, now: int)
    requires GoodTiming(s.timing) && !s.timing.Date?
    ensures |Candidates(s, now)| <= |Fires(s.timing, s.created, Start(s), now)|
  {
    if s.grace.Some? {
      GraceOnlyDrops(Fires(s.timing, s.created, Start(s), now), now, s.grace.value);
    }
    hide Fires, WithinGrace;
  }

  lemma {:induction false} GraceOnlyDrops(times: seq<int>, now: int, grace: int)
    ensures |WithinGrace(times, now, grace)| <= |times|
  {
    if times != [] {
      GraceOnlyDrops(times[1..], now, grace);
    }
  }

  lemma FirstOnes(c: seq<int>, m: nat, t: int)
    requires Ascending(c)
    ensures var due := c[..Kept(|c|, m)];
            && |due| <= m && Ascending(due) && (m >= |c| ==> due == c)
            && (t in c && t !in due ==> |due| == m && forall u :: u in due ==> u < t)
  {
    var due := c[..Kept(|c|, m)];
    assert forall j | 0 <= j < |due| :: due[j] == c[j] && c[j] in due;
    if t in c && t !in due {
      var k :| 0 <= k < |c| && c[k] == t;
      forall u | u in due ensures u < t {
        var j :| 0 <= j < |due| && due[j] == u;
        assert c[j] == u;
      }
    }
  }

  // ---- Settings -----------------------------------------------------------------------------

  /** A change of settings touches its own schedule and no occurrence. */
  lemma SettingsTouchOne(st: State, op: Op, i: nat)
    requires Good(st) && Possible(st, op) && !op.Poll? && !op.FireNow? && i < |st.schedules| && op.schedule != i
    ensures Apply(st, op).schedules[i] == st.schedules[i] && Apply(st, op).occurrences == st.occurrences
  {
  }

  /** A schedule enabled from now on owes nothing until it next fires; enabled as it was, it owes what it missed. */
  lemma EnabledFromNowOn(st: State, i: nat, now: int, later: int)
    requires Good(st) && i < |st.schedules| && !st.schedules[i].enabled && !st.schedules[i].timing.Date?
    ensures var s := st.schedules[i];
            var on, again := Apply(st, Enable(i, now, true)), Apply(st, Enable(i, now, false));
            && on.schedules[i] == s.(enabled := true, last := Some(now)) && on.occurrences == st.occurrences
            && again.schedules[i] == s.(enabled := true) && again.occurrences == st.occurrences
            && (now <= later < Next(s.timing, s.created, now) ==> Owes(on, i, later) == [])
            && Owes(again, i, later) == DueTimes(s, later, false)
  {
    var s := st.schedules[i];
    NextFireTimeIsNextDue(s.(enabled := true, last := Some(now)), now, later);
    hide Fires, Next, Exists;
  }

  /** An enabled schedule is not enabled again, so keeps what it owes; disabling keeps it too, for later. */
  lemma SwitchingKeepsTheRest(st: State, i: nat, now: int, resume: bool)
    requires Good(st) && i < |st.schedules|
    ensures st.schedules[i].enabled ==> Apply(st, Enable(i, now, resume)) == st
    ensures var r := Apply(st, Disable(i));
            r.schedules[i] == st.schedules[i].(enabled := false) && r.occurrences == st.occurrences
  {
  }

  /** A new cadence starts from now: the schedule owes nothing until it next fires by the new timing. */
  lemma NewTimingStartsNow(st: State, i: nat, timing: Timing, now: int, later: int)
    requires Good(st) && i < |st.schedules| && GoodTiming(timing) && !timing.Date?
    ensures var r := Apply(st, Retime(i, timing, now));
            && r.schedules[i] == st.schedules[i].(timing := timing, last := Some(now))
            && (now <= later < Next(timing, st.schedules[i].created, now) ==> Owes(r, i, later) == [])
  {
    NextFireTimeIsNextDue(st.schedules[i].(timing := timing, last := Some(now)), now, later);
    hide Fires, Next, Exists;
  }
}
