/** When a launch that failed at one poll is tried again at the next. */
module ScheduleRetries {
  import opened Basics
  import opened Schedules

  // ---- What stays due ------------------------------------------------------------------------

  /** Fires within the grace, before catch-up. */
  ghost function Candidates(s: Schedule, now: int): seq<int>
    requires GoodTiming(s.timing) && !s.timing.Date?
  {
    var times := Fires(s.timing, s.created, Start(s), now);
    if s.grace.Some? then WithinGrace(times, now, s.grace.value) else times
  }

  lemma {:induction false} GraceAdds(a: seq<int>, b: seq<int>, now: int, grace: int)
    ensures WithinGrace(a + b, now, grace) == WithinGrace(a, now, grace) + WithinGrace(b, now, grace)
  {
    if a == [] {
      assert a + b == b;
    } else {
      assert (a + b)[0] == a[0] && (a + b)[1..] == a[1..] + b;
      var first := if now - a[0] <= grace then [a[0]] else [];
      assert WithinGrace(a + b, now, grace) == first + WithinGrace(a[1..] + b, now, grace);
      assert WithinGrace(a, now, grace) == first + WithinGrace(a[1..], now, grace);
      hide WithinGrace;
      GraceAdds(a[1..], b, now, grace);
    }
  }

  lemma {:induction false} GraceSelects(times: seq<int>, now: int, grace: int, t: int)
    ensures t in WithinGrace(times, now, grace) <==> t in times && now - t <= grace
  {
    if times != [] {
      assert times == [times[0]] + times[1..];
      GraceSelects(times[1..], now, grace, t);
    }
  }

  /** Grace drops the oldest fires: what it keeps later is the end of what it keeps now. */
  lemma {:induction false} GraceIsSuffix(times: seq<int>, now: int, later: int, grace: int) returns (d: nat)
    requires Ascending(times) && now <= later
    ensures d <= |WithinGrace(times, now, grace)|
    ensures WithinGrace(times, later, grace) == WithinGrace(times, now, grace)[d..]
  {
    if times == [] {
      d := 0;
    } else {
      d := GraceIsSuffix(times[1..], now, later, grace);
      var rest := WithinGrace(times[1..], now, grace);
      assert WithinGrace(times, now, grace) == (if now - times[0] <= grace then [times[0]] else []) + rest;
      if later - times[0] <= grace {
        AllWithinGrace(times, later, grace);
        AllWithinGrace(times, now, grace);
        d := 0;
      } else if now - times[0] <= grace {
        assert ([times[0]] + rest)[d + 1..] == rest[d..];
        d := d + 1;
      }
    }
  }

  lemma {:induction false} AllWithinGrace(times: seq<int>, now: int, grace: int)
    requires Ascending(times) && (times != [] ==> now - times[0] <= grace)
    ensures WithinGrace(times, now, grace) == times
  {
    if times != [] {
      AllWithinGrace(times[1..], now, grace);
      assert times == [times[0]] + times[1..];
    }
  }

  /** What grace leaves later of past fires and of those that came in between. */
  lemma GraceMovesOn(past: seq<int>, more: seq<int>, now: int, later: int, grace: int) returns (d: nat, added: seq<int>)
    requires Ascending(past) && now <= later
    ensures var was := WithinGrace(past, now, grace);
            d <= |was| && WithinGrace(past + more, later, grace) == was[d..] + added
    ensures forall t :: t in added <==> t in more && later - t <= grace
  {
    hide WithinGrace, Ascending;
    d := GraceIsSuffix(past, now, later, grace);
    GraceAdds(past, more, later, grace);
    added := WithinGrace(more, later, grace);
    forall t ensures t in added <==> t in more && later - t <= grace {
      GraceSelects(more, later, grace, t);
    }
  }

  /** What is left of the candidates later, and those that came in between. */
  lemma CandidatesMoveOn(s: Schedule, now: int, later: int) returns (d: nat, added: seq<int>)
    requires GoodTiming(s.timing) && !s.timing.Date? && Start(s) <= now <= later
    ensures d <= |Candidates(s, now)| && Candidates(s, later) == Candidates(s, now)[d..] + added
    ensures forall t :: t in added <==>
              t in Fires(s.timing, s.created, now, later) && (s.grace.Some? ==> later - t <= s.grace.value)
  {
    var past, more := Fires(s.timing, s.created, Start(s), now), Fires(s.timing, s.created, now, later);
    FiresSplit(s.timing, s.created, Start(s), now, later);
    FiresAscend(s.timing, s.created, Start(s), now);
    hide Fires, WithinGrace, Ascending, Start;
    if s.grace.Some? {
      d, added := GraceMovesOn(past, more, now, later, s.grace.value);
    } else {
      d, added := 0, more;
    }
  }

  lemma CandidatesAre(s: Schedule, now: int)
    requires GoodTiming(s.timing) && !s.timing.Date?
    ensures Ascending(Candidates(s, now))
    ensures forall t :: t in Candidates(s, now) <==>
              t in Fires(s.timing, s.created, Start(s), now) && (s.grace.Some? ==> now - t <= s.grace.value)
  {
    var times := Fires(s.timing, s.created, Start(s), now);
    FiresAscend(s.timing, s.created, Start(s), now);
    hide Fires;
    if s.grace.Some? {
      GraceKeepsOrder(times, now, s.grace.value);
      forall t ensures t in WithinGrace(times, now, s.grace.value) <==> t in times && now - t <= s.grace.value {
        GraceSelects(times, now, s.grace.value, t);
      }
    }
  }

  lemma {:induction false} GraceKeepsOrder(times: seq<int>, now: int, grace: int)
    requires Ascending(times)
    ensures Ascending(WithinGrace(times, now, grace))
  {
    if times != [] {
      var rest := WithinGrace(times[1..], now, grace);
      GraceKeepsOrder(times[1..], now, grace);
      forall j | 0 <= j < |rest| ensures times[0] < rest[j] {
        GraceSelects(times[1..], now, grace, rest[j]);
        var i :| 0 <= i < |times[1..]| && times[1..][i] == rest[j];
        assert times[i + 1] == rest[j];
      }
    }
  }

  /** How many of `n` candidates `times[:m]` keeps. */
  function Kept(n: nat, m: int): (kept: nat)
    ensures kept <= n
  {
    if m >= n then n else if m >= 0 then m else if n + m >= 0 then n + m else 0
  }

  lemma TakeFirstKeeps(times: seq<int>, m: int)
    ensures TakeFirst(times, m) == times[..Kept(|times|, m)]
  {
  }

  /** The condition under which an instant that is due at one poll is due at the next. */
  ghost predicate StaysDue(s: Schedule, t: int, later: int)
    requires GoodTiming(s.timing) && !s.timing.Date?
  {
    && (s.grace.Some? ==> later - t <= s.grace.value)
    && (s.policy.CatchUpAll? || Fires(s.timing, s.created, t, later) == [])
  }

  /** A candidate that falls out of grace is no candidate later; one that does not moves to the front by `d` places. */
  lemma CandidateLater(s: Schedule, now: int, later: int, p: nat) returns (d: nat)
    requires GoodTiming(s.timing) && !s.timing.Date? && Start(s) <= now <= later && p < |Candidates(s, now)|
    ensures d <= |Candidates(s, now)| <= d + |Candidates(s, later)|
    ensures Candidates(s, later)[..|Candidates(s, now)| - d] == Candidates(s, now)[d..]
    ensures d <= p <==> (s.grace.Some? ==> later - Candidates(s, now)[p] <= s.grace.value)
  {
    var added: seq<int>;
    d, added := CandidatesMoveOn(s, now, later);
    CandidatesAre(s, now);
    CandidatesAre(s, later);
    var was, cur := Candidates(s, now), Candidates(s, later);
    FiresSplit(s.timing, s.created, Start(s), now, later);
    hide Candidates, Fires, GoodTiming, Start;
    assert was[p] in was;
    assert was[p] in Fires(s.timing, s.created, Start(s), later);
    if d <= p {
      assert cur[p - d] == was[p] && cur[p - d] in cur;
    } else {
      forall q | 0 <= q < |cur| ensures cur[q] != was[p] {
        NotAgain(s, now, later, was, cur, d, added, p, q);
      }
      assert was[p] !in cur;
    }
  }

  lemma NotAgain(s: Schedule, now: int, later: int, was: seq<int>, cur: seq<int>, d: nat, added: seq<int>,
                 p: nat, q: nat)
    requires GoodTiming(s.timing) && !s.timing.Date? && Start(s) <= now <= later
    requires Ascending(was) && p < d <= |was| && q < |cur| && cur == was[d..] + added
    requires was[p] in Fires(s.timing, s.created, Start(s), now)
    requires forall t :: t in added ==> t in Fires(s.timing, s.created, now, later)
    ensures cur[q] != was[p]
  {
    if q < |was| - d {
      assert cur[q] == was[d + q];
    } else {
      assert cur[q] == added[q - (|was| - d)] && cur[q] in added;
      FiresAreExact(s.timing, s.created, now, later, cur[q]);
      FiresAreExact(s.timing, s.created, Start(s), now, was[p]);
    }
  }

  /** The due times of the two polls by their candidates. */
  lemma DueByCandidates(s: Schedule, now: int)
    requires GoodTiming(s.timing) && !s.timing.Date?
    ensures var c := Candidates(s, now);
            DueTimes(s, now, false) ==
              if c == [] then [] else if s.policy.CatchUpAll? then c[..Kept(|c|, s.maxBackfill)] else [c[|c| - 1]]
  {
    TakeFirstKeeps(Candidates(s, now), s.maxBackfill);
  }

  /**
   An instant due at one poll is due at the next one exactly if it stays within the grace and, unless
   every missed fire is caught up, no later fire replaces it. What is then due before it was due before it.
   */
  lemma StillDueExactly(s: Schedule, now: int, later: int, k: nat) returns (q: nat)
    requires GoodTiming(s.timing) && !s.timing.Date? && Start(s) <= now <= later && k < |DueTimes(s, now, false)|
    ensures var t := DueTimes(s, now, false)[k]; var times := DueTimes(s, later, false);
            && (t in times <==> StaysDue(s, t, later))
            && (t in times ==> q < |times| && times[q] == t
                               && forall j | 0 <= j < q :: times[j] in DueTimes(s, now, false)[..k])
  {
    hide DueTimes, Candidates, Fires, Start, StaysDue, Kept;
    DueByCandidates(s, now);
    DueByCandidates(s, later);
    if s.policy.CatchUpAll? {
      q := AllStillDue(s, now, later, k);
    } else {
      q := 0;
      LastStillDue(s, now, later);
    }
  }

  lemma AllStillDue(s: Schedule, now: int, later: int, k: nat) returns (q: nat)
    requires GoodTiming(s.timing) && !s.timing.Date? && s.policy.CatchUpAll? && Start(s) <= now <= later
    requires k < |Candidates(s, now)| && k < Kept(|Candidates(s, now)|, s.maxBackfill)
    ensures var t := Candidates(s, now)[k];
            var times := Candidates(s, later)[..Kept(|Candidates(s, later)|, s.maxBackfill)];
            && (t in times <==> StaysDue(s, t, later))
            && (t in times ==> q < |times| && times[q] == t
                               && forall j | 0 <= j < q :: times[j] in Candidates(s, now)[..k])
  {
    var d := CandidateLater(s, now, later, k);
    CandidatesAre(s, later);
    var was, cur, m := Candidates(s, now), Candidates(s, later), s.maxBackfill;
    hide Candidates, Fires, Start, Kept, GoodTiming;
    q := 0;
    assert forall t :: t in cur[..Kept(|cur|, m)] ==> t in cur;
    if d <= k {
      FrontStays(was, cur, d, k, m);
      q := k - d;
    }
  }

  /** What is kept of the candidates now is kept of those later, `d` places further to the front. */
  lemma FrontStays(was: seq<int>, cur: seq<int>, d: nat, k: nat, m: int)
    requires d <= k < |was| <= d + |cur| && k < Kept(|was|, m) && cur[..|was| - d] == was[d..]
    ensures var times := cur[..Kept(|cur|, m)];
            k - d < |times| && times[k - d] == was[k] && forall j | 0 <= j < k - d :: times[j] in was[..k]
  {
    var times, front := cur[..Kept(|cur|, m)], cur[..|was| - d];
    assert k - d < Kept(|cur|, m);
    hide Kept;
    assert front[k - d] == was[d..][k - d] == was[k];
    forall j | 0 <= j < k - d ensures times[j] in was[..k] {
      assert times[j] == front[j] == was[d..][j] == was[..k][d + j];
    }
  }

  lemma LastStillDue(s: Schedule, now: int, later: int)
    requires GoodTiming(s.timing) && !s.timing.Date? && !s.policy.CatchUpAll? && Start(s) <= now <= later
    requires Candidates(s, now) != []
    ensures var was, cur := Candidates(s, now), Candidates(s, later); var t := was[|was| - 1];
            (cur != [] && cur[|cur| - 1] == t) <==> StaysDue(s, t, later)
  {
    LastIsFire(s, now);
    CandidatesAre(s, later);
    hide Candidates, Fires, Ascending, IsFire, GoodTiming, Start;
    LastCandidate(s, Candidates(s, now)[|Candidates(s, now)| - 1], later, Candidates(s, later));
  }

  lemma LastIsFire(s: Schedule, now: int)
    requires GoodTiming(s.timing) && !s.timing.Date? && Candidates(s, now) != []
    ensures var t := Candidates(s, now)[|Candidates(s, now)| - 1];
            Start(s) < t <= now && IsFire(s.timing, s.created, t)
  {
    var t := Candidates(s, now)[|Candidates(s, now)| - 1];
    CandidatesAre(s, now);
    FiresAreExact(s.timing, s.created, Start(s), now, t);
    hide Candidates, Fires, IsFire, Ascending;
    assert t in Candidates(s, now);
  }

  /** The last candidate is a given fire exactly when that is one and no fire follows it. */
  lemma LastCandidate(s: Schedule, t: int, later: int, cur: seq<int>)
    requires GoodTiming(s.timing) && !s.timing.Date?
    requires Start(s) < t <= later && IsFire(s.timing, s.created, t) && Ascending(cur)
    requires forall u :: u in cur <==>
               u in Fires(s.timing, s.created, Start(s), later) && (s.grace.Some? ==> later - u <= s.grace.value)
    ensures (cur != [] && cur[|cur| - 1] == t) <==>
            (s.grace.Some? ==> later - t <= s.grace.value) && Fires(s.timing, s.created, t, later) == []
  {
    FiresAreExact(s.timing, s.created, Start(s), later, t);
    var after := Fires(s.timing, s.created, t, later);
    if after != [] {
      FiresAreExact(s.timing, s.created, t, later, after[0]);
      FiresAreExact(s.timing, s.created, Start(s), later, after[0]);
      assert after[0] in after;
      if s.grace.Some? ==> later - t <= s.grace.value {
        assert after[0] in cur;
        var i :| 0 <= i < |cur| && cur[i] == after[0];
        assert cur[|cur| - 1] >= after[0];
      } else if cur != [] {
        assert cur[|cur| - 1] in cur;
      }
    } else {
      if cur != [] {
        var last := cur[|cur| - 1];
        assert last in cur;
        FiresAreExact(s.timing, s.created, Start(s), later, last);
        FiresAreExact(s.timing, s.created, t, later, last);
        if t in cur {
          var i :| 0 <= i < |cur| && cur[i] == t;
        }
      }
    }
  }

  // ---- What the next poll does ---------------------------------------------------------------

  /** The launches go well up to the one at place `k`, which fails. */
  ghost predicate BreaksAt(occurrences: seq<Occurrence>, i: nat, times: seq<int>, launch: int -> Launch, k: nat) {
    && k < |times|
    && var sofar := EnqueueAll(occurrences, i, times[..k], launch);
       !sofar.raised && EnqueueOne(sofar.occurrences, i, times[k], launch(times[k]), true).raised
  }

  lemma {:induction false} EnqueueAllAdds(occurrences: seq<Occurrence>, i: nat, a: seq<int>, b: seq<int>,
                                         launch: int -> Launch)
    ensures var first := EnqueueAll(occurrences, i, a, launch); var both := EnqueueAll(occurrences, i, a + b, launch);
            if first.raised then both.occurrences == first.occurrences && both.raised
            else
              var rest := EnqueueAll(first.occurrences, i, b, launch);
              both.occurrences == rest.occurrences && both.raised == rest.raised
    decreases |a|
  {
    hide EnqueueOne;
    if a == [] {
      assert a + b == b;
    } else {
      assert (a + b)[0] == a[0] && (a + b)[1..] == a[1..] + b;
      var one := EnqueueOne(occurrences, i, a[0], launch(a[0]), true);
      if !one.raised {
        EnqueueAllAdds(one.occurrences, i, a[1..], b, launch);
      }
    }
  }

  lemma OneTime(occurrences: seq<Occurrence>, i: nat, t: int, launch: int -> Launch)
    ensures var one := EnqueueOne(occurrences, i, t, launch(t), true);
            var all := EnqueueAll(occurrences, i, [t], launch);
            all.occurrences == one.occurrences && all.raised == one.raised
  {
    assert [t][1..] == [] && [t][0] == t;
    hide EnqueueOne;
  }

  /** Instants that have their rows are passed over. */
  lemma {:induction false} RowsArePassedOver(occurrences: seq<Occurrence>, i: nat, times: seq<int>,
                                            launch: int -> Launch)
    requires forall t :: t in times ==> Exists(occurrences, i, t)
    ensures EnqueueAll(occurrences, i, times, launch).occurrences == occurrences
    ensures !EnqueueAll(occurrences, i, times, launch).raised
    decreases |times|
  {
    hide Exists;
    if times != [] {
      assert times[0] in times;
      RowsArePassedOver(occurrences, i, times[1..], launch);
    }
  }

  /** Only instants that are tried get rows. */
  lemma {:induction false} OnlyTriedGetRows(occurrences: seq<Occurrence>, i: nat, times: seq<int>,
                                           launch: int -> Launch, t: int)
    requires !Exists(occurrences, i, t) && t !in times
    ensures !Exists(EnqueueAll(occurrences, i, times, launch).occurrences, i, t)
    decreases |times|
  {
    if times != [] {
      var first := EnqueueOne(occurrences, i, times[0], launch(times[0]), true);
      OneRowIsItsOwn(occurrences, i, times[0], launch(times[0]), t);
      hide Exists, EnqueueOne;
      if !first.raised {
        OnlyTriedGetRows(first.occurrences, i, times[1..], launch, t);
      }
    }
  }

  lemma OneRowIsItsOwn(occurrences: seq<Occurrence>, i: nat, u: int, launch: Launch, t: int)
    requires !Exists(occurrences, i, t) && t != u
    ensures !Exists(EnqueueOne(occurrences, i, u, launch, true).occurrences, i, t)
  {
  }

  /** A poll that breaks leaves its schedule as it is; the instant has a row exactly when the launch broke late. */
  lemma BrokenPoll(occurrences: seq<Occurrence>, i: nat, times: seq<int>, launch: int -> Launch, k: nat)
    requires BreaksAt(occurrences, i, times, launch, k)
    ensures var left := EnqueueAll(occurrences, i, times, launch);
            && left.raised && (launch(times[k]).BreaksLate? || launch(times[k]).Unresolved?)
            && (Exists(left.occurrences, i, times[k]) <==> launch(times[k]).BreaksLate?)
            && forall t :: t in times[..k] ==> Exists(left.occurrences, i, t)
  {
    var t, rest := times[k], times[k + 1..];
    var sofar := EnqueueAll(occurrences, i, times[..k], launch);
    var one := EnqueueOne(sofar.occurrences, i, t, launch(t), true);
    assert times == times[..k] + ([t] + rest);
    EnqueueAllAdds(occurrences, i, times[..k], [t] + rest, launch);
    EnqueueAllAdds(sofar.occurrences, i, [t], rest, launch);
    OneTime(sofar.occurrences, i, t, launch);
    EnqueueAllCovers(occurrences, i, times[..k], launch);
    EnqueueAllCovers(sofar.occurrences, i, [t], launch);
    FailureLeavesARowExactly(sofar.occurrences, i, t, launch(t), true, launch(t), true);
    hide EnqueueAll, Exists;
  }

  /** A poll over due times in which everything before `t` has its row gives `t` a row exactly as its launch does. */
  lemma FirstWithoutRow(occurrences: seq<Occurrence>, i: nat, times: seq<int>, launch: int -> Launch, q: nat)
    requires q < |times| && !Exists(occurrences, i, times[q])
    requires forall j | 0 <= j < q :: Exists(occurrences, i, times[j])
    ensures Exists(EnqueueAll(occurrences, i, times, launch).occurrences, i, times[q]) <==>
              !launch(times[q]).Unresolved?
  {
    var t, rest := times[q], times[q + 1..];
    var one := EnqueueOne(occurrences, i, t, launch(t), true);
    assert times == times[..q] + ([t] + rest);
    RowUnlessUnresolved(occurrences, i, t, launch(t));
    RowsArePassedOver(occurrences, i, times[..q], launch);
    EnqueueAllAdds(occurrences, i, times[..q], [t] + rest, launch);
    EnqueueAllAdds(occurrences, i, [t], rest, launch);
    OneTime(occurrences, i, t, launch);
    EnqueueAllCovers(one.occurrences, i, rest, launch);
    hide EnqueueAll, Exists, EnqueueOne;
  }

  /**
   A launch that failed at one poll is tried again at the next exactly if it failed before its row was
   written and its instant stays due: the next poll then, and only then, gives the instant the row its
   launch makes.
   */
  lemma RetriedExactly(st: State, i: nat, now: int, launch: int -> Launch, k: nat, later: int, again: int -> Launch)
    requires Good(st) && i < |st.schedules| && st.schedules[i].enabled && !st.schedules[i].timing.Date?
    requires Start(st.schedules[i]) <= now <= later
    requires BreaksAt(st.occurrences, i, DueTimes(st.schedules[i], now, false), launch, k)
    ensures var s := st.schedules[i]; var t := DueTimes(s, now, false)[k];
            var first := PollOne(st, i, now, launch); var second := PollOne(first, i, later, again);
            && first.schedules == st.schedules
            && (!Exists(first.occurrences, i, t) && Exists(second.occurrences, i, t) <==>
                  launch(t).Unresolved? && StaysDue(s, t, later) && !again(t).Unresolved?)
  {
    var s := st.schedules[i];
    var times, next := DueTimes(s, now, false), DueTimes(s, later, false);
    var left := EnqueueAll(st.occurrences, i, times, launch).occurrences;
    BrokenPoll(st.occurrences, i, times, launch, k);
    var q := StillDueExactly(s, now, later, k);
    hide DueTimes, EnqueueAll, Exists, BreaksAt, StaysDue, GoodTiming;
    if !Exists(left, i, times[k]) {
      if times[k] in next {
        FirstWithoutRow(left, i, next, again, q);
      } else {
        OnlyTriedGetRows(left, i, next, again, times[k]);
      }
    }
  }

  /** A date stays due until it has a row, so its launch is tried again exactly if it failed before writing one. */
  lemma DateRetriedExactly(st: State, i: nat, now: int, launch: int -> Launch, later: int, again: int -> Launch)
    requires Good(st) && i < |st.schedules| && st.schedules[i].enabled && st.schedules[i].timing.Date?
    requires var at := st.schedules[i].timing.at;
             && at <= now <= later && !Exists(st.occurrences, i, at)
             && (launch(at).Unresolved? || launch(at).BreaksLate?)
    ensures var at := st.schedules[i].timing.at;
            var first := PollOne(st, i, now, launch); var second := PollOne(first, i, later, again);
            && first.schedules == st.schedules
            && (!Exists(first.occurrences, i, at) && Exists(second.occurrences, i, at) <==>
                  launch(at).Unresolved? && !again(at).Unresolved?)
  {
    var at := st.schedules[i].timing.at;
    var one := EnqueueOne(st.occurrences, i, at, launch(at), true);
    OneTime(st.occurrences, i, at, launch);
    OneTime(one.occurrences, i, at, again);
    FailureLeavesARowExactly(st.occurrences, i, at, launch(at), true, again(at), true);
    RowUnlessUnresolved(st.occurrences, i, at, again(at));
    hide EnqueueAll, Exists, EnqueueOne;
    assert EnqueueAll(one.occurrences, i, [], again).occurrences == one.occurrences by {
      RowsArePassedOver(one.occurrences, i, [], again);
    }
  }

  lemma RowUnlessUnresolved(occurrences: seq<Occurrence>, i: nat, t: int, launch: Launch)
    requires !Exists(occurrences, i, t)
    ensures var one := EnqueueOne(occurrences, i, t, launch, true);
            && (Exists(one.occurrences, i, t) <==> !launch.Unresolved?)
            && (launch.Unresolved? ==> one.raised)
  {
    if !launch.Unresolved? {
      assert EnqueueOne(occurrences, i, t, launch, true).occurrences[|occurrences|].at == t;
    }
  }

  /** A schedule of one minute without grace: a fire that failed to resolve is out of grace a second later. */
  const STRICT := Schedule(Interval(60), 0, None, CatchUpAll, Some(0), 10, true)

  lemma FailedFireIsDropped()
    ensures var failed := PollOne(State([STRICT], []), 0, 60, t => Unresolved);
            failed == State([STRICT], [])
            && PollOne(failed, 0, 61, t => Succeeds) == State([STRICT.(last := Some(61))], [])
  {
    StrictIsDue();
    assert [60][1..] == [];
    hide DueTimes;
    assert EnqueueAll([], 0, [60], t => Unresolved) == Attempt([], true, 0);
    assert EnqueueAll([], 0, [], t => Succeeds) == Attempt([], false, 0);
  }

  lemma StrictIsDue()
    ensures DueTimes(STRICT, 60, false) == [60] && DueTimes(STRICT, 61, false) == []
  {
    assert IntervalNext(0, 60, 0) == 60 && IntervalNext(0, 60, 60) == 120;
    hide IntervalNext, TakeFirst;
    assert Fires(Interval(60), 0, 60, 60) == [] && Fires(Interval(60), 0, 60, 61) == [];
    assert Fires(Interval(60), 0, 0, 60) == [60] && Fires(Interval(60), 0, 0, 61) == [60];
    hide Fires;
    assert [60][1..] == [] && WithinGrace([], 60, 0) == [] && WithinGrace([], 61, 0) == [];
    assert WithinGrace([60], 60, 0) == [60] && WithinGrace([60], 61, 0) == [];
    CatchUpWithRoom([60], 10);
  }
}
