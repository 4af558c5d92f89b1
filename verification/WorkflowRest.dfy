/** A run that stops moving is over, paused, or waits for live work, for a gate, or behind a canceled node. */
module WorkflowRest {
  import opened Basics
  import opened Definitions
  import opened WorkflowModel
  import opened WorkflowMoves
  import opened WorkflowSafety
  import opened WorkflowRuns
  import opened WorkflowTermination
  import opened WorkflowKeys
  import opened WorkflowProgress

  /** Moves after a drop never climb back. */
  lemma PlayStaysBelow(s: Run, t: Run, moves: seq<Move>)
    requires s.round <= REWIND_ROUNDS_MAX && Sound(t) && MeasureOf(t).Below(MeasureOf(s)) && Playable(t, moves)
    ensures Play(t, moves).round <= REWIND_ROUNDS_MAX && MeasureOf(Play(t, moves)).Below(MeasureOf(s))
  {
    PlayMeasures(t, moves);
    if Still(t, Play(t, moves)) {
      StillMeasuresTheSame(t, Play(t, moves));
    }
  }

  lemma {:induction false} SyncAllDrops(s: Run, order: seq<nat>, i: nat)
    requires Sound(s) && Ticking(s.status) && i in order && WorkEnded(s, i)
    ensures SyncAll(s, order).round <= REWIND_ROUNDS_MAX && MeasureOf(SyncAll(s, order)).Below(MeasureOf(s))
    decreases |order|
  {
    var h := order[0];
    if h < |s.nodes| && s.nodes[h].status.Enqueued? {
      SyncMeasures(s, h);
      SyncKeepsSound(s, h);
      if WorkEnded(s, h) {
        if !AsksRewind(s, h) {
          var rest := SyncAllMoves(SyncNode(s, h), order[1..]);
          PlayStaysBelow(s, SyncNode(s, h), rest);
        }
      } else {
        SyncAllDrops(s, order[1..], i);
      }
    } else {
      SyncAllDrops(s, order[1..], i);
    }
  }

  lemma {:induction false} SyncAllIdle(s: Run, order: seq<nat>)
    requires forall n :: n in s.nodes ==> !n.status.Enqueued?
    ensures SyncAll(s, order) == s
    decreases |order|
  {
    if order != [] {
      SyncAllIdle(s, order[1..]);
    }
  }

  lemma {:induction false} StartAllDrops(s: Run, order: seq<nat>, choices: nat -> Choice, i: nat)
    requires Sound(s) && Ticking(s.status) && i in order && Startable(s, i)
    ensures StartAll(s, order, choices).round <= REWIND_ROUNDS_MAX
    ensures MeasureOf(StartAll(s, order, choices)).Below(MeasureOf(s))
    decreases |order|
  {
    var h := order[0];
    if Startable(s, h) {
      var t := StartNode(s, h, choices(h));
      StartMeasures(s, h, choices(h));
      StartKeepsSound(s, h, choices(h));
      StartKeepsTicking(s, h, choices(h));
      var rest := StartAllMoves(t, order[1..], choices);
      PlayStaysBelow(s, t, rest);
    } else {
      StartAllDrops(s, order[1..], choices, i);
    }
  }

  lemma {:induction false} StartAllIdle(s: Run, order: seq<nat>, choices: nat -> Choice)
    requires forall n :: n in s.nodes ==> !n.status.Pending?
    ensures StartAll(s, order, choices) == s
    decreases |order|
  {
    if order != [] {
      StartAllIdle(s, order[1..], choices);
    }
  }

  /** What can hold up a run that is not over. */
  ghost predicate HeldUp(s: Run) {
    || (exists i: nat :: i < |s.nodes| && s.nodes[i].status.Enqueued? && !WorkEnded(s, i))
    || GateWaits(s.nodes)
    || (exists n :: n in s.nodes && n.status.NodeCanceled?)
  }

  lemma AdvanceDrops(s: Run, rank: seq<nat>, syncOrder: seq<nat>, startOrder: seq<nat>, choices: nat -> Choice)
    requires Sound(s) && Ranked(s, rank) && s.status.Active? && !AnyFailed(s.nodes) && !HeldUp(s) && !AllDone(s.nodes)
    requires Covers(syncOrder, |s.nodes|) && Covers(startOrder, |s.nodes|)
    ensures var t := Advance(s, syncOrder, startOrder, choices);
            t.round <= REWIND_ROUNDS_MAX && MeasureOf(t).Below(MeasureOf(s))
  {
    if i: nat :| i < |s.nodes| && s.nodes[i].status.Enqueued? {
      SyncAllDrops(s, syncOrder, i);
      var s1 := SyncAll(s, syncOrder);
      var moves := SyncAllMoves(s, syncOrder);
      PlayKeepsSound(s, moves);
      if s1.status.Active? {
        var more := StartAllMoves(s1, startOrder, choices);
        PlayStaysBelow(s, s1, more);
      }
    } else {
      SyncAllIdle(s, syncOrder);
      forall n | n in s.nodes ensures !n.status.Failed? && !n.status.NodeCanceled? && !n.status.Enqueued? {
        var j :| 0 <= j < |s.nodes| && s.nodes[j] == n;
      }
      StartableOrUnderWay(s, rank);
      var i :| Startable(s, i);
      StartAllDrops(s, startOrder, choices, i);
    }
  }

  /** A tick of an active run with nothing holding it up changes a node or ends the run. */
  lemma TickMovesOrEnds(s: Run, rank: seq<nat>, syncOrder: seq<nat>, startOrder: seq<nat>, choices: nat -> Choice)
    requires Sound(s) && StatusMeans(s) && Ranked(s, rank) && s.status.Active? && !HeldUp(s)
    requires Covers(syncOrder, |s.nodes|) && Covers(startOrder, |s.nodes|)
    ensures var t := Tick(s, syncOrder, startOrder, choices);
            t.round <= REWIND_ROUNDS_MAX && (t.status.Completed? || MeasureOf(t).Below(MeasureOf(s)))
    ensures AllDone(s.nodes) ==> Tick(s, syncOrder, startOrder, choices).status.Completed?
  {
    if AllDone(s.nodes) {
      forall n | n in s.nodes ensures IsDone(n.status) {
        var j :| 0 <= j < |s.nodes| && s.nodes[j] == n;
      }
      SyncAllIdle(s, syncOrder);
      StartAllIdle(s, startOrder, choices);
    } else {
      AdvanceDrops(s, rank, syncOrder, startOrder, choices);
    }
  }

  // ---- Endless histories of an acyclic definition -------------------------------------------

  lemma {:induction false} EndlessIsHistory(states: nat -> Run, ops: nat -> Op, k: nat) returns (prefix: seq<Op>)
    requires Endless(states, ops)
    ensures History(states(0), prefix) && Exec(states(0), prefix) == states(k)
  {
    if k == 0 {
      prefix := [];
    } else {
      var shorter := EndlessIsHistory(states, ops, k - 1);
      hide Apply, Possible;
      prefix := shorter + [ops(k - 1)];
      assert prefix[..|prefix| - 1] == shorter;
      assert Possible(states(k - 1), ops(k - 1)) && states(k - 1 + 1) == Apply(states(k - 1), ops(k - 1));
    }
  }

  /** A node whose queued work has not ended yet. */
  ghost predicate WorkIsLive(s: Run) {
    exists n :: n in s.nodes && n.status.Enqueued? && n.work.Some? && n.work.value in s.items
                && s.items[n.work.value].status.Live?
  }

  ghost predicate RestsForAReason(s: Run) {
    WorkIsLive(s) || GateWaits(s.nodes) || exists n :: n in s.nodes && n.status.NodeCanceled?
  }

  lemma HeldUpForAReason(s: Run)
    requires WorkHeld(s) && HeldUp(s)
    ensures RestsForAReason(s)
  {
    if i: nat :| i < |s.nodes| && s.nodes[i].status.Enqueued? && !WorkEnded(s, i) {
      assert HoldsOwnWork(s, i) && s.nodes[i] in s.nodes;
    }
  }

  lemma EveryTickMovesOrEnds(def: seq<NodeDef>, id: string, items: map<string, Item>, ops: seq<Op>, tick: Op)
    requires WellFormed(def) && Acyclic(def) && FreshId(id, items) && History(Initial(def, id, items), ops)
    requires var s := Exec(Initial(def, id, items), ops);
             tick.DoTick? && Possible(s, tick) && s.status.Active? && !RestsForAReason(s)
    ensures var s := Exec(Initial(def, id, items), ops);
            Apply(s, tick).status.Completed? || !Still(s, Apply(s, tick))
  {
    var s0 := Initial(def, id, items);
    var s := Exec(s0, ops);
    var moves := HistoryMoves(s0, ops);
    InitialIsSound(def, id, items);
    InitialIsKeyed(def, id, items);
    PlayKeepsSound(s0, moves);
    PlayKeepsKeyed(s0, moves);
    StatusMeansWhatItSays(def, id, items, ops);
    var rank := InitialIsRanked(def, id, items);
    rank := PlayKeepsRanked(s0, moves, rank);
    if HeldUp(s) {
      HeldUpForAReason(s);
    }
    TickMovesOrEnds(s, rank, tick.syncOrder, tick.startOrder, tick.choices);
    if Still(s, Apply(s, tick)) {
      StillMeasuresTheSame(s, Apply(s, tick));
    }
  }

  /**
   Every endless history of an acyclic definition comes to rest, and the reason shows: from some moment
   on no node changes, and a tick of an active run from then on completes it, or finds live work, a
   waiting gate or a canceled node.
   */
  lemma RunsComeToRest(def: seq<NodeDef>, id: string, items: map<string, Item>, states: nat -> Run, ops: nat -> Op)
    returns (stop: nat)
    requires WellFormed(def) && Acyclic(def) && FreshId(id, items)
    requires states(0) == Initial(def, id, items) && Endless(states, ops)
    ensures StillFrom(states, stop)
    ensures forall m: nat :: m >= stop && ops(m).DoTick? && states(m).status.Active? ==>
              states(m + 1).status.Completed? || RestsForAReason(states(m))
  {
    stop := NodeChangesEnd(def, id, items, states, ops);
    forall m: nat | m >= stop && ops(m).DoTick? && states(m).status.Active?
      ensures states(m + 1).status.Completed? || RestsForAReason(states(m))
    {
      var prefix := EndlessIsHistory(states, ops, m);
      assert Possible(states(m), ops(m)) && states(m + 1) == Apply(states(m), ops(m));
      if !RestsForAReason(states(m)) {
        EveryTickMovesOrEnds(def, id, items, prefix, ops(m));
        assert Still(states(stop), states(m)) && Still(states(stop), states(m + 1));
      }
    }
  }
}
