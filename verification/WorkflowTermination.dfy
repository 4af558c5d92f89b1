/** A run makes only finitely many node changes: a measure every change lowers and nothing raises. */
module WorkflowTermination {
  import opened Basics
  import opened Graph
  import opened Definitions
  import opened WorkflowModel
  import opened WorkflowMoves
  import opened WorkflowSafety
  import opened WorkflowRuns

  function Weight(status: NodeStatus): nat {
    match status
    case Pending => 2
    case Enqueued => 1
    case Waiting => 1
    case _ => 0
  }

  function TotalWeight(nodes: seq<Node>): nat {
    if nodes == [] then 0 else TotalWeight(nodes[..|nodes| - 1]) + Weight(nodes[|nodes| - 1].status)
  }

  function FanWeight(n: Node): nat {
    if n.def.kind.FanOut? && n.status.Pending? then 1 else 0
  }

  /** How many fan-outs have not expanded yet. */
  function PendingFans(nodes: seq<Node>): nat {
    if nodes == [] then 0 else PendingFans(nodes[..|nodes| - 1]) + FanWeight(nodes[|nodes| - 1])
  }

  /** Rounds left, unexpanded fan-outs, and how far each node still has to go; compared in that order. */
  datatype Measure = Measure(rounds: nat, fans: nat, work: nat) {
    predicate Below(m: Measure) {
      || rounds < m.rounds
      || (rounds == m.rounds && fans < m.fans)
      || (rounds == m.rounds && fans == m.fans && work < m.work)
    }
  }

  function MeasureOf(s: Run): Measure
    requires s.round <= REWIND_ROUNDS_MAX
  {
    Measure(REWIND_ROUNDS_MAX - s.round, PendingFans(s.nodes), TotalWeight(s.nodes))
  }

  /** The same nodes, each with the status it had, in the same round. */
  ghost predicate Still(s: Run, t: Run) {
    && s.round == t.round && |s.nodes| == |t.nodes|
    && forall i | 0 <= i < |s.nodes| :: s.nodes[i].status == t.nodes[i].status && s.nodes[i].def == t.nodes[i].def
  }

  lemma {:induction false} PutWeighs(nodes: seq<Node>, i: nat, n: Node)
    requires i < |nodes|
    ensures TotalWeight(nodes[i := n]) == TotalWeight(nodes) - Weight(nodes[i].status) + Weight(n.status)
    ensures PendingFans(nodes[i := n]) == PendingFans(nodes) - FanWeight(nodes[i]) + FanWeight(n)
  {
    var last := |nodes| - 1;
    if i < last {
      assert nodes[i := n][..last] == nodes[..last][i := n];
      PutWeighs(nodes[..last], i, n);
    } else {
      assert nodes[i := n][..last] == nodes[..last];
    }
  }

  lemma {:induction false} WorkAddsNoFans(nodes: seq<Node>, more: seq<Node>)
    requires forall n :: n in more ==> n.def.kind.Work?
    ensures PendingFans(nodes + more) == PendingFans(nodes)
  {
    if more == [] {
      assert nodes + more == nodes;
    } else {
      var last := |more| - 1;
      assert (nodes + more)[..|nodes + more| - 1] == nodes + more[..last];
      assert (nodes + more)[|nodes + more| - 1] == more[last];
      WorkAddsNoFans(nodes, more[..last]);
    }
  }

  /** Nodes that each weigh no more weigh no more together; the same only if each weighs the same. */
  lemma {:induction false} LighterNodes(before: seq<Node>, after: seq<Node>)
    requires |before| == |after|
    requires forall i | 0 <= i < |before| ::
               Weight(after[i].status) <= Weight(before[i].status) && FanWeight(after[i]) <= FanWeight(before[i])
    ensures TotalWeight(after) <= TotalWeight(before) && PendingFans(after) <= PendingFans(before)
    ensures TotalWeight(after) == TotalWeight(before) ==>
              forall i | 0 <= i < |before| :: Weight(after[i].status) == Weight(before[i].status)
  {
    if before != [] {
      LighterNodes(before[..|before| - 1], after[..|after| - 1]);
    }
  }

  lemma StillMeasuresTheSame(s: Run, t: Run)
    requires Still(s, t) && s.round <= REWIND_ROUNDS_MAX
    ensures MeasureOf(s) == MeasureOf(t)
  {
    LighterNodes(s.nodes, t.nodes);
    LighterNodes(t.nodes, s.nodes);
  }

  lemma PutMeasures(s: Run, i: nat, n: Node)
    requires i < |s.nodes| && s.round <= REWIND_ROUNDS_MAX
    requires n.def == s.nodes[i].def && Weight(n.status) < Weight(s.nodes[i].status)
    ensures MeasureOf(Put(s, i, n)).Below(MeasureOf(s))
  {
    PutWeighs(s.nodes, i, n);
  }

  lemma ExpansionAddsNoFans(s: Run, f: nat, c: Choice)
    requires f < |s.nodes| && UniqueNodes(s.nodes)
    ensures var r := Expand(s, f, c);
            f < |r.nodes| && PendingFans(r.nodes) == PendingFans(s.nodes[f := r.nodes[f]])
  {
    var r, n := Expand(s, f, c), |s.nodes|;
    ExpandKeepsNodes(s, f, c);
    ExpandAddsChildren(s, f, c);
    hide Expand, UniqueNodes, PendingFans, FindKey;
    assert r.nodes == r.nodes[..n] + r.nodes[n..];
    WorkAddsNoFans(r.nodes[..n], r.nodes[n..]);
  }

  lemma ExpandMeasures(s: Run, f: nat, c: Choice)
    requires Sound(s) && Startable(s, f) && s.nodes[f].def.kind.FanOut?
    ensures Expand(s, f, c).round == s.round && MeasureOf(Expand(s, f, c)).Below(MeasureOf(s))
  {
    var r := Expand(s, f, c);
    ExpandFields(s, f, c);
    ExpandKeepsNodes(s, f, c);
    ExpandEnds(s, f, c);
    ExpansionAddsNoFans(s, f, c);
    PutWeighs(s.nodes, f, r.nodes[f]);
    hide Expand, PendingFans, TotalWeight, Ready, FindKey;
  }

  lemma StartMeasures(s: Run, i: nat, c: Choice)
    requires Sound(s) && Startable(s, i)
    ensures StartNode(s, i, c).round == s.round && MeasureOf(StartNode(s, i, c)).Below(MeasureOf(s))
  {
    if !c.fails && s.nodes[i].def.kind.FanOut? {
      ExpandMeasures(s, i, c);
    } else {
      var t := StartNode(s, i, c);
      assert t.nodes == s.nodes[i := t.nodes[i]];
      PutMeasures(s, i, t.nodes[i]);
    }
  }

  /** The item of an enqueued node is final, so syncing the node changes it. */
  ghost predicate WorkEnded(s: Run, i: nat) {
    && i < |s.nodes| && s.nodes[i].status.Enqueued?
    && s.nodes[i].work.Some? && s.nodes[i].work.value in s.items && !s.items[s.nodes[i].work.value].status.Live?
  }

  /** A node made lighter in place. */
  ghost predicate Lightens(s: Run, t: Run, i: nat) {
    && i < |s.nodes| && i < |t.nodes| && t.nodes == s.nodes[i := t.nodes[i]] && t.round == s.round
    && t.nodes[i].def == s.nodes[i].def && Weight(t.nodes[i].status) < Weight(s.nodes[i].status)
  }

  lemma LighterMeasures(s: Run, t: Run, i: nat)
    requires Lightens(s, t, i) && s.round <= REWIND_ROUNDS_MAX
    ensures MeasureOf(t).Below(MeasureOf(s))
  {
    PutMeasures(s, i, t.nodes[i]);
  }

  lemma SyncLightensOrRewinds(s: Run, i: nat)
    requires WorkEnded(s, i)
    ensures Lightens(s, SyncNode(s, i), i) || SyncNode(s, i).round == s.round + 1
  {
    hide RewindCone, GateWaits, FindKey, ResetNodes, RewindRefusal;
    var t := SyncNode(s, i);
    if t.round != s.round + 1 {
      assert |t.nodes| == |s.nodes|;
      assert t.nodes == s.nodes[i := t.nodes[i]];
    }
  }

  lemma SyncMeasures(s: Run, i: nat)
    requires Sound(s) && CanMove(s, SyncMove(i))
    ensures SyncNode(s, i).round <= REWIND_ROUNDS_MAX
    ensures if WorkEnded(s, i) then MeasureOf(SyncNode(s, i)).Below(MeasureOf(s)) else SyncNode(s, i) == s
  {
    SyncKeepsSound(s, i);
    if WorkEnded(s, i) {
      SyncLightensOrRewinds(s, i);
      hide SyncNode, Lightens, PendingFans, TotalWeight;
      if Lightens(s, SyncNode(s, i), i) {
        LighterMeasures(s, SyncNode(s, i), i);
      }
    }
  }

  lemma AnswerMeasures(s: Run, key: string, answer: string)
    requires Sound(s)
    ensures Answer(s, key, answer).round == s.round
    ensures MeasureOf(Answer(s, key, answer)).Below(MeasureOf(s)) || Still(s, Answer(s, key, answer))
  {
    var i := FindKey(s.nodes, key);
    if i.Some? && Answerable(s, i.value) {
      var n := Answer(s, key, answer).nodes[i.value];
      PutMeasures(s, i.value, n);
      assert Answer(s, key, answer).nodes == Put(s, i.value, n).nodes;
    }
  }

  lemma CancelMeasures(s: Run)
    requires s.round <= REWIND_ROUNDS_MAX
    ensures Cancel(s).round == s.round
    ensures MeasureOf(Cancel(s)).Below(MeasureOf(s)) || Still(s, Cancel(s))
  {
    var t := Cancel(s);
    hide Sound, TotalWeight, PendingFans;
    if !RunOver(s.status) {
      assert forall i | 0 <= i < |s.nodes| :: t.nodes[i] == CancelNode(s.nodes[i]);
      LighterNodes(s.nodes, t.nodes);
    }
  }

  lemma CommandMeasures(s: Run, op: Op)
    requires Sound(s) && !op.DoTick? && Possible(s, op)
    ensures Apply(s, op).round == s.round
    ensures MeasureOf(Apply(s, op)).Below(MeasureOf(s)) || Still(s, Apply(s, op))
  {
    hide TotalWeight, PendingFans, FindKey, Cancel, Answer;
    match op
    case DoAnswer(key, answer) => AnswerMeasures(s, key, answer);
    case DoCancel => CancelMeasures(s);
    case DoNote(key, text) => assert Still(s, AddNote(s, key, text));
    case DoPause =>
    case DoResume =>
    case DoWork(_) =>
  }

  /** Every move lowers the measure or leaves every node's status alone. */
  lemma MoveMeasures(s: Run, m: Move)
    requires Sound(s) && CanMove(s, m)
    ensures Moved(s, m).round <= REWIND_ROUNDS_MAX
    ensures MeasureOf(Moved(s, m)).Below(MeasureOf(s)) || Still(s, Moved(s, m))
    ensures m.StartMove? ==> MeasureOf(Moved(s, m)).Below(MeasureOf(s))
    ensures m.SyncMove? && WorkEnded(s, m.node) ==> MeasureOf(Moved(s, m)).Below(MeasureOf(s))
  {
    match m
    case SyncMove(i) => SyncMeasures(s, i);
    case StartMove(i, c) => StartMeasures(s, i, c);
    case CloseMove =>
    case CommandMove(op) => CommandMeasures(s, op);
  }

  lemma {:induction false} PlayMeasures(s: Run, moves: seq<Move>)
    requires Sound(s) && Playable(s, moves)
    ensures Play(s, moves).round <= REWIND_ROUNDS_MAX
    ensures MeasureOf(Play(s, moves)).Below(MeasureOf(s)) || Still(s, Play(s, moves))
    decreases |moves|
  {
    if moves != [] {
      var t := Moved(s, moves[0]);
      MoveMeasures(s, moves[0]);
      MoveKeepsSound(s, moves[0]);
      PlayMeasures(t, moves[1..]);
      if Still(s, t) {
        StillMeasuresTheSame(s, t);
      }
      if Still(t, Play(s, moves)) {
        StillMeasuresTheSame(t, Play(s, moves));
      }
    }
  }

  /** Every operation lowers the measure or leaves every node's status alone, and there are at most 20 rounds. */
  lemma OpMeasures(s: Run, op: Op)
    requires Sound(s) && Possible(s, op)
    ensures Sound(Apply(s, op)) && Apply(s, op).round <= REWIND_ROUNDS_MAX
    ensures MeasureOf(Apply(s, op)).Below(MeasureOf(s)) || Still(s, Apply(s, op))
  {
    var moves := OpMoves(s, op);
    PlayMeasures(s, moves);
    PlayKeepsSound(s, moves);
  }

  // ---- Endless histories --------------------------------------------------------------------

  /** An endless history: a state and the operation applied to it, for each moment. */
  ghost predicate Endless(states: nat -> Run, ops: nat -> Op) {
    forall k: nat :: Possible(states(k), ops(k)) && states(k + 1) == Apply(states(k), ops(k))
  }

  ghost predicate StillFrom(states: nat -> Run, n: nat) {
    forall m: nat :: m >= n ==> Still(states(n), states(m))
  }

  lemma {:induction false} EndlessIsSound(states: nat -> Run, ops: nat -> Op, k: nat)
    requires Endless(states, ops) && Sound(states(0))
    ensures Sound(states(k))
  {
    if k > 0 {
      EndlessIsSound(states, ops, k - 1);
      OpMeasures(states(k - 1), ops(k - 1));
      assert states(k - 1 + 1) == Apply(states(k - 1), ops(k - 1));
    }
  }

  lemma {:induction false} StillUnlessBelow(states: nat -> Run, ops: nat -> Op, n: nat, m: nat)
    requires Endless(states, ops) && Sound(states(0)) && n <= m
    requires forall k: nat :: n <= k ==> states(k).round <= REWIND_ROUNDS_MAX
    requires forall k: nat :: n <= k <= m ==> !MeasureOf(states(k)).Below(MeasureOf(states(n)))
    ensures Still(states(n), states(m))
    decreases m - n
  {
    if n < m {
      hide Sound, Apply, MeasureOf, Possible, Still;
      StillUnlessBelow(states, ops, n, m - 1);
      EndlessIsSound(states, ops, m - 1);
      OpMeasures(states(m - 1), ops(m - 1));
      assert states(m - 1 + 1) == Apply(states(m - 1), ops(m - 1));
      StillMeasuresTheSame(states(n), states(m - 1));
      assert !MeasureOf(states(m)).Below(MeasureOf(states(n)));
      StillThrough(states(n), states(m - 1), states(m));
    } else {
      StillItself(states(n));
    }
  }

  lemma StillItself(s: Run)
    ensures Still(s, s)
  {
  }

  lemma StillThrough(s: Run, t: Run, u: Run)
    requires Still(s, t) && Still(t, u)
    ensures Still(s, u)
  {
  }

  lemma {:induction false} StopsAfter(states: nat -> Run, ops: nat -> Op, n: nat, rounds: nat, fans: nat, work: nat)
    returns (stop: nat)
    requires Endless(states, ops) && Sound(states(0))
    requires states(n).round <= REWIND_ROUNDS_MAX && MeasureOf(states(n)) == Measure(rounds, fans, work)
    ensures StillFrom(states, stop)
    decreases rounds, fans, work
  {
    forall k: nat ensures states(k).round <= REWIND_ROUNDS_MAX {
      EndlessIsSound(states, ops, k);
    }
    if lower: nat :| n <= lower && MeasureOf(states(lower)).Below(MeasureOf(states(n))) {
      var m := MeasureOf(states(lower));
      stop := StopsAfter(states, ops, lower, m.rounds, m.fans, m.work);
    } else {
      forall m: nat | m >= n ensures Still(states(n), states(m)) {
        StillUnlessBelow(states, ops, n, m);
      }
      stop := n;
    }
  }

  /** Every endless history of a run stops changing node statuses, whatever the environment does. */
  lemma NodeChangesEnd(def: seq<NodeDef>, id: string, items: map<string, Item>, states: nat -> Run, ops: nat -> Op)
    returns (stop: nat)
    requires WellFormed(def) && states(0) == Initial(def, id, items) && Endless(states, ops)
    ensures StillFrom(states, stop)
  {
    InitialIsSound(def, id, items);
    var m := MeasureOf(states(0));
    stop := StopsAfter(states, ops, 0, m.rounds, m.fans, m.work);
  }
}
