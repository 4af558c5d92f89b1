/** Acyclic definitions never deadlock, cyclic ones never complete, and every run comes to rest for a reason. */
module WorkflowProgress {
  import opened Basics
  import opened Graph
  import opened Definitions
  import opened WorkflowModel
  import opened WorkflowMoves
  import opened WorkflowSafety
  import opened WorkflowRuns
  import opened WorkflowTermination

  // ---- Ranks --------------------------------------------------------------------------------

  /** Every edge leads to a higher rank. */
  ghost predicate Ranked(s: Run, rank: seq<nat>) {
    && |rank| == |s.nodes|
    && forall e :: e in s.edges ==> e.from < |rank| && e.to < |rank| && rank[e.from] < rank[e.to]
  }

  /** The nodes of a definition that come before `key`. */
  ghost function Ancestors(def: seq<NodeDef>, key: string): set<nat> {
    set i: nat | i < |def| && Before(def, def[i].key, key)
  }

  lemma BeforeIsTransitive(def: seq<NodeDef>, a: string, b: string, c: string)
    requires Before(def, a, b) && Before(def, b, c)
    ensures Before(def, a, c)
  {
    var arcs := DependencyArcs(def);
    var d :| (d, b) in arcs && Reaches(arcs, a, d);
    var e :| (e, c) in arcs && Reaches(arcs, b, e);
    ReachesStep(arcs, a, d, b);
    ReachesThrough(arcs, a, b, e);
  }

  lemma DependencyIsBefore(def: seq<NodeDef>, i: nat, d: string)
    requires i < |def| && d in def[i].dependsOn
    ensures Before(def, d, def[i].key)
  {
    assert (d, def[i].key) in DependencyArcs(def);
    ReachesSelf(DependencyArcs(def), d);
  }

  lemma FewerAncestors(def: seq<NodeDef>, i: nat, d: string)
    requires WellFormed(def) && Acyclic(def) && i < |def| && d in def[i].dependsOn
    ensures |Ancestors(def, d)| < |Ancestors(def, def[i].key)|
  {
    var j := IndexOf(def, d);
    DependencyIsBefore(def, i, d);
    assert def[j] in def && j !in Ancestors(def, d) && j in Ancestors(def, def[i].key);
    forall a | a in Ancestors(def, d) ensures a in Ancestors(def, def[i].key) {
      BeforeIsTransitive(def, def[a].key, d, def[i].key);
    }
    SmallerSet(Ancestors(def, d), Ancestors(def, def[i].key));
  }

  lemma {:induction false} SmallerSet<T>(a: set<T>, b: set<T>)
    requires a < b
    ensures |a| < |b|
  {
    if x :| x in a {
      SmallerSet(a - {x}, b - {x});
    }
  }

  lemma InitialIsRanked(def: seq<NodeDef>, id: string, items: map<string, Item>) returns (rank: seq<nat>)
    requires WellFormed(def) && Acyclic(def)
    ensures Ranked(Initial(def, id, items), rank)
  {
    rank := seq(|def|, i requires 0 <= i < |def| => |Ancestors(def, def[i].key)|);
    forall e | e in DefinitionEdges(def, |def|)
      ensures e.from < |def| && e.to < |def| && rank[e.from] < rank[e.to]
    {
      DefinitionEdgesMembers(def, |def|, e);
      var d :| d in def[e.to].dependsOn && e == DependencyEdge(def, d, e.to);
      FewerAncestors(def, e.to, d);
    }
  }

  /** Fan-out squeezes its children between itself and what comes next. */
  lemma ExpansionKeepsRanked(s: Run, r: Run, f: nat, n: Node, rank: seq<nat>) returns (wider: seq<nat>)
    requires Sound(s) && Ranked(s, rank) && Expansion(s, r, f, n)
    ensures Ranked(Put(r, f, n), wider)
  {
    wider := seq(|r.nodes|, i requires 0 <= i < |r.nodes| => if i < |s.nodes| then 2 * rank[i] else 2 * rank[f] + 1);
    forall e | e in r.edges
      ensures e.from < |wider| && e.to < |wider| && wider[e.from] < wider[e.to]
    {
      ExpansionEdge(s, r, f, n, e);
    }
  }

  lemma MoveKeepsRanked(s: Run, m: Move, rank: seq<nat>) returns (wider: seq<nat>)
    requires Sound(s) && Ranked(s, rank) && CanMove(s, m)
    ensures Ranked(Moved(s, m), wider)
  {
    wider := rank;
    if m.StartMove? && !m.choice.fails && s.nodes[m.node].def.kind.FanOut? && m.choice.items.Some? {
      var f, c := m.node, m.choice;
      var k := if c.failAt.Some? && c.failAt.value < c.items.value then c.failAt.value else c.items.value;
      var down := Downstream(s.edges, f);
      AddChildrenGrow(s, f, down, k);
      ExpandKeepsNodes(s, f, c);
      var r := AddChildren(s, f, down, k);
      wider := ExpansionKeepsRanked(s, r, f, Expand(s, f, c).nodes[f], rank);
    }
  }

  lemma {:induction false} PlayKeepsRanked(s: Run, moves: seq<Move>, rank: seq<nat>) returns (wider: seq<nat>)
    requires Sound(s) && Ranked(s, rank) && Playable(s, moves)
    ensures Ranked(Play(s, moves), wider)
    decreases |moves|
  {
    if moves == [] {
      wider := rank;
    } else {
      wider := MoveKeepsRanked(s, moves[0], rank);
      MoveKeepsSound(s, moves[0]);
      wider := PlayKeepsRanked(Moved(s, moves[0]), moves[1..], wider);
    }
  }

  // ---- Deadlock freedom ---------------------------------------------------------------------

  /** Every node is pending or done. */
  ghost predicate NothingUnderWay(nodes: seq<Node>) {
    forall n :: n in nodes ==> n.status.Pending? || IsDone(n.status)
  }

  /** Below a pending node, a lowest one that waits for nothing. */
  lemma {:induction false} SomeNodeIsStartable(s: Run, rank: seq<nat>, i: nat) returns (ready: nat)
    requires Sound(s) && Ranked(s, rank) && NothingUnderWay(s.nodes)
    requires i < |s.nodes| && s.nodes[i].status.Pending?
    ensures Startable(s, ready)
    decreases rank[i]
  {
    if Startable(s, i) {
      ready := i;
    } else {
      var e :| e in s.edges && e.to == i && !Met(s.nodes, e);
      assert s.nodes[e.from] in s.nodes;
      ready := SomeNodeIsStartable(s, rank, e.from);
    }
  }

  /**
   An acyclic definition never deadlocks: in every reachable unfinished, unpaused state with no failed
   or canceled node, all nodes are done, or one is enqueued, or a gate waits, or one can start.
   */
  lemma NoDeadlock(def: seq<NodeDef>, id: string, items: map<string, Item>, ops: seq<Op>)
    requires WellFormed(def) && Acyclic(def) && History(Initial(def, id, items), ops)
    requires var s := Exec(Initial(def, id, items), ops);
             Ticking(s.status) && forall n :: n in s.nodes ==> !n.status.Failed? && !n.status.NodeCanceled?
    ensures var s := Exec(Initial(def, id, items), ops);
            || AllDone(s.nodes)
            || (exists n :: n in s.nodes && n.status.Enqueued?)
            || GateWaits(s.nodes)
            || (exists i :: Startable(s, i))
  {
    var s0 := Initial(def, id, items);
    var s := Exec(s0, ops);
    InitialIsSound(def, id, items);
    EveryRunIsSound(def, id, items, ops);
    var rank := InitialIsRanked(def, id, items);
    var moves := HistoryMoves(s0, ops);
    rank := PlayKeepsRanked(s0, moves, rank);
    StartableOrUnderWay(s, rank);
  }

  lemma StartableOrUnderWay(s: Run, rank: seq<nat>)
    requires Sound(s) && Ranked(s, rank)
    requires forall n :: n in s.nodes ==> !n.status.Failed? && !n.status.NodeCanceled?
    ensures || AllDone(s.nodes)
            || (exists n :: n in s.nodes && n.status.Enqueued?)
            || GateWaits(s.nodes)
            || (exists i :: Startable(s, i))
  {
    if !AllDone(s.nodes) && NothingUnderWay(s.nodes) {
      var i: nat :| i < |s.nodes| && !IsDone(s.nodes[i].status);
      assert s.nodes[i] in s.nodes;
      var ready := SomeNodeIsStartable(s, rank, i);
    } else if n :| n in s.nodes && !n.status.Pending? && !IsDone(n.status) {
      assert n.status.Enqueued? || n.status.Waiting?;
      var i :| 0 <= i < |s.nodes| && s.nodes[i] == n;
    }
  }

  // ---- Cycles -------------------------------------------------------------------------------

  /** Each node of the set waits for another node of the set. */
  ghost predicate WaitsOnItself(edges: seq<Edge>, c: set<nat>) {
    forall i :: i in c ==> WaitsFor(edges, c, i)
  }

  ghost predicate WaitsFor(edges: seq<Edge>, c: set<nat>, i: nat) {
    exists e :: e in edges && e.to == i && e.from in c
  }

  ghost predicate Stuck(s: Run, c: set<nat>) {
    && WaitsOnItself(s.edges, c)
    && forall i :: i in c ==> i < |s.nodes| && Idle(s.nodes[i].status)
  }

  predicate Idle(status: NodeStatus) {
    status.Pending? || status.NodeCanceled?
  }

  /** An idle node leaves that state only by starting. */
  lemma IdleUnlessStarted(s: Run, m: Move, i: nat)
    requires CanMove(s, m) && i < |s.nodes| && Idle(s.nodes[i].status) && (m.StartMove? ==> m.node != i)
    ensures i < |Moved(s, m).nodes| && Idle(Moved(s, m).nodes[i].status)
  {
    match m
    case SyncMove(_) => hide RewindRefusal, RewindCone;
    case StartMove(j, c) => StartKeepsOthers(s, j, c);
    case CloseMove =>
    case CommandMove(op) => IdleUnderCommands(s, op, i);
  }

  lemma IdleUnderCommands(s: Run, op: Op, i: nat)
    requires !op.DoTick? && i < |s.nodes| && Idle(s.nodes[i].status)
    ensures i < |Apply(s, op).nodes| && Idle(Apply(s, op).nodes[i].status)
  {
  }

  lemma WaitsForInMore(edges: seq<Edge>, more: seq<Edge>, c: set<nat>, i: nat)
    requires WaitsFor(edges, c, i) && forall e :: e in edges ==> e in more
    ensures WaitsFor(more, c, i)
  {
  }

  lemma MoveKeepsStuck(s: Run, m: Move, c: set<nat>)
    requires Stuck(s, c) && CanMove(s, m)
    ensures Stuck(Moved(s, m), c)
  {
    MoveExtends(s, m);
    var t := Moved(s, m);
    hide Moved, WaitsFor;
    forall i | i in c ensures WaitsFor(t.edges, c, i) {
      WaitsForInMore(s.edges, t.edges, c, i);
    }
    forall i | i in c ensures i < |t.nodes| && Idle(t.nodes[i].status) {
      if m.StartMove? {
        StuckNodesNeverStart(s, m.node, c);
      }
      IdleUnlessStarted(s, m, i);
    }
  }

  lemma StuckNodesNeverStart(s: Run, i: nat, c: set<nat>)
    requires Stuck(s, c) && Startable(s, i)
    ensures i !in c
  {
  }

  lemma StartKeepsOthers(s: Run, i: nat, c: Choice)
    requires Startable(s, i)
    ensures |s.nodes| <= |StartNode(s, i, c).nodes|
    ensures forall j | 0 <= j < |s.nodes| && j != i :: StartNode(s, i, c).nodes[j] == s.nodes[j]
  {
    if !c.fails && s.nodes[i].def.kind.FanOut? {
      ExpandKeepsNodes(s, i, c);
      forall j | 0 <= j < |s.nodes| && j != i ensures StartNode(s, i, c).nodes[j] == s.nodes[j] {
        assert Expand(s, i, c).nodes[..|s.nodes|][j] == s.nodes[j];
      }
    }
  }

  lemma {:induction false} PlayKeepsStuck(s: Run, moves: seq<Move>, c: set<nat>)
    requires Stuck(s, c) && Playable(s, moves)
    ensures Stuck(Play(s, moves), c)
    decreases |moves|
  {
    if moves != [] {
      MoveKeepsStuck(s, moves[0], c);
      PlayKeepsStuck(Moved(s, moves[0]), moves[1..], c);
    }
  }

  /** The nodes on a cycle through `key`. */
  ghost function CycleThrough(def: seq<NodeDef>, key: string): set<nat> {
    set i: nat | i < |def| && Before(def, def[i].key, key) && Before(def, key, def[i].key)
  }

  lemma CycleNodeWaits(def: seq<NodeDef>, key: string, i: nat)
    requires WellFormed(def) && i in CycleThrough(def, key)
    ensures WaitsFor(DefinitionEdges(def, |def|), CycleThrough(def, key), i)
  {
    var d := CycleDependency(def, key, i);
    var e := DependencyEdge(def, d, i);
    DefinitionEdgesMembers(def, |def|, e);
    hide Before, WellFormed;
    assert e.from in CycleThrough(def, key);
  }

  /** A node on the cycle has a dependency on the cycle. */
  lemma CycleDependency(def: seq<NodeDef>, key: string, i: nat) returns (d: string)
    requires WellFormed(def) && i in CycleThrough(def, key)
    ensures d in def[i].dependsOn && Before(def, d, key) && Before(def, key, d)
  {
    var arcs := DependencyArcs(def);
    d :| (d, def[i].key) in arcs && Reaches(arcs, key, d);
    var j :| 0 <= j < |def| && def[j].key == def[i].key && d in def[j].dependsOn;
    assert j == i;
    DependencyIsBefore(def, i, d);
    BeforeIsTransitive(def, d, def[i].key, key);
    hide WellFormed, UniqueKeys;
    if d != key {
      ReachedIsBefore(def, key, d);
    }
  }

  lemma CycleWaitsOnItself(def: seq<NodeDef>, key: string)
    requires WellFormed(def)
    ensures WaitsOnItself(DefinitionEdges(def, |def|), CycleThrough(def, key))
  {
    hide WaitsFor;
    forall i | i in CycleThrough(def, key)
      ensures WaitsFor(DefinitionEdges(def, |def|), CycleThrough(def, key), i)
    {
      CycleNodeWaits(def, key, i);
    }
  }

  lemma ReachedIsBefore(def: seq<NodeDef>, a: string, b: string)
    requires Reaches(DependencyArcs(def), a, b) && a != b
    ensures Before(def, a, b)
  {
    var arcs := DependencyArcs(def);
    var p :| IsPath(arcs, p) && p[0] == a && p[|p| - 1] == b;
    var q := p[..|p| - 1];
    assert (p[|p| - 2], p[|p| - 2 + 1]) in arcs && IsPath(arcs, q) && q[|q| - 1] == p[|p| - 2];
  }

  lemma CycleIsStuckAtFirst(def: seq<NodeDef>, id: string, items: map<string, Item>, key: string)
    requires WellFormed(def)
    ensures Stuck(Initial(def, id, items), CycleThrough(def, key))
  {
    CycleWaitsOnItself(def, key);
    hide WaitsFor, WellFormed;
  }

  /** A run of a cyclic definition never completes: the nodes on the cycle never start. */
  lemma CyclesNeverComplete(def: seq<NodeDef>, id: string, items: map<string, Item>, ops: seq<Op>, i: nat)
    requires WellFormed(def) && i < |def| && Before(def, def[i].key, def[i].key)
    requires History(Initial(def, id, items), ops)
    ensures var s := Exec(Initial(def, id, items), ops);
            i < |s.nodes| && Idle(s.nodes[i].status) && !s.status.Completed?
  {
    var s0 := Initial(def, id, items);
    var cycle := CycleThrough(def, def[i].key);
    CycleIsStuckAtFirst(def, id, items, def[i].key);
    var moves := HistoryMoves(s0, ops);
    PlayKeepsStuck(s0, moves, cycle);
    StatusMeansWhatItSays(def, id, items, ops);
    assert i in cycle;
    hide WaitsOnItself, WellFormed, CycleThrough, Before, Initial;
  }
}
