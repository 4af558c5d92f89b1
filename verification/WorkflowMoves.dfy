/** Every operation is a list of small moves: one node synced, one node started, one run closed, one command. */
module WorkflowMoves {
  import opened Basics
  import opened Definitions
  import opened WorkflowModel

  datatype Move =
    | SyncMove(node: nat)
    | StartMove(node: nat, choice: Choice)
    | CloseMove
    | CommandMove(op: Op)

  ghost predicate CanMove(s: Run, m: Move) {
    match m
    case SyncMove(i) => Ticking(s.status) && i < |s.nodes| && s.nodes[i].status.Enqueued?
    case StartMove(i, _) => Ticking(s.status) && Startable(s, i)
    case CloseMove => Ticking(s.status)
    case CommandMove(op) => !op.DoTick? && Possible(s, op)
  }

  ghost function Moved(s: Run, m: Move): Run
    requires CanMove(s, m)
  {
    match m
    case SyncMove(i) => SyncNode(s, i)
    case StartMove(i, c) => StartNode(s, i, c)
    case CloseMove => Finalize(s)
    case CommandMove(op) => Apply(s, op)
  }

  ghost predicate Playable(s: Run, moves: seq<Move>)
    decreases |moves|
  {
    moves == [] || (CanMove(s, moves[0]) && Playable(Moved(s, moves[0]), moves[1..]))
  }

  ghost function Play(s: Run, moves: seq<Move>): Run
    requires Playable(s, moves)
    decreases |moves|
  {
    if moves == [] then s else Play(Moved(s, moves[0]), moves[1..])
  }

  lemma {:induction false} PlayConcat(s: Run, first: seq<Move>, second: seq<Move>)
    requires Playable(s, first) && Playable(Play(s, first), second)
    ensures Playable(s, first + second) && Play(s, first + second) == Play(Play(s, first), second)
    decreases |first|
  {
    if first == [] {
      assert first + second == second;
    } else {
      assert (first + second)[1..] == first[1..] + second;
      PlayConcat(Moved(s, first[0]), first[1..], second);
    }
  }

  lemma {:induction false} SyncAllMoves(s: Run, order: seq<nat>) returns (moves: seq<Move>)
    requires Ticking(s.status)
    ensures Playable(s, moves) && Play(s, moves) == SyncAll(s, order) && Ticking(SyncAll(s, order).status)
    ensures forall m :: m in moves ==> m.SyncMove?
    decreases |order|
  {
    if order == [] {
      moves := [];
    } else if order[0] < |s.nodes| && s.nodes[order[0]].status.Enqueued? {
      var s1 := SyncNode(s, order[0]);
      var rest := [];
      if !AsksRewind(s, order[0]) {
        rest := SyncAllMoves(s1, order[1..]);
      }
      moves := [SyncMove(order[0])] + rest;
      assert moves[1..] == rest;
    } else {
      moves := SyncAllMoves(s, order[1..]);
    }
  }

  lemma {:induction false} StartAllMoves(s: Run, order: seq<nat>, choices: nat -> Choice) returns (moves: seq<Move>)
    requires Ticking(s.status)
    ensures Playable(s, moves) && Play(s, moves) == StartAll(s, order, choices)
    ensures Ticking(StartAll(s, order, choices).status)
    decreases |order|
  {
    if order == [] {
      moves := [];
    } else if Startable(s, order[0]) {
      StartKeepsTicking(s, order[0], choices(order[0]));
      var rest := StartAllMoves(StartNode(s, order[0], choices(order[0])), order[1..], choices);
      moves := [StartMove(order[0], choices(order[0]))] + rest;
      assert moves[1..] == rest;
    } else {
      moves := StartAllMoves(s, order[1..], choices);
    }
  }

  /** Nodes and edges may be added, the rest stays. */
  ghost predicate OnlyGrows(s: Run, t: Run) {
    t == s.(nodes := t.nodes, edges := t.edges) && s.edges <= t.edges
  }

  lemma OnlyGrowsThrough(s: Run, t: Run, u: Run)
    requires OnlyGrows(s, t) && OnlyGrows(t, u)
    ensures OnlyGrows(s, u)
  {
  }

  lemma {:induction false} AddChildrenFields(s: Run, f: nat, down: seq<Edge>, n: nat)
    requires f < |s.nodes|
    ensures OnlyGrows(s, AddChildren(s, f, down, n))
  {
    if n > 0 {
      hide AddChild, OnlyGrows;
      var before := AddChildren(s, f, down, n - 1);
      AddChildrenFields(s, f, down, n - 1);
      AddChildFields(before, f, down, n - 1);
      OnlyGrowsThrough(s, before, AddChild(before, f, down, n - 1));
    }
  }

  lemma AddChildFields(s: Run, f: nat, down: seq<Edge>, k: nat)
    requires f < |s.nodes|
    ensures OnlyGrows(s, AddChild(s, f, down, k))
  {
    hide FindKey, ChildNode, ChildEdges, ChildKey;
  }

  lemma ExpandFields(s: Run, f: nat, c: Choice)
    requires f < |s.nodes|
    ensures var r := Expand(s, f, c);
            r == s.(nodes := r.nodes, edges := r.edges) && s.edges <= r.edges
  {
    var down := Downstream(s.edges, f);
    if c.items.Some? {
      AddChildrenFields(s, f, down, c.items.value);
      if c.failAt.Some? {
        AddChildrenFields(s, f, down, c.failAt.value);
      }
    }
    hide AddChildren, Downstream, ChildIds;
  }

  lemma StartKeepsTicking(s: Run, i: nat, c: Choice)
    requires Startable(s, i) && Ticking(s.status)
    ensures Ticking(StartNode(s, i, c).status)
  {
    ExpandFields(s, i, c);
    hide Expand, JoinOutputs;
  }

  lemma AdvanceMoves(s: Run, syncOrder: seq<nat>, startOrder: seq<nat>, choices: nat -> Choice)
    returns (moves: seq<Move>)
    requires Ticking(s.status)
    ensures Playable(s, moves) && Play(s, moves) == Advance(s, syncOrder, startOrder, choices)
    ensures Ticking(Advance(s, syncOrder, startOrder, choices).status)
  {
    moves := SyncAllMoves(s, syncOrder);
    var s1 := SyncAll(s, syncOrder);
    if s1.status.Active? {
      var more := StartAllMoves(s1, startOrder, choices);
      PlayConcat(s, moves, more);
      moves := moves + more;
    }
  }

  lemma OpMoves(s: Run, op: Op) returns (moves: seq<Move>)
    requires Possible(s, op)
    ensures Playable(s, moves) && Play(s, moves) == Apply(s, op)
  {
    match op {
      case DoTick(syncOrder, startOrder, choices) =>
        if Ticking(s.status) {
          moves := AdvanceMoves(s, syncOrder, startOrder, choices);
          var s2 := Play(s, moves);
          var close := [CloseMove];
          assert close[1..] == [] && Playable(Finalize(s2), close[1..]);
          PlayConcat(s, moves, close);
          moves := moves + close;
        } else {
          moves := [];
        }
      case _ =>
        moves := [CommandMove(op)];
        assert moves[1..] == [] && Playable(Apply(s, op), moves[1..]);
    }
  }

  /** A history is a play. */
  lemma {:induction false} HistoryMoves(s: Run, ops: seq<Op>) returns (moves: seq<Move>)
    requires History(s, ops)
    ensures Playable(s, moves) && Play(s, moves) == Exec(s, ops)
    decreases |ops|
  {
    if ops == [] {
      moves := [];
    } else {
      moves := HistoryMoves(s, ops[..|ops| - 1]);
      var more := OpMoves(Exec(s, ops[..|ops| - 1]), ops[|ops| - 1]);
      PlayConcat(s, moves, more);
      moves := moves + more;
    }
  }
}
