/**
 Starts that fail. What a start meets (the items of a fan-out, an error) belongs to the node's key and is fixed
 for the run; a run in which some start fails never completes.
 */
module WorkflowStarts {
  import opened Basics
  import opened Graph
  import opened Definitions
  import opened WorkflowModel
  import opened WorkflowMoves
  import opened WorkflowSafety
  import opened WorkflowRuns
  import opened WorkflowTermination
  import opened WorkflowProgress

  /** What the start of each node meets, by its key. */
  type Starts = string -> Choice

  /** The start fails the node: it raises, or it is a fan-out over no list or over an item that cannot be built. */
  predicate StartFails(n: NodeDef, c: Choice) {
    || c.fails || n.kind.OtherKind?
    || (n.kind.FanOut? && (c.items.None? || (c.failAt.Some? && c.failAt.value < c.items.value)))
  }

  /** Neither the node's own start fails nor, for a fan-out, that of one of its items. */
  ghost predicate StartsWell(n: NodeDef, starts: Starts) {
    && !StartFails(n, starts(n.key))
    && (n.kind.FanOut? ==> forall k: nat | k < starts(n.key).items.value :: !starts(ChildKey(n.key, k)).fails)
  }

  ghost predicate AllStartWell(def: seq<NodeDef>, starts: Starts) {
    forall n :: n in def ==> StartsWell(n, starts)
  }

  ghost predicate Follows(s: Run, op: Op, starts: Starts) {
    op.DoTick? ==> forall i: nat | i < |s.nodes| :: op.choices(i) == starts(s.nodes[i].def.key)
  }

  /** Every start in the history meets what `starts` says. */
  ghost predicate FollowsThroughout(s: Run, ops: seq<Op>, starts: Starts) {
    ops == []
    || (FollowsThroughout(s, ops[..|ops| - 1], starts) && Follows(Exec(s, ops[..|ops| - 1]), ops[|ops| - 1], starts))
  }

  // ---- A start that fails is in every completing history ------------------------------------

  /** Not started, or not well. */
  predicate Barren(status: NodeStatus) {
    Idle(status) || status.Failed?
  }

  /** The node has got nowhere if its start fails; an expanded fan-out has a node for each item. */
  ghost predicate NodeHolds(nodes: seq<Node>, i: nat, starts: Starts)
    requires i < |nodes|
  {
    var n := nodes[i];
    var c := starts(n.def.key);
    && (StartFails(n.def, c) ==> Barren(n.status))
    && (n.def.kind.FanOut? && n.status.Succeeded? && c.items.Some? ==>
          forall k: nat | k < c.items.value :: FindKey(nodes, ChildKey(n.def.key, k)).Some?)
  }

  ghost predicate Holds(s: Run, starts: Starts) {
    forall i: nat | i < |s.nodes| :: NodeHolds(s.nodes, i, starts)
  }

  lemma KeyStays(s: Run, t: Run, key: string)
    requires Extends(s, t) && FindKey(s.nodes, key).Some?
    ensures FindKey(t.nodes, key).Some?
  {
    var i := FindKey(s.nodes, key).value;
    assert t.nodes[i] in t.nodes && t.nodes[i].def == s.nodes[i].def;
  }

  lemma StaysHolding(s: Run, t: Run, i: nat, starts: Starts)
    requires Extends(s, t) && i < |s.nodes| && NodeHolds(s.nodes, i, starts)
    requires t.nodes[i].status == s.nodes[i].status || Barren(t.nodes[i].status)
    ensures NodeHolds(t.nodes, i, starts)
  {
    hide FindKey, StartFails;
    var n, c := t.nodes[i], starts(t.nodes[i].def.key);
    if n.def.kind.FanOut? && n.status.Succeeded? && c.items.Some? {
      forall k: nat | k < c.items.value ensures FindKey(t.nodes, ChildKey(n.def.key, k)).Some? {
        KeyStays(s, t, ChildKey(n.def.key, k));
      }
    }
  }

  lemma SyncedHolds(s: Run, i: nat, k: nat, starts: Starts)
    requires Sound(s) && Holds(s, starts) && CanMove(s, SyncMove(i)) && k < |s.nodes|
    ensures Extends(s, SyncNode(s, i)) && |SyncNode(s, i).nodes| == |s.nodes|
    ensures NodeHolds(SyncNode(s, i).nodes, k, starts)
  {
    var t := SyncNode(s, i);
    MoveExtends(s, SyncMove(i));
    assert NodeHolds(s.nodes, k, starts);
    assert s.nodes[i] in s.nodes && s.nodes[i].def.kind.Work?;
    hide Sound, Holds, FindKey, RewindRefusal, RewindCone, Extends, GateWaits;
    if k != i {
      assert t.nodes[k].status == s.nodes[k].status || t.nodes[k].status.Pending?;
      StaysHolding(s, t, k, starts);
    } else {
      assert t.nodes[i].def == s.nodes[i].def;
    }
  }

  lemma StartedHolds(s: Run, i: nat, k: nat, starts: Starts)
    requires Sound(s) && Holds(s, starts) && Startable(s, i)
    requires var t := StartNode(s, i, starts(s.nodes[i].def.key)); Extends(s, t) && k < |t.nodes|
    ensures NodeHolds(StartNode(s, i, starts(s.nodes[i].def.key)).nodes, k, starts)
  {
    var c := starts(s.nodes[i].def.key);
    var t := StartNode(s, i, c);
    if k == i {
      StartedItself(s, i, starts);
    } else if k < |s.nodes| {
      assert NodeHolds(s.nodes, k, starts);
      StartKeepsOthers(s, i, c);
      StaysHolding(s, t, k, starts);
    } else {
      ChildIsPending(s, i, c, k);
    }
  }

  lemma ChildIsPending(s: Run, i: nat, c: Choice, k: nat)
    requires UniqueNodes(s.nodes) && i < |s.nodes| <= k < |StartNode(s, i, c).nodes|
    ensures StartNode(s, i, c).nodes[k].status.Pending?
  {
    if !c.fails && s.nodes[i].def.kind.FanOut? {
      ExpandAddsChildren(s, i, c);
      assert IsChildOf(Expand(s, i, c).nodes[k], s.nodes[i].def, i);
    }
  }

  lemma StartedItself(s: Run, i: nat, starts: Starts)
    requires Sound(s) && Startable(s, i)
    requires Extends(s, StartNode(s, i, starts(s.nodes[i].def.key)))
    ensures NodeHolds(StartNode(s, i, starts(s.nodes[i].def.key)).nodes, i, starts)
  {
    var n := s.nodes[i];
    var c := starts(n.def.key);
    if !StartFails(n.def, c) && n.def.kind.FanOut? {
      var t := StartNode(s, i, c);
      forall k: nat | k < c.items.value ensures FindKey(t.nodes, ChildKey(n.def.key, k)).Some? {
        ListedByKey(s, i, c, k);
        assert t.nodes[t.nodes[i].output.ids[k]] in t.nodes;
      }
    } else {
      ExpandFailure(s, i, c);
    }
    hide Expand, FindKey, Sound, Ready, JoinOutputs, Enqueue;
  }

  lemma ExpandFailure(s: Run, f: nat, c: Choice)
    requires f < |s.nodes|
    ensures StartFails(s.nodes[f].def, c) && s.nodes[f].def.kind.FanOut? && !c.fails ==>
              f < |Expand(s, f, c).nodes| && Expand(s, f, c).nodes[f].status.Failed?
  {
    hide AddChildren, Downstream, ChildIds;
  }

  lemma CommandHolds(s: Run, op: Op, k: nat, starts: Starts)
    requires Holds(s, starts) && !op.DoTick? && Possible(s, op) && k < |s.nodes|
    ensures Extends(s, Apply(s, op)) && |Apply(s, op).nodes| == |s.nodes|
    ensures NodeHolds(Apply(s, op).nodes, k, starts)
  {
    var t := Apply(s, op);
    MoveExtends(s, CommandMove(op));
    assert NodeHolds(s.nodes, k, starts);
    hide FindKey, Extends, StartFails;
    if t.nodes[k].status == s.nodes[k].status || Barren(t.nodes[k].status) {
      StaysHolding(s, t, k, starts);
    } else {
      assert op.DoAnswer? && s.nodes[k].status.Waiting? && s.nodes[k].def.kind.Gate?;
      assert t.nodes[k].def == s.nodes[k].def;
    }
  }

  // ---- Through a tick and a history ---------------------------------------------------------

  /** The first `n` nodes meet what `starts` says. */
  ghost predicate Obeys(nodes: seq<Node>, n: nat, choices: nat -> Choice, starts: Starts) {
    n <= |nodes| && forall i: nat | i < n :: choices(i) == starts(nodes[i].def.key)
  }

  lemma StillObeys(s: Run, t: Run, n: nat, choices: nat -> Choice, starts: Starts)
    requires Extends(s, t) && Obeys(s.nodes, n, choices, starts)
    ensures Obeys(t.nodes, n, choices, starts)
  {
  }

  lemma {:induction false} SyncAllHolds(s: Run, order: seq<nat>, starts: Starts)
    requires Sound(s) && Holds(s, starts) && Ticking(s.status)
    ensures var t := SyncAll(s, order); Sound(t) && Holds(t, starts) && Extends(s, t) && Ticking(t.status)
    decreases |order|
  {
    hide Sound, NodeHolds, SyncNode, AsksRewind, Extends;
    ExtendsItself(s);
    if order != [] {
      var i := order[0];
      if i < |s.nodes| && s.nodes[i].status.Enqueued? {
        var t := SyncNode(s, i);
        SyncKeepsSound(s, i);
        SyncKeepsTicking(s, i);
        SyncExtends(s, i);
        forall k: nat | k < |t.nodes| ensures NodeHolds(t.nodes, k, starts) {
          SyncedHolds(s, i, k, starts);
        }
        if !AsksRewind(s, i) {
          SyncAllHolds(t, order[1..], starts);
          ExtendsThrough(s, t, SyncAll(t, order[1..]));
        }
      } else {
        SyncAllHolds(s, order[1..], starts);
      }
    }
  }

  lemma ExtendsItself(s: Run)
    ensures Extends(s, s)
  {
  }

  lemma SyncExtends(s: Run, i: nat)
    requires i < |s.nodes|
    ensures Extends(s, SyncNode(s, i)) && |SyncNode(s, i).nodes| == |s.nodes|
  {
    hide RewindRefusal, RewindCone, FindKey, GateWaits;
  }

  lemma SyncKeepsTicking(s: Run, i: nat)
    requires i < |s.nodes| && Ticking(s.status)
    ensures Ticking(SyncNode(s, i).status)
  {
    hide RewindRefusal, RewindCone, FindKey, GateWaits, ResetNodes;
  }

  lemma {:induction false} StartAllHolds(s: Run, order: seq<nat>, n: nat, choices: nat -> Choice, starts: Starts)
    requires Sound(s) && Holds(s, starts) && Ticking(s.status)
    requires Obeys(s.nodes, n, choices, starts) && forall i :: i in order ==> i < n
    ensures Holds(StartAll(s, order, choices), starts) && Extends(s, StartAll(s, order, choices))
    decreases |order|
  {
    hide Sound, NodeHolds, StartNode, Extends, Ready;
    ExtendsItself(s);
    if order != [] {
      var i := order[0];
      assert i in order && forall k :: k in order[1..] ==> k in order;
      if Startable(s, i) {
        var t := StartNode(s, i, choices(i));
        MoveExtends(s, StartMove(i, choices(i)));
        StartKeepsSound(s, i, choices(i));
        StartKeepsTicking(s, i, choices(i));
        forall k: nat | k < |t.nodes| ensures NodeHolds(t.nodes, k, starts) {
          StartedHolds(s, i, k, starts);
        }
        StillObeys(s, t, n, choices, starts);
        StartAllHolds(t, order[1..], n, choices, starts);
        ExtendsThrough(s, t, StartAll(t, order[1..], choices));
      } else {
        StartAllHolds(s, order[1..], n, choices, starts);
      }
    }
  }

  lemma OpHolds(s: Run, op: Op, starts: Starts)
    requires Sound(s) && Holds(s, starts) && Possible(s, op) && Follows(s, op, starts)
    ensures Holds(Apply(s, op), starts)
  {
    hide Sound, NodeHolds, Extends, StartAll, SyncAll;
    if op.DoTick? {
      if Ticking(s.status) {
        SyncAllHolds(s, op.syncOrder, starts);
        var s1 := SyncAll(s, op.syncOrder);
        StillObeys(s, s1, |s.nodes|, op.choices, starts);
        if s1.status.Active? {
          StartAllHolds(s1, op.startOrder, |s.nodes|, op.choices, starts);
        }
      }
    } else {
      var t := Apply(s, op);
      MoveExtends(s, CommandMove(op));
      SameNodes(s, op);
      forall k: nat | k < |t.nodes| ensures NodeHolds(t.nodes, k, starts) {
        CommandHolds(s, op, k, starts);
      }
    }
  }

  lemma SameNodes(s: Run, op: Op)
    requires !op.DoTick? && Possible(s, op)
    ensures |Apply(s, op).nodes| == |s.nodes|
  {
    hide FindKey;
  }

  lemma {:induction false} HistoryHolds(def: seq<NodeDef>, id: string, items: map<string, Item>, ops: seq<Op>,
                                       starts: Starts)
    requires WellFormed(def) && History(Initial(def, id, items), ops)
    requires FollowsThroughout(Initial(def, id, items), ops, starts)
    ensures Holds(Exec(Initial(def, id, items), ops), starts)
    decreases |ops|
  {
    var s0 := Initial(def, id, items);
    if ops == [] {
      assert forall i | 0 <= i < |s0.nodes| :: s0.nodes[i].status.Pending?;
      hide FindKey, StartFails;
    } else {
      hide Holds, Sound, Apply, Follows, WellFormed;
      HistoryHolds(def, id, items, ops[..|ops| - 1], starts);
      EveryRunIsSound(def, id, items, ops[..|ops| - 1]);
      OpHolds(Exec(s0, ops[..|ops| - 1]), ops[|ops| - 1], starts);
    }
  }

  // ---- What a completed run shows -----------------------------------------------------------

  lemma DoneStartsWell(s: Run, i: nat, starts: Starts)
    requires Sound(s) && Holds(s, starts) && AllDone(s.nodes) && i < |s.nodes|
    ensures StartsWell(s.nodes[i].def, starts)
  {
    var n := s.nodes[i].def;
    assert s.nodes[i] in s.nodes && NodeHolds(s.nodes, i, starts);
    assert n.kind.FanOut? ==> s.nodes[i].status.Succeeded?;
    hide Sound, AllDone;
    if n.kind.FanOut? {
      forall k: nat | k < starts(n.key).items.value ensures !starts(ChildKey(n.key, k)).fails {
        var j := FindKey(s.nodes, ChildKey(n.key, k)).value;
        assert IsDone(s.nodes[j].status) && NodeHolds(s.nodes, j, starts);
      }
    }
  }

  /** A run in which the start of a node of the definition, or of an item of its fan-outs, fails never completes. */
  lemma FailingStartsNeverComplete(def: seq<NodeDef>, id: string, items: map<string, Item>, ops: seq<Op>,
                                   starts: Starts)
    requires WellFormed(def) && History(Initial(def, id, items), ops) && !AllStartWell(def, starts)
    requires FollowsThroughout(Initial(def, id, items), ops, starts)
    ensures !Exec(Initial(def, id, items), ops).status.Completed?
  {
    var s0 := Initial(def, id, items);
    var s := Exec(s0, ops);
    if s.status.Completed? {
      InitialIsSound(def, id, items);
      EveryRunIsSound(def, id, items, ops);
      StatusMeansWhatItSays(def, id, items, ops);
      HistoryHolds(def, id, items, ops, starts);
      var moves := HistoryMoves(s0, ops);
      PlayExtends(s0, moves);
      hide Sound, Holds, StartsWell, AllDone, WellFormed;
      forall n | n in def ensures StartsWell(n, starts) {
        var i :| 0 <= i < |def| && def[i] == n;
        assert s0.nodes[i].def == n && s.nodes[i].def == n;
        DoneStartsWell(s, i, starts);
      }
    }
  }

  const LONELY_FAN := [NodeDef("f", FanOut, [], false, false, None, false, "")]

  /** An accepted definition without cycles that never completes: a fan-out whose `items` are no list. */
  lemma NoListNeverCompletes(id: string, items: map<string, Item>, ops: seq<Op>, starts: Starts)
    requires starts("f").items.None?
    ensures WellFormed(LONELY_FAN) && Acyclic(LONELY_FAN)
    ensures History(Initial(LONELY_FAN, id, items), ops)
            && FollowsThroughout(Initial(LONELY_FAN, id, items), ops, starts) ==>
              !Exec(Initial(LONELY_FAN, id, items), ops).status.Completed?
  {
    assert DependencyArcs(LONELY_FAN) == {};
    assert LONELY_FAN[0] in LONELY_FAN && !StartsWell(LONELY_FAN[0], starts);
    if History(Initial(LONELY_FAN, id, items), ops) && FollowsThroughout(Initial(LONELY_FAN, id, items), ops, starts) {
      FailingStartsNeverComplete(LONELY_FAN, id, items, ops, starts);
    }
  }
}
