/** What a tick makes of nodes: what finished work leaves, what a start leads to, and that it misses none of either. */
module WorkflowOutcomes {
  import opened Basics
  import opened Graph
  import opened Definitions
  import opened WorkflowModel
  import opened WorkflowMoves
  import opened WorkflowSafety
  import opened WorkflowRuns
  import opened WorkflowKeys
  import opened WorkflowProgress
  import opened WorkflowRest
  import opened WorkflowStarts

  // ---- Finished work ------------------------------------------------------------------------

  ghost predicate HasItem(s: Run, i: nat) {
    i < |s.nodes| && s.nodes[i].work.Some? && s.nodes[i].work.value in s.items
  }

  function ItemOf(s: Run, i: nat): Item
    requires HasItem(s, i)
  {
    s.items[s.nodes[i].work.value]
  }

  /** The node's work succeeded and asks for a rewind. */
  predicate GoesBack(n: Node, item: Item) {
    item.status.ItemSucceeded? && item.rewind && n.def.rewindTo.Some?
  }

  /** What an enqueued node becomes when its item's status is folded in. */
  ghost predicate Folded(n: Node, item: Item, m: Node) {
    && m.def == n.def && m.parent == n.parent && m.input == n.input && m.work == n.work
    && (m.status.Succeeded? <==> item.status.ItemSucceeded?)
    && (m.status.Tolerated? <==> item.status.DeadLetter? && n.def.tolerant)
    && (m.status.Failed? <==> item.status.DeadLetter? && !n.def.tolerant)
    && (m.status.NodeCanceled? <==> item.status.ItemCanceled?)
    && (m == n <==> item.status.Live?)
    && (m.status.Succeeded? ==> m.output == Produced(item.text, item.rewind))
    && (m.status.Tolerated? ==> m.output == ToleratedFailure)
    && (m.status.Failed? || m.status.NodeCanceled? ==> m.output == n.output)
  }

  lemma SettledIsFolded(n: Node, item: Item)
    requires n.status.Enqueued?
    ensures Folded(n, item, Settled(n, item))
  {
  }

  /** Syncing a node whose work asks for no rewind folds that node and changes nothing else. */
  lemma SyncFolds(s: Run, i: nat)
    requires HasItem(s, i) && s.nodes[i].status.Enqueued? && !GoesBack(s.nodes[i], ItemOf(s, i))
    ensures var t := SyncNode(s, i);
            && |t.nodes| == |s.nodes| && t == s.(nodes := s.nodes[i := t.nodes[i]])
            && Folded(s.nodes[i], ItemOf(s, i), t.nodes[i])
  {
    SettledIsFolded(s.nodes[i], ItemOf(s, i));
    hide Folded, Rewind;
  }

  /** Why a rewind is refused: its node does not come after the target, a child does, or no round is left. */
  lemma RewindRefusedExactly(s: Run, i: nat, target: nat)
    requires i < |s.nodes| && s.nodes[i].def.rewindTo.Some?
    requires FindKey(s.nodes, s.nodes[i].def.rewindTo.value) == Some(target)
    ensures RewindRefusal(s, i) == NoReason <==>
            && Reaches(Arcs(s.edges), target, i) && s.round < REWIND_ROUNDS_MAX
            && forall k: nat | k < |s.nodes| && s.nodes[k].parent.Some? :: !Reaches(Arcs(s.edges), target, k)
    ensures RewindRefusal(s, i).NotBefore? <==> !Reaches(Arcs(s.edges), target, i)
    ensures RewindRefusal(s, i).TooManyRounds? ==> s.round >= REWIND_ROUNDS_MAX
  {
    hide FindKey, Reaches;
    assert forall k: nat :: k in RewindCone(s, i) <==> k < |s.nodes| && Reaches(Arcs(s.edges), target, k);
    hide RewindCone;
  }

  /** Syncing a node whose work asks for a rewind: it succeeds and then starts over with all after it, or fails. */
  lemma SyncGoesBack(s: Run, i: nat)
    requires HasItem(s, i) && s.nodes[i].status.Enqueued? && GoesBack(s.nodes[i], ItemOf(s, i))
    ensures var done := s.nodes[i].(status := Succeeded, output := Produced(ItemOf(s, i).text, true));
            var s1 := s.(nodes := s.nodes[i := done]); var t := SyncNode(s, i);
            if RewindRefusal(s1, i) == NoReason then t == Rewind(s1, i)
            else t == s.(nodes := s.nodes[i := done.(status := Failed, reason := RewindRefusal(s1, i))])
  {
    hide RewindRefusal, RewindCone, GateWaits, ResetNodes;
  }

  /** In every state that moves lead to an enqueued node has its item, and syncing it folds it in. */
  lemma FinishedWorkIsFolded(def: seq<NodeDef>, id: string, items: map<string, Item>, moves: seq<Move>, i: nat)
    requires WellFormed(def) && FreshId(id, items) && Playable(Initial(def, id, items), moves)
    requires CanMove(Play(Initial(def, id, items), moves), SyncMove(i))
    ensures var s := Play(Initial(def, id, items), moves); var t := Moved(s, SyncMove(i));
            && HasItem(s, i)
            && (!GoesBack(s.nodes[i], ItemOf(s, i)) ==>
                  && |t.nodes| == |s.nodes| && t == s.(nodes := s.nodes[i := t.nodes[i]])
                  && Folded(s.nodes[i], ItemOf(s, i), t.nodes[i]))
  {
    var s0 := Initial(def, id, items);
    var s := Play(s0, moves);
    InitialIsSound(def, id, items);
    InitialIsKeyed(def, id, items);
    PlayKeepsSound(s0, moves);
    PlayKeepsKeyed(s0, moves);
    assert HoldsOwnWork(s, i);
    hide Sound, Keyed, Folded, Owns;
    if !GoesBack(s.nodes[i], ItemOf(s, i)) {
      SyncFolds(s, i);
    }
  }

  // ---- A whole pass over finished work ------------------------------------------------------

  ghost predicate NoneGoesBack(s: Run) {
    forall i: nat | HasItem(s, i) && s.nodes[i].status.Enqueued? :: !GoesBack(s.nodes[i], ItemOf(s, i))
  }

  lemma SyncKeepsNoneGoesBack(s: Run, i: nat)
    requires NoneGoesBack(s) && i < |s.nodes| && s.nodes[i].status.Enqueued?
    ensures NoneGoesBack(SyncNode(s, i)) && !AsksRewind(s, i)
    ensures var t := SyncNode(s, i);
            |t.nodes| == |s.nodes| && t == s.(nodes := s.nodes[i := t.nodes[i]])
  {
    if HasItem(s, i) {
      SyncFolds(s, i);
      var t := SyncNode(s, i);
      forall k: nat | HasItem(t, k) && t.nodes[k].status.Enqueued? ensures !GoesBack(t.nodes[k], ItemOf(t, k)) {
        assert k != i ==> HasItem(s, k);
      }
    }
    hide Rewind, Settled;
  }

  /** Node `k` after the pass: folded if it was enqueued with an item and its row came back, else as it was. */
  ghost predicate FoldedInPass(s: Run, t: Run, order: seq<nat>, k: nat)
    requires k < |s.nodes| == |t.nodes|
  {
    if k in order && HasItem(s, k) && s.nodes[k].status.Enqueued? then Folded(s.nodes[k], ItemOf(s, k), t.nodes[k])
    else t.nodes[k] == s.nodes[k]
  }

  /** A pass without a rewind folds every finished node, in whatever order rows come back, and changes nothing else. */
  lemma {:induction false} SyncAllFolds(s: Run, order: seq<nat>, k: nat)
    requires NoneGoesBack(s) && k < |s.nodes|
    ensures var t := SyncAll(s, order);
            |t.nodes| == |s.nodes| && t == s.(nodes := t.nodes) && FoldedInPass(s, t, order, k)
    decreases |order|
  {
    hide Folded, SyncNode, NoneGoesBack, AsksRewind;
    if order != [] {
      var i := order[0];
      assert order == [i] + order[1..];
      if i < |s.nodes| && s.nodes[i].status.Enqueued? {
        SyncKeepsNoneGoesBack(s, i);
        var s1 := SyncNode(s, i);
        SyncAllFolds(s1, order[1..], k);
        if i == k {
          OneNodeTwice(s, order[1..], k);
        }
      } else {
        SyncAllFolds(s, order[1..], k);
      }
    }
  }

  /** A node that was synced and comes back again is not changed a second time. */
  lemma OneNodeTwice(s: Run, order: seq<nat>, k: nat)
    requires NoneGoesBack(s) && k < |s.nodes| && s.nodes[k].status.Enqueued?
    requires var s1 := SyncNode(s, k); var t := SyncAll(s1, order);
             && |s1.nodes| == |s.nodes| == |t.nodes| && s1 == s.(nodes := s.nodes[k := s1.nodes[k]])
             && FoldedInPass(s1, t, order, k)
    ensures FoldedInPass(s, SyncAll(SyncNode(s, k), order), [k] + order, k)
  {
    if HasItem(s, k) {
      SyncFolds(s, k);
    }
    hide SyncAll, Settled, Rewind;
  }

  /** A dead letter decides: a tick without a rewind fails the run if one is on a node that does not tolerate it. */
  lemma DeadLetterFailsTheRun(s: Run, op: Op, i: nat)
    requires Ticking(s.status) && NoneGoesBack(s) && op.DoTick? && Possible(s, op)
    requires HasItem(s, i) && s.nodes[i].status.Enqueued? && ItemOf(s, i).status.DeadLetter? && !s.nodes[i].def.tolerant
    ensures Apply(s, op).status.RunFailed?
  {
    SyncAllFolds(s, op.syncOrder, i);
    var s1 := SyncAll(s, op.syncOrder);
    assert s1.nodes[i].status.Failed?;
    StartAllKeepsFailed(s1, op.startOrder, op.choices, i);
    var t := Advance(s, op.syncOrder, op.startOrder, op.choices);
    assert t.nodes[i].status.Failed?;
    hide SyncAll, StartAll, Advance, OutputsOf;
  }

  lemma {:induction false} StartAllKeepsFailed(s: Run, order: seq<nat>, choices: nat -> Choice, i: nat)
    requires i < |s.nodes| && !s.nodes[i].status.Pending?
    ensures var t := StartAll(s, order, choices); i < |t.nodes| && t.nodes[i] == s.nodes[i]
    decreases |order|
  {
    hide StartNode, Ready;
    if order != [] {
      if Startable(s, order[0]) {
        StartKeepsOthers(s, order[0], choices(order[0]));
        StartAllKeepsFailed(StartNode(s, order[0], choices(order[0])), order[1..], choices, i);
      } else {
        StartAllKeepsFailed(s, order[1..], choices, i);
      }
    }
  }

  // ---- Starts -------------------------------------------------------------------------------

  /** The node's own `skip_when` holds; only work and gates have one. */
  predicate Skips(n: NodeDef, c: Choice) {
    n.skips && c.skip && (n.kind.Work? || n.kind.Gate?)
  }

  /** What starting node `i` leads to, status by status. */
  ghost predicate StartedAs(s: Run, t: Run, i: nat, c: Choice)
    requires i < |s.nodes| && i < |t.nodes|
  {
    var n, m := s.nodes[i], t.nodes[i];
    var fails := StartFails(n.def, c);
    && m.def == n.def && m.parent == n.parent
    && (m.status.Failed? <==> fails)
    && (m.status.Enqueued? <==> !fails && n.def.kind.Work? && !Skips(n.def, c))
    && (m.status.Waiting? <==> !fails && n.def.kind.Gate? && !Skips(n.def, c))
    && (m.status.Succeeded? <==>
          !fails && (n.def.kind.FanOut? || n.def.kind.Join? || Skips(n.def, c)))
    && (m.status.Enqueued? ==>
          m.work == Some(IdemKey(s.id, n.def.key, s.round)) && m.work.value in t.items)
    && (m.status.Waiting? ==> m.input == n.input.(card := if c.card.Some? then c.card else n.input.card))
    && (m.status.Succeeded? && n.def.kind.Work? ==> m.output == Skipped)
    && (m.status.Succeeded? && n.def.kind.Gate? ==> m.output == Answered(n.def.skipAnswer, [], true))
    && t.status == (if m.status.Waiting? then AwaitingInput else s.status)
    && t.round == s.round && t.outputs == s.outputs
  }

  lemma StartLeadsTo(s: Run, i: nat, c: Choice)
    requires i < |s.nodes|
    ensures i < |StartNode(s, i, c).nodes| && StartedAs(s, StartNode(s, i, c), i, c)
  {
    if !c.fails && s.nodes[i].def.kind.FanOut? {
      ExpandFields(s, i, c);
      ExpandKeepsNodes(s, i, c);
      ExpandEnds(s, i, c);
      ExpandFailure(s, i, c);
      ExpandSuccess(s, i, c);
      hide Expand;
    }
    hide JoinOutputs, IdemKey;
  }

  lemma ExpandSuccess(s: Run, f: nat, c: Choice)
    requires f < |s.nodes|
    ensures !StartFails(s.nodes[f].def, c) && s.nodes[f].def.kind.FanOut? ==>
              f < |Expand(s, f, c).nodes| && Expand(s, f, c).nodes[f].status.Succeeded?
  {
    hide AddChildren, Downstream, ChildIds;
  }

  /** The edges an expansion adds lead to new nodes, or to where an edge out of the fan-out leads. */
  lemma ExpandAddsEdges(s: Run, f: nat, c: Choice, e: Edge)
    requires f < |s.nodes| && UniqueNodes(s.nodes) && e in Expand(s, f, c).edges
    ensures e in s.edges || e.to >= |s.nodes| || exists d :: d in s.edges && d.from == f && d.to == e.to
  {
    if c.items.Some? {
      var n := if c.failAt.Some? && c.failAt.value < c.items.value then c.failAt.value else c.items.value;
      var down := Downstream(s.edges, f);
      AddChildrenGrow(s, f, down, n);
      var r := AddChildren(s, f, down, n);
      assert Expand(s, f, c).edges == r.edges;
      hide AddChildren, Expand, Downstream, FindKey;
      if e !in s.edges {
        assert NewEdge(|s.nodes|, |r.nodes|, e, f, down, ChildCondition(s.nodes[f].def));
        if e.to < |s.nodes| {
          var d :| d in down && d.to == e.to;
          DownstreamEdges(s.edges, f, d);
        }
      }
    }
  }

  /** A start leaves every other node that is ready ready. */
  lemma StartKeepsStartable(s: Run, h: nat, c: Choice, i: nat)
    requires Sound(s) && Startable(s, h) && Startable(s, i) && h != i
    ensures Startable(StartNode(s, h, c), i)
  {
    var t := StartNode(s, h, c);
    StartKeepsOthers(s, h, c);
    forall e | e in t.edges && e.to == i ensures e.from < |t.nodes| && Met(t.nodes, e) {
      if e !in s.edges {
        ExpandAddsEdges(s, h, c, e);
      }
      assert e in s.edges && Met(s.nodes, e) && e.from != h;
    }
  }

  /** A pass over pending nodes starts every node that is ready when it begins. */
  lemma {:induction false} EveryReadyNodeStarts(s: Run, order: seq<nat>, choices: nat -> Choice, i: nat)
    requires Sound(s) && Ticking(s.status) && Startable(s, i) && i in order
    ensures var t := StartAll(s, order, choices); i < |t.nodes| && !t.nodes[i].status.Pending?
    decreases |order|
  {
    hide Sound, StartNode, Ready;
    var h := order[0];
    if Startable(s, h) {
      var t := StartNode(s, h, choices(h));
      StartKeepsSound(s, h, choices(h));
      StartKeepsTicking(s, h, choices(h));
      if h == i {
        StartLeadsTo(s, i, choices(i));
        StartAllKeepsFailed(t, order[1..], choices, i);
      } else {
        StartKeepsStartable(s, h, choices(h), i);
        EveryReadyNodeStarts(t, order[1..], choices, i);
      }
    } else {
      assert order == [h] + order[1..];
      EveryReadyNodeStarts(s, order[1..], choices, i);
    }
  }
}
