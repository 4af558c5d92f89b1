/**
 Which accepted definitions can be completed: those without cycles whose starts do not fail. Then helpful workers and
 answers finish the run, whatever its fan-outs grow to.
 */
module WorkflowCompletion {
  import opened Basics
  import opened Graph
  import opened Definitions
  import opened WorkflowModel
  import opened WorkflowMoves
  import opened WorkflowSafety
  import opened WorkflowRuns
  import opened WorkflowTermination
  import opened WorkflowKeys
  import opened WorkflowProgress
  import opened WorkflowRest
  import opened WorkflowStarts

  ghost predicate CleanNode(n: Node, starts: Starts) {
    !n.status.Failed? && !n.status.NodeCanceled? && StartsWell(n.def, starts)
  }

  ghost predicate Clean(s: Run, starts: Starts) {
    forall n :: n in s.nodes ==> CleanNode(n, starts)
  }

  /** All work succeeded, and none of it asks for a rewind. */
  ghost predicate AllWorked(s: Run) {
    forall k :: k in s.items ==> s.items[k].status.ItemSucceeded? && !s.items[k].rewind
  }

  lemma PutKeepsClean(s: Run, t: Run, i: nat, starts: Starts)
    requires Clean(s, starts) && i < |s.nodes| && i < |t.nodes| && t.nodes == s.nodes[i := t.nodes[i]]
    requires t.nodes[i].def == s.nodes[i].def && !t.nodes[i].status.Failed? && !t.nodes[i].status.NodeCanceled?
    ensures Clean(t, starts)
  {
    hide StartsWell;
    assert s.nodes[i] in s.nodes;
    forall n | n in t.nodes ensures CleanNode(n, starts) {
      var k :| 0 <= k < |t.nodes| && t.nodes[k] == n;
      assert k != i ==> s.nodes[k] in s.nodes;
    }
  }

  // ---- A fan-out that expands ---------------------------------------------------------------

  ghost predicate IsItem(n: Node, parent: NodeDef, f: nat, items: nat) {
    exists k: nat :: k < items && n == ChildNode(parent, f, k)
  }

  lemma {:induction false} AddedNodeIsItem(s: Run, f: nat, down: seq<Edge>, n: nat, i: nat)
    requires f < |s.nodes| <= i < |AddChildren(s, f, down, n).nodes|
    ensures IsItem(AddChildren(s, f, down, n).nodes[i], s.nodes[f].def, f, n)
  {
    if n > 0 {
      var before := AddChildren(s, f, down, n - 1);
      assert before.nodes[f] == before.nodes[..|s.nodes|][f];
      if i < |before.nodes| {
        AddedNodeIsItem(s, f, down, n - 1, i);
        assert IsItem(before.nodes[i], s.nodes[f].def, f, n - 1);
      }
      hide FindKey, ChildNode;
    }
  }

  lemma ExpandKeepsClean(s: Run, f: nat, starts: Starts)
    requires Clean(s, starts) && f < |s.nodes| && s.nodes[f].def.kind.FanOut?
    ensures Clean(Expand(s, f, starts(s.nodes[f].def.key)), starts)
  {
    var def := s.nodes[f].def;
    var c := starts(def.key);
    var t := Expand(s, f, c);
    assert s.nodes[f] in s.nodes && CleanNode(s.nodes[f], starts);
    ExpandedWell(s, f, starts);
    hide Expand, StartFails;
    forall n | n in t.nodes ensures CleanNode(n, starts) {
      var i :| 0 <= i < |t.nodes| && t.nodes[i] == n;
      if i < |s.nodes| {
        assert t.nodes[i] == t.nodes[..|s.nodes|][i];
        assert i != f ==> s.nodes[i] in s.nodes;
      }
    }
  }

  /** A fan-out that starts well succeeds, its children are clean, and no other node changes. */
  lemma ExpandedWell(s: Run, f: nat, starts: Starts)
    requires f < |s.nodes| && s.nodes[f].def.kind.FanOut? && StartsWell(s.nodes[f].def, starts)
    ensures var t := Expand(s, f, starts(s.nodes[f].def.key));
            && |s.nodes| <= |t.nodes| && t.nodes[..|s.nodes|] == s.nodes[f := t.nodes[f]]
            && t.nodes[f].def == s.nodes[f].def && t.nodes[f].status.Succeeded?
            && forall i | |s.nodes| <= i < |t.nodes| :: CleanNode(t.nodes[i], starts)
  {
    var def := s.nodes[f].def;
    var c := starts(def.key);
    var t := Expand(s, f, c);
    ExpandKeepsNodes(s, f, c);
    assert t.nodes[f].status.Succeeded?;
    assert t.nodes[|s.nodes|..] == AddChildren(s, f, Downstream(s.edges, f), c.items.value).nodes[|s.nodes|..];
    forall i | |s.nodes| <= i < |t.nodes| ensures CleanNode(t.nodes[i], starts) {
      assert t.nodes[i] == t.nodes[|s.nodes|..][i - |s.nodes|];
      AddedNodeIsItem(s, f, Downstream(s.edges, f), c.items.value, i);
      ItemIsClean(t.nodes[i], def, f, starts);
    }
    hide Expand, AddChildren, Downstream, StartFails;
  }

  lemma ItemIsClean(n: Node, parent: NodeDef, f: nat, starts: Starts)
    requires StartsWell(parent, starts) && parent.kind.FanOut? && IsItem(n, parent, f, starts(parent.key).items.value)
    ensures CleanNode(n, starts)
  {
  }

  lemma StartKeepsClean(s: Run, i: nat, starts: Starts)
    requires Clean(s, starts) && i < |s.nodes|
    ensures Clean(StartNode(s, i, starts(s.nodes[i].def.key)), starts)
  {
    var c := starts(s.nodes[i].def.key);
    var t := StartNode(s, i, c);
    assert s.nodes[i] in s.nodes && CleanNode(s.nodes[i], starts);
    if s.nodes[i].def.kind.FanOut? {
      ExpandKeepsClean(s, i, starts);
    } else {
      hide Clean, JoinOutputs, IdemKey;
      assert t.nodes == s.nodes[i := t.nodes[i]];
      PutKeepsClean(s, t, i, starts);
    }
  }

  lemma {:induction false} StartAllKeepsClean(s: Run, order: seq<nat>, n: nat, choices: nat -> Choice, starts: Starts)
    requires Clean(s, starts) && Ticking(s.status)
    requires Obeys(s.nodes, n, choices, starts) && forall i :: i in order ==> i < n
    ensures Clean(StartAll(s, order, choices), starts)
    decreases |order|
  {
    hide Clean, StartNode, Ready, Extends;
    if order != [] {
      var i := order[0];
      assert i in order && forall k :: k in order[1..] ==> k in order;
      if Startable(s, i) {
        var t := StartNode(s, i, choices(i));
        StartKeepsClean(s, i, starts);
        StartKeepsTicking(s, i, choices(i));
        MoveExtends(s, StartMove(i, choices(i)));
        StillObeys(s, t, n, choices, starts);
        StartAllKeepsClean(t, order[1..], n, choices, starts);
      } else {
        StartAllKeepsClean(s, order[1..], n, choices, starts);
      }
    }
  }

  lemma SyncKeepsClean(s: Run, i: nat, starts: Starts)
    requires Clean(s, starts) && AllWorked(s) && i < |s.nodes|
    ensures !AsksRewind(s, i) && Clean(SyncNode(s, i), starts) && AllWorked(SyncNode(s, i))
  {
    hide Clean, Rewind;
    var t := SyncNode(s, i);
    if t != s {
      PutKeepsClean(s, t, i, starts);
    }
  }

  lemma {:induction false} SyncAllKeepsClean(s: Run, order: seq<nat>, starts: Starts)
    requires Clean(s, starts) && AllWorked(s)
    ensures Clean(SyncAll(s, order), starts) && Extends(s, SyncAll(s, order))
    decreases |order|
  {
    hide Clean, AllWorked, SyncNode, AsksRewind, Extends;
    ExtendsItself(s);
    if order != [] {
      var i := order[0];
      if i < |s.nodes| && s.nodes[i].status.Enqueued? {
        SyncKeepsClean(s, i, starts);
        SyncExtends(s, i);
        SyncAllKeepsClean(SyncNode(s, i), order[1..], starts);
        ExtendsThrough(s, SyncNode(s, i), SyncAll(s, order));
      } else {
        SyncAllKeepsClean(s, order[1..], starts);
      }
    }
  }

  function UpTo(n: nat): (order: seq<nat>)
    ensures Covers(order, n)
  {
    if n == 0 then [] else UpTo(n - 1) + [n - 1]
  }

  function ChoicesOf(nodes: seq<Node>, starts: Starts): nat -> Choice {
    (i: nat) => if i < |nodes| then starts(nodes[i].def.key) else Choice(false, false, None, None, None)
  }

  /** A tick of the run in which every row comes back and every start meets what `starts` says. */
  function FullTick(s: Run, starts: Starts): Op {
    DoTick(UpTo(|s.nodes|), UpTo(|s.nodes|), ChoicesOf(s.nodes, starts))
  }

  lemma TickKeepsClean(s: Run, starts: Starts)
    requires Clean(s, starts) && AllWorked(s) && Ticking(s.status)
    ensures var op := FullTick(s, starts); var t := Apply(s, op);
            && Possible(s, op) && Follows(s, op, starts)
            && Clean(t, starts) && (t.status.Completed? || Ticking(t.status))
  {
    var order, choices := UpTo(|s.nodes|), ChoicesOf(s.nodes, starts);
    hide UpTo, ChoicesOf;
    ChoicesObey(s, starts);
    AdvanceKeepsClean(s, order, choices, starts);
    hide Advance, AllDone, OutputsOf, StartsWell, Obeys;
    var t := Advance(s, order, order, choices);
    assert !AnyFailed(t.nodes) by {
      assert forall i | 0 <= i < |t.nodes| :: t.nodes[i] in t.nodes;
    }
  }

  lemma ChoicesObey(s: Run, starts: Starts)
    ensures Obeys(s.nodes, |s.nodes|, ChoicesOf(s.nodes, starts), starts) && Follows(s, FullTick(s, starts), starts)
  {
  }

  lemma AdvanceKeepsClean(s: Run, order: seq<nat>, choices: nat -> Choice, starts: Starts)
    requires Clean(s, starts) && AllWorked(s) && Ticking(s.status)
    requires Covers(order, |s.nodes|) && Obeys(s.nodes, |s.nodes|, choices, starts)
    ensures Clean(Advance(s, order, order, choices), starts) && Ticking(Advance(s, order, order, choices).status)
  {
    hide Clean, AllWorked, Extends, Obeys, SyncAll, StartAll, Play, Playable;
    SyncAllKeepsClean(s, order, starts);
    var s1 := SyncAll(s, order);
    StillObeys(s, s1, |s.nodes|, choices, starts);
    var moves := SyncAllMoves(s, order);
    if s1.status.Active? {
      StartAllKeepsClean(s1, order, |s.nodes|, choices, starts);
      var more := StartAllMoves(s1, order, choices);
    }
  }

  // ---- Finishing a run ----------------------------------------------------------------------

  lemma ExecOneMore(s: Run, ops: seq<Op>, op: Op, starts: Starts)
    requires History(s, ops) && FollowsThroughout(s, ops, starts)
    requires Possible(Exec(s, ops), op) && Follows(Exec(s, ops), op, starts)
    ensures History(s, ops + [op]) && FollowsThroughout(s, ops + [op], starts)
    ensures Exec(s, ops + [op]) == Apply(Exec(s, ops), op)
  {
    assert (ops + [op])[..|ops|] == ops;
    hide Apply, Possible, Follows;
  }

  function Worked(items: map<string, Item>): map<string, Item> {
    map k | k in items :: Item(ItemSucceeded, "", false)
  }

  /** A waiting gate, answered: the measure drops. */
  lemma AnsweredGate(s: Run, i: nat, starts: Starts)
    requires Sound(s) && Clean(s, starts) && Ticking(s.status) && i < |s.nodes|
    requires s.nodes[i].def.kind.Gate? && s.nodes[i].status.Waiting?
    ensures var t := Answer(s, s.nodes[i].def.key, "");
            && Clean(t, starts) && Ticking(t.status)
            && t.round <= REWIND_ROUNDS_MAX && MeasureOf(t).Below(MeasureOf(s))
  {
    var t := Answer(s, s.nodes[i].def.key, "");
    FindKeyIsUnique(s.nodes, i);
    AnswerMeasures(s, s.nodes[i].def.key, "");
    hide Clean, FindKey, TotalWeight, PendingFans, MeasureOf;
    assert t.nodes[i].status.Succeeded?;
    PutKeepsClean(s, t, i, starts);
  }

  /** From any clean reachable state the run can be finished. */
  lemma Finish(def: seq<NodeDef>, id: string, items: map<string, Item>, ops: seq<Op>, starts: Starts, m: Measure)
    returns (all: seq<Op>)
    requires WellFormed(def) && Acyclic(def) && FreshId(id, items) && History(Initial(def, id, items), ops)
    requires FollowsThroughout(Initial(def, id, items), ops, starts)
    requires var s := Exec(Initial(def, id, items), ops);
             Clean(s, starts) && Ticking(s.status) && s.round <= REWIND_ROUNDS_MAX && MeasureOf(s) == m
    ensures History(Initial(def, id, items), all) && FollowsThroughout(Initial(def, id, items), all, starts)
    ensures Exec(Initial(def, id, items), all).status.Completed?
    decreases m.rounds, m.fans, m.work
  {
    assert KnownDependencies(def);
    hide WellFormed, Acyclic, FreshId, Initial, Sound, Clean, Apply, Exec, History, Answer, MeasureOf;
    hide FollowsThroughout;
    var s0 := Initial(def, id, items);
    var s := Exec(s0, ops);
    EveryRunIsSound(def, id, items, ops);
    if GateWaits(s.nodes) {
      var i: nat :| i < |s.nodes| && s.nodes[i].def.kind.Gate? && s.nodes[i].status.Waiting?;
      AnsweredGate(s, i, starts);
      var op := DoAnswer(s.nodes[i].def.key, "");
      ExecOneMore(s0, ops, op, starts);
      AnswerIs(s, s.nodes[i].def.key);
      all := Finish(def, id, items, ops + [op], starts, MeasureOf(Exec(s0, ops + [op])));
    } else {
      var work := DoWork(Worked(s.items));
      ExecOneMore(s0, ops, work, starts);
      WorkIs(s, starts);
      var s1 := Exec(s0, ops + [work]);
      TickKeepsClean(s1, starts);
      var tick := FullTick(s1, starts);
      ExecOneMore(s0, ops + [work], tick, starts);
      var t := Exec(s0, ops + [work] + [tick]);
      WorkedTick(def, id, items, ops + [work], starts);
      if t.status.Completed? {
        all := ops + [work] + [tick];
      } else {
        all := Finish(def, id, items, ops + [work] + [tick], starts, MeasureOf(t));
      }
    }
  }

  lemma AnswerIs(s: Run, key: string)
    ensures Apply(s, DoAnswer(key, "")) == Answer(s, key, "")
  {
  }

  lemma WorkIs(s: Run, starts: Starts)
    requires Sound(s) && Clean(s, starts) && s.round <= REWIND_ROUNDS_MAX
    ensures var t := Apply(s, DoWork(Worked(s.items)));
            && t == s.(items := Worked(s.items)) && AllWorked(t) && Clean(t, starts) && MeasureOf(t) == MeasureOf(s)
  {
    hide Sound, TotalWeight, PendingFans, StartsWell;
  }

  /** Once all work has succeeded and no gate waits, a full tick completes the run or lowers the measure. */
  lemma WorkedTick(def: seq<NodeDef>, id: string, items: map<string, Item>, ops: seq<Op>, starts: Starts)
    requires WellFormed(def) && Acyclic(def) && FreshId(id, items) && History(Initial(def, id, items), ops)
    requires var s := Exec(Initial(def, id, items), ops);
             && Clean(s, starts) && AllWorked(s) && Ticking(s.status) && !GateWaits(s.nodes)
             && s.round <= REWIND_ROUNDS_MAX
    ensures var s := Exec(Initial(def, id, items), ops); var t := Apply(s, FullTick(s, starts));
            && Clean(t, starts) && t.round <= REWIND_ROUNDS_MAX
            && (t.status.Completed? || (Ticking(t.status) && MeasureOf(t).Below(MeasureOf(s))))
  {
    assert KnownDependencies(def);
    hide WellFormed, Acyclic, FreshId, Initial, Apply, Exec, History, MeasureOf, Still;
    var s := Exec(Initial(def, id, items), ops);
    EveryRunIsSound(def, id, items, ops);
    assert s.status.Active?;
    NothingHoldsUp(s, starts);
    hide Sound, Clean, GateWaits, AllWorked, RestsForAReason;
    TickKeepsClean(s, starts);
    EveryTickMovesOrEnds(def, id, items, ops, FullTick(s, starts));
    OpMeasures(s, FullTick(s, starts));
  }

  lemma NothingHoldsUp(s: Run, starts: Starts)
    requires Clean(s, starts) && AllWorked(s) && !GateWaits(s.nodes)
    ensures !RestsForAReason(s)
  {
    hide StartsWell;
  }

  lemma InitialIsClean(def: seq<NodeDef>, id: string, items: map<string, Item>, starts: Starts)
    requires WellFormed(def) && AllStartWell(def, starts)
    ensures Clean(Initial(def, id, items), starts)
  {
    hide StartsWell;
    var s := Initial(def, id, items);
    forall n | n in s.nodes ensures CleanNode(n, starts) {
      var i :| 0 <= i < |s.nodes| && s.nodes[i] == n;
      assert def[i] in def;
    }
  }

  /** Some history of the definition's run, with such starts, completes it. */
  ghost predicate CanComplete(def: seq<NodeDef>, id: string, items: map<string, Item>, starts: Starts)
    requires WellFormed(def)
  {
    exists ops :: Completes(def, id, items, starts, ops)
  }

  ghost predicate Completes(def: seq<NodeDef>, id: string, items: map<string, Item>, starts: Starts, ops: seq<Op>)
    requires WellFormed(def)
  {
    && History(Initial(def, id, items), ops) && FollowsThroughout(Initial(def, id, items), ops, starts)
    && Exec(Initial(def, id, items), ops).status.Completed?
  }

  /** An accepted definition can be completed exactly when it has no cycle and none of its starts fails. */
  lemma CompletesExactly(def: seq<NodeDef>, id: string, items: map<string, Item>, starts: Starts)
    requires WellFormed(def) && FreshId(id, items)
    ensures CanComplete(def, id, items, starts) <==> Acyclic(def) && AllStartWell(def, starts)
  {
    var s0 := Initial(def, id, items);
    if Acyclic(def) && AllStartWell(def, starts) {
      InitialIsClean(def, id, items, starts);
      assert History(s0, []) && FollowsThroughout(s0, [], starts) && Exec(s0, []) == s0;
      hide WellFormed, Initial, Acyclic, Clean, History, Exec, FollowsThroughout, AllStartWell, FreshId;
      assert s0.status.Active? && s0.round == 0 by {
        FirstStatus(def, id, items);
      }
      var ops := Finish(def, id, items, [], starts, MeasureOf(s0));
      assert Completes(def, id, items, starts, ops);
    }
    forall ops | Completes(def, id, items, starts, ops) ensures Acyclic(def) && AllStartWell(def, starts) {
      OnlyThoseComplete(def, id, items, starts, ops);
    }
  }

  lemma FirstStatus(def: seq<NodeDef>, id: string, items: map<string, Item>)
    requires KnownDependencies(def)
    ensures Initial(def, id, items).status.Active? && Initial(def, id, items).round == 0
  {
  }

  lemma OnlyThoseComplete(def: seq<NodeDef>, id: string, items: map<string, Item>, starts: Starts, ops: seq<Op>)
    requires WellFormed(def) && Completes(def, id, items, starts, ops)
    ensures Acyclic(def) && AllStartWell(def, starts)
  {
    hide FollowsThroughout, AllStartWell;
    if !AllStartWell(def, starts) {
      FailingStartsNeverComplete(def, id, items, ops, starts);
    }
    forall n | n in def ensures !Before(def, n.key, n.key) {
      var i: nat :| i < |def| && def[i] == n;
      if Before(def, n.key, n.key) {
        CyclesNeverComplete(def, id, items, ops, i);
      }
    }
  }

  /** `validate_definition` accepts cycles: here a node that depends on itself. */
  lemma CyclesAreAccepted()
    ensures var def := [NodeDef("a", Work, ["a"], false, false, None, false, "")]; WellFormed(def) && !Acyclic(def)
  {
    var def := [NodeDef("a", Work, ["a"], false, false, None, false, "")];
    assert "a" in def[0].dependsOn && HasKey(def, "a");
    assert ("a", "a") in DependencyArcs(def);
    ReachesSelf(DependencyArcs(def), "a");
    assert Before(def, "a", "a") && def[0] in def;
    hide Reaches;
  }
}
