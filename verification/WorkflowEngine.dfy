/**
 The engine itself: one run's rows, changed in place by the loops of `WorkflowService`. Each method is
 proved against the function of WorkflowModel it implements.
 */
module WorkflowEngine {
  import opened Basics
  import opened Graph
  import opened Definitions
  import Model = WorkflowModel
  import opened WorkflowModel
  import opened WorkflowMoves
  import opened WorkflowSafety
  import opened WorkflowRuns

  datatype GateAnswer = AnswerTaken | UnknownNode | NotAGate | NotWaiting

  class Engine {
    const id: string
    var nodes: seq<Node>
    var edges: seq<Edge>
    var status: RunStatus
    var round: nat
    var outputs: Option<map<string, Output>>
    var items: map<string, Item>

    /** The run as a value. */
    ghost function View(): Run
      reads this
    {
      Run(id, nodes, edges, status, round, outputs, items)
    }

    ghost predicate Valid()
      reads this
    {
      Sound(View())
    }

    /** `start_run`. */
    constructor (def: seq<NodeDef>, id: string, items: map<string, Item>)
      requires WellFormed(def)
      ensures Valid() && View() == Initial(def, id, items)
    {
      this.id := id;
      nodes, edges, status, round, outputs := [], [], Active, 0, None;
      this.items := items;
      new;
      Materialize(def);
      InitialIsSound(def, id, items);
    }

    method Materialize(def: seq<NodeDef>)
      requires WellFormed(def) && nodes == [] && edges == []
      modifies this`nodes, this`edges
      ensures nodes == Initial(def, id, items).nodes && edges == Initial(def, id, items).edges
    {
      for i := 0 to |def|
        invariant edges == [] && nodes == seq(i, k requires 0 <= k < i => NewNode(def[k]))
      {
        nodes := nodes + [NewNode(def[i])];
      }
      for i := 0 to |def|
        invariant nodes == seq(|def|, k requires 0 <= k < |def| => NewNode(def[k]))
        invariant edges == DefinitionEdges(def, i)
      {
        for j := 0 to |def[i].dependsOn|
          invariant nodes == seq(|def|, k requires 0 <= k < |def| => NewNode(def[k]))
          invariant edges == DefinitionEdges(def, i) + NodeEdges(def, i, j)
        {
          edges := edges + [DependencyEdge(def, def[i].dependsOn[j], i)];
        }
      }
    }

    // ---- Ticks ------------------------------------------------------------------------------

    /** `tick_runs` for this run: rows come back in any order that returns each of them. */
    method Tick(syncOrder: seq<nat>, startOrder: seq<nat>, choices: nat -> Choice)
      requires Valid()
      modifies this
      ensures Valid() && View() == Model.Tick(old(View()), syncOrder, startOrder, choices)
    {
      if Ticking(status) {
        ghost var s := View();
        SyncEnqueuedNodes(syncOrder);
        if status.Active? {
          StartReadyNodes(startOrder, choices);
        }
        FinalizeIfDone();
      }
    }

    method SyncEnqueuedNodes(order: seq<nat>)
      requires Valid() && Ticking(status)
      modifies this
      ensures Valid() && View() == SyncAll(old(View()), order) && Ticking(status)
    {
      ghost var s0 := View();
      var k := 0;
      assert order[0..] == order;
      while k < |order|
        invariant k <= |order| && Valid() && Ticking(status)
        invariant SyncAll(s0, order) == SyncAll(View(), order[k..])
      {
        var i := order[k];
        assert order[k..][0] == i && order[k..][1..] == order[k + 1..];
        if i < |nodes| && nodes[i].status.Enqueued? {
          var stop := SyncNode(i);
          if stop {
            return;
          }
        }
        k := k + 1;
      }
    }

    /** One turn of the sync loop; `stop` says that the node asked for a rewind. */
    method SyncNode(i: nat) returns (stop: bool)
      requires Valid() && Ticking(status) && i < |nodes| && nodes[i].status.Enqueued?
      modifies this
      ensures Valid() && View() == Model.SyncNode(old(View()), i) && stop == old(AsksRewind(View(), i))
      ensures Ticking(status)
    {
      ghost var s := View();
      SyncKeepsSound(s, i);
      var n := nodes[i];
      assert n in nodes;
      if n.work.None? || n.work.value !in items {
        return false;
      }
      var item := items[n.work.value];
      if item.status.ItemSucceeded? {
        PutKeepsSound(s, i, Settled(n, item));
        nodes := nodes[i := n.(status := Succeeded, output := Produced(item.text, item.rewind))];
        if n.def.rewindTo.Some? && item.rewind {
          Rewind(i);
          return true;
        }
      } else if item.status.DeadLetter? && n.def.tolerant {
        nodes := nodes[i := n.(status := Tolerated, output := ToleratedFailure, reason := WorkDeadLetter)];
      } else if item.status.DeadLetter? {
        nodes := nodes[i := n.(status := Failed, reason := WorkDeadLetter)];
      } else if item.status.ItemCanceled? {
        nodes := nodes[i := n.(status := NodeCanceled, reason := WorkCanceled)];
      }
      return false;
    }

    method Rewind(i: nat)
      requires Valid() && Ticking(status) && i < |nodes| && nodes[i].def.rewindTo.Some?
      modifies this
      ensures View() == Model.Rewind(old(View()), i) && Ticking(status)
    {
      ghost var s := View();
      var target := FindKey(nodes, nodes[i].def.rewindTo.value);
      var again: set<nat> := {};
      if target.Some? {
        again := From(target.value);
      }
      assert again == RewindCone(s, i);
      var next := round + 1;
      var refusal := NoReason;
      if i !in again {
        refusal := NotBefore;
      } else if exists k | k in again :: k < |nodes| && nodes[k].parent.Some? {
        refusal := AcrossFanOut;
      } else if next > REWIND_ROUNDS_MAX {
        refusal := TooManyRounds;
      }
      assert refusal == RewindRefusal(s, i);
      if refusal != NoReason {
        nodes := nodes[i := nodes[i].(status := Failed, reason := refusal)];
        return;
      }
      ResetAll(again);
      round := next;
      status := WaitingOrActive(nodes);
    }

    method ResetAll(again: set<nat>)
      requires forall k :: k in again ==> k < |nodes|
      modifies this`nodes
      ensures nodes == ResetNodes(old(nodes), again)
    {
      ghost var before := nodes;
      var rest := again;
      while rest != {}
        invariant rest <= again && |nodes| == |before|
        invariant forall k: nat | k < |nodes| ::
                    nodes[k] == if k in again && k !in rest then ResetNode(before[k]) else before[k]
        decreases |rest|
      {
        var k :| k in rest;
        nodes := nodes[k := ResetNode(nodes[k])];
        rest := rest - {k};
      }
    }

    /** The ids of `start` and of every node after it. */
    method From(start: nat) returns (found: set<nat>)
      requires InRange(nodes, edges) && start < |nodes|
      ensures found == Model.From(nodes, edges, start)
    {
      var next: map<nat, seq<nat>> := map[];
      for i := 0 to |edges|
        invariant ArcsOf(next) == Arcs(edges[..i])
      {
        AddArc(next, edges, i);
        next := next[edges[i].from := Neighbours(next, edges[i].from) + [edges[i].to]];
      }
      assert edges[..|edges|] == edges;
      found := Drain(next, [start]);
      SearchIsFrom(nodes, edges, start, found);
    }

    method StartReadyNodes(order: seq<nat>, choices: nat -> Choice)
      requires Valid() && Ticking(status)
      modifies this
      ensures Valid() && View() == StartAll(old(View()), order, choices) && Ticking(status)
    {
      ghost var s0 := View();
      var k := 0;
      assert order[0..] == order;
      while k < |order|
        invariant k <= |order| && Valid() && Ticking(status)
        invariant StartAll(s0, order, choices) == StartAll(View(), order[k..], choices)
      {
        var i := order[k];
        assert order[k..][0] == i && order[k..][1..] == order[k + 1..];
        if i < |nodes| && nodes[i].status.Pending? {
          var ready := DependenciesSatisfied(i);
          if ready {
            StartNode(i, choices(i));
          }
        }
        k := k + 1;
      }
    }

    method DependenciesSatisfied(i: nat) returns (ok: bool)
      ensures ok == Ready(nodes, edges, i)
    {
      for j := 0 to |edges|
        invariant forall k | 0 <= k < j && edges[k].to == i :: edges[k].from < |nodes| && Met(nodes, edges[k])
      {
        var e := edges[j];
        if e.to == i && (e.from >= |nodes| || !Met(nodes, e)) {
          assert e in edges;
          return false;
        }
      }
      return true;
    }

    method StartNode(i: nat, c: Choice)
      requires Valid() && Ticking(status) && Startable(View(), i)
      modifies this
      ensures Valid() && View() == Model.StartNode(old(View()), i, c) && Ticking(status)
    {
      ghost var s := View();
      StartKeepsSound(s, i, c);
      StartKeepsTicking(s, i, c);
      var n := nodes[i];
      if c.fails {
        nodes := nodes[i := n.(status := Failed, reason := StartError)];
        return;
      }
      match n.def.kind {
        case Work =>
          if n.def.skips && c.skip {
            nodes := nodes[i := n.(status := Succeeded, output := Skipped)];
          } else {
            EnqueueWorkNode(i);
          }
        case FanOut =>
          ExpandFanOut(i, c);
        case Join =>
          CompleteJoin(i);
        case Gate =>
          if n.def.skips && c.skip {
            nodes := nodes[i := n.(status := Succeeded, output := Answered(n.def.skipAnswer, [], true))];
          } else {
            nodes := nodes[i := n.(status := Waiting)];
            status := AwaitingInput;
            if c.card.Some? {
              nodes := nodes[i := nodes[i].(input := n.input.(card := c.card))];
              assert nodes == s.nodes[i := n.(status := Waiting, input := n.input.(card := c.card))];
            }
          }
        case OtherKind(_) =>
          nodes := nodes[i := n.(status := Failed, reason := UnknownKind)];
      }
    }

    method EnqueueWorkNode(i: nat)
      requires i < |nodes|
      modifies this`nodes, this`items
      ensures View() == Enqueue(old(View()), i)
    {
      var key := IdemKey(id, nodes[i].def.key, round);
      CreateWorkItem(key);
      nodes := nodes[i := nodes[i].(work := Some(key), status := Enqueued)];
    }

    /** `create_work_item`: an existing idempotency key keeps its row. */
    method CreateWorkItem(key: string)
      modifies this`items
      ensures key in old(items) ==> items == old(items)
      ensures key !in old(items) ==> items == old(items)[key := Item(Live, "", false)]
    {
      if key in items {
        return;
      }
      items := items[key := Item(Live, "", false)];
    }

    method CompleteJoin(i: nat)
      requires i < |nodes|
      modifies this`nodes
      ensures nodes == old(nodes)[i := old(nodes)[i].(status := Succeeded,
                output := Joined(JoinOutputs(old(nodes), edges, i, |edges|)))]
    {
      var collected: map<string, Output> := map[];
      for j := 0 to |edges|
        invariant collected == JoinOutputs(nodes, edges, i, j)
      {
        var e := edges[j];
        if e.to == i && e.from < |nodes| {
          collected := collected[nodes[e.from].def.key := nodes[e.from].output];
        }
      }
      nodes := nodes[i := nodes[i].(status := Succeeded, output := Joined(collected))];
    }

    method ExpandFanOut(f: nat, c: Choice)
      requires f < |nodes|
      modifies this`nodes, this`edges
      ensures View() == Expand(old(View()), f, c)
    {
      if c.items.None? {
        nodes := nodes[f := nodes[f].(status := Failed, reason := ItemsNotAList)];
        return;
      }
      var stop := if c.failAt.Some? && c.failAt.value < c.items.value then c.failAt.value else c.items.value;
      var parent := nodes[f];
      var ids := AddChildren(f, stop);
      if stop < c.items.value {
        nodes := nodes[f := parent.(status := Failed, reason := StartError)];
      } else {
        nodes := nodes[f := parent.(status := Succeeded, output := Children(ids))];
      }
    }

    /** The expansion loop, up to the item that cannot be built if there is one. */
    method AddChildren(f: nat, stop: nat) returns (ids: seq<nat>)
      requires f < |nodes|
      modifies this`nodes, this`edges
      ensures View() == Model.AddChildren(old(View()), f, Downstream(old(edges), f), stop)
      ensures f < |nodes| && nodes[f] == old(nodes)[f]
      ensures ids == ChildIds(nodes, nodes[f].def.key, stop)
    {
      ghost var s := View();
      var down := Downstream(edges, f);
      hide FindKey, ChildKey, Model.AddChild, Downstream;
      ids := [];
      for k := 0 to stop
        invariant f < |nodes| && nodes[f] == old(nodes)[f]
        invariant View() == Model.AddChildren(s, f, down, k)
        invariant forall j | 0 <= j < k :: FindKey(nodes, ChildKey(nodes[f].def.key, j)).Some?
        invariant ids == ChildIds(nodes, nodes[f].def.key, k)
      {
        var child := AddChild(f, down, k, ids);
        ids := ids + [child];
      }
    }

    /** One turn of the expansion loop: look the child up, or append it with its edges. */
    method AddChild(f: nat, down: seq<Edge>, k: nat, ghost ids: seq<nat>) returns (child: nat)
      requires f < |nodes|
      requires forall j | 0 <= j < k :: FindKey(nodes, ChildKey(nodes[f].def.key, j)).Some?
      requires ids == ChildIds(nodes, nodes[f].def.key, k)
      modifies this`nodes, this`edges
      ensures View() == Model.AddChild(old(View()), f, down, k)
      ensures f < |nodes| && nodes[f] == old(nodes)[f]
      ensures forall j | 0 <= j <= k :: FindKey(nodes, ChildKey(nodes[f].def.key, j)).Some?
      ensures ids + [child] == ChildIds(nodes, nodes[f].def.key, k + 1)
    {
      var parent := nodes[f].def;
      var found := FindKey(nodes, ChildKey(parent.key, k));
      if found.Some? {
        return found.value;
      }
      ghost var before := nodes;
      child := |nodes|;
      nodes := nodes + [ChildNode(parent, f, k)];
      for j := 0 to |down| + 1
        invariant edges == old(edges) + ChildEdges(f, child, down, parent.tolerantChildren)[..j]
        invariant nodes == before + [ChildNode(parent, f, k)]
      {
        edges := edges + [ChildEdges(f, child, down, parent.tolerantChildren)[j]];
      }
      assert nodes[..|nodes| - 1] == before;
      forall j | 0 <= j < k
        ensures FindKey(nodes, ChildKey(parent.key, j)) == FindKey(before, ChildKey(parent.key, j))
      {
        var at := FindKey(before, ChildKey(parent.key, j)).value;
        assert before[at] in before;
      }
    }

    method FinalizeIfDone()
      requires Valid() && Ticking(status)
      modifies this`status, this`outputs
      ensures Valid() && View() == Finalize(old(View()))
    {
      if AnyFailed(nodes) {
        status := RunFailed;
      } else if AllDone(nodes) {
        status := Completed;
        var collected: map<string, Output> := map[];
        for i := 0 to |nodes|
          invariant collected == OutputsOf(nodes[..i]) && unchanged(`outputs) && status == Completed
        {
          assert nodes[..i + 1][..i] == nodes[..i];
          collected := collected[nodes[i].def.key := nodes[i].output];
        }
        assert nodes[..|nodes|] == nodes;
        outputs := Some(collected);
      }
    }

    // ---- Commands ---------------------------------------------------------------------------

    method AnswerGate(key: string, answer: string) returns (r: GateAnswer)
      requires Valid()
      modifies this`nodes, this`status
      ensures Valid() && View() == Answer(old(View()), key, answer)
      ensures r.AnswerTaken? <==>
                exists i :: 0 <= i < old(|nodes|) && old(nodes)[i].def.key == key && old(Answerable(View(), i))
      ensures r.UnknownNode? <==> forall n :: n in old(nodes) ==> n.def.key != key
      ensures r.NotAGate? <==> exists n :: n in old(nodes) && n.def.key == key && !n.def.kind.Gate?
      ensures !r.AnswerTaken? ==> View() == old(View())
    {
      AnswerKeepsSound(View(), key, answer);
      assert UniqueNodes(nodes);
      hide Sound, UniqueNodes, FindKey;
      var i := FindKey(nodes, key);
      if i.None? {
        assert forall j | 0 <= j < |nodes| :: nodes[j] in nodes;
        return UnknownNode;
      }
      FindKeyIsUnique(nodes, i.value);
      var n := nodes[i.value];
      if !n.def.kind.Gate? {
        return NotAGate;
      }
      if !n.status.Waiting? || RunOver(status) {
        return NotWaiting;
      }
      nodes := nodes[i.value := n.(status := Succeeded, output := Answered(answer, n.input.notes, false))];
      if status.AwaitingInput? {
        status := Active;
      }
      return AnswerTaken;
    }

    method AddGateNote(key: string, text: string) returns (taken: bool)
      requires Valid()
      modifies this`nodes
      ensures Valid() && View() == AddNote(old(View()), key, text)
      ensures taken <==> exists n :: n in old(nodes) && IsOpenGate(n, key)
      ensures !taken ==> View() == old(View())
    {
      NoteKeepsSound(View(), key, text);
      var i := FindKey(nodes, key);
      assert forall j | 0 <= j < |nodes| :: nodes[j] in nodes;
      if i.Some? {
        FindKeyIsUnique(nodes, i.value);
      }
      if i.None? || !nodes[i.value].def.kind.Gate? || !nodes[i.value].status.Waiting? {
        return false;
      }
      var n := nodes[i.value];
      nodes := nodes[i.value := n.(input := n.input.(notes := n.input.notes + [text]))];
      return true;
    }

    method PauseRun()
      requires Valid()
      modifies this`status
      ensures Valid() && View() == Pause(old(View()))
    {
      if !RunOver(status) {
        status := Paused;
      }
    }

    method ResumeRun()
      requires Valid()
      modifies this`status
      ensures Valid() && View() == Resume(old(View()))
    {
      if status.Paused? {
        status := WaitingOrActive(nodes);
      }
    }

    method CancelRun()
      requires Valid()
      modifies this`nodes, this`status
      ensures Valid() && View() == Cancel(old(View()))
    {
      ghost var s := View();
      CancelKeepsSound(s);
      if RunOver(status) {
        return;
      }
      status := RunCanceled;
      for i := 0 to |nodes|
        invariant |nodes| == |s.nodes| && status == RunCanceled
        invariant forall k | 0 <= k < |nodes| :: nodes[k] == if k < i then CancelNode(s.nodes[k]) else s.nodes[k]
      {
        if !IsTerminal(nodes[i].status) {
          nodes := nodes[i := nodes[i].(status := NodeCanceled, reason := RunWasCanceled)];
        }
      }
      assert nodes == Cancel(s).nodes;
    }
  }

  lemma AddArc(next: map<nat, seq<nat>>, edges: seq<Edge>, i: nat)
    requires i < |edges| && ArcsOf(next) == Arcs(edges[..i])
    ensures ArcsOf(next[edges[i].from := Neighbours(next, edges[i].from) + [edges[i].to]]) == Arcs(edges[..i + 1])
  {
    var e := edges[i];
    var longer := next[e.from := Neighbours(next, e.from) + [e.to]];
    assert edges[..i + 1] == edges[..i] + [e];
    forall x: nat, y: nat
      ensures (x, y) in ArcsOf(longer) <==> (x, y) in Arcs(edges[..i]) || (x == e.from && y == e.to)
    {
      ArcsFrom(longer, x);
      ArcsFrom(next, x);
    }
  }

  ghost function AllIds(nodes: seq<Node>): (all: set<nat>)
    ensures forall i: nat :: i in all <==> i < |nodes|
  {
    if nodes == [] then {} else AllIds(nodes[..|nodes| - 1]) + {|nodes| - 1}
  }

  /** What the worklist search finds from one node is that node's cone. */
  lemma SearchIsFrom(nodes: seq<Node>, edges: seq<Edge>, start: nat, found: set<nat>)
    requires InRange(nodes, edges) && start < |nodes|
    requires forall v :: v in found <==> ReachedFrom(Arcs(edges), [start], v)
    ensures found == From(nodes, edges, start)
  {
    var all := AllIds(nodes);
    forall v: nat ensures v in found <==> v in From(nodes, edges, start) {
      if ReachedFrom(Arcs(edges), [start], v) {
        var a :| a in [start] && Reaches(Arcs(edges), a, v);
        ClosedHoldsAfter(Arcs(edges), all, start, v);
      }
      if v in From(nodes, edges, start) {
        assert start in [start];
      }
    }
  }
}
