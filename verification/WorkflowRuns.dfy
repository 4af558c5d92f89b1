/** Theorems about every history of a run: dependency safety, fan-out barriers, rewinds and run statuses. */
module WorkflowRuns {
  import opened Basics
  import opened Graph
  import opened Definitions
  import opened WorkflowModel
  import opened WorkflowMoves
  import opened WorkflowSafety

  // ---- The start ----------------------------------------------------------------------------

  lemma {:induction false} NodeEdgesMembers(def: seq<NodeDef>, i: nat, m: nat, e: Edge)
    requires i < |def| && m <= |def[i].dependsOn| && KnownDependencies(def)
    ensures e in NodeEdges(def, i, m) <==>
            exists j | 0 <= j < m :: e == DependencyEdge(def, def[i].dependsOn[j], i)
  {
    if m > 0 {
      NodeEdgesMembers(def, i, m - 1, e);
    }
  }

  ghost predicate IsDefinitionEdge(def: seq<NodeDef>, n: nat, e: Edge)
    requires n <= |def| && KnownDependencies(def)
  {
    e.to < n && exists d :: d in def[e.to].dependsOn && e == DependencyEdge(def, d, e.to)
  }

  /** The edges a run starts with are exactly the dependencies of its definition. */
  lemma {:induction false} DefinitionEdgesMembers(def: seq<NodeDef>, n: nat, e: Edge)
    requires n <= |def| && KnownDependencies(def)
    ensures e in DefinitionEdges(def, n) <==> IsDefinitionEdge(def, n, e)
  {
    if n > 0 {
      DefinitionEdgesMembers(def, n - 1, e);
      NodeEdgesMembers(def, n - 1, |def[n - 1].dependsOn|, e);
      if IsDefinitionEdge(def, n, e) && e.to == n - 1 {
        var d :| d in def[e.to].dependsOn && e == DependencyEdge(def, d, e.to);
        var j :| 0 <= j < |def[n - 1].dependsOn| && def[n - 1].dependsOn[j] == d;
      }
    }
  }

  lemma InitialIsSound(def: seq<NodeDef>, id: string, items: map<string, Item>)
    requires WellFormed(def)
    ensures Sound(Initial(def, id, items))
  {
    var s := Initial(def, id, items);
    forall e | e in s.edges
      ensures e.from < |s.nodes| && e.to < |s.nodes|
      ensures s.nodes[e.from].def.tolerant ==> e.condition.OnFinish?
    {
      DefinitionEdgesMembers(def, |def|, e);
      var d :| d in def[e.to].dependsOn && e == DependencyEdge(def, d, e.to);
      assert def[e.from] in def;
    }
    assert forall n :: n in s.nodes ==> n.status.Pending?;
  }

  lemma EveryRunIsSound(def: seq<NodeDef>, id: string, items: map<string, Item>, ops: seq<Op>)
    requires WellFormed(def) && History(Initial(def, id, items), ops)
    ensures Sound(Exec(Initial(def, id, items), ops))
  {
    InitialIsSound(def, id, items);
    var moves := HistoryMoves(Initial(def, id, items), ops);
    PlayKeepsSound(Initial(def, id, items), moves);
  }

  // ---- Dependency safety --------------------------------------------------------------------

  /** In every reachable state, a node that has started has every dependency met, added ones included. */
  lemma DependenciesHoldInEveryRun(def: seq<NodeDef>, id: string, items: map<string, Item>, ops: seq<Op>, e: Edge)
    requires WellFormed(def) && History(Initial(def, id, items), ops)
    requires e in Exec(Initial(def, id, items), ops).edges
    ensures var s := Exec(Initial(def, id, items), ops);
            && e.from < |s.nodes| && e.to < |s.nodes|
            && (HasStarted(s.nodes[e.to].status) ==>
                  if e.condition.OnFinish? then IsDone(s.nodes[e.from].status) else s.nodes[e.from].status.Succeeded?)
  {
    EveryRunIsSound(def, id, items, ops);
  }

  /** Nothing behind a fan-out starts, and no join after it closes, while one of its children is not done. */
  lemma FanOutIsABarrier(def: seq<NodeDef>, id: string, items: map<string, Item>, ops: seq<Op>, child: nat, e: Edge)
    requires WellFormed(def) && History(Initial(def, id, items), ops)
    requires var s := Exec(Initial(def, id, items), ops);
             && child < |s.nodes| && s.nodes[child].parent == Some(e.from)
             && e in s.edges && e.to < |s.nodes| && s.nodes[e.to].parent != Some(e.from)
             && HasStarted(s.nodes[e.to].status)
    ensures var s := Exec(Initial(def, id, items), ops);
            && e.from < |s.nodes| && s.nodes[e.from].status.Succeeded?
            && IsDone(s.nodes[child].status)
            && (!s.nodes[e.from].def.tolerantChildren ==> s.nodes[child].status.Succeeded?)
  {
    var s := Exec(Initial(def, id, items), ops);
    EveryRunIsSound(def, id, items, ops);
    assert ChildWired(s.nodes, s.edges, child, e.from);
    var wired := Edge(child, e.to, if s.nodes[child].def.tolerant then OnFinish else OnSuccess);
    assert wired in s.edges && Met(s.nodes, wired);
    assert Met(s.nodes, e);
  }

  // ---- A run only grows ---------------------------------------------------------------------

  /** `t` has the nodes and edges of `s`, and perhaps more. */
  ghost predicate Extends(s: Run, t: Run) {
    && s.id == t.id
    && |s.nodes| <= |t.nodes|
    && (forall i | 0 <= i < |s.nodes| :: t.nodes[i].def == s.nodes[i].def && t.nodes[i].parent == s.nodes[i].parent)
    && (forall e :: e in s.edges ==> e in t.edges)
  }

  lemma ExtendsThrough(s: Run, t: Run, u: Run)
    requires Extends(s, t) && Extends(t, u)
    ensures Extends(s, u)
  {
  }

  lemma MoveExtends(s: Run, m: Move)
    requires CanMove(s, m)
    ensures Extends(s, Moved(s, m))
  {
    hide Expand, JoinOutputs, RewindRefusal, RewindCone, FindKey, OutputsOf, Ready;
    if m.StartMove? && !m.choice.fails && s.nodes[m.node].def.kind.FanOut? {
      ExpandFields(s, m.node, m.choice);
      ExpandKeepsNodes(s, m.node, m.choice);
    }
  }

  lemma ExpandKeepsNodes(s: Run, f: nat, c: Choice)
    requires f < |s.nodes|
    ensures var r := Expand(s, f, c);
            |s.nodes| <= |r.nodes| && r.nodes[..|s.nodes|] == s.nodes[f := r.nodes[f]]
            && r.nodes[f].def == s.nodes[f].def && r.nodes[f].parent == s.nodes[f].parent
  {
    var down := Downstream(s.edges, f);
    if c.items.Some? {
      var n := if c.failAt.Some? && c.failAt.value < c.items.value then c.failAt.value else c.items.value;
      assert AddChildren(s, f, down, n).nodes[..|s.nodes|] == s.nodes;
    }
  }

  lemma ExpandEnds(s: Run, f: nat, c: Choice)
    requires f < |s.nodes|
    ensures var r := Expand(s, f, c);
            f < |r.nodes| && (r.nodes[f].status.Succeeded? || r.nodes[f].status.Failed?)
  {
    hide AddChildren, Downstream, ChildIds;
  }

  lemma {:induction false} PlayExtends(s: Run, moves: seq<Move>)
    requires Playable(s, moves)
    ensures Extends(s, Play(s, moves))
    decreases |moves|
  {
    if moves != [] {
      MoveExtends(s, moves[0]);
      PlayExtends(Moved(s, moves[0]), moves[1..]);
    }
  }

  // ---- Rewinds ------------------------------------------------------------------------------

  /** A path through the dependencies of a definition is a path through the edges of its run. */
  lemma {:induction false} PathOfKeysIsPathOfNodes(def: seq<NodeDef>, s: Run, p: seq<string>)
    requires WellFormed(def) && |def| <= |s.nodes|
    requires forall e :: e in DefinitionEdges(def, |def|) ==> e in s.edges
    requires IsPath(DependencyArcs(def), p) && |p| > 1
    ensures HasKey(def, p[0]) && HasKey(def, p[|p| - 1])
    ensures Reaches(Arcs(s.edges), IndexOf(def, p[0]), IndexOf(def, p[|p| - 1]))
  {
    var d, k := p[|p| - 2], p[|p| - 1];
    assert (p[|p| - 2], p[|p| - 2 + 1]) in DependencyArcs(def);
    var i :| 0 <= i < |def| && d in def[i].dependsOn && def[i].key == k;
    var e := DependencyEdge(def, d, i);
    DefinitionEdgesMembers(def, |def|, e);
    assert (e.from, e.to) in Arcs(s.edges) && i == IndexOf(def, k);
    if |p| == 2 {
      ReachesSelf(Arcs(s.edges), e.from);
    } else {
      var q := p[..|p| - 1];
      assert IsPath(DependencyArcs(def), q);
      PathOfKeysIsPathOfNodes(def, s, q);
    }
    ReachesStep(Arcs(s.edges), IndexOf(def, p[0]), e.from, e.to);
  }

  lemma BeforeIsReached(def: seq<NodeDef>, s: Run, a: string, key: string)
    requires WellFormed(def) && |def| <= |s.nodes|
    requires forall e :: e in DefinitionEdges(def, |def|) ==> e in s.edges
    requires Before(def, a, key)
    ensures HasKey(def, a) && HasKey(def, key)
    ensures Reaches(Arcs(s.edges), IndexOf(def, a), IndexOf(def, key))
  {
    var arcs := DependencyArcs(def);
    var d :| (d, key) in arcs && Reaches(arcs, a, d);
    var p :| IsPath(arcs, p) && p[0] == a && p[|p| - 1] == d;
    var q := p + [key];
    assert IsPath(arcs, q);
    PathOfKeysIsPathOfNodes(def, s, q);
  }

  lemma FindKeyIsUnique(nodes: seq<Node>, i: nat)
    requires UniqueNodes(nodes) && i < |nodes|
    ensures FindKey(nodes, nodes[i].def.key) == Some(i)
  {
    assert nodes[i] in nodes;
  }

  /** Where a node comes from: the definition, or an item of one of the definition's fan-outs. */
  ghost predicate Origins(def: seq<NodeDef>, s: Run) {
    && |def| <= |s.nodes|
    && (forall i | 0 <= i < |def| :: s.nodes[i].def == def[i])
    && (forall i: nat | |def| <= i < |s.nodes| :: IsChild(def, s.nodes[i]))
  }

  ghost predicate IsChild(def: seq<NodeDef>, n: Node) {
    && n.parent.Some? && n.parent.value < |def| && def[n.parent.value].kind.FanOut?
    && exists k :: n.def == ChildNode(def[n.parent.value], n.parent.value, k).def
  }

  lemma MoveKeepsOrigins(def: seq<NodeDef>, s: Run, m: Move)
    requires Sound(s) && Origins(def, s) && CanMove(s, m)
    ensures Origins(def, Moved(s, m))
  {
    MoveExtends(s, m);
    var t := Moved(s, m);
    if m.StartMove? && !m.choice.fails && s.nodes[m.node].def.kind.FanOut? {
      ExpandAddsChildren(s, m.node, m.choice);
      assert m.node < |def|;
    }
    forall i: nat | |def| <= i < |t.nodes|
      ensures IsChild(def, t.nodes[i])
    {
      if i < |s.nodes| {
        assert IsChild(def, s.nodes[i]);
      } else {
        assert IsChildOf(t.nodes[i], def[m.node], m.node);
      }
    }
  }

  lemma {:induction false} PlayKeepsOrigins(def: seq<NodeDef>, s: Run, moves: seq<Move>)
    requires Sound(s) && Origins(def, s) && Playable(s, moves)
    ensures Origins(def, Play(s, moves))
    decreases |moves|
  {
    if moves != [] {
      MoveKeepsSound(s, moves[0]);
      MoveKeepsOrigins(def, s, moves[0]);
      PlayKeepsOrigins(def, Moved(s, moves[0]), moves[1..]);
    }
  }

  lemma ExpandAddsChildren(s: Run, f: nat, c: Choice)
    requires f < |s.nodes| && UniqueNodes(s.nodes)
    ensures forall i: nat | |s.nodes| <= i < |Expand(s, f, c).nodes| ::
              IsChildOf(Expand(s, f, c).nodes[i], s.nodes[f].def, f)
  {
    if c.items.Some? {
      var n := if c.failAt.Some? && c.failAt.value < c.items.value then c.failAt.value else c.items.value;
      AddChildrenGrow(s, f, Downstream(s.edges, f), n);
    }
  }

  /**
   The forward search over edges agrees with the backward search over keys: in every state that moves
   of an accepted definition lead to, so in the middle of a tick too, a rewind is not "not before".
   */
  lemma RewindTargetIsAlwaysBefore(def: seq<NodeDef>, id: string, items: map<string, Item>, moves: seq<Move>, i: nat)
    requires WellFormed(def) && Playable(Initial(def, id, items), moves)
    requires var s := Play(Initial(def, id, items), moves); i < |s.nodes| && s.nodes[i].def.rewindTo.Some?
    ensures RewindRefusal(Play(Initial(def, id, items), moves), i) != NotBefore
  {
    var s0 := Initial(def, id, items);
    InitialIsSound(def, id, items);
    PlayKeepsSound(s0, moves);
    PlayExtends(s0, moves);
    PlayKeepsOrigins(def, s0, moves);
    TargetReachesRewinder(def, s0, Play(s0, moves), i);
  }

  /** So no node ever fails with that reason. */
  lemma NeverRefusedAsNotBefore(def: seq<NodeDef>, id: string, items: map<string, Item>, moves: seq<Move>)
    requires WellFormed(def) && Playable(Initial(def, id, items), moves)
    ensures forall n :: n in Play(Initial(def, id, items), moves).nodes ==> n.reason != NotBefore
  {
    var s0 := Initial(def, id, items);
    InitialIsSound(def, id, items);
    PlayKeepsNoneNotBefore(def, s0, s0, moves);
  }

  lemma {:induction false} PlayKeepsNoneNotBefore(def: seq<NodeDef>, s0: Run, s: Run, moves: seq<Move>)
    requires WellFormed(def) && s0 == Initial(def, s0.id, s0.items) && Extends(s0, s) && Origins(def, s)
    requires Sound(s) && NoneNotBefore(s) && Playable(s, moves)
    ensures NoneNotBefore(Play(s, moves))
    decreases |moves|
  {
    if moves != [] {
      assert KnownDependencies(def);
      hide Moved, Sound, Origins, NoneNotBefore, WellFormed, Extends, Initial;
      var t := Moved(s, moves[0]);
      MoveExtends(s, moves[0]);
      ExtendsThrough(s0, s, t);
      MoveKeepsSound(s, moves[0]);
      MoveKeepsOrigins(def, s, moves[0]);
      MoveKeepsNoneNotBefore(def, s0, s, moves[0]);
      PlayKeepsNoneNotBefore(def, s0, t, moves[1..]);
    }
  }

  ghost predicate NoneNotBefore(s: Run) {
    forall n :: n in s.nodes ==> n.reason != NotBefore
  }

  lemma MoveKeepsNoneNotBefore(def: seq<NodeDef>, s0: Run, s: Run, m: Move)
    requires WellFormed(def) && s0 == Initial(def, s0.id, s0.items) && Extends(s0, s) && Origins(def, s)
    requires Sound(s) && NoneNotBefore(s) && CanMove(s, m)
    ensures NoneNotBefore(Moved(s, m))
  {
    hide Ready, FindKey, RewindRefusal;
    match m
    case SyncMove(i) => SyncKeepsNoneNotBefore(def, s0, s, i);
    case StartMove(i, c) => StartKeepsNoneNotBefore(s, i, c);
    case CloseMove =>
    case CommandMove(op) => CommandKeepsNoneNotBefore(s, op);
  }

  lemma SyncKeepsNoneNotBefore(def: seq<NodeDef>, s0: Run, s: Run, i: nat)
    requires WellFormed(def) && s0 == Initial(def, s0.id, s0.items) && Extends(s0, s) && Origins(def, s)
    requires UniqueNodes(s.nodes) && NoneNotBefore(s) && i < |s.nodes|
    ensures NoneNotBefore(SyncNode(s, i))
  {
    if AsksRewind(s, i) {
      var s1 := Put(s, i, Settled(s.nodes[i], s.items[s.nodes[i].work.value]));
      assert i < |def| by {
        assert i >= |def| ==> IsChild(def, s.nodes[i]);
      }
      TargetReachesRewinder(def, s0, s1, i);
    }
    hide WellFormed, Origins, Extends, RewindRefusal, RewindCone, FindKey, GateWaits;
    SyncReasons(s, i);
  }

  /** Syncing a node gives a node only the reason its item's end gives, or the refusal of its rewind. */
  lemma SyncReasons(s: Run, i: nat)
    requires i < |s.nodes| && NoneNotBefore(s)
    requires AsksRewind(s, i) ==>
               RewindRefusal(Put(s, i, Settled(s.nodes[i], s.items[s.nodes[i].work.value])), i) != NotBefore
    ensures NoneNotBefore(SyncNode(s, i))
  {
    hide RewindRefusal, RewindCone, FindKey, GateWaits;
    var t := SyncNode(s, i);
    forall k | 0 <= k < |t.nodes| ensures t.nodes[k].reason != NotBefore {
      assert s.nodes[k] in s.nodes;
    }
  }

  lemma StartKeepsNoneNotBefore(s: Run, i: nat, c: Choice)
    requires UniqueNodes(s.nodes) && NoneNotBefore(s) && i < |s.nodes|
    ensures NoneNotBefore(StartNode(s, i, c))
  {
    var t := StartNode(s, i, c);
    if !c.fails && s.nodes[i].def.kind.FanOut? {
      ExpandKeepsNodes(s, i, c);
      ExpandAddsChildren(s, i, c);
      ExpandReasons(s, i, c);
      hide StartNode, Expand, FindKey;
      forall k | 0 <= k < |t.nodes| ensures t.nodes[k].reason != NotBefore {
        if k < |s.nodes| {
          assert t.nodes[k] == t.nodes[..|s.nodes|][k] && s.nodes[k] in s.nodes;
        } else {
          assert IsChildOf(t.nodes[k], s.nodes[i].def, i);
        }
      }
    } else {
      assert s.nodes[i] in s.nodes;
      assert forall n :: n in t.nodes ==> n in s.nodes || n == t.nodes[i];
      hide JoinOutputs;
    }
  }

  lemma ExpandReasons(s: Run, f: nat, c: Choice)
    requires f < |s.nodes|
    ensures var r := Expand(s, f, c);
            f < |r.nodes| && (r.nodes[f].reason == s.nodes[f].reason || r.nodes[f].reason != NotBefore)
  {
    hide AddChildren, Downstream, ChildIds;
  }

  lemma CommandKeepsNoneNotBefore(s: Run, op: Op)
    requires NoneNotBefore(s) && !op.DoTick? && Possible(s, op)
    ensures NoneNotBefore(Apply(s, op))
  {
    hide FindKey;
    var t := Apply(s, op);
    forall k | 0 <= k < |t.nodes| ensures t.nodes[k].reason != NotBefore {
      assert s.nodes[k] in s.nodes;
    }
  }

  lemma TargetReachesRewinder(def: seq<NodeDef>, s0: Run, s: Run, i: nat)
    requires WellFormed(def) && s0 == Initial(def, s0.id, s0.items) && Extends(s0, s) && UniqueNodes(s.nodes)
    requires i < |def| && def[i].rewindTo.Some?
    ensures RewindRefusal(s, i) != NotBefore
  {
    assert def[i] in def && GoodRewind(def, def[i]);
    var target := def[i].rewindTo.value;
    BeforeIsReached(def, s, target, def[i].key);
    FindKeyIsUnique(s.nodes, IndexOf(def, target));
    assert s0.nodes[IndexOf(def, target)].def == def[IndexOf(def, target)];
    assert s0.nodes[i].def == def[i] && IndexOf(def, def[i].key) == i;
    assert i in RewindCone(s, i);
  }

  /** Node `k` starts over if it comes after `target`, and is as it was otherwise. */
  ghost predicate StartsOverAfter(s: Run, t: Run, target: nat, k: nat)
    requires k < |s.nodes| == |t.nodes|
  {
    if Reaches(Arcs(s.edges), target, k) then
      && t.nodes[k].status.Pending? && t.nodes[k].input == NoInput && t.nodes[k].output == NoOutput
      && t.nodes[k].work == None && t.nodes[k].def == s.nodes[k].def && t.nodes[k].parent.None?
    else t.nodes[k] == s.nodes[k]
  }

  /** A granted rewind: exactly the target and the nodes after it start over, everything else stays. */
  lemma RewindIsExact(s: Run, i: nat)
    requires Sound(s) && i < |s.nodes| && s.nodes[i].def.rewindTo.Some?
    requires RewindRefusal(s, i) == NoReason
    ensures var t := Rewind(s, i); var target := FindKey(s.nodes, s.nodes[i].def.rewindTo.value);
            && target.Some? && |t.nodes| == |s.nodes|
            && (forall k: nat | k < |s.nodes| :: StartsOverAfter(s, t, target.value, k))
            && t.nodes[i].status.Pending? && t.nodes[target.value].status.Pending?
            && t.round == s.round + 1 <= REWIND_ROUNDS_MAX
            && t.edges == s.edges && t.items == s.items && t.outputs == s.outputs
            && (t.status.AwaitingInput? <==> GateWaits(t.nodes)) && (t.status.Active? <==> !GateWaits(t.nodes))
  {
    GrantedCone(s, i);
    var target := FindKey(s.nodes, s.nodes[i].def.rewindTo.value).value;
    ReachesSelf(Arcs(s.edges), target);
    var again, t := RewindCone(s, i), Rewind(s, i);
    forall k: nat | k < |s.nodes|
      ensures StartsOverAfter(s, t, target, k)
    {
      assert k in again <==> Reaches(Arcs(s.edges), target, k);
      assert t.nodes[k] == if k in again then ResetNode(s.nodes[k]) else s.nodes[k];
    }
    hide RewindRefusal, RewindCone, Reaches, Sound, StartsOverAfter;
  }

  // ---- What a run's status means ------------------------------------------------------------

  ghost predicate OutputsMatch(s: Run) {
    && s.outputs.Some?
    && (forall n :: n in s.nodes ==> n.def.key in s.outputs.value && s.outputs.value[n.def.key] == n.output)
    && (forall k :: k in s.outputs.value ==> FindKey(s.nodes, k).Some?)
  }

  ghost predicate StatusMeans(s: Run) {
    && (s.status.AwaitingInput? ==> GateWaits(s.nodes))
    && (s.status.Completed? ==> AllDone(s.nodes) && OutputsMatch(s))
    && (s.status.RunFailed? <==> AnyFailed(s.nodes))
    && (s.status.RunCanceled? ==> forall n :: n in s.nodes ==> IsTerminal(n.status))
  }

  lemma {:induction false} OutputsOfNodes(nodes: seq<Node>)
    requires UniqueNodes(nodes)
    ensures forall n :: n in nodes ==> n.def.key in OutputsOf(nodes) && OutputsOf(nodes)[n.def.key] == n.output
    ensures forall k :: k in OutputsOf(nodes) ==> FindKey(nodes, k).Some?
  {
    if nodes != [] {
      var rest, last := nodes[..|nodes| - 1], nodes[|nodes| - 1];
      OutputsOfNodes(rest);
      LastKeyIsNew(nodes);
      assert OutputsOf(nodes) == OutputsOf(rest)[last.def.key := last.output];
      hide OutputsOf, FindKey, UniqueNodes;
      assert nodes == rest + [last];
    }
  }

  lemma LastKeyIsNew(nodes: seq<Node>)
    requires UniqueNodes(nodes) && nodes != []
    ensures UniqueNodes(nodes[..|nodes| - 1])
    ensures forall n :: n in nodes[..|nodes| - 1] ==> n.def.key != nodes[|nodes| - 1].def.key
    ensures forall k :: FindKey(nodes[..|nodes| - 1], k).Some? || k == nodes[|nodes| - 1].def.key ==>
              FindKey(nodes, k).Some?
  {
    var rest := nodes[..|nodes| - 1];
    forall n | n in rest ensures n.def.key != nodes[|nodes| - 1].def.key {
      var j :| 0 <= j < |rest| && rest[j] == n;
      assert nodes[j] == n;
    }
  }

  lemma FinalizeMeans(s: Run)
    requires UniqueNodes(s.nodes) && StatusFits(s) && Ticking(s.status)
    ensures StatusMeans(Finalize(s))
  {
    OutputsOfNodes(s.nodes);
    hide FindKey, OutputsOf, UniqueNodes;
  }

  lemma TickKeepsMeaning(s: Run, syncOrder: seq<nat>, startOrder: seq<nat>, choices: nat -> Choice)
    requires Sound(s) && StatusMeans(s)
    ensures StatusMeans(Tick(s, syncOrder, startOrder, choices))
  {
    if Ticking(s.status) {
      var moves := AdvanceMoves(s, syncOrder, startOrder, choices);
      PlayKeepsSound(s, moves);
      hide Advance, Finalize, Play, Playable;
      FinalizeMeans(Advance(s, syncOrder, startOrder, choices));
    }
  }

  lemma CancelKeepsMeaning(s: Run)
    requires StatusMeans(s)
    ensures StatusMeans(Cancel(s))
  {
    hide FindKey, OutputsOf;
    if !RunOver(s.status) {
      var t := Cancel(s);
      assert forall i | 0 <= i < |s.nodes| :: IsTerminal(t.nodes[i].status) && !t.nodes[i].status.Failed?;
    }
  }

  lemma AnswerKeepsMeaning(s: Run, key: string, answer: string)
    requires StatusMeans(s)
    ensures StatusMeans(Answer(s, key, answer))
  {
    var t := Answer(s, key, answer);
    if t != s {
      assert forall j | 0 <= j < |s.nodes| :: t.nodes[j].status.Failed? <==> s.nodes[j].status.Failed?;
    }
    hide FindKey, OutputsOf;
  }

  lemma OpKeepsMeaning(s: Run, op: Op)
    requires Sound(s) && StatusMeans(s) && Possible(s, op)
    ensures Sound(Apply(s, op)) && StatusMeans(Apply(s, op))
  {
    var moves := OpMoves(s, op);
    PlayKeepsSound(s, moves);
    match op {
      case DoTick(syncOrder, startOrder, choices) => TickKeepsMeaning(s, syncOrder, startOrder, choices);
      case DoCancel => CancelKeepsMeaning(s);
      case DoAnswer(key, answer) => AnswerKeepsMeaning(s, key, answer);
      case DoNote(key, text) => NoteKeepsMeaning(s, key, text);
      case _ => hide Sound, Play, Playable, FindKey, OutputsOf;
    }
  }

  lemma NoteKeepsMeaning(s: Run, key: string, text: string)
    requires Sound(s) && StatusMeans(s)
    ensures StatusMeans(AddNote(s, key, text))
  {
    var t := AddNote(s, key, text);
    if t != s {
      var i := FindKey(s.nodes, key).value;
      assert s.nodes[i] in s.nodes;
      assert forall j | 0 <= j < |s.nodes| :: t.nodes[j].status == s.nodes[j].status;
    }
  }

  /** In every reachable state the run's status means what it says; `failed` exactly when a node failed. */
  lemma {:induction false} StatusMeansWhatItSays(def: seq<NodeDef>, id: string, items: map<string, Item>, ops: seq<Op>)
    requires WellFormed(def) && History(Initial(def, id, items), ops)
    ensures StatusMeans(Exec(Initial(def, id, items), ops))
    decreases |ops|
  {
    var s0 := Initial(def, id, items);
    if ops == [] {
      assert forall i | 0 <= i < |s0.nodes| :: s0.nodes[i].status.Pending?;
    } else {
      var before := ops[..|ops| - 1];
      StatusMeansWhatItSays(def, id, items, before);
      EveryRunIsSound(def, id, items, before);
      OpKeepsMeaning(Exec(s0, before), ops[|ops| - 1]);
    }
  }

  predicate OnlyNotesGrew(n: Node, m: Node) {
    m == n.(input := n.input.(notes := m.input.notes)) && n.input.notes <= m.input.notes
  }

  lemma SameNotes(n: Node)
    ensures OnlyNotesGrew(n, n)
  {
  }

  lemma NotesGrowOn(n: Node, m: Node, o: Node)
    requires OnlyNotesGrew(n, m) && OnlyNotesGrew(m, o)
    ensures OnlyNotesGrew(n, o)
  {
  }

  lemma OpAfterTheEnd(s: Run, op: Op)
    requires RunOver(s.status) && Possible(s, op)
    ensures var t := Apply(s, op);
            && t.status == s.status && t.edges == s.edges && t.outputs == s.outputs && t.round == s.round
            && |t.nodes| == |s.nodes|
            && forall i | 0 <= i < |s.nodes| :: OnlyNotesGrew(s.nodes[i], t.nodes[i])
  {
    hide FindKey, Covers, WorkMoves;
  }

  /** After a final status no history changes the status, the graph, or a node but for its notes, which only grow. */
  lemma {:induction false} FinalStatusIsFinal(s: Run, ops: seq<Op>)
    requires RunOver(s.status) && History(s, ops)
    ensures var t := Exec(s, ops);
            && t.status == s.status && t.edges == s.edges && t.outputs == s.outputs && t.round == s.round
            && |t.nodes| == |s.nodes|
            && forall i | 0 <= i < |s.nodes| :: OnlyNotesGrew(s.nodes[i], t.nodes[i])
    decreases |ops|
  {
    if ops != [] {
      FinalStatusIsFinal(s, ops[..|ops| - 1]);
      var t := Exec(s, ops[..|ops| - 1]);
      OpAfterTheEnd(t, ops[|ops| - 1]);
      hide Apply, Possible, OnlyNotesGrew, RunOver;
      forall i | 0 <= i < |s.nodes| ensures OnlyNotesGrew(s.nodes[i], Exec(s, ops).nodes[i]) {
        NotesGrowOn(s.nodes[i], t.nodes[i], Exec(s, ops).nodes[i]);
      }
    } else {
      forall i | 0 <= i < |s.nodes| ensures OnlyNotesGrew(s.nodes[i], s.nodes[i]) {
        SameNotes(s.nodes[i]);
      }
    }
  }

  // ---- What joins and fan-outs record -------------------------------------------------------

  /** A join's output holds, under each dependency's key, that dependency's output, and nothing else. */
  lemma {:induction false} JoinCollectsItsDependencies(nodes: seq<Node>, edges: seq<Edge>, i: nat, n: nat)
    requires UniqueNodes(nodes) && InRange(nodes, edges) && n <= |edges|
    ensures forall j | 0 <= j < n && edges[j].to == i ::
              var d := nodes[edges[j].from];
              d.def.key in JoinOutputs(nodes, edges, i, n) && JoinOutputs(nodes, edges, i, n)[d.def.key] == d.output
    ensures forall k :: k in JoinOutputs(nodes, edges, i, n) ==>
              exists j :: 0 <= j < n && edges[j].to == i && nodes[edges[j].from].def.key == k
  {
    if n > 0 {
      JoinCollectsItsDependencies(nodes, edges, i, n - 1);
      assert edges[n - 1] in edges;
      assert forall j | 0 <= j < n :: edges[j] in edges;
    }
  }

  /**
   After expanding over `n` items the output lists a node for each, under that item's key. It is a child
   made for the item, wired between the fan-out and what follows, exactly when no node had the key.
   */
  lemma FanOutListsItsChildren(s: Run, f: nat, c: Choice, k: nat)
    requires Sound(s) && Startable(s, f) && s.nodes[f].def.kind.FanOut?
    requires c.items.Some? && !(c.failAt.Some? && c.failAt.value < c.items.value) && k < c.items.value
    ensures var t := Expand(s, f, c); var key := ChildKey(s.nodes[f].def.key, k);
            && f < |t.nodes| && t.nodes[f].status.Succeeded? && t.nodes[f].output.Children?
            && |t.nodes[f].output.ids| == c.items.value
            && var id := t.nodes[f].output.ids[k];
               && id < |t.nodes| && t.nodes[id].def.key == key
               && (IsWiredChild(t, f, id) <==> forall n :: n in s.nodes ==> n.def.key != key)
               && (id < |s.nodes| <==> exists n :: n in s.nodes && n.def.key == key)
               && (id >= |s.nodes| ==> IsFreshChild(t.nodes[id], k))
  {
    var t := Expand(s, f, c);
    ListedByKey(s, f, c, k);
    ExpandKeepsNodes(s, f, c);
    ExpandKeepsSound(s, f, c);
    ExpandAddsChildren(s, f, c);
    var id := t.nodes[f].output.ids[k];
    hide Expand, FindKey, Ready;
    if id < |s.nodes| {
      assert t.nodes[id].def == s.nodes[id].def && t.nodes[id].parent == s.nodes[id].parent by {
        assert t.nodes[id] == t.nodes[..|s.nodes|][id];
      }
      assert s.nodes[id] in s.nodes;
      NoChildrenYet(s, f, id);
    } else {
      NoneBefore(s, t, f, id);
      ChildOfItem(t.nodes[id], s.nodes[f].def, f, k);
    }
  }

  /** A child that waits for its turn, with its item's place. */
  predicate IsFreshChild(n: Node, k: nat) {
    n.status.Pending? && n.def.kind.Work? && n.input == Input(Some(k), None, []) && n.output.NoOutput? && n.work.None?
  }

  lemma ChildOfItem(n: Node, parent: NodeDef, f: nat, k: nat)
    requires IsChildOf(n, parent, f) && n.def.key == ChildKey(parent.key, k)
    ensures n.parent == Some(f) && IsFreshChild(n, k)
  {
    var j :| n == ChildNode(parent, f, j);
    assert (parent.key + ".")[..] + Dec(j) == (parent.key + ".")[..] + Dec(k);
    assert (parent.key + "." + Dec(j))[|parent.key| + 1..] == Dec(j);
    assert (parent.key + "." + Dec(k))[|parent.key| + 1..] == Dec(k);
    DecInjective(j, k);
  }

  /** The node is a child of the fan-out, with its edges in and out. */
  ghost predicate IsWiredChild(t: Run, f: nat, id: nat) {
    && InRange(t.nodes, t.edges) && f < |t.nodes| && id < |t.nodes| && t.nodes[id].parent == Some(f)
    && ChildWired(t.nodes, t.edges, id, f)
  }

  /** A fan-out that has not expanded has no children. */
  lemma NoChildrenYet(s: Run, f: nat, id: nat)
    requires Sound(s) && f < |s.nodes| && s.nodes[f].status.Pending? && id < |s.nodes|
    ensures s.nodes[id].parent != Some(f)
  {
    assert s.nodes[id].parent == Some(f) ==> ChildWired(s.nodes, s.edges, id, f);
  }

  /** A node that was added has a key no node had. */
  lemma NoneBefore(s: Run, t: Run, f: nat, id: nat)
    requires f < |s.nodes| <= id < |t.nodes| && UniqueNodes(t.nodes)
    requires t.nodes[..|s.nodes|] == s.nodes[f := t.nodes[f]] && t.nodes[f].def == s.nodes[f].def
    ensures forall n :: n in s.nodes ==> n.def.key != t.nodes[id].def.key
  {
    forall n | n in s.nodes ensures n.def.key != t.nodes[id].def.key {
      var i :| 0 <= i < |s.nodes| && s.nodes[i] == n;
      assert t.nodes[i] == t.nodes[..|s.nodes|][i];
    }
  }

  lemma ListedByKey(s: Run, f: nat, c: Choice, k: nat)
    requires Sound(s) && Startable(s, f) && s.nodes[f].def.kind.FanOut?
    requires c.items.Some? && !(c.failAt.Some? && c.failAt.value < c.items.value) && k < c.items.value
    ensures var t := Expand(s, f, c);
            && f < |t.nodes| && t.nodes[f].status.Succeeded? && t.nodes[f].output.Children?
            && |t.nodes[f].output.ids| == c.items.value
            && var id := t.nodes[f].output.ids[k];
               id < |t.nodes| && t.nodes[id].def.key == ChildKey(s.nodes[f].def.key, k)
  {
    var down, n := Downstream(s.edges, f), c.items.value;
    var r := AddChildren(s, f, down, n);
    AddChildrenGrow(s, f, down, n);
    AllChildrenFound(s, f, down, n);
    assert r.nodes[f] == r.nodes[..|s.nodes|][f];
    assert FindKey(r.nodes, ChildKey(s.nodes[f].def.key, k)).Some?;
    hide AddChildren, Downstream, FindKey, ChildKey, Sound;
  }

  /** A definition that names `f.0` itself: expanding over one item adds no node and no edge. */
  lemma NamedItemIsNoChild(id: string, items: map<string, Item>, c: Choice)
    requires c.items == Some(1) && c.failAt.None?
    ensures var def := [NodeDef("f", FanOut, [], false, false, None, false, ""),
                        NodeDef("f.0", Work, [], false, false, None, false, "")];
            var s := Initial(def, id, items); var t := Expand(s, 0, c);
            WellFormed(def) && |t.nodes| == 2 && t.edges == s.edges == [] && t.nodes[0].output == Children([1])
  {
    var def := [NodeDef("f", FanOut, [], false, false, None, false, ""),
                NodeDef("f.0", Work, [], false, false, None, false, "")];
    assert WellFormed(def) by {
      assert "f" != "f.0";
    }
    var s := Initial(def, id, items);
    assert s.edges == [] by {
      assert DefinitionEdges(def, 1) == [] && DefinitionEdges(def, 0) == [];
    }
    assert Dec(0) == "0" && ChildKey("f", 0) == "f.0";
    FindKeyIsUnique(s.nodes, 1);
    assert AddChildren(s, 0, [], 0) == s;
    assert AddChildren(s, 0, [], 1) == s;
    assert ChildIds(s.nodes, "f", 1) == [1];
  }

  lemma {:induction false} AllChildrenFound(s: Run, f: nat, down: seq<Edge>, m: nat)
    requires f < |s.nodes|
    ensures forall k: nat | k < m :: FindKey(AddChildren(s, f, down, m).nodes, ChildKey(s.nodes[f].def.key, k)).Some?
  {
    if m > 0 {
      AllChildrenFound(s, f, down, m - 1);
      var before := AddChildren(s, f, down, m - 1);
      assert before.nodes[f] == before.nodes[..|s.nodes|][f];
      forall k: nat | k < m
        ensures FindKey(AddChild(before, f, down, m - 1).nodes, ChildKey(s.nodes[f].def.key, k)).Some?
      {
        FoundAfterAdding(before, f, down, m - 1, k);
      }
      hide AddChild, FindKey;
    }
  }

  lemma FoundAfterAdding(r: Run, f: nat, down: seq<Edge>, added: nat, k: nat)
    requires f < |r.nodes|
    requires k == added || FindKey(r.nodes, ChildKey(r.nodes[f].def.key, k)).Some?
    ensures FindKey(AddChild(r, f, down, added).nodes, ChildKey(r.nodes[f].def.key, k)).Some?
  {
    var nodes := AddChild(r, f, down, added).nodes;
    var found := FindKey(r.nodes, ChildKey(r.nodes[f].def.key, k));
    var at := if found.Some? then found.value else |nodes| - 1;
    assert nodes[at] in nodes;
  }
}
