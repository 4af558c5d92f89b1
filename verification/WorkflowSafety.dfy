/**
 What every move keeps: a node that has left `pending` has its dependencies met, and the shape of
 the graph that makes this survive fan-out and rewind.
 */
module WorkflowSafety {
  import opened Basics
  import opened Graph
  import opened Definitions
  import opened WorkflowModel
  import opened WorkflowMoves

  ghost predicate UniqueNodes(nodes: seq<Node>) {
    forall i, j | 0 <= i < j < |nodes| :: nodes[i].def.key != nodes[j].def.key
  }

  /** Only work is enqueued or tolerated, only gates wait, and every way out of a node that may fail is `finished`. */
  ghost predicate KindsFit(nodes: seq<Node>) {
    forall n :: n in nodes ==>
      && (n.status.Enqueued? ==> n.def.kind.Work?)
      && (n.status.Waiting? ==> n.def.kind.Gate?)
      && (n.status.Tolerated? ==> n.def.kind.Work? && n.def.tolerant)
  }

  ghost predicate TolerantWaysOut(nodes: seq<Node>, edges: seq<Edge>)
    requires InRange(nodes, edges)
  {
    forall e :: e in edges && nodes[e.from].def.tolerant && nodes[e.from].def.kind.Work? ==> e.condition.OnFinish?
  }

  /** A child waits for its fan-out, and everything behind the fan-out waits for the child. */
  ghost predicate ChildWired(nodes: seq<Node>, edges: seq<Edge>, c: nat, f: nat)
    requires c < |nodes| && f < |nodes| && InRange(nodes, edges)
  {
    && nodes[f].def.kind.FanOut? && (nodes[f].status.Succeeded? || nodes[f].status.Failed?)
    && nodes[c].def.kind.Work? && nodes[c].def.rewindTo.None?
    && nodes[c].def.tolerant == nodes[f].def.tolerantChildren
    && Edge(f, c, OnSuccess) in edges
    && forall e :: e in edges && e.from == f && nodes[e.to].parent != Some(f) ==>
         Edge(c, e.to, if nodes[c].def.tolerant then OnFinish else OnSuccess) in edges
  }

  ghost predicate ChildrenWired(nodes: seq<Node>, edges: seq<Edge>)
    requires InRange(nodes, edges)
  {
    forall c: nat | c < |nodes| && nodes[c].parent.Some? ::
      nodes[c].parent.value < |nodes| && ChildWired(nodes, edges, c, nodes[c].parent.value)
  }

  /** A node that has started or finished: neither pending nor canceled. */
  predicate HasStarted(status: NodeStatus) {
    !status.Pending? && !status.NodeCanceled?
  }

  /** Dependency safety: every dependency of a node that has started is met. */
  ghost predicate DependencySafe(nodes: seq<Node>, edges: seq<Edge>)
    requires InRange(nodes, edges)
  {
    forall e :: e in edges && HasStarted(nodes[e.to].status) ==> Met(nodes, e)
  }

  ghost predicate StatusFits(s: Run) {
    && s.round <= REWIND_ROUNDS_MAX
    && (s.status.AwaitingInput? ==> GateWaits(s.nodes))
  }

  ghost predicate Sound(s: Run) {
    && InRange(s.nodes, s.edges)
    && UniqueNodes(s.nodes)
    && KindsFit(s.nodes)
    && TolerantWaysOut(s.nodes, s.edges)
    && ChildrenWired(s.nodes, s.edges)
    && DependencySafe(s.nodes, s.edges)
    && StatusFits(s)
  }

  // ---- One node changes ---------------------------------------------------------------------

  /** A change to one node that keeps what the edges rely on. */
  ghost predicate FitChange(s: Run, i: nat, n: Node)
    requires i < |s.nodes|
  {
    var o := s.nodes[i];
    && n.def == o.def && n.parent == o.parent
    && !IsDone(o.status) && (o.def.kind.FanOut? ==> o.status.Pending?)
    && KindsFit([n])
    && (HasStarted(n.status) ==> HasStarted(o.status) || Ready(s.nodes, s.edges, i))
  }

  lemma PutKeepsChildren(s: Run, i: nat, n: Node)
    requires InRange(s.nodes, s.edges) && ChildrenWired(s.nodes, s.edges)
    requires i < |s.nodes| && FitChange(s, i, n)
    ensures ChildrenWired(Put(s, i, n).nodes, s.edges)
  {
    var nodes := s.nodes[i := n];
    forall c: nat | c < |nodes| && nodes[c].parent.Some?
      ensures nodes[c].parent.value < |nodes| && ChildWired(nodes, s.edges, c, nodes[c].parent.value)
    {
      assert ChildWired(s.nodes, s.edges, c, s.nodes[c].parent.value);
    }
  }

  lemma PutKeepsDependencies(s: Run, i: nat, n: Node)
    requires InRange(s.nodes, s.edges) && DependencySafe(s.nodes, s.edges)
    requires i < |s.nodes| && FitChange(s, i, n)
    ensures DependencySafe(Put(s, i, n).nodes, s.edges)
  {
    var nodes := s.nodes[i := n];
    forall e | e in s.edges && HasStarted(nodes[e.to].status)
      ensures Met(nodes, e)
    {
      assert e.to == i && HasStarted(s.nodes[i].status) ==> Met(s.nodes, e);
    }
  }

  lemma PutKeepsSound(s: Run, i: nat, n: Node)
    requires Sound(s) && i < |s.nodes| && FitChange(s, i, n)
    requires s.nodes[i].status.Waiting? ==> n.status.Waiting? || !s.status.AwaitingInput?
    ensures Sound(Put(s, i, n))
  {
    PutKeepsChildren(s, i, n);
    PutKeepsDependencies(s, i, n);
    var t := Put(s, i, n);
    assert forall m :: m in t.nodes ==> m in s.nodes || m == n;
    assert KindsFit(t.nodes) by {
      assert n in [n];
    }
    if s.status.AwaitingInput? {
      var g :| 0 <= g < |s.nodes| && s.nodes[g].def.kind.Gate? && s.nodes[g].status.Waiting?;
      assert t.nodes[g].def.kind.Gate? && t.nodes[g].status.Waiting?;
    }
  }

  // ---- Syncing and rewinding ----------------------------------------------------------------

  lemma FromIsClosed(nodes: seq<Node>, edges: seq<Edge>, start: nat, e: Edge)
    requires InRange(nodes, edges) && e in edges && e.from in From(nodes, edges, start)
    ensures e.to in From(nodes, edges, start)
  {
    assert (e.from, e.to) in Arcs(edges);
    ReachesStep(Arcs(edges), start, e.from, e.to);
  }

  ghost predicate ClosedCone(s: Run, again: set<nat>) {
    && (forall k :: k in again ==> k < |s.nodes| && s.nodes[k].parent.None?)
    && (forall e :: e in s.edges && e.from in again ==> e.to in again)
  }

  lemma ResetKeepsSound(s: Run, again: set<nat>)
    requires Sound(s) && ClosedCone(s, again) && s.round < REWIND_ROUNDS_MAX
    ensures var nodes := ResetNodes(s.nodes, again);
            Sound(s.(nodes := nodes, round := s.round + 1, status := WaitingOrActive(nodes)))
  {
    var nodes := ResetNodes(s.nodes, again);
    forall c: nat | c < |nodes| && nodes[c].parent.Some?
      ensures nodes[c].parent.value < |nodes| && ChildWired(nodes, s.edges, c, nodes[c].parent.value)
    {
      assert ChildWired(s.nodes, s.edges, c, s.nodes[c].parent.value);
    }
    forall e | e in s.edges && HasStarted(nodes[e.to].status)
      ensures Met(nodes, e)
    {
      assert e.to !in again && e.from !in again;
    }
  }

  /** What the refusal test leaves when it finds nothing: a cone that can start over. */
  lemma GrantedCone(s: Run, i: nat)
    requires InRange(s.nodes, s.edges) && i < |s.nodes| && s.nodes[i].def.rewindTo.Some?
    requires RewindRefusal(s, i) == NoReason
    ensures ClosedCone(s, RewindCone(s, i)) && s.round < REWIND_ROUNDS_MAX && i in RewindCone(s, i)
  {
    var again := RewindCone(s, i);
    forall e | e in s.edges && e.from in again
      ensures e.to in again
    {
      FromIsClosed(s.nodes, s.edges, FindKey(s.nodes, s.nodes[i].def.rewindTo.value).value, e);
    }
  }

  lemma SyncKeepsSound(s: Run, i: nat)
    requires Sound(s) && CanMove(s, SyncMove(i))
    ensures Sound(SyncNode(s, i))
  {
    var n := s.nodes[i];
    assert n in s.nodes;
    if n.work.Some? && n.work.value in s.items {
      var n1 := Settled(n, s.items[n.work.value]);
      PutKeepsSound(s, i, n1);
      var s1 := Put(s, i, n1);
      if AsksRewind(s, i) {
        var refusal := RewindRefusal(s1, i);
        if refusal == NoReason {
          GrantedCone(s1, i);
          ResetKeepsSound(s1, RewindCone(s1, i));
        } else {
          var n2 := n1.(status := Failed, reason := refusal);
          PutKeepsSound(s, i, n2);
          assert Put(s1, i, n2) == Put(s, i, n2);
        }
      }
    }
  }

  // ---- Fan-out ------------------------------------------------------------------------------

  lemma {:induction false} DownstreamEdges(edges: seq<Edge>, f: nat, e: Edge)
    ensures e in Downstream(edges, f) <==> e in edges && e.from == f
  {
    if edges != [] {
      DownstreamEdges(edges[..|edges| - 1], f, e);
      assert edges == edges[..|edges| - 1] + [edges[|edges| - 1]];
    }
  }

  /** `r` is `s` with children of `f` appended, each wired from `f` to the ends of `down`. */
  ghost predicate Grown(s: Run, r: Run, f: nat, down: seq<Edge>)
    requires f < |s.nodes|
  {
    && r == s.(nodes := r.nodes, edges := r.edges)
    && GrownNodes(s.nodes, r.nodes, f)
    && GrownEdges(|s.nodes|, |r.nodes|, s.edges, r.edges, f, down, ChildCondition(s.nodes[f].def))
  }

  function ChildCondition(parent: NodeDef): Condition {
    if parent.tolerantChildren then OnFinish else OnSuccess
  }

  ghost predicate GrownNodes(before: seq<Node>, nodes: seq<Node>, f: nat)
    requires f < |before|
  {
    && |before| <= |nodes| && nodes[..|before|] == before
    && forall c | |before| <= c < |nodes| :: IsChildOf(nodes[c], before[f].def, f)
  }

  ghost predicate IsChildOf(n: Node, parent: NodeDef, f: nat) {
    exists k :: n == ChildNode(parent, f, k)
  }

  ghost predicate GrownEdges(n: nat, m: nat, before: seq<Edge>, edges: seq<Edge>, f: nat, down: seq<Edge>,
                             condition: Condition)
  {
    && (forall e :: e in before ==> e in edges)
    && (forall c: nat | n <= c < m :: Edge(f, c, OnSuccess) in edges)
    && (forall c: nat, d | n <= c < m && d in down :: Edge(c, d.to, condition) in edges)
    && (forall e :: e in edges ==> e in before || NewEdge(n, m, e, f, down, condition))
  }

  ghost predicate NewEdge(n: nat, m: nat, e: Edge, f: nat, down: seq<Edge>, condition: Condition) {
    || (e.from == f && n <= e.to < m && e.condition.OnSuccess?)
    || (n <= e.from < m && e.condition == condition && Ends(down, e.to))
  }

  ghost predicate Ends(down: seq<Edge>, to: nat) {
    exists d :: d in down && d.to == to
  }

  lemma ChildEdgeMembers(f: nat, child: nat, down: seq<Edge>, parent: NodeDef, e: Edge)
    ensures e in ChildEdges(f, child, down, parent.tolerantChildren) <==>
            e == Edge(f, child, OnSuccess)
            || (e.from == child && e.condition == ChildCondition(parent) && Ends(down, e.to))
  {
    var all := ChildEdges(f, child, down, parent.tolerantChildren);
    assert all[0] == Edge(f, child, OnSuccess);
    if e.from == child && e.condition == ChildCondition(parent) && Ends(down, e.to) {
      var d :| d in down && d.to == e.to;
      var j :| 0 <= j < |down| && down[j] == d;
      assert all[j + 1] == e;
    }
  }

  lemma AddChildGrowsEdges(n: nat, m: nat, before: seq<Edge>, edges: seq<Edge>, f: nat, down: seq<Edge>,
                           parent: NodeDef)
    requires n <= m && GrownEdges(n, m, before, edges, f, down, ChildCondition(parent))
    ensures GrownEdges(n, m + 1, before, edges + ChildEdges(f, m, down, parent.tolerantChildren), f, down,
                       ChildCondition(parent))
  {
    var condition := ChildCondition(parent);
    var added := ChildEdges(f, m, down, parent.tolerantChildren);
    forall e ensures e in added <==>
      e == Edge(f, m, OnSuccess) || (e.from == m && e.condition == condition && Ends(down, e.to))
    {
      ChildEdgeMembers(f, m, down, parent, e);
    }
    hide ChildEdges, ChildCondition;
    forall c: nat, d | n <= c < m + 1 && d in down
      ensures Edge(c, d.to, condition) in edges + added
    {
      assert Ends(down, d.to);
    }
    forall e | e in edges + added
      ensures e in before || NewEdge(n, m + 1, e, f, down, condition)
    {
      assert e in edges ==> e in before || NewEdge(n, m, e, f, down, condition);
    }
  }

  lemma AddChildGrows(s: Run, r: Run, f: nat, down: seq<Edge>, k: nat)
    requires f < |s.nodes| && Grown(s, r, f, down) && UniqueNodes(r.nodes)
    ensures Grown(s, AddChild(r, f, down, k), f, down) && UniqueNodes(AddChild(r, f, down, k).nodes)
  {
    var parent := s.nodes[f].def;
    assert r.nodes[f] == r.nodes[..|s.nodes|][f];
    var t := AddChild(r, f, down, k);
    if FindKey(r.nodes, ChildKey(parent.key, k)).None? {
      AddChildGrowsEdges(|s.nodes|, |r.nodes|, s.edges, r.edges, f, down, parent);
      assert t.nodes[|r.nodes|] == ChildNode(parent, f, k);
      assert t.nodes[..|s.nodes|] == r.nodes[..|s.nodes|];
      assert forall n :: n in r.nodes ==> n.def.key != ChildKey(parent.key, k);
    }
  }

  lemma {:induction false} AddChildrenGrow(s: Run, f: nat, down: seq<Edge>, n: nat)
    requires f < |s.nodes| && UniqueNodes(s.nodes)
    ensures var r := AddChildren(s, f, down, n); Grown(s, r, f, down) && UniqueNodes(r.nodes)
  {
    if n > 0 {
      hide AddChild, Grown, UniqueNodes;
      AddChildrenGrow(s, f, down, n - 1);
      AddChildGrows(s, AddChildren(s, f, down, n - 1), f, down, n - 1);
    }
  }

  /** A pending fan-out that is ready, and what it becomes: its children in place, itself done or failed. */
  ghost predicate Expansion(s: Run, r: Run, f: nat, n: Node) {
    && f < |s.nodes| && s.nodes[f].def.kind.FanOut? && s.nodes[f].status.Pending? && Ready(s.nodes, s.edges, f)
    && Grown(s, r, f, Downstream(s.edges, f)) && UniqueNodes(r.nodes)
    && n.def == s.nodes[f].def && n.parent == s.nodes[f].parent && (n.status.Succeeded? || n.status.Failed?)
  }

  lemma ExpansionNode(s: Run, r: Run, f: nat, n: Node, i: nat)
    requires Expansion(s, r, f, n) && i < |r.nodes|
    ensures i < |s.nodes| && i != f ==> Put(r, f, n).nodes[i] == s.nodes[i]
    ensures i == f ==> Put(r, f, n).nodes[i] == n
    ensures i >= |s.nodes| ==> IsChildOf(Put(r, f, n).nodes[i], s.nodes[f].def, f)
  {
    if i < |s.nodes| {
      assert r.nodes[i] == r.nodes[..|s.nodes|][i];
    }
  }

  lemma ExpansionEdge(s: Run, r: Run, f: nat, n: Node, e: Edge)
    requires Expansion(s, r, f, n) && InRange(s.nodes, s.edges) && e in r.edges
    ensures e.from < |r.nodes| && e.to < |r.nodes|
    ensures e in s.edges || (e.from == f && |s.nodes| <= e.to && e.condition.OnSuccess?)
            || (|s.nodes| <= e.from && e.condition == ChildCondition(s.nodes[f].def)
                && exists d :: d in s.edges && d.from == f && d.to == e.to)
  {
    if e !in s.edges && Ends(Downstream(s.edges, f), e.to) {
      var d :| d in Downstream(s.edges, f) && d.to == e.to;
      DownstreamEdges(s.edges, f, d);
    }
  }

  lemma ExpansionKeepsDependencies(s: Run, r: Run, f: nat, n: Node)
    requires Expansion(s, r, f, n) && InRange(s.nodes, s.edges) && DependencySafe(s.nodes, s.edges)
    ensures InRange(Put(r, f, n).nodes, r.edges) && DependencySafe(Put(r, f, n).nodes, r.edges)
  {
    var nodes := Put(r, f, n).nodes;
    forall e | e in r.edges ensures e.from < |nodes| && e.to < |nodes| {
      ExpansionEdge(s, r, f, n, e);
    }
    forall e | e in r.edges && HasStarted(nodes[e.to].status)
      ensures Met(nodes, e)
    {
      ExpansionEdge(s, r, f, n, e);
      ExpansionNode(s, r, f, n, e.to);
      ExpansionNode(s, r, f, n, e.from);
      assert e in s.edges && Met(s.nodes, e);
    }
  }

  lemma ExpansionKeepsWaysOut(s: Run, r: Run, f: nat, n: Node)
    requires Expansion(s, r, f, n) && InRange(s.nodes, s.edges) && TolerantWaysOut(s.nodes, s.edges)
    requires InRange(Put(r, f, n).nodes, r.edges)
    ensures TolerantWaysOut(Put(r, f, n).nodes, r.edges)
  {
    var nodes := Put(r, f, n).nodes;
    forall e | e in r.edges && nodes[e.from].def.tolerant && nodes[e.from].def.kind.Work?
      ensures e.condition.OnFinish?
    {
      ExpansionEdge(s, r, f, n, e);
      ExpansionNode(s, r, f, n, e.from);
    }
  }

  lemma ExpansionKeepsChildren(s: Run, r: Run, f: nat, n: Node)
    requires Expansion(s, r, f, n) && InRange(s.nodes, s.edges) && ChildrenWired(s.nodes, s.edges)
    requires InRange(Put(r, f, n).nodes, r.edges)
    ensures ChildrenWired(Put(r, f, n).nodes, r.edges)
  {
    var nodes := Put(r, f, n).nodes;
    forall c: nat | c < |nodes| && nodes[c].parent.Some?
      ensures nodes[c].parent.value < |nodes| && ChildWired(nodes, r.edges, c, nodes[c].parent.value)
    {
      ExpansionNode(s, r, f, n, c);
      if c < |s.nodes| {
        OldChildStaysWired(s, r, f, n, c);
      } else {
        NewChildIsWired(s, r, f, n, c);
      }
    }
  }

  lemma OldChildStaysWired(s: Run, r: Run, f: nat, n: Node, c: nat)
    requires Expansion(s, r, f, n) && InRange(s.nodes, s.edges) && ChildrenWired(s.nodes, s.edges)
    requires InRange(Put(r, f, n).nodes, r.edges)
    requires c < |s.nodes| && s.nodes[c].parent.Some?
    ensures s.nodes[c].parent.value < |s.nodes|
    ensures ChildWired(Put(r, f, n).nodes, r.edges, c, s.nodes[c].parent.value)
  {
    var nodes := Put(r, f, n).nodes;
    var p := s.nodes[c].parent.value;
    assert ChildWired(s.nodes, s.edges, c, p);
    assert p != f;
    ExpansionNode(s, r, f, n, c);
    ExpansionNode(s, r, f, n, p);
    forall e | e in r.edges && e.from == p && nodes[e.to].parent != Some(p)
      ensures Edge(c, e.to, if nodes[c].def.tolerant then OnFinish else OnSuccess) in r.edges
    {
      ExpansionEdge(s, r, f, n, e);
      ExpansionNode(s, r, f, n, e.to);
    }
  }

  lemma NewChildIsWired(s: Run, r: Run, f: nat, n: Node, c: nat)
    requires Expansion(s, r, f, n) && InRange(s.nodes, s.edges)
    requires InRange(Put(r, f, n).nodes, r.edges)
    requires |s.nodes| <= c < |r.nodes|
    ensures ChildWired(Put(r, f, n).nodes, r.edges, c, f)
  {
    var nodes := Put(r, f, n).nodes;
    ExpansionNode(s, r, f, n, c);
    ExpansionNode(s, r, f, n, f);
    forall e | e in r.edges && e.from == f && nodes[e.to].parent != Some(f)
      ensures Edge(c, e.to, if nodes[c].def.tolerant then OnFinish else OnSuccess) in r.edges
    {
      ExpansionEdge(s, r, f, n, e);
      ExpansionNode(s, r, f, n, e.to);
      DownstreamEdges(s.edges, f, e);
    }
  }

  lemma ExpansionKeepsSound(s: Run, r: Run, f: nat, n: Node)
    requires Sound(s) && Expansion(s, r, f, n)
    ensures Sound(Put(r, f, n))
  {
    var t := Put(r, f, n);
    ExpansionKeepsDependencies(s, r, f, n);
    ExpansionKeepsWaysOut(s, r, f, n);
    ExpansionKeepsChildren(s, r, f, n);
    hide ChildrenWired, DependencySafe, TolerantWaysOut, Ready, Downstream;
    forall m | m in t.nodes
      ensures m in s.nodes || m == n || IsChildOf(m, s.nodes[f].def, f)
    {
      var i :| 0 <= i < |t.nodes| && t.nodes[i] == m;
      ExpansionNode(s, r, f, n, i);
    }
    forall i | 0 <= i < |t.nodes| ensures t.nodes[i].def == r.nodes[i].def {
      ExpansionNode(s, r, f, n, i);
      assert r.nodes[f] == r.nodes[..|s.nodes|][f];
    }
    if s.status.AwaitingInput? {
      var g: nat :| g < |s.nodes| && s.nodes[g].def.kind.Gate? && s.nodes[g].status.Waiting?;
      ExpansionNode(s, r, f, n, g);
      assert t.nodes[g].status.Waiting?;
    }
  }

  lemma ExpandKeepsSound(s: Run, f: nat, c: Choice)
    requires Sound(s) && Startable(s, f) && s.nodes[f].def.kind.FanOut?
    ensures Sound(Expand(s, f, c))
  {
    var down := Downstream(s.edges, f);
    var n := s.nodes[f];
    if c.items.None? {
      PutKeepsSound(s, f, n.(status := Failed, reason := ItemsNotAList));
    } else if c.failAt.Some? && c.failAt.value < c.items.value {
      AddChildrenGrow(s, f, down, c.failAt.value);
      ExpansionKeepsSound(s, AddChildren(s, f, down, c.failAt.value), f, n.(status := Failed, reason := StartError));
    } else {
      AddChildrenGrow(s, f, down, c.items.value);
      var r := AddChildren(s, f, down, c.items.value);
      var ids := ChildIds(r.nodes, n.def.key, c.items.value);
      ExpansionKeepsSound(s, r, f, n.(status := Succeeded, output := Children(ids)));
    }
  }

  // ---- The other moves ----------------------------------------------------------------------

  lemma StartKeepsSound(s: Run, i: nat, c: Choice)
    requires Sound(s) && Startable(s, i)
    ensures Sound(StartNode(s, i, c))
  {
    var n := s.nodes[i];
    var t := StartNode(s, i, c);
    if !c.fails && n.def.kind.FanOut? {
      ExpandKeepsSound(s, i, c);
    } else {
      assert t.nodes == s.nodes[i := t.nodes[i]] && t.edges == s.edges;
      PutKeepsSound(s, i, t.nodes[i]);
      if t.nodes[i].status.Waiting? {
        assert t.nodes[i].def.kind.Gate?;
      }
    }
  }

  lemma CancelKeepsChildren(s: Run)
    requires InRange(s.nodes, s.edges) && ChildrenWired(s.nodes, s.edges)
    ensures InRange(Cancel(s).nodes, s.edges) && ChildrenWired(Cancel(s).nodes, s.edges)
  {
    var t := Cancel(s);
    forall c: nat | c < |t.nodes| && t.nodes[c].parent.Some?
      ensures t.nodes[c].parent.value < |t.nodes| && ChildWired(t.nodes, s.edges, c, t.nodes[c].parent.value)
    {
      assert ChildWired(s.nodes, s.edges, c, s.nodes[c].parent.value);
    }
  }

  lemma CancelKeepsDependencies(s: Run)
    requires InRange(s.nodes, s.edges) && DependencySafe(s.nodes, s.edges)
    ensures DependencySafe(Cancel(s).nodes, s.edges)
  {
    var t := Cancel(s);
    forall e | e in s.edges && HasStarted(t.nodes[e.to].status) ensures Met(t.nodes, e) {
      assert Met(s.nodes, e);
    }
  }

  lemma CancelKeepsSound(s: Run)
    requires Sound(s)
    ensures Sound(Cancel(s))
  {
    CancelKeepsChildren(s);
    CancelKeepsDependencies(s);
    CancelKeepsKinds(s);
    hide ChildrenWired, DependencySafe, KindsFit, GateWaits;
    if !RunOver(s.status) {
      var t := Cancel(s);
      assert forall i | 0 <= i < |s.nodes| :: t.nodes[i].def == s.nodes[i].def;
    }
  }

  lemma CancelKeepsKinds(s: Run)
    requires KindsFit(s.nodes)
    ensures KindsFit(Cancel(s).nodes)
  {
    var t := Cancel(s);
    hide RunOver;
    forall n | n in t.nodes
      ensures exists m :: m in s.nodes && m.def == n.def && (m.status == n.status || n.status.NodeCanceled?)
    {
      var i :| 0 <= i < |t.nodes| && t.nodes[i] == n;
      assert s.nodes[i] in s.nodes;
    }
  }

  lemma NoteKeepsSound(s: Run, key: string, text: string)
    requires Sound(s)
    ensures Sound(AddNote(s, key, text))
  {
    var i := FindKey(s.nodes, key);
    if AddNote(s, key, text) != s {
      var n := s.nodes[i.value];
      PutKeepsSound(s, i.value, n.(input := n.input.(notes := n.input.notes + [text])));
    }
  }

  lemma AnswerKeepsSound(s: Run, key: string, answer: string)
    requires Sound(s)
    ensures Sound(Answer(s, key, answer))
  {
    var i := FindKey(s.nodes, key);
    if i.Some? && Answerable(s, i.value) {
      var n := s.nodes[i.value];
      var s1 := s.(status := if s.status.AwaitingInput? then Active else s.status);
      PutKeepsSound(s1, i.value, n.(status := Succeeded, output := Answered(answer, n.input.notes, false)));
    }
  }

  lemma MoveKeepsSound(s: Run, m: Move)
    requires Sound(s) && CanMove(s, m)
    ensures Sound(Moved(s, m))
  {
    match m
    case SyncMove(i) => SyncKeepsSound(s, i);
    case StartMove(i, c) => StartKeepsSound(s, i, c);
    case CloseMove =>
    case CommandMove(op) =>
      match op {
        case DoAnswer(key, answer) => AnswerKeepsSound(s, key, answer);
        case DoNote(key, text) => NoteKeepsSound(s, key, text);
        case DoCancel => CancelKeepsSound(s);
        case _ =>
      }
  }

  lemma {:induction false} PlayKeepsSound(s: Run, moves: seq<Move>)
    requires Sound(s) && Playable(s, moves)
    ensures Sound(Play(s, moves))
    decreases |moves|
  {
    if moves != [] {
      MoveKeepsSound(s, moves[0]);
      PlayKeepsSound(Moved(s, moves[0]), moves[1..]);
    }
  }
}
