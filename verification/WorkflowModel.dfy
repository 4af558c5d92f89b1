/**
 A workflow run as a value, and what each engine operation makes of it.

 A node's id is its place in creation order, so fan-out only ever appends. A work item is
 identified by its idempotency key. What the engine cannot know (rendered templates, the truth of
 a `skip_when`, the items of a fan-out, a worker's result, the order in which rows come back) is a
 parameter of the operation that meets it.
 */
module WorkflowModel {
  import opened Basics
  import opened Graph
  import opened Definitions

  const REWIND_ROUNDS_MAX: nat := 20

  datatype NodeStatus = Pending | Enqueued | Waiting | Succeeded | Failed | Tolerated | NodeCanceled

  datatype RunStatus = Active | AwaitingInput | Paused | Completed | RunFailed | RunCanceled

  datatype Condition = OnSuccess | OnFinish

  datatype Edge = Edge(from: nat, to: nat, condition: Condition)

  /** `Live` stands for every work-item status that is not final. */
  datatype ItemStatus = Live | ItemSucceeded | DeadLetter | ItemCanceled

  /** A work item: its status and what its latest attempt produced, with the truth of its `rewind` entry. */
  datatype Item = Item(status: ItemStatus, text: string, rewind: bool)

  datatype Output =
    | NoOutput
    | Produced(text: string, rewind: bool)
    | ToleratedFailure
    | Skipped
    | Children(ids: seq<nat>)
    | Joined(dependencies: map<string, Output>)
    | Answered(answer: string, notes: seq<string>, skipped: bool)

  datatype Input = Input(index: Option<nat>, card: Option<string>, notes: seq<string>)

  const NoInput := Input(None, None, [])

  datatype Reason =
    | NoReason | StartError | ItemsNotAList | UnknownKind
    | WorkDeadLetter | WorkCanceled | RunWasCanceled
    | NotBefore | AcrossFanOut | TooManyRounds

  datatype Node = Node(
    def: NodeDef, status: NodeStatus, input: Input, output: Output,
    work: Option<string>, parent: Option<nat>, reason: Reason)

  datatype Run = Run(
    id: string, nodes: seq<Node>, edges: seq<Edge>, status: RunStatus, round: nat,
    outputs: Option<map<string, Output>>, items: map<string, Item>)

  // ---- Reading a run ------------------------------------------------------------------------

  predicate IsDone(status: NodeStatus) {
    status.Succeeded? || status.Tolerated?
  }

  predicate IsTerminal(status: NodeStatus) {
    IsDone(status) || status.Failed? || status.NodeCanceled?
  }

  predicate RunOver(status: RunStatus) {
    status.Completed? || status.RunFailed? || status.RunCanceled?
  }

  predicate Ticking(status: RunStatus) {
    status.Active? || status.AwaitingInput?
  }

  /** `from` and `to` name nodes of the run. */
  predicate InRange(nodes: seq<Node>, edges: seq<Edge>) {
    forall e :: e in edges ==> e.from < |nodes| && e.to < |nodes|
  }

  predicate Met(nodes: seq<Node>, e: Edge)
    requires e.from < |nodes|
  {
    if e.condition.OnFinish? then IsDone(nodes[e.from].status) else nodes[e.from].status.Succeeded?
  }

  /** `_dependencies_satisfied`. */
  predicate Ready(nodes: seq<Node>, edges: seq<Edge>, i: nat) {
    forall e :: e in edges && e.to == i ==> e.from < |nodes| && Met(nodes, e)
  }

  predicate GateWaits(nodes: seq<Node>) {
    exists i | 0 <= i < |nodes| :: nodes[i].def.kind.Gate? && nodes[i].status.Waiting?
  }

  function FindKey(nodes: seq<Node>, key: string): (found: Option<nat>)
    ensures found.Some? ==> found.value < |nodes| && nodes[found.value].def.key == key
    ensures found.None? ==> forall n :: n in nodes ==> n.def.key != key
  {
    if nodes == [] then None
    else if nodes[|nodes| - 1].def.key == key then Some(|nodes| - 1)
    else FindKey(nodes[..|nodes| - 1], key)
  }

  ghost function Arcs(edges: seq<Edge>): set<(nat, nat)> {
    set e | e in edges :: (e.from, e.to)
  }

  /** `_from`: a node and every node after it. */
  ghost function From(nodes: seq<Node>, edges: seq<Edge>, start: nat): set<nat> {
    set v: nat | 0 <= v < |nodes| && Reaches(Arcs(edges), start, v)
  }

  /** The idempotency key a node's work is created under: later rounds carry their number. */
  function IdemKey(run: string, key: string, round: nat): string {
    "workflow:" + run + ":" + key + if round > 0 then ":" + Dec(round) else ""
  }

  // ---- Starting a run -----------------------------------------------------------------------

  function IndexOf(def: seq<NodeDef>, key: string): (i: nat)
    requires HasKey(def, key)
    ensures i < |def| && def[i].key == key
  {
    if def[|def| - 1].key == key then |def| - 1
    else
      assert HasKey(def[..|def| - 1], key) by {
        var j :| 0 <= j < |def| && def[j].key == key;
        assert def[..|def| - 1][j].key == key;
      }
      IndexOf(def[..|def| - 1], key)
  }

  function NewNode(n: NodeDef): Node {
    Node(n, Pending, NoInput, NoOutput, None, None, NoReason)
  }

  predicate IsTolerant(def: seq<NodeDef>, key: string) {
    exists n :: n in def && n.key == key && n.tolerant
  }

  function DependencyEdge(def: seq<NodeDef>, dependency: string, to: nat): Edge
    requires HasKey(def, dependency)
  {
    Edge(IndexOf(def, dependency), to, if IsTolerant(def, dependency) then OnFinish else OnSuccess)
  }

  /** The edges of the first `m` dependencies of node `i`. */
  function NodeEdges(def: seq<NodeDef>, i: nat, m: nat): seq<Edge>
    requires i < |def| && m <= |def[i].dependsOn|
    requires forall d :: d in def[i].dependsOn ==> HasKey(def, d)
  {
    if m == 0 then [] else NodeEdges(def, i, m - 1) + [DependencyEdge(def, def[i].dependsOn[m - 1], i)]
  }

  /** The edges into the first `n` nodes. */
  ghost function DefinitionEdges(def: seq<NodeDef>, n: nat): seq<Edge>
    requires n <= |def| && KnownDependencies(def)
  {
    if n == 0 then [] else DefinitionEdges(def, n - 1) + NodeEdges(def, n - 1, |def[n - 1].dependsOn|)
  }

  /** `start_run` with `_materialize`. */
  ghost function Initial(def: seq<NodeDef>, id: string, items: map<string, Item>): Run
    requires KnownDependencies(def)
  {
    Run(id, seq(|def|, i requires 0 <= i < |def| => NewNode(def[i])), DefinitionEdges(def, |def|),
        Active, 0, None, items)
  }

  // ---- Folding finished work back (`_sync_enqueued_nodes`, `_rewind`) -----------------------

  function Settled(n: Node, item: Item): Node {
    match item.status
    case Live => n
    case ItemSucceeded => n.(status := Succeeded, output := Produced(item.text, item.rewind))
    case DeadLetter =>
      if n.def.tolerant then n.(status := Tolerated, output := ToleratedFailure, reason := WorkDeadLetter)
      else n.(status := Failed, reason := WorkDeadLetter)
    case ItemCanceled => n.(status := NodeCanceled, reason := WorkCanceled)
  }

  /** The node's finished work sends the run back. */
  predicate AsksRewind(s: Run, i: nat)
    requires i < |s.nodes|
  {
    var n := s.nodes[i];
    && n.work.Some? && n.work.value in s.items
    && s.items[n.work.value].status.ItemSucceeded?
    && n.def.rewindTo.Some? && s.items[n.work.value].rewind
  }

  ghost function RewindCone(s: Run, i: nat): set<nat>
    requires i < |s.nodes| && s.nodes[i].def.rewindTo.Some?
  {
    var target := FindKey(s.nodes, s.nodes[i].def.rewindTo.value);
    if target.Some? then From(s.nodes, s.edges, target.value) else {}
  }

  ghost function RewindRefusal(s: Run, i: nat): Reason
    requires i < |s.nodes| && s.nodes[i].def.rewindTo.Some?
  {
    var again := RewindCone(s, i);
    if i !in again then NotBefore
    else if exists k | 0 <= k < |s.nodes| :: k in again && s.nodes[k].parent.Some? then AcrossFanOut
    else if s.round + 1 > REWIND_ROUNDS_MAX then TooManyRounds
    else NoReason
  }

  function ResetNode(n: Node): Node {
    n.(status := Pending, input := NoInput, output := NoOutput, work := None, reason := NoReason)
  }

  ghost function ResetNodes(nodes: seq<Node>, again: set<nat>): seq<Node> {
    seq(|nodes|, k requires 0 <= k < |nodes| => if k in again then ResetNode(nodes[k]) else nodes[k])
  }

  function WaitingOrActive(nodes: seq<Node>): RunStatus {
    if GateWaits(nodes) then AwaitingInput else Active
  }

  ghost function Rewind(s: Run, i: nat): Run
    requires i < |s.nodes| && s.nodes[i].def.rewindTo.Some?
  {
    var refusal := RewindRefusal(s, i);
    if refusal != NoReason then s.(nodes := s.nodes[i := s.nodes[i].(status := Failed, reason := refusal)])
    else
      var nodes := ResetNodes(s.nodes, RewindCone(s, i));
      s.(nodes := nodes, round := s.round + 1, status := WaitingOrActive(nodes))
  }

  ghost function SyncNode(s: Run, i: nat): Run
    requires i < |s.nodes|
  {
    var n := s.nodes[i];
    if n.work.None? || n.work.value !in s.items then s
    else
      var s1 := s.(nodes := s.nodes[i := Settled(n, s.items[n.work.value])]);
      if AsksRewind(s, i) then Rewind(s1, i) else s1
  }

  /** One pass over the rows in `order`; a rewind, granted or refused, ends it. */
  ghost function SyncAll(s: Run, order: seq<nat>): Run
    decreases |order|
  {
    if order == [] then s
    else if order[0] < |s.nodes| && s.nodes[order[0]].status.Enqueued? then
      if AsksRewind(s, order[0]) then SyncNode(s, order[0]) else SyncAll(SyncNode(s, order[0]), order[1..])
    else SyncAll(s, order[1..])
  }

  // ---- Starting ready nodes (`_start_ready_nodes`) ------------------------------------------

  /**
   What starting one node meets outside the engine: an error before any effect, the truth of its
   `skip_when`, its fan-out items (None: not a list), a child that cannot be built, its gate card.
   */
  datatype Choice = Choice(fails: bool, skip: bool, items: Option<nat>, failAt: Option<nat>, card: Option<string>)

  function Put(s: Run, i: nat, n: Node): Run
    requires i < |s.nodes|
  {
    s.(nodes := s.nodes[i := n])
  }

  function Enqueue(s: Run, i: nat): Run
    requires i < |s.nodes|
  {
    var key := IdemKey(s.id, s.nodes[i].def.key, s.round);
    var items := if key in s.items then s.items else s.items[key := Item(Live, "", false)];
    s.(items := items, nodes := s.nodes[i := s.nodes[i].(work := Some(key), status := Enqueued)])
  }

  function Downstream(edges: seq<Edge>, f: nat): seq<Edge> {
    if edges == [] then []
    else
      var last := edges[|edges| - 1];
      Downstream(edges[..|edges| - 1], f) + if last.from == f then [last] else []
  }

  function ChildKey(key: string, k: nat): string {
    key + "." + Dec(k)
  }

  function ChildNode(parent: NodeDef, f: nat, k: nat): Node {
    Node(NodeDef(ChildKey(parent.key, k), Work, [], parent.tolerantChildren, false, None, false, ""),
         Pending, Input(Some(k), None, []), NoOutput, None, Some(f), NoReason)
  }

  function ChildEdges(f: nat, child: nat, down: seq<Edge>, tolerate: bool): seq<Edge> {
    [Edge(f, child, OnSuccess)]
    + seq(|down|, j requires 0 <= j < |down| => Edge(child, down[j].to, if tolerate then OnFinish else OnSuccess))
  }

  function AddChild(s: Run, f: nat, down: seq<Edge>, k: nat): Run
    requires f < |s.nodes|
  {
    var parent := s.nodes[f].def;
    if FindKey(s.nodes, ChildKey(parent.key, k)).Some? then s
    else s.(nodes := s.nodes + [ChildNode(parent, f, k)],
            edges := s.edges + ChildEdges(f, |s.nodes|, down, parent.tolerantChildren))
  }

  ghost function AddChildren(s: Run, f: nat, down: seq<Edge>, n: nat): (r: Run)
    requires f < |s.nodes|
    ensures |r.nodes| >= |s.nodes| && r.nodes[..|s.nodes|] == s.nodes
  {
    if n == 0 then s else AddChild(AddChildren(s, f, down, n - 1), f, down, n - 1)
  }

  function ChildIds(nodes: seq<Node>, key: string, n: nat): seq<nat> {
    seq(n, k requires 0 <= k < n =>
      var found := FindKey(nodes, ChildKey(key, k)); if found.Some? then found.value else 0)
  }

  ghost function Expand(s: Run, f: nat, c: Choice): Run
    requires f < |s.nodes|
  {
    var down := Downstream(s.edges, f);
    if c.items.None? then Put(s, f, s.nodes[f].(status := Failed, reason := ItemsNotAList))
    else if c.failAt.Some? && c.failAt.value < c.items.value then
      Put(AddChildren(s, f, down, c.failAt.value), f, s.nodes[f].(status := Failed, reason := StartError))
    else
      var r := AddChildren(s, f, down, c.items.value);
      var ids := ChildIds(r.nodes, s.nodes[f].def.key, c.items.value);
      Put(r, f, s.nodes[f].(status := Succeeded, output := Children(ids)))
  }

  /** The outputs a join collects, over the first `n` edges. */
  function JoinOutputs(nodes: seq<Node>, edges: seq<Edge>, i: nat, n: nat): map<string, Output>
    requires n <= |edges|
  {
    if n == 0 then map[]
    else
      var e := edges[n - 1];
      var sofar := JoinOutputs(nodes, edges, i, n - 1);
      if e.to == i && e.from < |nodes| then sofar[nodes[e.from].def.key := nodes[e.from].output] else sofar
  }

  ghost function StartNode(s: Run, i: nat, c: Choice): Run
    requires i < |s.nodes|
  {
    var n := s.nodes[i];
    if c.fails then Put(s, i, n.(status := Failed, reason := StartError))
    else match n.def.kind
      case Work =>
        if n.def.skips && c.skip then Put(s, i, n.(status := Succeeded, output := Skipped)) else Enqueue(s, i)
      case FanOut => Expand(s, i, c)
      case Join =>
        Put(s, i, n.(status := Succeeded, output := Joined(JoinOutputs(s.nodes, s.edges, i, |s.edges|))))
      case Gate =>
        if n.def.skips && c.skip then
          Put(s, i, n.(status := Succeeded, output := Answered(n.def.skipAnswer, [], true)))
        else
          var input := if c.card.Some? then n.input.(card := c.card) else n.input;
          Put(s, i, n.(status := Waiting, input := input)).(status := AwaitingInput)
      case OtherKind(_) => Put(s, i, n.(status := Failed, reason := UnknownKind))
  }

  ghost predicate Startable(s: Run, i: nat) {
    i < |s.nodes| && s.nodes[i].status.Pending? && Ready(s.nodes, s.edges, i)
  }

  /** One pass over the rows in `order`; a node an earlier one made ready starts in the same pass. */
  ghost function StartAll(s: Run, order: seq<nat>, choices: nat -> Choice): Run
    decreases |order|
  {
    if order == [] then s
    else if Startable(s, order[0]) then
      StartAll(StartNode(s, order[0], choices(order[0])), order[1..], choices)
    else StartAll(s, order[1..], choices)
  }

  // ---- Ticks and commands -------------------------------------------------------------------

  predicate AnyFailed(nodes: seq<Node>) {
    exists i | 0 <= i < |nodes| :: nodes[i].status.Failed?
  }

  predicate AllDone(nodes: seq<Node>) {
    forall i | 0 <= i < |nodes| :: IsDone(nodes[i].status)
  }

  function OutputsOf(nodes: seq<Node>): map<string, Output> {
    if nodes == [] then map[]
    else
      var last := nodes[|nodes| - 1];
      OutputsOf(nodes[..|nodes| - 1])[last.def.key := last.output]
  }

  function Finalize(s: Run): Run {
    if AnyFailed(s.nodes) then s.(status := RunFailed)
    else if AllDone(s.nodes) then s.(status := Completed, outputs := Some(OutputsOf(s.nodes)))
    else s
  }

  ghost function Advance(s: Run, syncOrder: seq<nat>, startOrder: seq<nat>, choices: nat -> Choice): Run {
    var s1 := SyncAll(s, syncOrder);
    if s1.status.Active? then StartAll(s1, startOrder, choices) else s1
  }

  /** `tick_runs`, for one run. */
  ghost function Tick(s: Run, syncOrder: seq<nat>, startOrder: seq<nat>, choices: nat -> Choice): Run {
    if Ticking(s.status) then Finalize(Advance(s, syncOrder, startOrder, choices)) else s
  }

  predicate Answerable(s: Run, i: nat) {
    i < |s.nodes| && s.nodes[i].def.kind.Gate? && s.nodes[i].status.Waiting? && !RunOver(s.status)
  }

  function Answer(s: Run, key: string, answer: string): Run {
    var i := FindKey(s.nodes, key);
    if i.None? || !Answerable(s, i.value) then s
    else
      var n := s.nodes[i.value];
      Put(s, i.value, n.(status := Succeeded, output := Answered(answer, n.input.notes, false)))
        .(status := if s.status.AwaitingInput? then Active else s.status)
  }

  predicate IsOpenGate(n: Node, key: string) {
    n.def.key == key && n.def.kind.Gate? && n.status.Waiting?
  }

  function AddNote(s: Run, key: string, text: string): Run {
    var i := FindKey(s.nodes, key);
    if i.None? || !s.nodes[i.value].def.kind.Gate? || !s.nodes[i.value].status.Waiting? then s
    else
      var n := s.nodes[i.value];
      Put(s, i.value, n.(input := n.input.(notes := n.input.notes + [text])))
  }

  function Pause(s: Run): Run {
    if RunOver(s.status) then s else s.(status := Paused)
  }

  function Resume(s: Run): Run {
    if s.status.Paused? then s.(status := WaitingOrActive(s.nodes)) else s
  }

  function CancelNode(n: Node): Node {
    if IsTerminal(n.status) then n else n.(status := NodeCanceled, reason := RunWasCanceled)
  }

  function Cancel(s: Run): Run {
    if RunOver(s.status) then s
    else s.(status := RunCanceled,
            nodes := seq(|s.nodes|, i requires 0 <= i < |s.nodes| => CancelNode(s.nodes[i])))
  }

  // ---- Whole runs ---------------------------------------------------------------------------

  datatype Op =
    | DoTick(syncOrder: seq<nat>, startOrder: seq<nat>, choices: nat -> Choice)
    | DoAnswer(key: string, answer: string)
    | DoNote(key: string, text: string)
    | DoPause
    | DoResume
    | DoCancel
    | DoWork(items: map<string, Item>)

  /** A query returns each row of the run. */
  ghost predicate Covers(order: seq<nat>, n: nat) {
    forall i: nat :: i < n <==> i in order
  }

  /** Workers and queues may do anything to work items but take a row away or use this run's keys. */
  ghost predicate WorkMoves(s: Run, items: map<string, Item>) {
    && s.items.Keys <= items.Keys
    && forall k :: k in items && k !in s.items ==> !(IdemPrefix(s.id) <= k)
  }

  function IdemPrefix(run: string): string {
    "workflow:" + run + ":"
  }

  ghost predicate Possible(s: Run, op: Op) {
    match op
    case DoTick(syncOrder, startOrder, _) => Covers(syncOrder, |s.nodes|) && Covers(startOrder, |s.nodes|)
    case DoWork(items) => WorkMoves(s, items)
    case _ => true
  }

  ghost function Apply(s: Run, op: Op): Run {
    match op
    case DoTick(syncOrder, startOrder, choices) => Tick(s, syncOrder, startOrder, choices)
    case DoAnswer(key, answer) => Answer(s, key, answer)
    case DoNote(key, text) => AddNote(s, key, text)
    case DoPause => Pause(s)
    case DoResume => Resume(s)
    case DoCancel => Cancel(s)
    case DoWork(items) => s.(items := items)
  }

  /** The state after a history of operations. */
  ghost function Exec(s: Run, ops: seq<Op>): Run {
    if ops == [] then s else Apply(Exec(s, ops[..|ops| - 1]), ops[|ops| - 1])
  }

  ghost predicate History(s: Run, ops: seq<Op>) {
    ops == [] || (History(s, ops[..|ops| - 1]) && Possible(Exec(s, ops[..|ops| - 1]), ops[|ops| - 1]))
  }

  /** A run of an accepted definition begins with no work of its own. */
  ghost predicate FreshId(id: string, items: map<string, Item>) {
    forall k :: k in items ==> !(IdemPrefix(id) <= k)
  }
}
