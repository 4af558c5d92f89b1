/** A run in which a node is handed another node's work: the keys `plan` and `plan:1` clash once `plan` starts over. */
module WorkflowClash {
  import opened Basics
  import opened Graph
  import opened Definitions
  import opened WorkflowModel
  import opened WorkflowSafety
  import opened WorkflowRuns
  import opened WorkflowKeys

  const PLAN := NodeDef("plan", Work, [], false, false, None, false, "")
  const OTHER := NodeDef("plan:1", Work, [], false, false, None, false, "")
  const CHECK := NodeDef("check", Work, ["plan"], false, false, Some("plan"), false, "")
  const DEF := [PLAN, OTHER, CHECK]
  const EDGES := [Edge(0, 2, OnSuccess)]

  const PLAN_WORK := IdemKey("r", "plan", 0)
  const OTHER_WORK := IdemKey("r", "plan:1", 0)
  const CHECK_WORK := IdemKey("r", "check", 0)

  const LIVE := Item(Live, "", false)
  const DONE := Item(ItemSucceeded, "", false)
  const BACK := Item(ItemSucceeded, "", true)

  const WELL := Choice(false, false, None, None, None)

  function Fresh(def: NodeDef): Node {
    NewNode(def)
  }

  function Queued(def: NodeDef, work: string): Node {
    NewNode(def).(status := Enqueued, work := Some(work))
  }

  function Finished(def: NodeDef, work: string): Node {
    NewNode(def).(status := Succeeded, work := Some(work), output := Produced("", false))
  }

  function State(plan: Node, other: Node, check: Node, round: nat, items: map<string, Item>): Run {
    Run("r", [plan, other, check], EDGES, Active, round, None, items)
  }

  const ITEMS_1 := map[PLAN_WORK := LIVE, OTHER_WORK := LIVE]
  const ITEMS_2 := map[PLAN_WORK := DONE, OTHER_WORK := LIVE]
  const ITEMS_3 := map[PLAN_WORK := DONE, OTHER_WORK := LIVE, CHECK_WORK := LIVE]
  const ITEMS_4 := map[PLAN_WORK := DONE, OTHER_WORK := LIVE, CHECK_WORK := BACK]

  const START := State(Fresh(PLAN), Fresh(OTHER), Fresh(CHECK), 0, map[])
  const QUEUED := State(Queued(PLAN, PLAN_WORK), Queued(OTHER, OTHER_WORK), Fresh(CHECK), 0, ITEMS_1)
  const CHECKED := State(Finished(PLAN, PLAN_WORK), Queued(OTHER, OTHER_WORK), Queued(CHECK, CHECK_WORK), 0, ITEMS_3)
  const REWOUND := State(Fresh(PLAN), Queued(OTHER, OTHER_WORK), Fresh(CHECK), 1, ITEMS_4)
  const HANDED := State(Queued(PLAN, OTHER_WORK), Queued(OTHER, OTHER_WORK), Fresh(CHECK), 1, ITEMS_4)

  lemma KeysDiffer()
    ensures PLAN_WORK != OTHER_WORK && PLAN_WORK != CHECK_WORK && OTHER_WORK != CHECK_WORK
    ensures IdemKey("r", "plan", 1) == OTHER_WORK
    ensures forall k :: k in [PLAN_WORK, OTHER_WORK, CHECK_WORK] ==> IdemPrefix("r") <= k
  {
    KeysAgreeExactly("r", "plan", 0, "plan:1", 0);
    KeysAgreeExactly("r", "plan", 0, "check", 0);
    KeysAgreeExactly("r", "plan:1", 0, "check", 0);
    KeysWithColonsCanClash("r");
    assert "plan" != "plan:1" && "plan" != "check" && "plan:1" != "check" by {
      assert |"plan"| == 4 && |"plan:1"| == 6 && |"check"| == 5;
    }
    hide Dec;
  }

  lemma DefinitionIsAccepted()
    ensures WellFormed(DEF)
  {
    assert |"plan"| == 4 && |"plan:1"| == 6 && |"check"| == 5;
    var arcs := DependencyArcs(DEF);
    assert DEF[0].key == "plan" && HasKey(DEF, "plan");
    assert "plan" in DEF[2].dependsOn && ("plan", "check") in arcs;
    ReachesSelf(arcs, "plan");
    assert Before(DEF, "plan", "check");
    hide Reaches;
  }

  lemma FirstState()
    requires WellFormed(DEF)
    ensures Initial(DEF, "r", map[]) == START
  {
    assert |"plan"| == 4 && |"plan:1"| == 6 && |"check"| == 5;
    assert DEF[2].dependsOn[0] == "plan" && DEF[0].key == "plan" && !DEF[0].tolerant;
    assert IndexOf(DEF, "plan") == 0;
    assert !IsTolerant(DEF, "plan");
    hide IndexOf, IsTolerant, WellFormed;
    assert DependencyEdge(DEF, "plan", 2) == Edge(0, 2, OnSuccess);
    assert NodeEdges(DEF, 2, 0) == [] && NodeEdges(DEF, 2, 1) == EDGES;
    assert DefinitionEdges(DEF, 0) == [] && DefinitionEdges(DEF, 1) == [] && DefinitionEdges(DEF, 2) == [];
    assert DefinitionEdges(DEF, 3) == EDGES;
    assert Initial(DEF, "r", map[]).nodes == START.nodes;
  }

  // ---- One pass over the three rows ---------------------------------------------------------

  const ROWS: seq<nat> := [0, 1, 2]

  ghost function SyncIf(s: Run, i: nat): Run {
    if i < |s.nodes| && s.nodes[i].status.Enqueued? then SyncNode(s, i) else s
  }

  ghost function StartIf(s: Run, i: nat): Run {
    if Startable(s, i) then StartNode(s, i, WELL) else s
  }

  ghost predicate Asks(s: Run, i: nat) {
    i < |s.nodes| && s.nodes[i].status.Enqueued? && AsksRewind(s, i)
  }

  lemma SyncThree(s: Run)
    requires !Asks(s, 0) && !Asks(SyncIf(s, 0), 1)
    ensures SyncAll(s, ROWS) == SyncIf(SyncIf(SyncIf(s, 0), 1), 2)
  {
    hide SyncNode, AsksRewind;
    var a := SyncIf(s, 0);
    var b := SyncIf(a, 1);
    assert ROWS[1..] == [1, 2] && [1, 2][1..] == [2] && [2][1..] == [];
    assert SyncAll(b, [2]) == SyncIf(b, 2);
    assert SyncAll(a, [1, 2]) == SyncAll(b, [2]);
  }

  lemma StartThree(s: Run)
    ensures StartAll(s, ROWS, i => WELL) == StartIf(StartIf(StartIf(s, 0), 1), 2)
  {
    hide StartNode, Ready;
    var a := StartIf(s, 0);
    var b := StartIf(a, 1);
    assert ROWS[1..] == [1, 2] && [1, 2][1..] == [2] && [2][1..] == [];
    assert StartAll(b, [2], i => WELL) == StartIf(b, 2);
    assert StartAll(a, [1, 2], i => WELL) == StartAll(b, [2], i => WELL);
  }

  lemma Closes(s: Run, t: Run)
    requires s.status.Active? && !SyncThreeAsks(s)
    requires var s1 := SyncIf(SyncIf(SyncIf(s, 0), 1), 2);
             s1.status.Active? && t == StartIf(StartIf(StartIf(s1, 0), 1), 2)
    requires |t.nodes| == 3 && !AnyFailed(t.nodes) && !IsDone(t.nodes[1].status)
    ensures Tick(s, ROWS, ROWS, i => WELL) == t
  {
    SyncThree(s);
    StartThree(SyncAll(s, ROWS));
    hide SyncAll, StartAll, SyncIf, StartIf;
  }

  ghost predicate SyncThreeAsks(s: Run) {
    Asks(s, 0) || Asks(SyncIf(s, 0), 1)
  }

  // ---- The run ------------------------------------------------------------------------------

  lemma ReadyAre(s: Run)
    requires s.edges == EDGES && |s.nodes| == 3
    ensures Ready(s.nodes, s.edges, 0) && Ready(s.nodes, s.edges, 1)
    ensures Ready(s.nodes, s.edges, 2) <==> s.nodes[0].status.Succeeded?
  {
    assert EDGES[0] in EDGES;
  }

  lemma FirstTick()
    ensures Tick(START, ROWS, ROWS, i => WELL) == QUEUED
  {
    KeysDiffer();
    var a := StartIf(START, 0);
    var b := StartIf(a, 1);
    ReadyAre(START);
    ReadyAre(a);
    ReadyAre(b);
    hide Ready, IdemKey;
    assert a == State(Queued(PLAN, PLAN_WORK), Fresh(OTHER), Fresh(CHECK), 0, map[PLAN_WORK := LIVE]);
    assert b == QUEUED;
    Closes(START, QUEUED);
  }

  lemma SecondTick()
    ensures Tick(QUEUED.(items := ITEMS_2), ROWS, ROWS, i => WELL) == CHECKED
  {
    KeysDiffer();
    var s := QUEUED.(items := ITEMS_2);
    hide Ready, IdemKey, Rewind;
    var s1 := SyncIf(s, 0);
    assert s1 == State(Finished(PLAN, PLAN_WORK), Queued(OTHER, OTHER_WORK), Fresh(CHECK), 0, ITEMS_2);
    assert SyncIf(s1, 1) == s1 && SyncIf(s1, 2) == s1;
    ReadyAre(s1);
    assert StartIf(s1, 2) == CHECKED;
    Closes(s, CHECKED);
  }

  lemma RewindsToPlan(s: Run)
    requires var check := Finished(CHECK, CHECK_WORK).(output := Produced("", true));
             s == CHECKED.(items := ITEMS_4, nodes := CHECKED.nodes[2 := check])
    ensures Rewind(s, 2) == REWOUND
  {
    assert |"plan"| == 4 && |"plan:1"| == 6 && |"check"| == 5;
    FindKeyIsUnique(s.nodes, 0);
    ConeOfPlan(s.nodes);
    hide From, FindKey;
    assert RewindCone(s, 2) == {0, 2};
    assert RewindRefusal(s, 2) == NoReason;
    assert ResetNodes(s.nodes, {0, 2}) == REWOUND.nodes;
    hide RewindCone, RewindRefusal, ResetNodes;
    assert !GateWaits(REWOUND.nodes);
  }

  lemma ConeOfPlan(nodes: seq<Node>)
    requires |nodes| == 3
    ensures From(nodes, EDGES, 0) == {0, 2}
  {
    var arcs := Arcs(EDGES);
    assert EDGES[0] in EDGES && (0, 2) in arcs;
    ReachesSelf(arcs, 0);
    ReachesStep(arcs, 0, 0, 2);
    if Reaches(arcs, 0, 1) {
      ClosedHoldsAfter(arcs, {0, 2}, 0, 1);
    }
    hide Reaches;
  }

  lemma ThirdTick()
    ensures Tick(CHECKED.(items := ITEMS_4), ROWS, ROWS, i => WELL) == HANDED
  {
    KeysDiffer();
    var s := CHECKED.(items := ITEMS_4);
    hide Ready, IdemKey, Rewind;
    assert SyncIf(s, 0) == s && SyncIf(s, 1) == s;
    RewindsToPlan(s.(nodes := s.nodes[2 := Settled(s.nodes[2], BACK)]));
    assert SyncIf(s, 2) == REWOUND;
    ReadyAre(REWOUND);
    assert StartIf(REWOUND, 0) == HANDED;
    ReadyAre(HANDED);
    Closes(s, HANDED);
  }

  /** Three ticks, with the work of `plan` and then of `check` done in between. */
  const RUN: seq<Op> := [DoTick(ROWS, ROWS, i => WELL), DoWork(ITEMS_2), DoTick(ROWS, ROWS, i => WELL), DoWork(ITEMS_4),
                         DoTick(ROWS, ROWS, i => WELL)]

  lemma OneMore(s: Run, k: nat, t: Run)
    requires k < |RUN| && History(s, RUN[..k]) && Possible(Exec(s, RUN[..k]), RUN[k])
    requires Apply(Exec(s, RUN[..k]), RUN[k]) == t
    ensures History(s, RUN[..k + 1]) && Exec(s, RUN[..k + 1]) == t
  {
    assert RUN[..k + 1][..k] == RUN[..k];
    hide Apply, Possible;
  }

  lemma WorkMovesOn(s: Run, items: map<string, Item>)
    requires (s == QUEUED && items == ITEMS_2) || (s == CHECKED && items == ITEMS_4)
    ensures Possible(s, DoWork(items)) && Apply(s, DoWork(items)) == s.(items := items)
  {
    KeysDiffer();
  }

  lemma TickMovesOn(s: Run)
    requires |s.nodes| == 3
    ensures var op := DoTick(ROWS, ROWS, i => WELL); Possible(s, op) && Apply(s, op) == Tick(s, ROWS, ROWS, i => WELL)
  {
    assert ROWS[0] == 0 && ROWS[1] == 1 && ROWS[2] == 2;
    hide Tick;
  }

  lemma RunBegins()
    ensures History(START, RUN[..2]) && Exec(START, RUN[..2]) == QUEUED.(items := ITEMS_2)
  {
    FirstTick();
    TickMovesOn(START);
    WorkMovesOn(QUEUED, ITEMS_2);
    hide Apply, Possible, Tick, ITEMS_2, START, QUEUED, ROWS, WELL;
    assert RUN[..0] == [];
    OneMore(START, 0, QUEUED);
    OneMore(START, 1, QUEUED.(items := ITEMS_2));
  }

  lemma RunContinues()
    ensures History(START, RUN[..3]) && Exec(START, RUN[..3]) == CHECKED
  {
    SecondTick();
    TickMovesOn(QUEUED.(items := ITEMS_2));
    hide Apply, Possible, Tick, ITEMS_2, START, QUEUED, CHECKED, ROWS, WELL, Exec, History;
    RunBegins();
    OneMore(START, 2, CHECKED);
  }

  lemma RunGoesOn()
    ensures History(START, RUN) && Exec(START, RUN) == HANDED
  {
    ThirdTick();
    WorkMovesOn(CHECKED, ITEMS_4);
    TickMovesOn(CHECKED.(items := ITEMS_4));
    hide Apply, Possible, Tick, ITEMS_4, START, CHECKED, HANDED, ROWS, WELL, Exec, History;
    RunContinues();
    assert RUN[..5] == RUN;
    OneMore(START, 3, CHECKED.(items := ITEMS_4));
    OneMore(START, 4, HANDED);
  }

  ghost predicate SharesWork(s: Run) {
    && |s.nodes| == 3 && s.nodes[0].def.key == "plan" && s.nodes[1].def.key == "plan:1"
    && s.nodes[0].status.Enqueued? && s.nodes[1].status.Enqueued?
    && s.nodes[0].work.Some? && s.nodes[0].work == s.nodes[1].work
  }

  lemma HandedSharesWork()
    ensures SharesWork(HANDED)
  {
    hide IdemKey;
  }

  /** The definition is accepted, and a history of its run hands `plan` the live work of `plan:1`. */
  lemma WorkIsHandedOver()
    ensures WellFormed(DEF) && FreshId("r", map[])
    ensures History(Initial(DEF, "r", map[]), RUN) && SharesWork(Exec(Initial(DEF, "r", map[]), RUN))
  {
    DefinitionIsAccepted();
    FirstState();
    HandedSharesWork();
    assert KnownDependencies(DEF);
    hide RUN, DEF, Exec, History, WellFormed, Initial, IdemKey, SharesWork, START, HANDED;
    RunGoesOn();
  }
}
