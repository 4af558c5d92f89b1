/** Why a run fails: with starts that go well and dead letters where they are tolerated, only for a refused rewind. */
module WorkflowCauses {
  import opened Basics
  import opened Definitions
  import opened WorkflowModel
  import opened WorkflowMoves
  import opened WorkflowSafety
  import opened WorkflowRuns
  import opened WorkflowProgress
  import opened WorkflowStarts
  import opened WorkflowCompletion

  predicate RefusedRewind(r: Reason) {
    r.NotBefore? || r.AcrossFanOut? || r.TooManyRounds?
  }

  /** The node starts well, and if it failed its rewind was refused. */
  ghost predicate Unharmed(n: Node, starts: Starts) {
    StartsWell(n.def, starts) && (n.status.Failed? ==> RefusedRewind(n.reason) && n.def.rewindTo.Some?)
  }

  ghost predicate AllUnharmed(s: Run, starts: Starts) {
    forall i: nat | i < |s.nodes| :: Unharmed(s.nodes[i], starts)
  }

  predicate HasDied(items: map<string, Item>, n: Node) {
    n.work.Some? && n.work.value in items && items[n.work.value].status.DeadLetter?
  }

  /** Every dead letter that is still to be folded in is on a node that tolerates it. */
  ghost predicate DeadLettersTolerated(s: Run) {
    forall n :: n in s.nodes && n.status.Enqueued? && HasDied(s.items, n) ==> n.def.tolerant
  }

  ghost predicate ToleratedThroughout(s: Run, ops: seq<Op>) {
    ops == [] || (ToleratedThroughout(s, ops[..|ops| - 1]) && DeadLettersTolerated(Exec(s, ops[..|ops| - 1])))
  }

  lemma SyncKeepsUnharmed(s: Run, i: nat, starts: Starts)
    requires AllUnharmed(s, starts) && DeadLettersTolerated(s) && i < |s.nodes| && s.nodes[i].status.Enqueued?
    ensures AllUnharmed(SyncNode(s, i), starts) && DeadLettersTolerated(SyncNode(s, i))
  {
    var t := SyncNode(s, i);
    SyncExtends(s, i);
    assert s.nodes[i] in s.nodes && Unharmed(s.nodes[i], starts);
    hide StartsWell, RewindCone, FindKey, GateWaits;
    forall k: nat | k < |t.nodes| ensures Unharmed(t.nodes[k], starts) {
      assert Unharmed(s.nodes[k], starts);
      assert k != i ==> t.nodes[k] == s.nodes[k] || t.nodes[k].status.Pending?;
    }
    forall n | n in t.nodes && n.status.Enqueued? ensures n in s.nodes {
      var k :| 0 <= k < |t.nodes| && t.nodes[k] == n;
      assert t.nodes[k] == s.nodes[k];
    }
  }

  lemma {:induction false} SyncAllKeepsUnharmed(s: Run, order: seq<nat>, starts: Starts)
    requires AllUnharmed(s, starts) && DeadLettersTolerated(s)
    ensures AllUnharmed(SyncAll(s, order), starts) && Extends(s, SyncAll(s, order))
    decreases |order|
  {
    hide AllUnharmed, DeadLettersTolerated, SyncNode, AsksRewind, Extends;
    ExtendsItself(s);
    if order != [] {
      var i := order[0];
      if i < |s.nodes| && s.nodes[i].status.Enqueued? {
        SyncKeepsUnharmed(s, i, starts);
        SyncExtends(s, i);
        if !AsksRewind(s, i) {
          SyncAllKeepsUnharmed(SyncNode(s, i), order[1..], starts);
          ExtendsThrough(s, SyncNode(s, i), SyncAll(s, order));
        }
      } else {
        SyncAllKeepsUnharmed(s, order[1..], starts);
      }
    }
  }

  lemma StartKeepsUnharmed(s: Run, i: nat, starts: Starts)
    requires AllUnharmed(s, starts) && i < |s.nodes| && s.nodes[i].status.Pending?
    ensures AllUnharmed(StartNode(s, i, starts(s.nodes[i].def.key)), starts)
  {
    var c := starts(s.nodes[i].def.key);
    var t := StartNode(s, i, c);
    assert Unharmed(s.nodes[i], starts);
    if s.nodes[i].def.kind.FanOut? {
      ExpandedWell(s, i, starts);
      hide StartsWell, Expand;
      forall k: nat | k < |t.nodes| ensures Unharmed(t.nodes[k], starts) {
        if k < |s.nodes| {
          assert t.nodes[k] == t.nodes[..|s.nodes|][k] && Unharmed(s.nodes[k], starts);
        } else {
          assert CleanNode(t.nodes[k], starts);
        }
      }
    } else {
      hide JoinOutputs, IdemKey, ChildKey;
      assert t.nodes == s.nodes[i := t.nodes[i]] && !t.nodes[i].status.Failed?;
      hide StartsWell, StartNode;
      forall k: nat | k < |t.nodes| ensures Unharmed(t.nodes[k], starts) {
        assert Unharmed(s.nodes[k], starts);
      }
    }
  }

  lemma {:induction false} StartAllKeepsUnharmed(s: Run, order: seq<nat>, n: nat, choices: nat -> Choice,
                                                starts: Starts)
    requires AllUnharmed(s, starts) && Ticking(s.status)
    requires Obeys(s.nodes, n, choices, starts) && forall i :: i in order ==> i < n
    ensures AllUnharmed(StartAll(s, order, choices), starts)
    decreases |order|
  {
    hide AllUnharmed, StartNode, Ready, Extends;
    if order != [] {
      var i := order[0];
      assert i in order && forall k :: k in order[1..] ==> k in order;
      if Startable(s, i) {
        var t := StartNode(s, i, choices(i));
        StartKeepsUnharmed(s, i, starts);
        StartKeepsTicking(s, i, choices(i));
        MoveExtends(s, StartMove(i, choices(i)));
        StillObeys(s, t, n, choices, starts);
        StartAllKeepsUnharmed(t, order[1..], n, choices, starts);
      } else {
        StartAllKeepsUnharmed(s, order[1..], n, choices, starts);
      }
    }
  }

  lemma CommandKeepsUnharmed(s: Run, op: Op, starts: Starts)
    requires AllUnharmed(s, starts) && !op.DoTick? && Possible(s, op)
    ensures AllUnharmed(Apply(s, op), starts)
  {
    hide StartsWell, FindKey;
    var t := Apply(s, op);
    forall k: nat | k < |t.nodes| ensures Unharmed(t.nodes[k], starts) {
      assert Unharmed(s.nodes[k], starts);
    }
  }

  lemma TickKeepsUnharmed(s: Run, op: Op, starts: Starts)
    requires AllUnharmed(s, starts) && DeadLettersTolerated(s)
    requires op.DoTick? && Possible(s, op) && Follows(s, op, starts)
    ensures AllUnharmed(Apply(s, op), starts)
  {
    hide StartAll, SyncAll, AllDone, OutputsOf, AnyFailed, Unharmed;
    if Ticking(s.status) {
      SyncAllKeepsUnharmed(s, op.syncOrder, starts);
      var s1 := SyncAll(s, op.syncOrder);
      StillObeys(s, s1, |s.nodes|, op.choices, starts);
      if s1.status.Active? {
        StartAllKeepsUnharmed(s1, op.startOrder, |s.nodes|, op.choices, starts);
      }
    }
  }

  lemma {:induction false} HistoryIsUnharmed(def: seq<NodeDef>, id: string, items: map<string, Item>, ops: seq<Op>,
                                            starts: Starts)
    requires WellFormed(def) && AllStartWell(def, starts) && History(Initial(def, id, items), ops)
    requires FollowsThroughout(Initial(def, id, items), ops, starts)
    requires ToleratedThroughout(Initial(def, id, items), ops)
    ensures AllUnharmed(Exec(Initial(def, id, items), ops), starts)
    decreases |ops|
  {
    var s0 := Initial(def, id, items);
    if ops == [] {
      InitialIsClean(def, id, items, starts);
      hide StartsWell, WellFormed, Initial;
      forall i: nat | i < |s0.nodes| ensures Unharmed(s0.nodes[i], starts) {
        assert s0.nodes[i] in s0.nodes && CleanNode(s0.nodes[i], starts);
      }
    } else {
      hide AllUnharmed, Apply, Follows, WellFormed, AllStartWell, DeadLettersTolerated;
      var before, op := ops[..|ops| - 1], ops[|ops| - 1];
      HistoryIsUnharmed(def, id, items, before, starts);
      if op.DoTick? {
        TickKeepsUnharmed(Exec(s0, before), op, starts);
      } else {
        CommandKeepsUnharmed(Exec(s0, before), op, starts);
      }
    }
  }

  /**
   Whatever workers and users do: if all starts go well and every dead letter falls on a node that tolerates
   it, the run fails only for a rewind that went across a fan-out's children or past the last round.
   */
  lemma FailsOnlyForARefusedRewind(def: seq<NodeDef>, id: string, items: map<string, Item>, ops: seq<Op>,
                                   starts: Starts)
    requires WellFormed(def) && AllStartWell(def, starts) && History(Initial(def, id, items), ops)
    requires FollowsThroughout(Initial(def, id, items), ops, starts)
    requires ToleratedThroughout(Initial(def, id, items), ops)
    ensures var s := Exec(Initial(def, id, items), ops);
            s.status.RunFailed? ==>
              exists n :: n in s.nodes && n.status.Failed? && n.def.rewindTo.Some?
                          && (n.reason.AcrossFanOut? || n.reason.TooManyRounds?)
  {
    var s0 := Initial(def, id, items);
    var s := Exec(s0, ops);
    if s.status.RunFailed? {
      StatusMeansWhatItSays(def, id, items, ops);
      HistoryIsUnharmed(def, id, items, ops, starts);
      var moves := HistoryMoves(s0, ops);
      NeverRefusedAsNotBefore(def, id, items, moves);
      hide WellFormed, StartsWell, Initial, Exec, Play, FollowsThroughout, ToleratedThroughout;
      var i: nat :| i < |s.nodes| && s.nodes[i].status.Failed?;
      assert Unharmed(s.nodes[i], starts) && s.nodes[i] in s.nodes;
    }
  }

  /** So a run of a definition without rewinds never fails. */
  lemma NeverFailsWithoutRewinds(def: seq<NodeDef>, id: string, items: map<string, Item>, ops: seq<Op>, starts: Starts)
    requires WellFormed(def) && AllStartWell(def, starts) && History(Initial(def, id, items), ops)
    requires FollowsThroughout(Initial(def, id, items), ops, starts)
    requires ToleratedThroughout(Initial(def, id, items), ops)
    requires forall n :: n in def ==> n.rewindTo.None?
    ensures !Exec(Initial(def, id, items), ops).status.RunFailed?
  {
    var s0 := Initial(def, id, items);
    var s := Exec(s0, ops);
    FailsOnlyForARefusedRewind(def, id, items, ops, starts);
    if s.status.RunFailed? {
      var n :| n in s.nodes && n.status.Failed? && n.def.rewindTo.Some?;
      InitialIsSound(def, id, items);
      var moves := HistoryMoves(s0, ops);
      PlayKeepsOrigins(def, s0, moves);
      hide WellFormed, Initial, Exec, Play, FollowsThroughout, ToleratedThroughout, AllStartWell, Sound, Origins;
      RewindersAreDefined(def, s, n);
    }
  }

  lemma RewindersAreDefined(def: seq<NodeDef>, s: Run, n: Node)
    requires Origins(def, s) && n in s.nodes && n.def.rewindTo.Some?
    ensures n.def in def
  {
    var i: nat :| i < |s.nodes| && s.nodes[i] == n;
    assert i >= |def| ==> IsChild(def, s.nodes[i]);
    assert i < |def| ==> def[i] in def;
  }
}
