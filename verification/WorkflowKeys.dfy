/** Idempotency keys: no node is ever handed the work of another node or of an earlier round. */
module WorkflowKeys {
  import opened Basics
  import opened Definitions
  import opened WorkflowModel
  import opened WorkflowMoves
  import opened WorkflowSafety
  import opened WorkflowRuns

  // ---- When two keys are the same -----------------------------------------------------------

  /** `y` is `x` with a round number after a colon. */
  ghost predicate IsRoundOf(x: string, y: string, round: nat) {
    y == x + ":" + Dec(round)
  }

  lemma IdemKeyShape(run: string, key: string, round: nat)
    ensures round > 0 ==> IdemKey(run, key, round) == IdemPrefix(run) + (key + ":" + Dec(round))
    ensures round == 0 ==> IdemKey(run, key, round) == IdemPrefix(run) + key
  {
  }

  lemma SameTail(a: string, b: string, c: string)
    requires a + b == a + c
    ensures b == c
  {
    assert (a + b)[|a|..] == b && (a + c)[|a|..] == c;
  }

  lemma NoColonInDec(n: nat)
    ensures ':' !in Dec(n) && '.' !in Dec(n)
  {
    DecIsDigits(n);
  }

  lemma SameRoundSuffix(x: string, y: string, m: nat, n: nat)
    requires x + ":" + Dec(m) == y + ":" + Dec(n)
    ensures x == y && m == n
  {
    NoColonInDec(m);
    NoColonInDec(n);
    SplitAtLast(x, Dec(m), y, Dec(n), ':');
    DecInjective(m, n);
  }

  /** Two keys of one run agree exactly for the same node and round, or if one's key is the other's with a round. */
  lemma KeysAgreeExactly(run: string, x: string, m: nat, y: string, n: nat)
    ensures IdemKey(run, x, m) == IdemKey(run, y, n) <==>
            (x == y && m == n) || (m > 0 && n == 0 && IsRoundOf(x, y, m)) || (n > 0 && m == 0 && IsRoundOf(y, x, n))
  {
    IdemKeyShape(run, x, m);
    IdemKeyShape(run, y, n);
    if IdemKey(run, x, m) == IdemKey(run, y, n) {
      var a := if m > 0 then x + ":" + Dec(m) else x;
      var b := if n > 0 then y + ":" + Dec(n) else y;
      SameTail(IdemPrefix(run), a, b);
      if m > 0 && n > 0 {
        SameRoundSuffix(x, y, m, n);
      }
    }
  }

  /** A node keyed `plan:1` and the second round of a node keyed `plan` share an idempotency key. */
  lemma KeysWithColonsCanClash(run: string)
    ensures IdemKey(run, "plan", 1) == IdemKey(run, "plan:1", 0)
  {
    assert Dec(1) == "1";
    KeysAgreeExactly(run, "plan", 1, "plan:1", 0);
  }

  /** No node's key is another's with a round number; fan-out children count by the key they would get. */
  ghost predicate ClashFree(def: seq<NodeDef>) {
    forall i, j | 0 <= i < |def| && 0 <= j < |def| ::
      && (forall r: nat :: 1 <= r <= REWIND_ROUNDS_MAX ==> !IsRoundOf(def[i].key, def[j].key, r))
      && (def[i].kind.FanOut? ==>
            forall k: nat, r: nat :: 1 <= r <= REWIND_ROUNDS_MAX ==> !IsRoundOf(ChildKey(def[i].key, k), def[j].key, r))
  }

  /** Keys without a colon never clash. */
  lemma NoColonsNoClash(def: seq<NodeDef>)
    requires forall n :: n in def ==> ':' !in n.key
    ensures ClashFree(def)
  {
    forall x: string, j, r: nat | 0 <= j < |def|
      ensures !IsRoundOf(x, def[j].key, r)
    {
      assert def[j] in def;
      assert (x + ":" + Dec(r))[|x|] == ':';
    }
  }

  ghost predicate NoClash(nodes: seq<Node>) {
    forall i, j, r: nat | 0 <= i < |nodes| && 0 <= j < |nodes| && 1 <= r <= REWIND_ROUNDS_MAX ::
      !IsRoundOf(nodes[i].def.key, nodes[j].def.key, r)
  }

  lemma ChildKeyHasNoRound(x: string, key: string, k: nat, r: nat)
    ensures !IsRoundOf(x, ChildKey(key, k), r)
  {
    var s, t := key + "." + Dec(k), x + ":" + Dec(r);
    DecIsDigits(k);
    DecIsDigits(r);
    assert s[|key|] == '.' && forall j | |key| < j < |s| :: s[j] in Dec(k);
    assert t[|x|] == ':' && forall j | |x| < j < |t| :: t[j] in Dec(r);
  }

  lemma OriginsNeverClash(def: seq<NodeDef>, s: Run)
    requires ClashFree(def) && Origins(def, s)
    ensures NoClash(s.nodes)
  {
    forall i: nat, j: nat, r: nat | i < |s.nodes| && j < |s.nodes| && 1 <= r <= REWIND_ROUNDS_MAX
      ensures !IsRoundOf(s.nodes[i].def.key, s.nodes[j].def.key, r)
    {
      if j >= |def| {
        var p := s.nodes[j].parent.value;
        var k :| s.nodes[j].def == ChildNode(def[p], p, k).def;
        ChildKeyHasNoRound(s.nodes[i].def.key, def[p].key, k, r);
      } else if i >= |def| {
        var p := s.nodes[i].parent.value;
        var k :| s.nodes[i].def == ChildNode(def[p], p, k).def;
        assert s.nodes[i].def.key == ChildKey(def[p].key, k);
      }
    }
  }

  // ---- Who owns a work item -----------------------------------------------------------------

  /** The item keyed `k` was created for node `i` in round `r`; in the current round that node is no longer pending. */
  ghost predicate Owns(s: Run, i: nat, r: nat, k: string) {
    && i < |s.nodes| && r <= s.round
    && k == IdemKey(s.id, s.nodes[i].def.key, r)
    && (r == s.round ==> !s.nodes[i].status.Pending?)
  }

  ghost predicate ItemsOwned(s: Run) {
    forall k :: k in s.items && IdemPrefix(s.id) <= k ==> exists i, r :: Owns(s, i, r, k)
  }

  /** An enqueued node holds an item of its own, from this round or an earlier one it has kept through. */
  ghost predicate HoldsOwnWork(s: Run, i: nat)
    requires i < |s.nodes|
  {
    s.nodes[i].work.Some? && s.nodes[i].work.value in s.items && exists r :: Owns(s, i, r, s.nodes[i].work.value)
  }

  ghost predicate WorkHeld(s: Run) {
    forall i: nat | i < |s.nodes| && s.nodes[i].status.Enqueued? :: HoldsOwnWork(s, i)
  }

  ghost predicate Keyed(s: Run) {
    ItemsOwned(s) && WorkHeld(s)
  }

  /** A change that frees no node in its round, and gives no node work, keeps ownership. */
  ghost predicate OwnersStay(s: Run, t: Run) {
    && Extends(s, t) && s.round <= t.round && s.items.Keys <= t.items.Keys
    && (s.round == t.round ==>
          forall i | 0 <= i < |s.nodes| :: t.nodes[i].status.Pending? ==> s.nodes[i].status.Pending?)
  }

  lemma OwnerStays(s: Run, t: Run, i: nat, r: nat, k: string)
    requires OwnersStay(s, t) && Owns(s, i, r, k)
    ensures Owns(t, i, r, k)
  {
  }

  ghost predicate NewKeysForeign(s: Run, t: Run) {
    forall k :: k in t.items && k !in s.items ==> !(IdemPrefix(s.id) <= k)
  }

  ghost predicate NoneNewlyEnqueued(s: Run, t: Run) {
    forall i: nat | i < |t.nodes| && t.nodes[i].status.Enqueued? ::
      i < |s.nodes| && s.nodes[i].status.Enqueued? && t.nodes[i].work == s.nodes[i].work
  }

  lemma QuietChangeKeepsKeyed(s: Run, t: Run)
    requires Keyed(s) && OwnersStay(s, t) && NewKeysForeign(s, t) && NoneNewlyEnqueued(s, t)
    ensures Keyed(t)
  {
    forall k | k in t.items && IdemPrefix(t.id) <= k
      ensures exists i, r :: Owns(t, i, r, k)
    {
      var i, r :| Owns(s, i, r, k);
      OwnerStays(s, t, i, r, k);
    }
    forall i: nat | i < |t.nodes| && t.nodes[i].status.Enqueued?
      ensures HoldsOwnWork(t, i)
    {
      assert HoldsOwnWork(s, i);
      var r :| Owns(s, i, r, s.nodes[i].work.value);
      OwnerStays(s, t, i, r, s.nodes[i].work.value);
    }
  }

  lemma EnqueueKeepsKeyed(s: Run, i: nat)
    requires Keyed(s) && i < |s.nodes| && s.nodes[i].status.Pending?
    ensures Keyed(Enqueue(s, i))
  {
    var t := Enqueue(s, i);
    var key := IdemKey(s.id, s.nodes[i].def.key, s.round);
    assert Owns(t, i, s.round, key);
    forall k | k in t.items && IdemPrefix(t.id) <= k
      ensures exists j, r :: Owns(t, j, r, k)
    {
      if k != key {
        var j, r :| Owns(s, j, r, k);
        OwnerStays(s, t, j, r, k);
      }
    }
    forall j: nat | j < |t.nodes| && t.nodes[j].status.Enqueued?
      ensures HoldsOwnWork(t, j)
    {
      if j != i {
        assert HoldsOwnWork(s, j);
        var r :| Owns(s, j, r, s.nodes[j].work.value);
        OwnerStays(s, t, j, r, s.nodes[j].work.value);
      }
    }
  }

  /** The start of this node puts work in the queue. */
  ghost predicate Enqueues(s: Run, m: Move) {
    && m.StartMove? && m.node < |s.nodes| && !m.choice.fails && s.nodes[m.node].def.kind.Work?
    && !(s.nodes[m.node].def.skips && m.choice.skip)
  }

  lemma ExpandedNode(s: Run, f: nat, c: Choice, j: nat)
    requires f < |s.nodes| && UniqueNodes(s.nodes) && j < |Expand(s, f, c).nodes|
    ensures var n := Expand(s, f, c).nodes[j];
            if j == f then n.status.Succeeded? || n.status.Failed?
            else if j < |s.nodes| then n == s.nodes[j]
            else n.status.Pending?
  {
    ExpandKeepsNodes(s, f, c);
    ExpandAddsChildren(s, f, c);
    ExpandEnds(s, f, c);
    var t := Expand(s, f, c);
    hide Expand, UniqueNodes;
    if j < |s.nodes| {
      assert t.nodes[..|s.nodes|][j] == t.nodes[j];
    } else {
      assert IsChildOf(t.nodes[j], s.nodes[f].def, f);
    }
  }

  lemma ExpandIsQuiet(s: Run, f: nat, c: Choice)
    requires Sound(s) && Startable(s, f) && s.nodes[f].def.kind.FanOut?
    ensures OwnersStay(s, Expand(s, f, c)) && NoneNewlyEnqueued(s, Expand(s, f, c))
    ensures Expand(s, f, c).items == s.items
  {
    var t := Expand(s, f, c);
    ExpandFields(s, f, c);
    ExpandKeepsNodes(s, f, c);
    assert Extends(s, t) by {
      ExpandKeepsAll(s, f, c);
    }
    assert UniqueNodes(s.nodes) && s.nodes[f].status.Pending?;
    hide Sound, Startable, Expand, Extends, UniqueNodes;
    forall j: nat | j < |t.nodes|
      ensures j < |s.nodes| && t.nodes[j].status.Pending? ==> s.nodes[j].status.Pending?
      ensures t.nodes[j].status.Enqueued? ==> j < |s.nodes| && t.nodes[j] == s.nodes[j]
    {
      ExpandedNode(s, f, c, j);
    }
  }

  lemma ExpandKeepsAll(s: Run, f: nat, c: Choice)
    requires f < |s.nodes|
    ensures Extends(s, Expand(s, f, c))
  {
    ExpandFields(s, f, c);
    ExpandKeepsNodes(s, f, c);
    var t := Expand(s, f, c);
    hide Expand;
    forall i | 0 <= i < |s.nodes| ensures t.nodes[i].def == s.nodes[i].def && t.nodes[i].parent == s.nodes[i].parent {
      assert t.nodes[i] == t.nodes[..|s.nodes|][i];
    }
  }

  lemma StartIsQuiet(s: Run, i: nat, c: Choice)
    requires Sound(s) && Startable(s, i) && !Enqueues(s, StartMove(i, c))
    ensures OwnersStay(s, StartNode(s, i, c)) && NoneNewlyEnqueued(s, StartNode(s, i, c))
    ensures StartNode(s, i, c).items == s.items
  {
    if !c.fails && s.nodes[i].def.kind.FanOut? {
      ExpandIsQuiet(s, i, c);
    } else {
      var t := StartNode(s, i, c);
      assert t.nodes == s.nodes[i := t.nodes[i]] && t.edges == s.edges;
    }
  }

  lemma SyncIsQuiet(s: Run, i: nat)
    requires Sound(s) && CanMove(s, SyncMove(i))
    ensures OwnersStay(s, SyncNode(s, i)) && NoneNewlyEnqueued(s, SyncNode(s, i)) && SyncNode(s, i).items == s.items
  {
    MoveExtends(s, SyncMove(i));
    hide Sound, RewindRefusal, RewindCone;
    var n := s.nodes[i];
    if AsksRewind(s, i) {
      var s1 := Put(s, i, Settled(n, s.items[n.work.value]));
      if RewindRefusal(s1, i) != NoReason {
        assert SyncNode(s, i).nodes == s.nodes[i := SyncNode(s, i).nodes[i]];
      } else {
        assert forall j | 0 <= j < |s.nodes| ::
            SyncNode(s, i).nodes[j].status.Enqueued? ==> j != i && SyncNode(s, i).nodes[j] == s.nodes[j];
      }
    }
  }

  lemma CommandIsQuiet(s: Run, op: Op)
    requires !op.DoTick? && Possible(s, op)
    ensures OwnersStay(s, Apply(s, op)) && NoneNewlyEnqueued(s, Apply(s, op)) && NewKeysForeign(s, Apply(s, op))
  {
    match op
    case DoAnswer(key, answer) =>
    case DoNote(key, text) =>
    case DoPause =>
    case DoResume =>
    case DoCancel =>
      assert forall i | 0 <= i < |s.nodes| :: !RunOver(s.status) ==> Cancel(s).nodes[i] == CancelNode(s.nodes[i]);
    case DoWork(items) =>
  }

  lemma MoveKeepsKeyed(s: Run, m: Move)
    requires Sound(s) && Keyed(s) && CanMove(s, m)
    ensures Keyed(Moved(s, m)) && s.items.Keys <= Moved(s, m).items.Keys
  {
    if Enqueues(s, m) {
      EnqueueKeepsKeyed(s, m.node);
    } else {
      match m
      case StartMove(i, c) =>
        StartIsQuiet(s, i, c);
        QuietChangeKeepsKeyed(s, StartNode(s, i, c));
      case SyncMove(i) =>
        SyncIsQuiet(s, i);
        QuietChangeKeepsKeyed(s, SyncNode(s, i));
      case CloseMove =>
        QuietChangeKeepsKeyed(s, Finalize(s));
      case CommandMove(op) =>
        CommandIsQuiet(s, op);
        QuietChangeKeepsKeyed(s, Apply(s, op));
    }
  }

  lemma {:induction false} PlayKeepsKeyed(s: Run, moves: seq<Move>)
    requires Sound(s) && Keyed(s) && Playable(s, moves)
    ensures Keyed(Play(s, moves)) && s.items.Keys <= Play(s, moves).items.Keys
    decreases |moves|
  {
    if moves != [] {
      MoveKeepsSound(s, moves[0]);
      MoveKeepsKeyed(s, moves[0]);
      PlayKeepsKeyed(Moved(s, moves[0]), moves[1..]);
    }
  }

  // ---- No stale work ------------------------------------------------------------------------

  /**
   The key a pending node's work would be created under is taken exactly if the run has started over and
   another node, whose key is this one's with the round's number, had its work queued in the first round.
   */
  ghost predicate IsHandedOver(s: Run, i: nat)
    requires i < |s.nodes|
  {
    s.round > 0 && exists j :: SharesKey(s, i, j)
  }

  ghost predicate SharesKey(s: Run, i: nat, j: nat)
    requires i < |s.nodes|
  {
    && j < |s.nodes| && IsRoundOf(s.nodes[i].def.key, s.nodes[j].def.key, s.round)
    && IdemKey(s.id, s.nodes[j].def.key, 0) in s.items
  }

  lemma KeyIsTakenExactly(s: Run, i: nat)
    requires Sound(s) && Keyed(s) && i < |s.nodes| && s.nodes[i].status.Pending?
    ensures IdemKey(s.id, s.nodes[i].def.key, s.round) in s.items <==> IsHandedOver(s, i)
  {
    var key := IdemKey(s.id, s.nodes[i].def.key, s.round);
    if key in s.items {
      assert IdemPrefix(s.id) <= key;
      var j: nat, r: nat :| Owns(s, j, r, key);
      KeysAgreeExactly(s.id, s.nodes[i].def.key, s.round, s.nodes[j].def.key, r);
      hide IdemKey, Keyed;
      assert SharesKey(s, i, j);
    }
    if IsHandedOver(s, i) {
      var j: nat :| SharesKey(s, i, j);
      KeysAgreeExactly(s.id, s.nodes[i].def.key, s.round, s.nodes[j].def.key, 0);
    }
  }

  /** In every run: work queued for a node is another node's item exactly in that case, and new in every other. */
  lemma WorkIsHandedOverExactly(def: seq<NodeDef>, id: string, items: map<string, Item>, moves: seq<Move>, m: Move)
    requires WellFormed(def) && FreshId(id, items) && Playable(Initial(def, id, items), moves)
    requires var s := Play(Initial(def, id, items), moves); CanMove(s, m) && Enqueues(s, m)
    ensures var s := Play(Initial(def, id, items), moves);
            var key := IdemKey(id, s.nodes[m.node].def.key, s.round);
            && (key in s.items <==> IsHandedOver(s, m.node))
            && Moved(s, m).nodes[m.node].work == Some(key)
            && Moved(s, m).items == if IsHandedOver(s, m.node) then s.items else s.items[key := Item(Live, "", false)]
  {
    var s0 := Initial(def, id, items);
    InitialIsSound(def, id, items);
    InitialIsKeyed(def, id, items);
    PlayKeepsSound(s0, moves);
    PlayKeepsKeyed(s0, moves);
    PlayExtends(s0, moves);
    KeyIsTakenExactly(Play(s0, moves), m.node);
    hide Sound, Keyed, IsHandedOver, IdemKey, Ready;
  }

  /** The key a pending node's work would be created under is not taken. */
  lemma PendingKeyIsFree(s: Run, i: nat)
    requires Sound(s) && Keyed(s) && NoClash(s.nodes) && i < |s.nodes| && s.nodes[i].status.Pending?
    ensures IdemKey(s.id, s.nodes[i].def.key, s.round) !in s.items
  {
    KeyIsTakenExactly(s, i);
    hide IdemKey, IsRoundOf, Keyed;
  }

  lemma InitialIsKeyed(def: seq<NodeDef>, id: string, items: map<string, Item>)
    requires WellFormed(def) && FreshId(id, items)
    ensures Keyed(Initial(def, id, items)) && Origins(def, Initial(def, id, items))
  {
  }

  /**
   In every history, work queued for a node is a new item: its key was free just before, so neither
   another node nor an earlier round ever had it, and no two enqueues of a run share a key.
   */
  lemma EnqueuedWorkIsNew(def: seq<NodeDef>, id: string, items: map<string, Item>, moves: seq<Move>, m: Move)
    requires WellFormed(def) && ClashFree(def) && FreshId(id, items)
    requires Playable(Initial(def, id, items), moves)
    requires var s := Play(Initial(def, id, items), moves); CanMove(s, m) && Enqueues(s, m)
    ensures var s := Play(Initial(def, id, items), moves);
            var key := IdemKey(id, s.nodes[m.node].def.key, s.round);
            && key !in s.items
            && Moved(s, m).nodes[m.node].work == Some(key)
            && Moved(s, m).items == s.items[key := Item(Live, "", false)]
  {
    var s0 := Initial(def, id, items);
    InitialIsSound(def, id, items);
    InitialIsKeyed(def, id, items);
    PlayKeepsSound(s0, moves);
    PlayKeepsKeyed(s0, moves);
    PlayKeepsOrigins(def, s0, moves);
    PlayExtends(s0, moves);
    OriginsNeverClash(def, Play(s0, moves));
    PendingKeyIsFree(Play(s0, moves), m.node);
  }

  /** Two enqueues of one run never use the same key, so a node is enqueued at most once per round. */
  lemma KeysAreUsedOnce(def: seq<NodeDef>, id: string, items: map<string, Item>,
                        first: seq<Move>, m1: Move, between: seq<Move>, m2: Move)
    requires WellFormed(def) && ClashFree(def) && FreshId(id, items)
    requires Playable(Initial(def, id, items), first)
    requires var s1 := Play(Initial(def, id, items), first);
             CanMove(s1, m1) && Enqueues(s1, m1) && Playable(Moved(s1, m1), between)
    requires var s2 := Play(Moved(Play(Initial(def, id, items), first), m1), between);
             CanMove(s2, m2) && Enqueues(s2, m2)
    ensures var s1 := Play(Initial(def, id, items), first); var s2 := Play(Moved(s1, m1), between);
            IdemKey(id, s1.nodes[m1.node].def.key, s1.round) != IdemKey(id, s2.nodes[m2.node].def.key, s2.round)
  {
    var s0 := Initial(def, id, items);
    var s1 := Play(s0, first);
    var t1 := Moved(s1, m1);
    var s2 := Play(t1, between);
    EnqueuedWorkIsNew(def, id, items, first, m1);
    InitialIsSound(def, id, items);
    InitialIsKeyed(def, id, items);
    PlayKeepsSound(s0, first);
    PlayKeepsKeyed(s0, first);
    MoveKeepsSound(s1, m1);
    MoveKeepsKeyed(s1, m1);
    PlayKeepsKeyed(t1, between);
    var start := [m1];
    assert start[1..] == [] && Playable(t1, start[1..]);
    PlayConcat(s0, first, start);
    PlayConcat(s0, first + start, between);
    EnqueuedWorkIsNew(def, id, items, first + start + between, m2);
  }
}
