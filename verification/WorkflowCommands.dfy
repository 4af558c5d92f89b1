/** What the commands of a user do to a run, and when resuming undoes pausing. */
module WorkflowCommands {
  import opened Basics
  import opened Definitions
  import opened WorkflowModel
  import opened WorkflowSafety
  import opened WorkflowRuns
  import opened WorkflowOutcomes

  // ---- Gates --------------------------------------------------------------------------------

  /** Only node `i` of the run differs, and in the run itself at most the status. */
  ghost predicate OnlyNode(s: Run, t: Run, i: nat) {
    i < |s.nodes| == |t.nodes| && t == s.(nodes := s.nodes[i := t.nodes[i]], status := t.status)
  }

  /** An answer to a waiting gate of an unfinished run is stored with the notes, and sets a waiting run going. */
  lemma AnswerIsStored(s: Run, i: nat, answer: string)
    requires UniqueNodes(s.nodes) && i < |s.nodes|
    requires s.nodes[i].def.kind.Gate? && s.nodes[i].status.Waiting? && !RunOver(s.status)
    ensures var t := Apply(s, DoAnswer(s.nodes[i].def.key, answer));
            && OnlyNode(s, t, i)
            && t.nodes[i].status.Succeeded? && t.nodes[i].output.Answered?
            && t.nodes[i].output.answer == answer && t.nodes[i].output.notes == s.nodes[i].input.notes
            && !t.nodes[i].output.skipped && t.nodes[i].input == s.nodes[i].input
            && (t.status.Active? <==> s.status.Active? || s.status.AwaitingInput?)
            && (t.status.Paused? <==> s.status.Paused?)
  {
    FindKeyIsUnique(s.nodes, i);
    hide FindKey, UniqueNodes;
  }

  /** A note to a waiting gate is kept after the earlier ones, and nothing else changes. */
  lemma NoteIsKept(s: Run, i: nat, text: string)
    requires UniqueNodes(s.nodes) && i < |s.nodes| && IsOpenGate(s.nodes[i], s.nodes[i].def.key)
    ensures var t := Apply(s, DoNote(s.nodes[i].def.key, text)); var notes := s.nodes[i].input.notes;
            && OnlyNode(s, t, i) && t.status == s.status
            && t.nodes[i] == s.nodes[i].(input := t.nodes[i].input)
            && t.nodes[i].input.index == s.nodes[i].input.index && t.nodes[i].input.card == s.nodes[i].input.card
            && |t.nodes[i].input.notes| == |notes| + 1
            && t.nodes[i].input.notes[|notes|] == text && notes <= t.nodes[i].input.notes
  {
    FindKeyIsUnique(s.nodes, i);
    hide FindKey, UniqueNodes;
  }

  /** The notes typed while a gate waits go with its answer, in the order they were typed. */
  lemma NotesGoWithTheAnswer(s: Run, i: nat, first: string, second: string, answer: string)
    requires UniqueNodes(s.nodes) && i < |s.nodes| && IsOpenGate(s.nodes[i], s.nodes[i].def.key) && !RunOver(s.status)
    ensures var key := s.nodes[i].def.key;
            var t := Apply(Apply(Apply(s, DoNote(key, first)), DoNote(key, second)), DoAnswer(key, answer));
            && i < |t.nodes| && t.nodes[i].status.Succeeded? && t.nodes[i].output.Answered?
            && t.nodes[i].output.notes == s.nodes[i].input.notes + [first, second]
  {
    var key := s.nodes[i].def.key;
    var s1 := Apply(s, DoNote(key, first));
    NoteIsKept(s, i, first);
    assert UniqueNodes(s1.nodes);
    var s2 := Apply(s1, DoNote(key, second));
    NoteIsKept(s1, i, second);
    assert UniqueNodes(s2.nodes);
    AnswerIsStored(s2, i, answer);
    hide Apply, UniqueNodes;
    var notes := s.nodes[i].input.notes;
    assert s2.nodes[i].input.notes == notes + [first, second];
  }

  /** A refused answer or note changes nothing: no gate of that key waits, or the run is over. */
  lemma RefusedIsNothing(s: Run, key: string, answer: string)
    requires UniqueNodes(s.nodes)
    ensures (forall n :: n in s.nodes ==> !IsOpenGate(n, key)) ==>
              Apply(s, DoAnswer(key, answer)) == s && Apply(s, DoNote(key, answer)) == s
    ensures RunOver(s.status) ==> Apply(s, DoAnswer(key, answer)) == s
  {
    var i := FindKey(s.nodes, key);
    if i.Some? {
      assert s.nodes[i.value] in s.nodes;
    }
    hide FindKey, UniqueNodes;
  }

  // ---- Pausing, resuming, canceling ---------------------------------------------------------

  /** Pausing and canceling take effect exactly on a run that is not over. */
  lemma PauseTakesEffect(s: Run)
    ensures var t := Apply(s, DoPause);
            && t == s.(status := t.status)
            && if s.status.Completed? || s.status.RunFailed? || s.status.RunCanceled? then t == s
               else t.status.Paused?
  {
  }

  lemma CancelTakesEffect(s: Run, k: nat)
    requires k < |s.nodes|
    ensures var t := Apply(s, DoCancel);
            var over := s.status.Completed? || s.status.RunFailed? || s.status.RunCanceled?;
            && |t.nodes| == |s.nodes| && t == s.(status := t.status, nodes := t.nodes)
            && (over ==> t == s) && (!over ==> t.status.RunCanceled?)
            && (t.nodes[k] != s.nodes[k] ==>
                  t.nodes[k] == s.nodes[k].(status := NodeCanceled, reason := RunWasCanceled))
            && (!over ==> (t.nodes[k].status.NodeCanceled? <==>
                             s.nodes[k].status.NodeCanceled? || s.nodes[k].status.Pending?
                             || s.nodes[k].status.Enqueued? || s.nodes[k].status.Waiting?))
  {
  }

  /** A paused run stands still: ticks change nothing. */
  lemma PausedRunsStandStill(s: Run, op: Op)
    requires op.DoTick? && Apply(s, DoPause).status.Paused?
    ensures Apply(Apply(s, DoPause), op) == Apply(s, DoPause)
  {
  }

  /** A resumed run awaits input exactly when a gate waits; only a paused run is resumed. */
  lemma ResumeTakesEffect(s: Run)
    ensures var t := Apply(s, DoResume);
            && t == s.(status := t.status) && (!s.status.Paused? ==> t == s)
            && (s.status.Paused? ==>
                  if exists n :: n in s.nodes && n.def.kind.Gate? && n.status.Waiting? then t.status.AwaitingInput?
                  else t.status.Active?)
  {
    if n :| n in s.nodes && n.def.kind.Gate? && n.status.Waiting? {
      var i :| 0 <= i < |s.nodes| && s.nodes[i] == n;
    }
  }

  /**
   Resuming a paused run brings it back exactly if it was not going on past an open gate: a run that one of
   two waiting gates set going again waits for the other when it is resumed.
   */
  lemma PauseAndResume(s: Run)
    requires Sound(s) && (s.status.Active? || s.status.AwaitingInput?)
    ensures Apply(Apply(s, DoPause), DoResume) == s <==> !(s.status.Active? && GateWaits(s.nodes))
  {
    hide UniqueNodes, KindsFit, ChildrenWired, DependencySafe, TolerantWaysOut, GateWaits;
  }

  /** While a run awaits input, a tick without a rewind starts nothing. */
  lemma AwaitingInputStartsNothing(s: Run, op: Op, k: nat)
    requires s.status.AwaitingInput? && NoneGoesBack(s) && op.DoTick? && k < |s.nodes|
    ensures var t := Apply(s, op);
            |t.nodes| == |s.nodes| && t.items == s.items && t.edges == s.edges
            && (s.nodes[k].status.Pending? ==> t.nodes[k] == s.nodes[k])
  {
    SyncAllFolds(s, op.syncOrder, k);
    hide SyncAll, StartAll, AnyFailed, AllDone, OutputsOf;
  }
}
