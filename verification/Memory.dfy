/** Canonical memory: one live document per (namespace, key), size budgets that ratchet, and passage edits. */
module Memory {
  import opened Basics
  import opened Text

  /** A stored row. Its id is its place in creation order; a canonical row has a key. */
  datatype Row = Row(namespace: string, key: Option<string>, content: string, archived: bool, supersededBy: Option<nat>)

  predicate IsLive(row: Row, namespace: string, key: string) {
    row.namespace == namespace && row.key == Some(key) && !row.archived
  }

  /** `get_canonical`: the newest row of the document that is not archived. */
  function FindLive(rows: seq<Row>, namespace: string, key: string): (id: Option<nat>)
    ensures id.Some? ==> id.value < |rows| && IsLive(rows[id.value], namespace, key)
    ensures id.Some? ==> forall i | id.value < i < |rows| :: !IsLive(rows[i], namespace, key)
    ensures id.None? ==> forall i | 0 <= i < |rows| :: !IsLive(rows[i], namespace, key)
  {
    if rows == [] then None
    else if IsLive(rows[|rows| - 1], namespace, key) then Some(|rows| - 1)
    else FindLive(rows[..|rows| - 1], namespace, key)
  }

  /** The text of a document, if it has one. */
  function Live(rows: seq<Row>, namespace: string, key: string): Option<string> {
    var id := FindLive(rows, namespace, key);
    if id.Some? then Some(rows[id.value].content) else None
  }

  /** At most one live row per document. */
  ghost predicate OneLive(rows: seq<Row>) {
    forall i, j, ns, k | 0 <= i < j < |rows| :: !(IsLive(rows[i], ns, k) && IsLive(rows[j], ns, k))
  }

  lemma LiveIs(rows: seq<Row>, namespace: string, key: string, i: nat)
    requires OneLive(rows) && i < |rows| && IsLive(rows[i], namespace, key)
    ensures FindLive(rows, namespace, key) == Some(i) && Live(rows, namespace, key) == Some(rows[i].content)
  {
    var j := FindLive(rows, namespace, key).value;
    assert i == j;
  }

  lemma LiveIsNone(rows: seq<Row>, namespace: string, key: string)
    requires forall i | 0 <= i < |rows| :: !IsLive(rows[i], namespace, key)
    ensures Live(rows, namespace, key) == None
  {
  }

  // ---- Budgets ------------------------------------------------------------------------------

  datatype Checked = Fits(content: string) | OverBudget(size: nat, limit: nat)

  /** `_enforce_budget`. */
  function Enforce(content: string, previous: Option<string>, allow: bool): Checked {
    var declared := Budget(content);
    var inherited := if previous.Some? then Budget(previous.value) else None;
    if declared.None? && inherited.Some? then
      Within(WithMarker(content, inherited.value), inherited.value, allow)
    else if declared.None? then Fits(content)
    else Within(content, declared.value, allow)
  }

  function Within(content: string, limit: nat, allow: bool): Checked {
    if !allow && |content| > limit then OverBudget(|content|, limit) else Fits(content)
  }

  /** A budget that survives being written down again. */
  predicate Declares(content: string) {
    Budget(content).Some? && Budget(content).value >= 10
  }

  /** An accepted write, when it may not go over budget, fits the budget it declares, which is then no trifle. */
  lemma AcceptedFits(content: string, previous: Option<string>)
    requires Enforce(content, previous, false).Fits?
    ensures var c := Enforce(content, previous, false).content;
            Budget(c).Some? ==> |c| <= Budget(c).value && Declares(c)
  {
    var c := Enforce(content, previous, false).content;
    if Budget(content).None? && previous.Some? && Budget(previous.value).Some? {
      BudgetBound(previous.value);
      AppendedMarkerDeclares(content, Budget(previous.value).value);
      WithMarkerIsLonger(content, Budget(previous.value).value);
    } else if Budget(c).Some? {
      BudgetBound(c);
    }
    hide Budget, WithMarker;
  }

  /** A document that declares a budget of 10 or more declares one after every accepted write, by leave or not. */
  lemma KeepsDeclaring(content: string, previous: Option<string>, allow: bool)
    requires Enforce(content, previous, allow).Fits?
    ensures var c := Enforce(content, previous, allow).content;
            && (previous.Some? && Declares(previous.value) ==> Budget(c).Some?)
            && (Budget(content).Some? || previous.None? || Budget(previous.value).None? ==> c == content)
            && (Budget(content).None? && previous.Some? && Declares(previous.value) ==>
                  Budget(c) == Budget(previous.value))
  {
    if previous.Some? && Budget(previous.value).Some? && Budget(content).None? {
      BudgetBound(previous.value);
      AppendedMarkerDeclares(content, Budget(previous.value).value);
    }
    hide Budget, WithMarker;
  }

  /**
   A write that drops the marker, by leave to go over budget, keeps the budget exactly when that is 10
   or more: `=05` is written back as `=5`, which is no marker. Without leave it is refused.
   */
  lemma SmallBudgetsAreLost(content: string, previous: string)
    requires Budget(previous).Some? && Budget(content).None?
    ensures Enforce(content, Some(previous), true).Fits?
    ensures Budget(Enforce(content, Some(previous), true).content).Some? <==> Declares(previous)
    ensures !Declares(previous) ==> Enforce(content, Some(previous), false).OverBudget?
  {
    BudgetBound(previous);
    AppendedMarkerDeclares(content, Budget(previous).value);
    WithMarkerIsLonger(content, Budget(previous).value);
    hide Budget, WithMarker;
  }

  /** Such a document: it declares 5, and a write that leaves the marker out ends the budget. */
  lemma BudgetOfFiveIsLost()
    ensures Budget("<!-- tasque:max_chars=05 -->") == Some(5)
    ensures Budget(Enforce("", Some("<!-- tasque:max_chars=05 -->"), true).content) == None
  {
    hide Budget, ToNat, Enforce;
    var text := "<!-- tasque:max_chars=05 -->";
    assert text == "<!-- tasque:max_chars=" + ['0', '5'] + " -->";
    MarkerOfTwoDigits('0', '5');
    TwoDigits('0', '5');
    NoRoomForMarker("");
    SmallBudgetsAreLost("", text);
  }

  /** The text a write would store, with the inherited marker if it drops it. */
  function WouldStore(content: string, previous: Option<string>): string {
    if Budget(content).None? && previous.Some? && Budget(previous.value).Some? then
      WithMarker(content, Budget(previous.value).value)
    else content
  }

  /** The budget a write is held to: its own, or the one it inherits. */
  function HeldTo(content: string, previous: Option<string>): Option<nat> {
    if Budget(content).Some? then Budget(content) else if previous.Some? then Budget(previous.value) else None
  }

  /** A write is accepted exactly by leave or within the budget it is held to; the refusal names size and limit. */
  lemma AcceptedExactly(content: string, previous: Option<string>, allow: bool)
    ensures var r := Enforce(content, previous, allow);
            var text, limit := WouldStore(content, previous), HeldTo(content, previous);
            && (r.Fits? <==> allow || limit.None? || |text| <= limit.value)
            && (r.Fits? ==> r.content == text)
            && (r.OverBudget? ==> r.size == |text| && Some(r.limit) == limit)
  {
    hide Budget, WithMarker;
  }

  // ---- Operations ---------------------------------------------------------------------------

  /** `upsert_canonical`, once the budget lets the text through. */
  function Replace(rows: seq<Row>, namespace: string, key: string, content: string): seq<Row> {
    var prior := FindLive(rows, namespace, key);
    var grown := rows + [Row(namespace, Some(key), content, false, None)];
    if prior.Some? then grown[prior.value := rows[prior.value].(archived := true, supersededBy := Some(|rows|))]
    else grown
  }

  function Upsert(rows: seq<Row>, namespace: string, key: string, content: string, allow: bool): seq<Row> {
    var checked := Enforce(content, Live(rows, namespace, key), allow);
    if checked.Fits? then Replace(rows, namespace, key, checked.content) else rows
  }

  /** `archive_memory`. */
  function Archive(rows: seq<Row>, id: nat): seq<Row>
    requires id < |rows|
  {
    rows[id := rows[id].(archived := true)]
  }

  /** The text `update_memory` stores, or its refusal. */
  function Updated(row: Row, content: string): Checked {
    if row.key.Some? && row.key.value != "" then Enforce(content, Some(row.content), false) else Fits(content)
  }

  function Update(rows: seq<Row>, id: nat, content: string): seq<Row>
    requires id < |rows|
  {
    var checked := Updated(rows[id], content);
    if checked.Fits? then rows[id := rows[id].(content := checked.content)] else rows
  }

  /** A write makes the document read as the text, and touches no other. */
  lemma ReplaceReads(rows: seq<Row>, namespace: string, key: string, content: string, ns: string, k: string)
    requires OneLive(rows)
    ensures OneLive(Replace(rows, namespace, key, content))
    ensures Live(Replace(rows, namespace, key, content), ns, k)
            == if ns == namespace && k == key then Some(content) else Live(rows, ns, k)
  {
    hide FindLive;
    var after := Replace(rows, namespace, key, content);
    forall i, n1, k1 | 0 <= i < |rows|
      ensures IsLive(after[i], n1, k1) <==> IsLive(rows[i], n1, k1) && !(n1 == namespace && k1 == key)
    {
      if IsLive(rows[i], namespace, key) {
        LiveIs(rows, namespace, key, i);
      }
    }
    assert OneLive(after);
    if ns == namespace && k == key {
      LiveIs(after, ns, k, |rows|);
    } else if FindLive(rows, ns, k).Some? {
      LiveIs(after, ns, k, FindLive(rows, ns, k).value);
    } else {
      LiveIsNone(after, ns, k);
    }
  }

  /** A write adds one row; the earlier live row is archived under it with its text kept, and no other row changes. */
  lemma ReplaceKeepsHistory(rows: seq<Row>, namespace: string, key: string, content: string)
    ensures var after := Replace(rows, namespace, key, content);
            && |after| == |rows| + 1 && after[|rows|] == Row(namespace, Some(key), content, false, None)
            && KeptHistory(rows, after, namespace, key)
  {
    hide FindLive;
    var after := Replace(rows, namespace, key, content);
    forall i: nat | i < |rows| ensures KeptRow(rows, after, i, namespace, key) {
    }
  }

  /** Row `i` keeps all but its standing: it is archived under the new row exactly if it was the document's live row. */
  ghost predicate KeptRow(rows: seq<Row>, after: seq<Row>, i: nat, namespace: string, key: string)
    requires i < |rows| <= |after|
  {
    if FindLive(rows, namespace, key) == Some(i) then
      && after[i].archived && after[i].supersededBy == Some(|rows|) && after[i].content == rows[i].content
      && after[i].namespace == rows[i].namespace && after[i].key == rows[i].key
    else after[i] == rows[i]
  }

  ghost predicate KeptHistory(rows: seq<Row>, after: seq<Row>, namespace: string, key: string) {
    |rows| <= |after| && forall i: nat | i < |rows| :: KeptRow(rows, after, i, namespace, key)
  }

  /** An accepted update stores its text in that row, and changes nothing else; a refused one changes nothing. */
  lemma UpdateIsStored(rows: seq<Row>, id: nat, content: string)
    requires id < |rows|
    ensures var after := Apply(rows, DoUpdate(id, content));
            var canonical := rows[id].key.Some? && rows[id].key.value != "";
            var previous := if canonical then Some(rows[id].content) else None;
            var limit := if canonical then HeldTo(content, previous) else None;
            && |after| == |rows| && (forall i | 0 <= i < |rows| && i != id :: after[i] == rows[i])
            && after[id] == rows[id].(content := after[id].content)
            && (if limit.Some? && |WouldStore(content, previous)| > limit.value then after == rows
                else after[id].content == if canonical then WouldStore(content, previous) else content)
  {
    AcceptedExactly(content, Some(rows[id].content), false);
    hide Enforce, WouldStore, HeldTo;
  }

  /** Archiving the live row of a document removes the document, and touches no other. */
  lemma ArchiveReads(rows: seq<Row>, id: nat, ns: string, k: string)
    requires OneLive(rows) && id < |rows|
    ensures OneLive(Archive(rows, id))
    ensures Live(Archive(rows, id), ns, k) == if IsLive(rows[id], ns, k) then None else Live(rows, ns, k)
  {
    var after := Archive(rows, id);
    forall i, n1, k1 | 0 <= i < |rows| ensures IsLive(after[i], n1, k1) <==> IsLive(rows[i], n1, k1) && i != id {
    }
    if IsLive(rows[id], ns, k) {
      LiveIs(rows, ns, k, id);
      LiveIsNone(after, ns, k);
    } else if FindLive(rows, ns, k).Some? {
      LiveIs(after, ns, k, FindLive(rows, ns, k).value);
    } else {
      LiveIsNone(after, ns, k);
    }
  }

  /** Changing a row's text in place changes what its document reads, and no other. */
  lemma UpdateReads(rows: seq<Row>, id: nat, content: string, ns: string, k: string)
    requires OneLive(rows) && id < |rows|
    ensures var after := rows[id := rows[id].(content := content)];
            OneLive(after)
            && Live(after, ns, k) == if IsLive(rows[id], ns, k) then Some(content) else Live(rows, ns, k)
  {
    var after := rows[id := rows[id].(content := content)];
    forall i, n1, k1 | 0 <= i < |rows| ensures IsLive(after[i], n1, k1) <==> IsLive(rows[i], n1, k1) {
    }
    if IsLive(rows[id], ns, k) {
      LiveIs(rows, ns, k, id);
      LiveIs(after, ns, k, id);
    } else if FindLive(rows, ns, k).Some? {
      LiveIs(after, ns, k, FindLive(rows, ns, k).value);
    } else {
      LiveIsNone(after, ns, k);
    }
  }

  // ---- Passage edits ------------------------------------------------------------------------

  datatype EditResult =
    | Edited(content: string)
    | NoPassage | NoDocument | NotThere | Ambiguous(found: nat) | LeavesEmpty | ChangesMarkers
    | TooLong(size: nat, limit: nat)

  function Splice(text: string, at: nat, oldText: string, newText: string): string
    requires at + |oldText| <= |text|
  {
    text[..at] + newText + text[at + |oldText|..]
  }

  /** `edit_canonical`: what becomes of the live text. */
  function EditText(live: Option<string>, oldText: string, newText: string): EditResult {
    if oldText == "" then NoPassage
    else if live.None? then NoDocument
    else
      var found := Starts(live.value, oldText, |live.value| + 1);
      var at := Find(live.value, oldText, 0);
      if at.None? then NotThere
      else if found > 1 then Ambiguous(found)
      else
        var content := Splice(live.value, at.value, oldText, newText);
        if IsBlank(content) then LeavesEmpty
        else if Markers(live.value) != [] && Markers(content) != Markers(live.value) then ChangesMarkers
        else
          var checked := Enforce(content, live, false);
          if checked.Fits? then Edited(checked.content) else TooLong(checked.size, checked.limit)
  }

  /** The text is `text` with the one place `oldText` starts replaced by `newText`. */
  ghost predicate EditedAt(text: string, oldText: string, newText: string, content: string, at: nat) {
    && StartsAt(text, oldText, at) && content == Splice(text, at, oldText, newText)
    && forall i: nat | StartsAt(text, oldText, i) :: i == at
  }

  lemma StartsBelow(text: string, passage: string, i: nat)
    requires StartsAt(text, passage, i)
    ensures i < |text| + 1
  {
  }

  /**
   An accepted edit changes the single place the old passage starts at, overlaps counted, and nothing
   else: no marker is added behind it, the markers of a document that has some stay as they are, and
   the result fits the budget it declares.
   */
  lemma EditChangesOnePlace(live: Option<string>, oldText: string, newText: string)
    requires EditText(live, oldText, newText).Edited?
    ensures live.Some?
    ensures exists at :: EditedAt(live.value, oldText, newText, EditText(live, oldText, newText).content, at)
    ensures var content := EditText(live, oldText, newText).content;
            && !IsBlank(content)
            && (Markers(live.value) != [] ==>
                  Markers(content) == Markers(live.value) && Budget(content) == Budget(live.value))
            && (Budget(content).Some? ==> |content| <= Budget(content).value)
  {
    var text := live.value;
    var at := Find(text, oldText, 0).value;
    hide Budget, Markers, Starts, Find, WithMarker, StartsAt;
    var content := Splice(text, at, oldText, newText);
    OnePlace(text, oldText, newText);
    BudgetIsFirstMarker(text);
    if Markers(text) != [] {
      SameMarkersSameBudget(text, content);
    }
  }

  ghost predicate OneStart(text: string, passage: string, at: nat) {
    StartsAt(text, passage, at) && forall i: nat | StartsAt(text, passage, i) :: i == at
  }

  /** The text may be written in place of `text`: not blank, the same markers if there were any, within its budget. */
  ghost predicate MayReplace(text: string, content: string) {
    && !IsBlank(content)
    && (Markers(text) != [] ==> Markers(content) == Markers(text))
    && (Budget(content).Some? ==> |content| <= Budget(content).value)
  }

  /** An edit is accepted exactly if its passage starts at one place and what replacing it leaves may be written. */
  lemma EditAcceptedExactly(live: Option<string>, oldText: string, newText: string)
    ensures EditText(live, oldText, newText).Edited? <==>
            && oldText != "" && live.Some?
            && exists at :: OneStart(live.value, oldText, at)
                            && MayReplace(live.value, Splice(live.value, at, oldText, newText))
  {
    if oldText != "" && live.Some? {
      hide EditText, OneStart, MayReplace;
      forall at: nat | OneStart(live.value, oldText, at)
        ensures at + |oldText| <= |live.value|
        ensures EditText(live, oldText, newText).Edited? <==>
                MayReplace(live.value, Splice(live.value, at, oldText, newText))
      {
        AcceptedAt(live.value, oldText, newText, at);
      }
      if !exists at :: OneStart(live.value, oldText, at) {
        RefusedWithoutOneStart(live.value, oldText, newText);
      }
    }
  }

  lemma AcceptedAt(text: string, oldText: string, newText: string, at: nat)
    requires oldText != "" && OneStart(text, oldText, at)
    ensures at + |oldText| <= |text|
    ensures EditText(Some(text), oldText, newText).Edited? <==> MayReplace(text, Splice(text, at, oldText, newText))
  {
    OneStartIsCounted(text, oldText);
    assert at + |oldText| <= |text| && Find(text, oldText, 0) == Some(at);
    hide Budget, Markers, IsBlank, WithMarker, Find, Starts, StartsAt, Enforce, Splice, OneStart;
    var content := Splice(text, at, oldText, newText);
    if Markers(text) != [] ==> Markers(content) == Markers(text) {
      WrittenExactly(text, content);
    }
  }

  lemma RefusedWithoutOneStart(text: string, oldText: string, newText: string)
    requires oldText != "" && !exists at :: OneStart(text, oldText, at)
    ensures !EditText(Some(text), oldText, newText).Edited?
  {
    OneStartIsCounted(text, oldText);
    hide Budget, Markers, IsBlank, WithMarker, Find, Starts, Enforce, Splice, OneStart;
  }

  /** The first place found is the only one exactly if one is counted. */
  lemma OneStartIsCounted(text: string, passage: string)
    ensures var at := Find(text, passage, 0);
            && (at.Some? && Starts(text, passage, |text| + 1) <= 1 ==>
                  at.value + |passage| <= |text| && OneStart(text, passage, at.value))
            && ((exists i :: OneStart(text, passage, i)) ==> at.Some? && Starts(text, passage, |text| + 1) <= 1)
  {
    var at := Find(text, passage, 0);
    if at.Some? && Starts(text, passage, |text| + 1) <= 1 {
      OnePlace(text, passage, "");
      assert OneStart(text, passage, at.value);
    }
    if i :| OneStart(text, passage, i) {
      StartsOnce(text, passage, |text| + 1, i);
    }
  }

  lemma {:induction false} StartsOnce(text: string, passage: string, n: nat, at: nat)
    requires OneStart(text, passage, at)
    ensures Starts(text, passage, n) <= 1 && (n <= at ==> Starts(text, passage, n) == 0)
  {
    hide StartsAt;
    if n > 0 {
      StartsOnce(text, passage, n - 1, at);
    }
  }

  lemma WrittenExactly(text: string, content: string)
    requires Markers(text) != [] ==> Markers(content) == Markers(text)
    ensures Enforce(content, Some(text), false).Fits? <==>
            (Budget(content).Some? ==> |content| <= Budget(content).value)
  {
    hide Budget, Markers, WithMarker;
    BudgetIsFirstMarker(text);
    if Markers(text) != [] {
      SameMarkersSameBudget(text, content);
    }
  }

  lemma OnePlace(text: string, oldText: string, newText: string)
    requires Find(text, oldText, 0).Some? && Starts(text, oldText, |text| + 1) <= 1
    ensures var at := Find(text, oldText, 0).value;
            at + |oldText| <= |text| && EditedAt(text, oldText, newText, Splice(text, at, oldText, newText), at)
  {
    var at := Find(text, oldText, 0).value;
    StartsBelow(text, oldText, at);
    StartsCount(text, oldText, |text| + 1, at);
    forall i: nat | StartsAt(text, oldText, i) ensures i == at {
      StartsBelow(text, oldText, i);
      SingleStart(text, oldText, |text| + 1, i, at);
    }
  }

  function Edit(rows: seq<Row>, namespace: string, key: string, oldText: string, newText: string): seq<Row> {
    var r := EditText(Live(rows, namespace, key), oldText, newText);
    if r.Edited? then Replace(rows, namespace, key, r.content) else rows
  }

  /**
   An accepted edit is stored: its document reads as the accepted text, every other as before, and the row
   it replaces is archived with its text. A refused one changes nothing.
   */
  lemma EditIsStored(rows: seq<Row>, namespace: string, key: string, oldText: string, newText: string,
                     ns: string, k: string)
    requires OneLive(rows)
    ensures var after := Apply(rows, DoEdit(namespace, key, oldText, newText));
            var r := EditText(Live(rows, namespace, key), oldText, newText);
            if r.Edited? then
              && Live(after, namespace, key) == Some(r.content) && |after| == |rows| + 1
              && (ns != namespace || k != key ==> Live(after, ns, k) == Live(rows, ns, k))
              && KeptHistory(rows, after, namespace, key)
            else after == rows
  {
    var r := EditText(Live(rows, namespace, key), oldText, newText);
    if r.Edited? {
      ReplaceReads(rows, namespace, key, r.content, namespace, key);
      ReplaceReads(rows, namespace, key, r.content, ns, k);
      ReplaceKeepsHistory(rows, namespace, key, r.content);
    }
    hide EditText, Live, Replace, OneLive, KeptHistory;
  }

  // ---- The ratchet --------------------------------------------------------------------------

  datatype Op =
    | DoUpsert(namespace: string, key: string, content: string, allow: bool)
    | DoEdit(namespace: string, key: string, oldText: string, newText: string)
    | DoUpdate(id: nat, content: string)
    | DoArchive(id: nat)

  predicate Possible(rows: seq<Row>, op: Op) {
    match op
    case DoUpdate(id, _) => id < |rows|
    case DoArchive(id) => id < |rows|
    case _ => true
  }

  function Apply(rows: seq<Row>, op: Op): seq<Row>
    requires Possible(rows, op)
  {
    match op
    case DoUpsert(namespace, key, content, allow) => Upsert(rows, namespace, key, content, allow)
    case DoEdit(namespace, key, oldText, newText) => Edit(rows, namespace, key, oldText, newText)
    case DoUpdate(id, content) => Update(rows, id, content)
    case DoArchive(id) => Archive(rows, id)
  }

  ghost predicate History(rows: seq<Row>, ops: seq<Op>)
    decreases |ops|
  {
    ops == [] || (Possible(rows, ops[0]) && History(Apply(rows, ops[0]), ops[1..]))
  }

  ghost function Exec(rows: seq<Row>, ops: seq<Op>): seq<Row>
    requires History(rows, ops)
    decreases |ops|
  {
    if ops == [] then rows else Exec(Apply(rows, ops[0]), ops[1..])
  }

  /** An operation that archives the document, or forces onto it a budget below 10. */
  predicate Gives(rows: seq<Row>, op: Op, namespace: string, key: string)
    requires Possible(rows, op)
  {
    match op
    case DoArchive(id) => IsLive(rows[id], namespace, key)
    case DoUpsert(ns, k, content, allow) =>
      ns == namespace && k == key && allow && Budget(content).Some? && Budget(content).value < 10
    case _ => false
  }

  /** Keys are not empty, as every caller passes one. */
  ghost predicate NamedKeys(rows: seq<Row>) {
    forall row :: row in rows ==> row.key != Some("")
  }

  ghost predicate Ratcheted(rows: seq<Row>, namespace: string, key: string) {
    Live(rows, namespace, key).Some? && Declares(Live(rows, namespace, key).value)
  }

  /** The document fits the budget it declares. */
  ghost predicate Fitting(rows: seq<Row>, namespace: string, key: string) {
    var live := Live(rows, namespace, key);
    live.Some? && Budget(live.value).Some? && |live.value| <= Budget(live.value).value
  }

  /** A write to the document with leave to go over its budget. */
  predicate Overrides(op: Op, namespace: string, key: string) {
    op.DoUpsert? && op.allow && op.namespace == namespace && op.key == key
  }

  /** The document's new text fits, if this operation wrote one without leave to go over budget. */
  ghost predicate WroteWithin(rows: seq<Row>, op: Op, namespace: string, key: string)
    requires Possible(rows, op)
  {
    Live(Apply(rows, op), namespace, key) != Live(rows, namespace, key) && !Overrides(op, namespace, key) ==>
      Fitting(Apply(rows, op), namespace, key)
  }

  lemma UpsertRatchets(rows: seq<Row>, op: Op, namespace: string, key: string)
    requires OneLive(rows) && Ratcheted(rows, namespace, key) && op.DoUpsert? && !Gives(rows, op, namespace, key)
    ensures OneLive(Apply(rows, op)) && Ratcheted(Apply(rows, op), namespace, key)
    ensures WroteWithin(rows, op, namespace, key)
  {
    var live := Live(rows, op.namespace, op.key);
    var checked := Enforce(op.content, live, op.allow);
    if checked.Fits? {
      ReplaceReads(rows, op.namespace, op.key, checked.content, namespace, key);
      if op.namespace == namespace && op.key == key {
        KeepsDeclaring(op.content, live, op.allow);
        if !op.allow {
          AcceptedFits(op.content, live);
        }
      }
    }
    hide Budget, WithMarker, Live, Replace, OneLive;
  }

  lemma EditRatchets(rows: seq<Row>, op: Op, namespace: string, key: string)
    requires OneLive(rows) && Ratcheted(rows, namespace, key) && op.DoEdit?
    ensures OneLive(Apply(rows, op)) && Ratcheted(Apply(rows, op), namespace, key)
    ensures WroteWithin(rows, op, namespace, key)
  {
    var live := Live(rows, op.namespace, op.key);
    var r := EditText(live, op.oldText, op.newText);
    if r.Edited? {
      ReplaceReads(rows, op.namespace, op.key, r.content, namespace, key);
      EditChangesOnePlace(live, op.oldText, op.newText);
      BudgetIsFirstMarker(live.value);
    }
    hide Budget, Markers, EditText, Live, Replace, OneLive;
  }

  lemma UpdateRatchets(rows: seq<Row>, op: Op, namespace: string, key: string)
    requires OneLive(rows) && NamedKeys(rows) && Ratcheted(rows, namespace, key) && op.DoUpdate? && Possible(rows, op)
    ensures OneLive(Apply(rows, op)) && Ratcheted(Apply(rows, op), namespace, key)
    ensures WroteWithin(rows, op, namespace, key)
  {
    var row := rows[op.id];
    var checked := Updated(row, op.content);
    assert row in rows;
    if checked.Fits? {
      UpdateReads(rows, op.id, checked.content, namespace, key);
      if IsLive(row, namespace, key) {
        LiveIs(rows, namespace, key, op.id);
        KeepsDeclaring(op.content, Some(row.content), false);
        AcceptedFits(op.content, Some(row.content));
      }
    }
    hide Budget, WithMarker, Live, OneLive;
  }

  /**
   A budget of 10 or more ends exactly with an operation that archives the document or forces a smaller
   one onto it; every other write without leave to exceed it fits.
   */
  lemma ApplyRatchets(rows: seq<Row>, op: Op, namespace: string, key: string)
    requires OneLive(rows) && NamedKeys(rows) && Ratcheted(rows, namespace, key) && Possible(rows, op)
    ensures OneLive(Apply(rows, op))
    ensures Ratcheted(Apply(rows, op), namespace, key) <==> !Gives(rows, op, namespace, key)
    ensures !Gives(rows, op, namespace, key) ==> WroteWithin(rows, op, namespace, key)
  {
    if Gives(rows, op, namespace, key) {
      GivingEndsIt(rows, op, namespace, key);
    } else {
      match op
      case DoUpsert(_, _, _, _) => UpsertRatchets(rows, op, namespace, key);
      case DoEdit(_, _, _, _) => EditRatchets(rows, op, namespace, key);
      case DoUpdate(_, _) => UpdateRatchets(rows, op, namespace, key);
      case DoArchive(id) => ArchiveReads(rows, id, namespace, key);
    }
  }

  lemma GivingEndsIt(rows: seq<Row>, op: Op, namespace: string, key: string)
    requires OneLive(rows) && Possible(rows, op) && Gives(rows, op, namespace, key)
    ensures OneLive(Apply(rows, op)) && !Ratcheted(Apply(rows, op), namespace, key)
  {
    if op.DoArchive? {
      ArchiveReads(rows, op.id, namespace, key);
    } else {
      ReplaceReads(rows, namespace, key, op.content, namespace, key);
    }
    hide Budget, WithMarker, Live, Replace, OneLive;
  }

  lemma ApplyKeepsNames(rows: seq<Row>, op: Op)
    requires NamedKeys(rows) && Possible(rows, op) && (op.DoUpsert? || op.DoEdit? ==> op.key != "")
    ensures NamedKeys(Apply(rows, op))
  {
    hide Enforce, EditText, FindLive;
    var after := Apply(rows, op);
    forall row | row in after ensures row.key != Some("") {
      var i :| 0 <= i < |after| && after[i] == row;
      assert i < |rows| ==> after[i].key == rows[i].key && rows[i] in rows;
    }
  }

  /** The history leaves the document and its budget alone, in the sense of `Gives`, and names every document. */
  ghost predicate CarefulHistory(rows: seq<Row>, ops: seq<Op>, namespace: string, key: string)
    requires History(rows, ops)
    decreases |ops|
  {
    ops == [] ||
    (&& !Gives(rows, ops[0], namespace, key)
     && (ops[0].DoUpsert? || ops[0].DoEdit? ==> ops[0].key != "")
     && CarefulHistory(Apply(rows, ops[0]), ops[1..], namespace, key))
  }

  /**
   The ratchet: once a document declares a budget of at least 10, every later version declares one,
   whatever is upserted, edited or updated in whatever order, also over budget by leave; and without
   such leave a document that fits its budget always will.
   */
  lemma {:induction false} BudgetsRatchet(rows: seq<Row>, ops: seq<Op>, namespace: string, key: string)
    requires OneLive(rows) && NamedKeys(rows) && Ratcheted(rows, namespace, key)
    requires History(rows, ops) && CarefulHistory(rows, ops, namespace, key)
    ensures OneLive(Exec(rows, ops)) && Ratcheted(Exec(rows, ops), namespace, key)
    ensures Fitting(rows, namespace, key) && (forall op :: op in ops ==> !Overrides(op, namespace, key)) ==>
              Fitting(Exec(rows, ops), namespace, key)
    decreases |ops|
  {
    if ops != [] {
      hide Apply, Live, Budget, OneLive, Ratcheted, NamedKeys, Gives;
      assert ops[0] in ops && forall op :: op in ops[1..] ==> op in ops;
      ApplyRatchets(rows, ops[0], namespace, key);
      ApplyKeepsNames(rows, ops[0]);
      BudgetsRatchet(Apply(rows, ops[0]), ops[1..], namespace, key);
    }
  }

  // ---- The service --------------------------------------------------------------------------

  class MemoryService {
    var rows: seq<Row>

    ghost predicate Valid()
      reads this
    {
      OneLive(rows)
    }

    constructor ()
      ensures Valid() && rows == []
    {
      rows := [];
    }

    method UpsertCanonical(namespace: string, key: string, content: string, allow: bool) returns (r: Checked)
      requires Valid()
      modifies this
      ensures Valid() && rows == Upsert(old(rows), namespace, key, content, allow)
      ensures r == Enforce(content, Live(old(rows), namespace, key), allow)
      ensures r.Fits? ==> Live(rows, namespace, key) == Some(r.content)
      ensures r.Fits? ==> |rows| == |old(rows)| + 1 && KeptHistory(old(rows), rows, namespace, key)
      ensures r.OverBudget? ==> rows == old(rows)
    {
      var previous := FindLive(rows, namespace, key);
      r := Enforce(content, if previous.Some? then Some(rows[previous.value].content) else None, allow);
      if r.OverBudget? {
        return;
      }
      ReplaceReads(rows, namespace, key, r.content, namespace, key);
      ReplaceKeepsHistory(rows, namespace, key, r.content);
      var id := |rows|;
      rows := rows + [Row(namespace, Some(key), r.content, false, None)];
      if previous.Some? {
        rows := rows[previous.value := rows[previous.value].(supersededBy := Some(id))];
        rows := rows[previous.value := rows[previous.value].(archived := true)];
      }
      assert rows == Replace(old(rows), namespace, key, r.content);
    }

    method EditCanonical(namespace: string, key: string, oldText: string, newText: string) returns (r: EditResult)
      requires Valid()
      modifies this
      ensures Valid() && rows == Edit(old(rows), namespace, key, oldText, newText)
      ensures r == EditText(Live(old(rows), namespace, key), oldText, newText)
      ensures r.Edited? ==> Live(rows, namespace, key) == Some(r.content)
      ensures r.Edited? ==> |rows| == |old(rows)| + 1 && KeptHistory(old(rows), rows, namespace, key)
      ensures r.Edited? ==>
                forall ns, k :: ns != namespace || k != key ==> Live(rows, ns, k) == Live(old(rows), ns, k)
      ensures !r.Edited? ==> rows == old(rows)
    {
      if oldText == "" {
        return NoPassage;
      }
      var current := FindLive(rows, namespace, key);
      if current.None? {
        return NoDocument;
      }
      var text := rows[current.value].content;
      var found := Occurrences(text, oldText);
      CountMatchesFind(text, oldText);
      if found == 0 {
        return NotThere;
      }
      if found > 1 {
        return Ambiguous(found);
      }
      var content := Splice(text, Find(text, oldText, 0).value, oldText, newText);
      if IsBlank(content) {
        return LeavesEmpty;
      }
      var markers := Markers(text);
      if markers != [] && Markers(content) != markers {
        return ChangesMarkers;
      }
      ghost var before := rows;
      var checked := UpsertCanonical(namespace, key, content, false);
      forall ns, k | checked.Fits? && (ns != namespace || k != key) ensures Live(rows, ns, k) == Live(before, ns, k) {
        EditIsStored(before, namespace, key, oldText, newText, ns, k);
      }
      match checked {
        case Fits(c) => return Edited(c);
        case OverBudget(size, limit) => return TooLong(size, limit);
      }
    }

    method ArchiveMemory(id: nat)
      requires Valid() && id < |rows|
      modifies this
      ensures Valid() && rows == Archive(old(rows), id)
    {
      ArchiveReads(rows, id, "", "");
      if !rows[id].archived {
        rows := rows[id := rows[id].(archived := true)];
      }
    }

    method UpdateMemory(id: nat, content: string) returns (r: Checked)
      requires Valid() && id < |rows|
      modifies this
      ensures Valid() && rows == Update(old(rows), id, content) && r == Updated(old(rows)[id], content)
    {
      var row := rows[id];
      r := Fits(content);
      if row.key.Some? && row.key.value != "" {
        r := Enforce(content, Some(row.content), false);
        if r.OverBudget? {
          return;
        }
      }
      UpdateReads(rows, id, r.content, "", "");
      rows := rows[id := row.(content := r.content)];
    }
  }

  lemma CountMatchesFind(text: string, passage: string)
    ensures Starts(text, passage, |text| + 1) == 0 <==> Find(text, passage, 0).None?
  {
    var at := Find(text, passage, 0);
    if at.Some? {
      StartsBelow(text, passage, at.value);
      StartsCount(text, passage, |text| + 1, at.value);
    } else {
      NoStartsBetween(text, passage, 0, |text| + 1);
    }
  }
}
