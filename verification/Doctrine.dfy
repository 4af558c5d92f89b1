/** Held document edits: applied where the document still reads as the change saw it, and undone by their reverse. */
module Doctrine {
  import opened Basics
  import opened Text
  import opened Memory

  /** A document's text when a change began (None: new) and after it (None: gone). */
  datatype HeldEdit = HeldEdit(namespace: string, key: string, before: Option<string>, after: Option<string>)

  datatype Status = Conflict | Unchanged | Retired | Created | Applied | TooBig

  function Name(e: HeldEdit): string {
    e.namespace + "/" + e.key
  }

  /** An edit cannot land on this text. */
  predicate Conflicts(live: Option<string>, e: HeldEdit) {
    || (e.before.None? && live.Some? && live != e.after)
    || (e.before.Some? && live.None? && e.after.Some?)
    || (e.before.Some? && live.Some? && live != e.before && live != e.after)
  }

  /** The first part of a message, `line.split(":", 1)[0]`. */
  function BeforeColon(line: string): (r: string)
    ensures ':' !in r
    ensures ':' !in line ==> r == line
  {
    if line == [] || line[0] == ':' then [] else [line[0]] + BeforeColon(line[1..])
  }

  lemma {:induction false} ColonEndsName(name: string, rest: string)
    ensures BeforeColon(name + ":" + rest) == BeforeColon(name)
  {
    var line := name + ":" + rest;
    if name == [] {
      assert line[0] == ':';
    } else {
      assert line[0] == name[0] && line[1..] == name[1..] + ":" + rest;
      ColonEndsName(name[1..], rest);
    }
  }

  // ---- What one edit does to one document ---------------------------------------------------

  /** The document's text after an edit that is not held back. */
  function Landed(live: Option<string>, e: HeldEdit): Option<string> {
    if e.after.None? then None
    else if live == e.after then live
    else
      var checked := Enforce(e.after.value, live, false);
      if checked.Fits? then Some(checked.content) else live
  }

  function StatusOf(live: Option<string>, e: HeldEdit): Status {
    if e.after.None? then (if live.None? then Unchanged else Retired)
    else if live == e.after then Unchanged
    else if Enforce(e.after.value, live, false).OverBudget? then TooBig
    else if live.None? then Created
    else Applied
  }

  /** The document's text after the edit, when exactly the conflicting edits are held back. */
  function Outcome(live: Option<string>, e: HeldEdit): Option<string> {
    if Conflicts(live, e) then live else Landed(live, e)
  }

  function Reversed(e: HeldEdit): HeldEdit {
    HeldEdit(e.namespace, e.key, e.after, e.before)
  }

  function ReversedEdits(edits: seq<HeldEdit>): seq<HeldEdit> {
    seq(|edits|, i requires 0 <= i < |edits| => Reversed(edits[i]))
  }

  /** Landing an edit twice leaves what landing it once leaves, also when a marker was appended. */
  lemma LandedTwice(live: Option<string>, e: HeldEdit)
    ensures Landed(Landed(live, e), e) == Landed(live, e)
  {
    if e.after.Some? && live.Some? && Budget(e.after.value).None? && Budget(live.value).Some? {
      MarkerComesBack(e.after.value, live.value);
    }
    hide Budget, WithMarker;
  }

  /** A marker that is appended within its budget is appended alike the next time. */
  lemma MarkerComesBack(content: string, previous: string)
    requires Budget(content).None? && Budget(previous).Some?
    ensures var n := Budget(previous).value; var w := WithMarker(content, n);
            w != content && (|w| <= n ==> Budget(w) == Some(n))
  {
    BudgetBound(previous);
    AppendedMarkerDeclares(content, Budget(previous).value);
    WithMarkerIsLonger(content, Budget(previous).value);
  }

  predicate FitsItself(content: string) {
    Budget(content).Some? ==> |content| <= Budget(content).value
  }

  /** The edit has a text to write and the budget refuses it. */
  predicate Refused(live: Option<string>, e: HeldEdit) {
    e.after.Some? && live != e.after && Enforce(e.after.value, live, false).OverBudget?
  }

  /** Both texts are there, and only the first declares a budget. */
  predicate DropsMarker(e: HeldEdit) {
    e.before.Some? && e.after.Some? && Budget(e.before.value).Some? && Budget(e.after.value).None?
  }

  /** What becomes of `after` when the document's marker has to be appended to it. */
  function WithOldMarker(e: HeldEdit): string
    requires DropsMarker(e)
  {
    WithMarker(e.after.value, Budget(e.before.value).value)
  }

  /** The edit writes a text that is neither `before` nor `after`: the old marker is appended. */
  predicate WritesThird(e: HeldEdit) {
    DropsMarker(e) && !Refused(e.before, e) && WithOldMarker(e) != e.before.value
  }

  /**
   When applying the reverse brings the text back. There was no text, or the edit changes none, or is
   refused; or else the old text can be written again: it fits the budget it declares, if it declares
   one, and the edit neither adds a marker nor drops one, save where the marker that is put back
   makes `before` again.
   */
  predicate Undoable(e: HeldEdit) {
    || e.before.None? || e.before == e.after || Refused(e.before, e)
    || (if e.after.None? then FitsItself(e.before.value)
        else if Budget(e.after.value).Some? then Budget(e.before.value).Some? && FitsItself(e.before.value)
        else Budget(e.before.value).Some? ==> WithOldMarker(e) == e.before.value)
  }

  /** An edit never conflicts with the text it saw. */
  lemma NoConflictAtFirst(e: HeldEdit)
    ensures !Conflicts(e.before, e) && !Conflicts(e.after, e)
  {
  }

  /** What an edit makes of the text it saw. */
  lemma LandedFirst(e: HeldEdit)
    ensures Landed(e.before, e) ==
              if e.before == e.after || Refused(e.before, e) then e.before
              else if DropsMarker(e) then Some(WithOldMarker(e))
              else e.after
  {
    hide Budget, WithMarker;
  }

  /** The reverse conflicts with what the edit left exactly when that is a third text. */
  lemma ConflictsBack(e: HeldEdit)
    ensures Conflicts(Landed(e.before, e), Reversed(e)) <==> WritesThird(e)
  {
    LandedFirst(e);
    if DropsMarker(e) {
      MarkerComesBack(e.after.value, e.before.value);
    }
    hide Landed, Refused, WithOldMarker, Budget, WithMarker;
  }

  /** An edit that writes no third text is undone, past the conflict check, exactly when it is undoable. */
  lemma LandsBack(e: HeldEdit)
    requires !WritesThird(e)
    ensures Landed(Landed(e.before, e), Reversed(e)) == e.before <==> Undoable(e)
  {
    LandedFirst(e);
    if e.before.Some? && e.after.Some? && Budget(e.before.value).None? && Budget(e.after.value).Some? {
      MarkerComesBack(e.before.value, e.after.value);
    }
    hide Budget, WithMarker;
  }

  /** A third text lets the old one be written again, past the conflict check, exactly when it fits its budget. */
  lemma ThirdLandsBack(e: HeldEdit)
    requires WritesThird(e)
    ensures Landed(e.before, e) != e.before && !Undoable(e)
    ensures Landed(Landed(e.before, e), Reversed(e)) == e.before <==> FitsItself(e.before.value)
  {
    LandedFirst(e);
    hide Budget, WithMarker;
  }

  /** The round trip of one document, with the exact condition under which it is one. */
  lemma UndoRestoresExactly(e: HeldEdit)
    ensures Outcome(Outcome(e.before, e), Reversed(e)) == e.before <==> Undoable(e)
  {
    NoConflictAtFirst(e);
    ConflictsBack(e);
    if WritesThird(e) {
      ThirdLandsBack(e);
    } else {
      LandsBack(e);
    }
    hide Conflicts, Landed, Undoable, WritesThird;
  }

  /** Edits that are not undone: one adds a marker, one finds its old text over the budget it declares. */
  lemma SomeEditsAreNotUndone()
    ensures var e := HeldEdit("n", "a", Some("a"), Some("<!-- tasque:max_chars=99 -->"));
            FitsItself(e.after.value) && !Undoable(e)
    ensures var e := HeldEdit("n", "a", Some("<!-- tasque:max_chars=12 -->"), Some("<!-- tasque:max_chars=99 -->"));
            Budget(e.before.value).Some? && FitsItself(e.after.value) && !Undoable(e)
  {
    hide FitsItself, Undoable;
    BudgetsOfExamples();
    NoRoomForMarker("a");
    var big, small := "<!-- tasque:max_chars=99 -->", "<!-- tasque:max_chars=12 -->";
    assert |big| == |small| == 28;
    OldTextIsRefused("n", "a", "a", big);
    OldTextIsRefused("n", "a", small, big);
  }

  /** An edit that lands is not undone when only its new text declares a budget, or its old one exceeds its own. */
  lemma OldTextIsRefused(ns: string, k: string, before: string, after: string)
    requires before != after && Budget(after).Some? && |after| <= Budget(after).value
    requires Budget(before).None? || |before| > Budget(before).value
    ensures FitsItself(after) && !Undoable(HeldEdit(ns, k, Some(before), Some(after)))
  {
    hide Budget, WithMarker;
  }

  lemma BudgetsOfExamples()
    ensures Budget("<!-- tasque:max_chars=99 -->") == Some(99) && Budget("<!-- tasque:max_chars=12 -->") == Some(12)
  {
    hide Budget, ToNat;
    assert "<!-- tasque:max_chars=99 -->" == "<!-- tasque:max_chars=" + ['9', '9'] + " -->";
    assert "<!-- tasque:max_chars=12 -->" == "<!-- tasque:max_chars=" + ['1', '2'] + " -->";
    MarkerOfTwoDigits('9', '9');
    MarkerOfTwoDigits('1', '2');
    TwoDigits('9', '9');
    TwoDigits('1', '2');
  }

  // ---- A list of edits over the store -------------------------------------------------------

  function LiveOf(rows: seq<Row>, e: HeldEdit): Option<string> {
    Live(rows, e.namespace, e.key)
  }

  /** The names `apply_held` holds back: each conflict's message, up to its first colon. */
  function Blocked(rows: seq<Row>, edits: seq<HeldEdit>): (names: set<string>)
    ensures forall n :: n in names <==>
              exists i :: 0 <= i < |edits| && Conflicts(LiveOf(rows, edits[i]), edits[i])
                          && n == BeforeColon(Name(edits[i]))
  {
    set i | 0 <= i < |edits| && Conflicts(LiveOf(rows, edits[i]), edits[i]) :: BeforeColon(Name(edits[i]))
  }

  /** One edit over the store, past the conflict check. */
  function Land(rows: seq<Row>, e: HeldEdit): seq<Row> {
    var id := FindLive(rows, e.namespace, e.key);
    if e.after.None? then (if id.None? then rows else Archive(rows, id.value))
    else if LiveOf(rows, e) == e.after then rows
    else Upsert(rows, e.namespace, e.key, e.after.value, false)
  }

  /** The first `n` edits, with a fixed set of blocked names. */
  function LandFirst(rows: seq<Row>, edits: seq<HeldEdit>, blocked: set<string>, n: nat): seq<Row>
    requires n <= |edits|
  {
    if n == 0 then rows
    else
      var sofar := LandFirst(rows, edits, blocked, n - 1);
      if Name(edits[n - 1]) in blocked then sofar else Land(sofar, edits[n - 1])
  }

  /** `apply_held`. */
  function ApplyHeld(rows: seq<Row>, edits: seq<HeldEdit>): seq<Row> {
    LandFirst(rows, edits, Blocked(rows, edits), |edits|)
  }

  predicate SameDocument(a: HeldEdit, b: HeldEdit) {
    a.namespace == b.namespace && a.key == b.key
  }

  ghost predicate Distinct(edits: seq<HeldEdit>) {
    forall i, j | 0 <= i < j < |edits| :: !SameDocument(edits[i], edits[j])
  }

  /** An edit names a document of a plain namespace: `doctrine/<namespace>/<key>.md` leaves no slash in it. */
  ghost predicate PlainNamespaces(edits: seq<HeldEdit>) {
    forall e :: e in edits ==> '/' !in e.namespace
  }

  ghost predicate NoColons(edits: seq<HeldEdit>) {
    forall e :: e in edits ==> ':' !in Name(e)
  }

  lemma SplitAtFirst(a: string, b: string, c: string, d: string)
    requires a + "/" + b == c + "/" + d && '/' !in a && '/' !in c
    ensures a == c && b == d
  {
    var whole := a + "/" + b;
    assert whole[|a|] == '/' && whole[|c|] == '/';
    assert forall k | 0 <= k < |a| :: whole[k] == a[k];
    assert forall k | 0 <= k < |c| :: whole[k] == c[k];
    assert |a| == |c|;
    assert a == whole[..|a|] && c == whole[..|c|];
    assert b == whole[|a| + 1..] && d == whole[|c| + 1..];
  }

  lemma LandReads(rows: seq<Row>, e: HeldEdit, ns: string, k: string)
    requires OneLive(rows)
    ensures OneLive(Land(rows, e))
    ensures Live(Land(rows, e), ns, k)
            == if ns == e.namespace && k == e.key then Landed(LiveOf(rows, e), e) else Live(rows, ns, k)
  {
    var id := FindLive(rows, e.namespace, e.key);
    if e.after.None? {
      if id.Some? {
        ArchiveReads(rows, id.value, ns, k);
      }
    } else if LiveOf(rows, e) != e.after {
      var checked := Enforce(e.after.value, LiveOf(rows, e), false);
      if checked.Fits? {
        ReplaceReads(rows, e.namespace, e.key, checked.content, ns, k);
      }
    }
    hide Enforce, Replace, OneLive;
  }

  /** Documents no edit names keep their text. */
  lemma {:induction false} LandFirstLeaves(rows: seq<Row>, edits: seq<HeldEdit>, blocked: set<string>, n: nat,
                                          ns: string, k: string)
    requires OneLive(rows) && n <= |edits|
    ensures OneLive(LandFirst(rows, edits, blocked, n))
    ensures (forall i | 0 <= i < n :: edits[i].namespace != ns || edits[i].key != k) ==>
              Live(LandFirst(rows, edits, blocked, n), ns, k) == Live(rows, ns, k)
  {
    if n > 0 {
      LandFirstLeaves(rows, edits, blocked, n - 1, ns, k);
      LandReads(LandFirst(rows, edits, blocked, n - 1), edits[n - 1], ns, k);
    }
    hide Land, Landed, Live, OneLive;
  }

  /** A document one edit names reads as that edit leaves it. */
  lemma {:induction false} LandFirstReads(rows: seq<Row>, edits: seq<HeldEdit>, blocked: set<string>, n: nat, i: nat)
    requires OneLive(rows) && Distinct(edits) && n <= |edits| && i < |edits|
    ensures LiveOf(LandFirst(rows, edits, blocked, n), edits[i])
            == if i < n && Name(edits[i]) !in blocked then Landed(LiveOf(rows, edits[i]), edits[i])
               else LiveOf(rows, edits[i])
  {
    hide Land, Landed, Live, OneLive, Name, Distinct;
    var e := edits[i];
    if i >= n {
      NotNamedBefore(edits, i, n);
      LandFirstLeaves(rows, edits, blocked, n, e.namespace, e.key);
    } else {
      LandFirstLeaves(rows, edits, blocked, n - 1, e.namespace, e.key);
      LandReads(LandFirst(rows, edits, blocked, n - 1), edits[n - 1], e.namespace, e.key);
      if i == n - 1 {
        NotNamedBefore(edits, i, i);
      } else {
        NotNamedBefore(edits, n - 1, n - 1);
        LandFirstReads(rows, edits, blocked, n - 1, i);
      }
    }
  }

  lemma NotNamedBefore(edits: seq<HeldEdit>, i: nat, n: nat)
    requires Distinct(edits) && n <= i < |edits|
    ensures forall j | 0 <= j < n :: edits[j].namespace != edits[i].namespace || edits[j].key != edits[i].key
  {
    assert forall j | 0 <= j < n :: !SameDocument(edits[j], edits[i]);
  }

  // ---- Which edits are held back ------------------------------------------------------------

  /** With no colon in a name, exactly the conflicting edits are held back. */
  lemma BlockedIsConflict(rows: seq<Row>, edits: seq<HeldEdit>, k: nat)
    requires Distinct(edits) && PlainNamespaces(edits) && NoColons(edits) && k < |edits|
    ensures Name(edits[k]) in Blocked(rows, edits) <==> Conflicts(LiveOf(rows, edits[k]), edits[k])
  {
    assert edits[k] in edits;
    if Name(edits[k]) in Blocked(rows, edits) {
      var i :| 0 <= i < |edits| && Conflicts(LiveOf(rows, edits[i]), edits[i])
               && Name(edits[k]) == BeforeColon(Name(edits[i]));
      assert edits[i] in edits;
      SplitAtFirst(edits[i].namespace, edits[i].key, edits[k].namespace, edits[k].key);
      assert SameDocument(edits[i], edits[k]) && SameDocument(edits[k], edits[i]);
    }
    hide Conflicts, LiveOf;
  }

  /** A conflicting edit is held back exactly when its document's name has no colon. */
  lemma HeldBackUnlessColon(rows: seq<Row>, edits: seq<HeldEdit>, k: nat)
    requires k < |edits| && Conflicts(LiveOf(rows, edits[k]), edits[k])
    ensures Name(edits[k]) in Blocked(rows, edits) <==> ':' !in Name(edits[k])
  {
  }

  /** An edit without a conflict is held back exactly when a conflicting one's name leads with its own. */
  lemma HeldBackForAnother(rows: seq<Row>, edits: seq<HeldEdit>, k: nat)
    requires k < |edits| && !Conflicts(LiveOf(rows, edits[k]), edits[k])
    ensures Name(edits[k]) in Blocked(rows, edits) <==>
            exists j :: 0 <= j < |edits| && j != k && Conflicts(LiveOf(rows, edits[j]), edits[j])
                        && BeforeColon(Name(edits[j])) == Name(edits[k])
  {
    hide Conflicts, LiveOf, Name, BeforeColon;
  }

  /** What applying a list does to each document: nothing where its name is held back, else what its edit leaves. */
  lemma ApplyHeldExactly(rows: seq<Row>, edits: seq<HeldEdit>, i: nat)
    requires OneLive(rows) && Distinct(edits) && i < |edits|
    ensures OneLive(ApplyHeld(rows, edits))
    ensures LiveOf(ApplyHeld(rows, edits), edits[i]) ==
              if Name(edits[i]) in Blocked(rows, edits) then LiveOf(rows, edits[i])
              else Landed(LiveOf(rows, edits[i]), edits[i])
  {
    LandFirstReads(rows, edits, Blocked(rows, edits), |edits|, i);
    LandFirstLeaves(rows, edits, Blocked(rows, edits), |edits|, "", "");
    hide Landed, LiveOf, Blocked, LandFirst, OneLive, Distinct;
  }

  ghost predicate Names(edits: seq<HeldEdit>, ns: string, k: string) {
    exists i | 0 <= i < |edits| :: edits[i].namespace == ns && edits[i].key == k
  }

  lemma OthersAreKept(rows: seq<Row>, edits: seq<HeldEdit>, ns: string, k: string)
    requires OneLive(rows) && !Names(edits, ns, k)
    ensures OneLive(ApplyHeld(rows, edits)) && Live(ApplyHeld(rows, edits), ns, k) == Live(rows, ns, k)
  {
    LandFirstLeaves(rows, edits, Blocked(rows, edits), |edits|, ns, k);
    hide Blocked, LandFirst, Live, OneLive;
  }

  /** With no colon in a name: each document reads as the outcome of its own edit, every other as before. */
  lemma ApplyHeldReads(rows: seq<Row>, edits: seq<HeldEdit>, ns: string, k: string)
    requires OneLive(rows) && Distinct(edits) && PlainNamespaces(edits) && NoColons(edits)
    ensures OneLive(ApplyHeld(rows, edits))
    ensures forall i: nat | i < |edits| ::
              LiveOf(ApplyHeld(rows, edits), edits[i]) == Outcome(LiveOf(rows, edits[i]), edits[i])
    ensures !Names(edits, ns, k) ==> Live(ApplyHeld(rows, edits), ns, k) == Live(rows, ns, k)
  {
    LandFirstLeaves(rows, edits, Blocked(rows, edits), |edits|, ns, k);
    forall i: nat | i < |edits|
      ensures LiveOf(ApplyHeld(rows, edits), edits[i]) == Outcome(LiveOf(rows, edits[i]), edits[i])
    {
      ApplyHeldExactly(rows, edits, i);
      BlockedIsConflict(rows, edits, i);
    }
    hide Landed, Conflicts, Blocked, LandFirst, Live;
  }

  /** A document with a colon in its name is never held back. */
  lemma ColonDefeatsTheGuard(rows: seq<Row>, edits: seq<HeldEdit>, k: nat)
    requires OneLive(rows) && Distinct(edits) && k < |edits| && ':' in Name(edits[k])
    ensures LiveOf(ApplyHeld(rows, edits), edits[k]) == Landed(LiveOf(rows, edits[k]), edits[k])
  {
    ApplyHeldExactly(rows, edits, k);
    hide Landed, LiveOf, ApplyHeld, Conflicts;
  }

  /**
   A document that reads neither as the change saw it nor as the change leaves it is left alone exactly
   when its name has no colon, or landing the edit would not change it.
   */
  lemma ForeignTextIsKept(rows: seq<Row>, edits: seq<HeldEdit>, k: nat)
    requires OneLive(rows) && Distinct(edits) && k < |edits|
    requires LiveOf(rows, edits[k]) != edits[k].before && LiveOf(rows, edits[k]) != edits[k].after
    ensures LiveOf(ApplyHeld(rows, edits), edits[k]) == LiveOf(rows, edits[k]) <==>
            ':' !in Name(edits[k]) || Landed(LiveOf(rows, edits[k]), edits[k]) == LiveOf(rows, edits[k])
  {
    ApplyHeldExactly(rows, edits, k);
    HeldBackUnlessColon(rows, edits, k);
    hide Landed, LiveOf, ApplyHeld, Blocked;
  }

  // ---- Applying twice -----------------------------------------------------------------------

  /** The edit leaves the text it saw as it is. */
  predicate ChangesNothing(e: HeldEdit) {
    Landed(e.before, e) == e.before
  }

  /** Landing the edit on some text it conflicts with ends the conflict. */
  predicate CanSettle(e: HeldEdit) {
    e.after.None? || FitsItself(e.after.value)
  }

  /**
   No edit that changes something has the name another's leads with, where that other has a colon in its
   name, so that it lands in spite of its conflict, and can settle it.
   */
  ghost predicate Steady(edits: seq<HeldEdit>) {
    forall i, j | 0 <= i < |edits| && 0 <= j < |edits| :: !Shadows(edits[j], edits[i])
  }

  predicate Shadows(other: HeldEdit, e: HeldEdit) {
    BeforeColon(Name(other)) == Name(e) && ':' in Name(other) && CanSettle(other) && !ChangesNothing(e)
  }

  ghost predicate TwiceIsOnce(rows: seq<Row>, edits: seq<HeldEdit>) {
    forall ns, k :: Live(ApplyHeld(ApplyHeld(rows, edits), edits), ns, k) == Live(ApplyHeld(rows, edits), ns, k)
  }

  /** What is reported of an edit that lands tells what became of the document. */
  lemma StatusTells(live: Option<string>, e: HeldEdit)
    ensures var status, after := StatusOf(live, e), Landed(live, e);
            && !status.Conflict?
            && (status.Unchanged? <==> live == e.after)
            && (status.Retired? <==> live.Some? && after.None?)
            && (status.Created? <==> live.None? && after.Some?)
            && (status.TooBig? <==> Refused(live, e))
            && (status.Unchanged? || status.TooBig? ==> after == live)
            && (status.Applied? ==> live.Some? && after.Some? && e.after.Some? && !Refused(live, e)
                                    && after.value == WouldStore(e.after.value, live))
  {
    if e.after.Some? {
      AcceptedExactly(e.after.value, live, false);
    }
    hide Enforce, WouldStore, HeldTo;
  }

  /** For distinct documents the report of each edit is of the text its document had, and says if it was held back. */
  lemma {:induction false} ReportIsTrue(rows: seq<Row>, edits: seq<HeldEdit>, blocked: set<string>, n: nat, i: nat)
    requires OneLive(rows) && Distinct(edits) && i < n <= |edits|
    ensures StatusesFirst(rows, edits, blocked, n)[i] ==
              if Name(edits[i]) in blocked then Conflict else StatusOf(LiveOf(rows, edits[i]), edits[i])
  {
    hide StatusOf, LiveOf, LandFirst, OneLive, Distinct, Name;
    if i == n - 1 {
      LandFirstReads(rows, edits, blocked, n - 1, i);
    } else {
      ReportIsTrue(rows, edits, blocked, n - 1, i);
    }
  }

  /** An edit whose landing ended its conflict can settle. */
  lemma SettlesIfItDid(live: Option<string>, e: HeldEdit)
    requires Conflicts(live, e) && !Conflicts(Landed(live, e), e)
    ensures CanSettle(e)
  {
    hide Budget, WithMarker;
  }

  /** The second pass changes a document only if the first held it back and the second does not. */
  lemma ChangesOnceReleased(rows: seq<Row>, edits: seq<HeldEdit>, i: nat)
    requires OneLive(rows) && Distinct(edits) && i < |edits|
    ensures var once := ApplyHeld(rows, edits);
            LiveOf(ApplyHeld(once, edits), edits[i]) != LiveOf(once, edits[i]) ==>
              && Name(edits[i]) in Blocked(rows, edits) && Name(edits[i]) !in Blocked(once, edits)
              && LiveOf(once, edits[i]) == LiveOf(rows, edits[i])
              && Landed(LiveOf(rows, edits[i]), edits[i]) != LiveOf(rows, edits[i])
  {
    ApplyHeldExactly(rows, edits, i);
    ApplyHeldExactly(ApplyHeld(rows, edits), edits, i);
    LandedTwice(LiveOf(rows, edits[i]), edits[i]);
    hide Landed, LiveOf, ApplyHeld, Blocked, OneLive, Distinct;
  }

  /** It was held back for another document, with a colon in its name, whose conflict the first pass settled. */
  lemma ReleasedByAnother(rows: seq<Row>, edits: seq<HeldEdit>, i: nat) returns (j: nat)
    requires OneLive(rows) && Distinct(edits) && i < |edits|
    requires Name(edits[i]) in Blocked(rows, edits) && Name(edits[i]) !in Blocked(ApplyHeld(rows, edits), edits)
    ensures j < |edits| && BeforeColon(Name(edits[j])) == Name(edits[i])
    ensures ':' in Name(edits[j]) && CanSettle(edits[j])
  {
    hide Conflicts, Landed, LiveOf, ApplyHeld, OneLive, Distinct, Name, CanSettle;
    j :| 0 <= j < |edits| && Conflicts(LiveOf(rows, edits[j]), edits[j])
         && Name(edits[i]) == BeforeColon(Name(edits[j]));
    ApplyHeldExactly(rows, edits, j);
    assert !Conflicts(LiveOf(ApplyHeld(rows, edits), edits[j]), edits[j]);
    assert Name(edits[j]) !in Blocked(rows, edits);
    HeldBackUnlessColon(rows, edits, j);
    SettlesIfItDid(LiveOf(rows, edits[j]), edits[j]);
  }

  /** Without a conflict, only the text an edit saw is changed by it. */
  lemma LandsOnWhatItSaw(live: Option<string>, e: HeldEdit)
    requires !Conflicts(live, e) && Landed(live, e) != live
    ensures live == e.before && !ChangesNothing(e)
  {
    hide Enforce;
  }

  /** Applying a steady list twice leaves every document as applying it once does. */
  lemma ApplyingTwiceChangesNothing(rows: seq<Row>, edits: seq<HeldEdit>)
    requires OneLive(rows) && Distinct(edits) && Steady(edits)
    ensures TwiceIsOnce(rows, edits)
  {
    hide Blocked, Conflicts, Landed, LiveOf, ApplyHeld, OneLive, Distinct, Steady;
    var once := ApplyHeld(rows, edits);
    forall i: nat | i < |edits|
      ensures LiveOf(ApplyHeld(once, edits), edits[i]) == LiveOf(once, edits[i])
    {
      SteadyDocument(rows, edits, i);
    }
    forall ns, k
      ensures Live(ApplyHeld(once, edits), ns, k) == Live(once, ns, k)
    {
      OneDocumentTwice(rows, edits, ns, k);
    }
  }

  lemma OneDocumentTwice(rows: seq<Row>, edits: seq<HeldEdit>, ns: string, k: string)
    requires OneLive(rows)
    requires var once := ApplyHeld(rows, edits);
             forall i: nat | i < |edits| :: LiveOf(ApplyHeld(once, edits), edits[i]) == LiveOf(once, edits[i])
    ensures var once := ApplyHeld(rows, edits); Live(ApplyHeld(once, edits), ns, k) == Live(once, ns, k)
  {
    hide ApplyHeld, Live, OneLive;
    if !Names(edits, ns, k) {
      OthersAreKept(rows, edits, ns, k);
      OthersAreKept(ApplyHeld(rows, edits), edits, ns, k);
    }
  }

  lemma SteadyDocument(rows: seq<Row>, edits: seq<HeldEdit>, i: nat)
    requires OneLive(rows) && Distinct(edits) && Steady(edits) && i < |edits|
    ensures var once := ApplyHeld(rows, edits);
            LiveOf(ApplyHeld(once, edits), edits[i]) == LiveOf(once, edits[i])
  {
    hide Conflicts, Landed, LiveOf, ApplyHeld, OneLive, Distinct, ChangesNothing, CanSettle, Name;
    var once := ApplyHeld(rows, edits);
    if LiveOf(ApplyHeld(once, edits), edits[i]) != LiveOf(once, edits[i]) {
      ChangesOnceReleased(rows, edits, i);
      var j := ReleasedByAnother(rows, edits, i);
      assert BeforeColon(Name(edits[i])) == Name(edits[i]);
      assert !Conflicts(LiveOf(once, edits[i]), edits[i]);
      LandsOnWhatItSaw(LiveOf(rows, edits[i]), edits[i]);
    }
  }

  // ---- A store on which an unsteady list shows ----------------------------------------------

  /** A store in which the documents of the first `n` edits read as `texts` says. */
  function StoreOf(edits: seq<HeldEdit>, texts: seq<Option<string>>, n: nat): seq<Row>
    requires n <= |edits| == |texts|
  {
    if n == 0 then []
    else
      var sofar := StoreOf(edits, texts, n - 1);
      var text := texts[n - 1];
      if text.Some? then Replace(sofar, edits[n - 1].namespace, edits[n - 1].key, text.value) else sofar
  }

  lemma {:induction false} StoreReads(edits: seq<HeldEdit>, texts: seq<Option<string>>, n: nat, m: nat)
    requires n <= |edits| == |texts| && m < |edits| && Distinct(edits)
    ensures OneLive(StoreOf(edits, texts, n))
    ensures LiveOf(StoreOf(edits, texts, n), edits[m]) == if m < n then texts[m] else None
  {
    hide Replace, OneLive, Live;
    if n == 0 {
      EmptyStore(edits[m].namespace, edits[m].key);
    } else {
      StoreReads(edits, texts, n - 1, m);
      var sofar, e := StoreOf(edits, texts, n - 1), edits[n - 1];
      if texts[n - 1].Some? {
        ReplaceReads(sofar, e.namespace, e.key, texts[n - 1].value, edits[m].namespace, edits[m].key);
      }
      if m < n - 1 {
        assert !SameDocument(edits[m], edits[n - 1]);
      } else if n - 1 < m {
        assert !SameDocument(edits[n - 1], edits[m]);
      }
    }
  }

  lemma EmptyStore(ns: string, k: string)
    ensures OneLive([]) && Live([], ns, k) == None
  {
  }

  /** A text without a marker that an edit conflicts with. */
  lemma ConflictingText(e: HeldEdit) returns (t: string)
    ensures Conflicts(Some(t), e) && Some(t) != e.before && (CanSettle(e) ==> Landed(Some(t), e) == e.after)
  {
    t := if Some("a") != e.before && Some("a") != e.after then "a"
         else if Some("b") != e.before && Some("b") != e.after then "b"
         else "c";
    assert "a" != "b" && "b" != "c" && "a" != "c";
    NoRoomForMarker(t);
    hide Budget, WithMarker;
  }

  /** The texts of the documents: what edit `i` saw, `t` for edit `j`, and for all others what they leave. */
  function Texts(edits: seq<HeldEdit>, i: nat, j: nat, t: string): seq<Option<string>> {
    seq(|edits|, m requires 0 <= m < |edits| =>
      if m == i then edits[m].before else if m == j then Some(t) else edits[m].after)
  }

  /** Where exactly one edit conflicts, exactly the name its own leads with is held back. */
  lemma OneIsBlocked(rows: seq<Row>, edits: seq<HeldEdit>, j: nat)
    requires j < |edits| && Conflicts(LiveOf(rows, edits[j]), edits[j])
    requires forall m: nat | m < |edits| && m != j :: !Conflicts(LiveOf(rows, edits[m]), edits[m])
    ensures Blocked(rows, edits) == {BeforeColon(Name(edits[j]))}
  {
    hide Conflicts, LiveOf, Name, BeforeColon;
  }

  lemma NoneIsBlocked(rows: seq<Row>, edits: seq<HeldEdit>)
    requires forall m: nat | m < |edits| :: !Conflicts(LiveOf(rows, edits[m]), edits[m])
    ensures Blocked(rows, edits) == {}
  {
    hide Conflicts, LiveOf, Name, BeforeColon;
  }

  /** On a store with such texts, the edit is held back the first time and lands the second. */
  lemma ShadowShows(rows: seq<Row>, edits: seq<HeldEdit>, i: nat, j: nat)
    requires OneLive(rows) && Distinct(edits) && i < |edits| && j < |edits| && i != j
    requires Shadows(edits[j], edits[i])
    requires LiveOf(rows, edits[i]) == edits[i].before
    requires Conflicts(LiveOf(rows, edits[j]), edits[j])
    requires Landed(LiveOf(rows, edits[j]), edits[j]) == edits[j].after
    requires forall m: nat | m < |edits| && m != i && m != j :: LiveOf(rows, edits[m]) == edits[m].after
    ensures LiveOf(ApplyHeld(rows, edits), edits[i]) == edits[i].before
    ensures LiveOf(ApplyHeld(ApplyHeld(rows, edits), edits), edits[i]) != edits[i].before
  {
    hide Conflicts, Landed, LiveOf, ApplyHeld, OneLive, Distinct, Name, BeforeColon, Blocked, CanSettle;
    var once := ApplyHeld(rows, edits);
    forall m: nat | m < |edits| && m != j ensures !Conflicts(LiveOf(rows, edits[m]), edits[m]) {
      NoConflictAtFirst(edits[m]);
    }
    OneIsBlocked(rows, edits, j);
    forall m: nat | m < |edits| ensures !Conflicts(LiveOf(once, edits[m]), edits[m]) {
      ApplyHeldExactly(rows, edits, m);
      NoConflictAtFirst(edits[m]);
      LandedAfter(edits[m]);
    }
    NoneIsBlocked(once, edits);
    ApplyHeldExactly(rows, edits, i);
    ApplyHeldExactly(once, edits, i);
  }

  lemma LandedAfter(e: HeldEdit)
    ensures Landed(e.after, e) == e.after
  {
  }

  /** A list that is not steady has a store on which applying it twice differs from applying it once. */
  lemma UnsteadyStore(edits: seq<HeldEdit>) returns (rows: seq<Row>)
    requires Distinct(edits) && !Steady(edits)
    ensures OneLive(rows) && !TwiceIsOnce(rows, edits)
  {
    var i: nat, j: nat :| i < |edits| && j < |edits| && Shadows(edits[j], edits[i]);
    assert i != j;
    hide Conflicts, Landed, ApplyHeld, OneLive, Distinct, Name, BeforeColon, Steady, StoreOf, CanSettle;
    var t := ConflictingText(edits[j]);
    var texts := Texts(edits, i, j, t);
    rows := StoreOf(edits, texts, |edits|);
    StoreReads(edits, texts, |edits|, i);
    StoreReads(edits, texts, |edits|, j);
    forall m: nat | m < |edits| && m != i && m != j ensures LiveOf(rows, edits[m]) == edits[m].after {
      StoreReads(edits, texts, |edits|, m);
    }
    ShadowShows(rows, edits, i, j);
    assert Live(ApplyHeld(ApplyHeld(rows, edits), edits), edits[i].namespace, edits[i].key)
        != Live(ApplyHeld(rows, edits), edits[i].namespace, edits[i].key);
  }

  /** Applying twice is applying once, on every store, exactly for the steady lists of edits. */
  lemma TwiceIsOnceExactly(edits: seq<HeldEdit>)
    requires Distinct(edits)
    ensures (forall rows | OneLive(rows) :: TwiceIsOnce(rows, edits)) <==> Steady(edits)
  {
    hide OneLive, TwiceIsOnce, Steady, Distinct;
    if Steady(edits) {
      forall rows | OneLive(rows) ensures TwiceIsOnce(rows, edits) {
        ApplyingTwiceChangesNothing(rows, edits);
      }
    } else {
      var rows := UnsteadyStore(edits);
    }
  }

  /** A list is steady when no name with a colon leads with another edit's name, so when no name has a colon. */
  lemma ApartIsSteady(edits: seq<HeldEdit>)
    requires forall i, j | 0 <= i < |edits| && 0 <= j < |edits| && i != j ::
               ':' !in Name(edits[j]) || BeforeColon(Name(edits[j])) != Name(edits[i])
    ensures Steady(edits)
  {
  }

  // ---- The guard's failures, in one store ---------------------------------------------------

  const COLON_EDIT := HeldEdit("n", "a:b", Some("x"), Some("y"))
  const PLAIN_EDIT := HeldEdit("n", "a", Some("p"), Some("q"))
  const COLON_STORE := [Row("n", Some("a:b"), "z", false, None), Row("n", Some("a"), "p", false, None)]

  lemma NamesInTheStore()
    ensures Name(PLAIN_EDIT) == "n/a" && ':' in Name(COLON_EDIT) && ':' !in "n/a"
    ensures BeforeColon(Name(COLON_EDIT)) == "n/a"
  {
    assert Name(COLON_EDIT) == "n/a" + ":" + "b";
    assert (Name(COLON_EDIT))[3] == ':';
    ColonEndsName("n/a", "b");
  }

  lemma TextsInTheStore()
    ensures OneLive(COLON_STORE)
    ensures LiveOf(COLON_STORE, COLON_EDIT) == Some("z") && LiveOf(COLON_STORE, PLAIN_EDIT) == Some("p")
  {
    assert "a" != "a:b" && COLON_STORE[0].key != COLON_STORE[1].key;
    LiveIs(COLON_STORE, "n", "a:b", 0);
    LiveIs(COLON_STORE, "n", "a", 1);
  }

  lemma LandedPlainly(live: string, e: HeldEdit)
    requires e.after.Some? && |live| < 26 && |e.after.value| < 26
    ensures Landed(Some(live), e) == e.after
  {
    NoRoomForMarker(live);
    NoRoomForMarker(e.after.value);
    hide Budget;
  }

  /**
   The document named `n/a:b` changed live, and is written over; `n/a` did not, and is held back for
   it. The second time nothing is held back, and `n/a` changes after all.
   */
  lemma ColonsAreMistaken()
    ensures var edits := [COLON_EDIT, PLAIN_EDIT];
            var once := ApplyHeld(COLON_STORE, edits);
            var twice := ApplyHeld(once, edits);
            && Conflicts(LiveOf(COLON_STORE, COLON_EDIT), COLON_EDIT)
            && !Conflicts(LiveOf(COLON_STORE, PLAIN_EDIT), PLAIN_EDIT)
            && LiveOf(once, COLON_EDIT) == Some("y") && LiveOf(once, PLAIN_EDIT) == Some("p")
            && LiveOf(twice, PLAIN_EDIT) == Some("q")
  {
    var edits := [COLON_EDIT, PLAIN_EDIT];
    var once := ApplyHeld(COLON_STORE, edits);
    NamesInTheStore();
    TextsInTheStore();
    LandedPlainly("z", COLON_EDIT);
    LandedPlainly("p", PLAIN_EDIT);
    assert !SameDocument(edits[0], edits[1]);
    hide Landed, LiveOf, ApplyHeld, OneLive, Name, BeforeColon, Blocked, COLON_STORE;
    OneIsBlocked(COLON_STORE, edits, 0);
    ApplyHeldExactly(COLON_STORE, edits, 0);
    ApplyHeldExactly(COLON_STORE, edits, 1);
    NoneIsBlocked(once, edits);
    ApplyHeldExactly(once, edits, 1);
  }

  // ---- Undoing ------------------------------------------------------------------------------

  ghost predicate ReadsAsBefore(rows: seq<Row>, edits: seq<HeldEdit>) {
    forall e :: e in edits ==> LiveOf(rows, e) == e.before
  }

  /** Applying the edits and then their reverse restores every document. */
  ghost predicate Restored(rows: seq<Row>, edits: seq<HeldEdit>) {
    forall ns, k :: Live(ApplyHeld(ApplyHeld(rows, edits), ReversedEdits(edits)), ns, k) == Live(rows, ns, k)
  }

  /** The names the reverse holds back: those the names of edits that wrote a third text lead with. */
  function ThirdNames(edits: seq<HeldEdit>): (names: set<string>)
    ensures forall n :: n in names <==>
              exists i :: 0 <= i < |edits| && WritesThird(edits[i]) && n == BeforeColon(Name(edits[i]))
  {
    set i | 0 <= i < |edits| && WritesThird(edits[i]) :: BeforeColon(Name(edits[i]))
  }

  /**
   When the reverse of a list brings this edit's document back. Held back, it stays as the edit left it;
   otherwise the edit is undoable, or its third text is written over in spite of the conflict.
   */
  predicate ComesBack(edits: seq<HeldEdit>, e: HeldEdit) {
    if Name(e) in ThirdNames(edits) then ChangesNothing(e)
    else Undoable(e) || (WritesThird(e) && FitsItself(e.before.value))
  }

  lemma ReversedIsAlike(edits: seq<HeldEdit>)
    requires Distinct(edits)
    ensures Distinct(ReversedEdits(edits))
  {
    var back := ReversedEdits(edits);
    forall i, j | 0 <= i < j < |back| ensures !SameDocument(back[i], back[j]) {
      assert !SameDocument(edits[i], edits[j]);
    }
  }

  /** On a store that reads as the edits saw it, every edit lands. */
  lemma AllLandAtFirst(rows: seq<Row>, edits: seq<HeldEdit>, i: nat)
    requires OneLive(rows) && Distinct(edits) && ReadsAsBefore(rows, edits) && i < |edits|
    ensures OneLive(ApplyHeld(rows, edits))
    ensures LiveOf(ApplyHeld(rows, edits), edits[i]) == Landed(edits[i].before, edits[i])
  {
    hide Conflicts, Landed, LiveOf, ApplyHeld, OneLive, Distinct, Name, Blocked;
    forall m: nat | m < |edits| ensures !Conflicts(LiveOf(rows, edits[m]), edits[m]) {
      assert edits[m] in edits;
      NoConflictAtFirst(edits[m]);
    }
    NoneIsBlocked(rows, edits);
    assert edits[i] in edits;
    ApplyHeldExactly(rows, edits, i);
  }

  lemma HeldBackAtUndo(rows: seq<Row>, edits: seq<HeldEdit>)
    requires OneLive(rows) && Distinct(edits) && ReadsAsBefore(rows, edits)
    ensures Blocked(ApplyHeld(rows, edits), ReversedEdits(edits)) == ThirdNames(edits)
  {
    hide Conflicts, Landed, ApplyHeld, OneLive, Distinct, ReadsAsBefore, WritesThird, Live;
    var once, back := ApplyHeld(rows, edits), ReversedEdits(edits);
    forall i: nat | i < |edits|
      ensures Name(back[i]) == Name(edits[i])
      ensures Conflicts(LiveOf(once, back[i]), back[i]) <==> WritesThird(edits[i])
    {
      AllLandAtFirst(rows, edits, i);
      ConflictsBack(edits[i]);
    }
    hide Name, LiveOf, BeforeColon;
  }

  /** One document of a list, there and back. */
  lemma ThereAndBack(rows: seq<Row>, edits: seq<HeldEdit>, i: nat)
    requires OneLive(rows) && Distinct(edits) && ReadsAsBefore(rows, edits) && i < |edits|
    ensures LiveOf(ApplyHeld(ApplyHeld(rows, edits), ReversedEdits(edits)), edits[i]) == edits[i].before
            <==> ComesBack(edits, edits[i])
  {
    var once, back, e := ApplyHeld(rows, edits), ReversedEdits(edits), edits[i];
    assert back[i] == Reversed(e) && Name(back[i]) == Name(e);
    hide Conflicts, Landed, ApplyHeld, OneLive, Distinct, ReadsAsBefore, WritesThird, Live, Undoable, Name, Blocked;
    ReversedIsAlike(edits);
    AllLandAtFirst(rows, edits, i);
    HeldBackAtUndo(rows, edits);
    ApplyHeldExactly(once, back, i);
    assert LiveOf(once, back[i]) == LiveOf(once, e);
    if WritesThird(e) {
      ThirdLandsBack(e);
    } else {
      LandsBack(e);
    }
  }

  /**
   The undo round trip, with its exact condition for any distinct documents: from a store that reads as
   the edits saw it, applying them and then their reverse restores every document's text.
   */
  lemma UndoRoundTripExactly(rows: seq<Row>, edits: seq<HeldEdit>)
    requires OneLive(rows) && Distinct(edits) && ReadsAsBefore(rows, edits)
    ensures Restored(rows, edits) <==> forall e :: e in edits ==> ComesBack(edits, e)
  {
    var twice := ApplyHeld(ApplyHeld(rows, edits), ReversedEdits(edits));
    forall i: nat | i < |edits|
      ensures edits[i] in edits && (LiveOf(twice, edits[i]) == LiveOf(rows, edits[i]) <==> ComesBack(edits, edits[i]))
    {
      assert edits[i] in edits;
      ThereAndBack(rows, edits, i);
    }
    hide ApplyHeld, ComesBack, Live, OneLive, Distinct, ReadsAsBefore;
    if Restored(rows, edits) {
      forall e | e in edits ensures ComesBack(edits, e) {
        var i :| 0 <= i < |edits| && edits[i] == e;
        assert Live(twice, e.namespace, e.key) == Live(rows, e.namespace, e.key);
      }
    }
    if forall e :: e in edits ==> ComesBack(edits, e) {
      forall ns, k ensures Live(twice, ns, k) == Live(rows, ns, k) {
        if Names(edits, ns, k) {
          var i :| 0 <= i < |edits| && edits[i].namespace == ns && edits[i].key == k;
          assert LiveOf(twice, edits[i]) == LiveOf(rows, edits[i]);
        } else {
          OthersComeBack(rows, edits, ns, k);
        }
      }
    }
  }

  lemma OthersComeBack(rows: seq<Row>, edits: seq<HeldEdit>, ns: string, k: string)
    requires OneLive(rows) && !Names(edits, ns, k)
    ensures Live(ApplyHeld(ApplyHeld(rows, edits), ReversedEdits(edits)), ns, k) == Live(rows, ns, k)
  {
    OthersAreKept(rows, edits, ns, k);
    var back := ReversedEdits(edits);
    assert forall i | 0 <= i < |back| :: back[i].namespace == edits[i].namespace && back[i].key == edits[i].key;
    OthersAreKept(ApplyHeld(rows, edits), back, ns, k);
  }

  /**
   The undo round trip: edits that are each undoable are undone, whatever the documents are called; and
   where no name has a colon, only they are.
   */
  lemma UndoRoundTrip(rows: seq<Row>, edits: seq<HeldEdit>)
    requires OneLive(rows) && Distinct(edits) && ReadsAsBefore(rows, edits)
    ensures (forall e :: e in edits ==> Undoable(e)) ==> Restored(rows, edits)
    ensures NoColons(edits) && Restored(rows, edits) ==> forall e :: e in edits ==> Undoable(e)
  {
    UndoRoundTripExactly(rows, edits);
    hide Restored, OneLive, Distinct, ReadsAsBefore, Undoable, WritesThird, ChangesNothing, FitsItself;
    if forall e :: e in edits ==> Undoable(e) {
      UndoableComesBack(edits);
    }
    if NoColons(edits) && Restored(rows, edits) {
      forall e | e in edits ensures Undoable(e) {
        OnlyUndoableComesBack(edits, e);
      }
    }
  }

  lemma UndoableComesBack(edits: seq<HeldEdit>)
    requires forall e :: e in edits ==> Undoable(e)
    ensures forall e :: e in edits ==> ComesBack(edits, e)
  {
    hide Undoable, WritesThird, ChangesNothing, FitsItself;
    forall i: nat | i < |edits| ensures !WritesThird(edits[i]) {
      assert edits[i] in edits;
      if WritesThird(edits[i]) {
        ThirdLandsBack(edits[i]);
      }
    }
    assert ThirdNames(edits) == {};
  }

  lemma OnlyUndoableComesBack(edits: seq<HeldEdit>, e: HeldEdit)
    requires NoColons(edits) && e in edits && ComesBack(edits, e)
    ensures Undoable(e)
  {
    var i :| 0 <= i < |edits| && edits[i] == e;
    assert BeforeColon(Name(e)) == Name(e);
    hide Undoable, WritesThird, FitsItself, Landed;
    if WritesThird(e) {
      assert Name(e) in ThirdNames(edits);
      ThirdLandsBack(e);
    } else if Name(e) in ThirdNames(edits) {
      NoConflictAtFirst(e);
      UnchangedIsUndoable(e);
    }
  }

  lemma UnchangedIsUndoable(e: HeldEdit)
    requires ChangesNothing(e)
    ensures Undoable(e)
  {
    LandedFirst(e);
    hide Budget, WithMarker, Landed;
  }

  // ---- The loops ----------------------------------------------------------------------------

  /** What is wrong with an edit, as `held_conflicts` words it. */
  function Complaint(live: Option<string>, e: HeldEdit): string {
    if e.before.None? then ": a live document exists already"
    else if live.None? then ": gone from the live documents"
    else ": changed live since the change began"
  }

  /** The names a list of complaints starts with. */
  function Heads(lines: seq<string>): set<string> {
    set l | l in lines :: BeforeColon(l)
  }

  lemma HeadsGrow(lines: seq<string>, name: string, complaint: string)
    requires complaint != [] && complaint[0] == ':'
    ensures Heads(lines + [name + complaint]) == Heads(lines) + {BeforeColon(name)}
  {
    var line := name + complaint;
    assert complaint == ":" + complaint[1..] && line == name + ":" + complaint[1..];
    ColonEndsName(name, complaint[1..]);
    assert forall l :: l in lines + [line] <==> l in lines || l == line;
  }

  /** The complaints about the first `n` edits: one for each that conflicts, in order. */
  function Complaints(rows: seq<Row>, edits: seq<HeldEdit>, n: nat): seq<string>
    requires n <= |edits|
  {
    if n == 0 then []
    else
      var e := edits[n - 1];
      Complaints(rows, edits, n - 1)
      + if Conflicts(LiveOf(rows, e), e) then [Name(e) + Complaint(LiveOf(rows, e), e)] else []
  }

  method HeldConflicts(service: MemoryService, edits: seq<HeldEdit>) returns (found: seq<string>)
    ensures found == Complaints(service.rows, edits, |edits|)
    ensures Heads(found) == Blocked(service.rows, edits)
  {
    hide Conflicts, Blocked, LiveOf, Heads, BeforeColon;
    NoHeads(service.rows);
    found := [];
    for k := 0 to |edits|
      invariant found == Complaints(service.rows, edits, k)
      invariant Heads(found) == Blocked(service.rows, edits[..k])
    {
      var e := edits[k];
      var live := LiveOf(service.rows, e);
      BlockedGrows(service.rows, edits, k);
      if Conflicts(live, e) {
        HeadsGrow(found, Name(e), Complaint(live, e));
        found := found + [Name(e) + Complaint(live, e)];
      }
    }
    assert edits[..|edits|] == edits;
  }

  lemma NoHeads(rows: seq<Row>)
    ensures Heads([]) == {} == Blocked(rows, [])
  {
  }

  lemma BlockedGrows(rows: seq<Row>, edits: seq<HeldEdit>, k: nat)
    requires k < |edits|
    ensures Blocked(rows, edits[..k + 1]) == Blocked(rows, edits[..k])
            + if Conflicts(LiveOf(rows, edits[k]), edits[k]) then {BeforeColon(Name(edits[k]))} else {}
  {
    var longer, shorter := edits[..k + 1], edits[..k];
    assert forall i | 0 <= i < k :: longer[i] == shorter[i];
    assert longer[k] == edits[k];
    forall n
      ensures n in Blocked(rows, longer) <==>
              || n in Blocked(rows, shorter)
              || (Conflicts(LiveOf(rows, edits[k]), edits[k]) && n == BeforeColon(Name(edits[k])))
    {
      if n in Blocked(rows, shorter) {
        var i :| 0 <= i < k && Conflicts(LiveOf(rows, shorter[i]), shorter[i]) && n == BeforeColon(Name(shorter[i]));
        assert Conflicts(LiveOf(rows, longer[i]), longer[i]);
      }
    }
    hide Conflicts, LiveOf, Name;
  }

  /** `apply_held`: one change is reported for each edit. */
  method ApplyHeldEdits(service: MemoryService, edits: seq<HeldEdit>) returns (changes: seq<Status>)
    requires service.Valid()
    modifies service
    ensures service.Valid() && service.rows == ApplyHeld(old(service.rows), edits)
    ensures changes == StatusesFirst(old(service.rows), edits, Blocked(old(service.rows), edits), |edits|)
  {
    ghost var start := service.rows;
    var lines := HeldConflicts(service, edits);
    var blocked := Heads(lines);
    changes := [];
    for k := 0 to |edits|
      invariant service.Valid()
      invariant service.rows == LandFirst(start, edits, blocked, k)
      invariant changes == StatusesFirst(start, edits, blocked, k)
    {
      var change := Conflict;
      if Name(edits[k]) !in blocked {
        change := LandEdit(service, edits[k]);
      }
      changes := changes + [change];
    }
  }

  /** What is reported for each of the first `n` edits. */
  ghost function StatusesFirst(rows: seq<Row>, edits: seq<HeldEdit>, blocked: set<string>, n: nat)
    : (changes: seq<Status>)
    requires n <= |edits|
    ensures |changes| == n
  {
    if n == 0 then []
    else
      var e := edits[n - 1];
      StatusesFirst(rows, edits, blocked, n - 1)
      + [if Name(e) in blocked then Conflict else StatusOf(LiveOf(LandFirst(rows, edits, blocked, n - 1), e), e)]
  }

  method LandEdit(service: MemoryService, e: HeldEdit) returns (change: Status)
    requires service.Valid()
    modifies service
    ensures service.Valid() && service.rows == Land(old(service.rows), e)
    ensures change == StatusOf(LiveOf(old(service.rows), e), e) && !change.Conflict?
  {
    var id := FindLive(service.rows, e.namespace, e.key);
    if e.after.None? {
      if id.None? {
        return Unchanged;
      }
      service.ArchiveMemory(id.value);
      return Retired;
    }
    if id.Some? && service.rows[id.value].content == e.after.value {
      return Unchanged;
    }
    var written := service.UpsertCanonical(e.namespace, e.key, e.after.value, false);
    if written.OverBudget? {
      return TooBig;
    }
    return if id.None? then Created else Applied;
  }
}
