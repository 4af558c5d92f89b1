/** Excerpts of long documents: the greedy choice of sections, and a bound on the text it yields. */
module Excerpt {
  import opened Basics
  import opened Text

  /** The omission marker, without the blank lines around it. */
  const OMITTED := "[\U{2026} omitted for brevity \U{2014} fetch the full memory if needed \U{2026}]"

  /** The length of the marker with a blank line on each side. */
  const OMISSION_LENGTH: nat := |OMITTED| + 4

  /** What a section costs when it is chosen. */
  function Cost(section: string): nat {
    |section| + OMISSION_LENGTH
  }

  /** The budget used by the kept sections before `n`; the first section is free of the marker. */
  function Used(sections: seq<string>, keep: set<nat>, n: nat): nat
    requires n <= |sections|
  {
    if n == 0 then 0
    else Used(sections, keep, n - 1)
         + if n - 1 !in keep then 0 else if n == 1 then |sections[0]| else Cost(sections[n - 1])
  }

  lemma {:induction false} KeepingCosts(sections: seq<string>, keep: set<nat>, i: nat, n: nat)
    requires n <= |sections| && 0 < i && i !in keep
    ensures Used(sections, keep + {i}, n) == Used(sections, keep, n) + if i < n then Cost(sections[i]) else 0
  {
    if n > 0 {
      KeepingCosts(sections, keep, i, n - 1);
    }
  }

  lemma {:induction false} FirstAlone(sections: seq<string>, n: nat)
    requires 0 < n <= |sections|
    ensures Used(sections, {0}, n) == |sections[0]|
  {
    if n > 1 {
      FirstAlone(sections, n - 1);
    } else {
      assert Used(sections, {0}, 0) == 0;
    }
  }

  /** A piece of the excerpt: a section, or the marker. */
  datatype Piece = Section(index: int) | Omission

  /** A marker belongs before section `i` when the last section shown is not the one before it. */
  predicate Gap(pieces: seq<Piece>, i: nat) {
    pieces != [] && pieces[|pieces| - 1] != Section(i - 1)
  }

  function Extend(pieces: seq<Piece>, i: nat): seq<Piece> {
    (if Gap(pieces, i) then pieces + [Omission] else pieces) + [Section(i)]
  }

  /** The pieces of the kept sections before `n`, with a marker where sections are missing in between. */
  function Pieces(keep: set<nat>, n: nat): seq<Piece> {
    if n == 0 then []
    else if n - 1 in keep then Extend(Pieces(keep, n - 1), n - 1)
    else Pieces(keep, n - 1)
  }

  function AllPieces(keep: set<nat>, n: nat): seq<Piece> {
    Pieces(keep, n) + if n > 0 && n - 1 !in keep then [Omission] else []
  }

  function PieceText(sections: seq<string>, p: Piece): string
    requires p.Section? ==> 0 <= p.index < |sections|
  {
    if p.Section? then Strip(sections[p.index]) else OMITTED
  }

  ghost predicate InRange(sections: seq<string>, pieces: seq<Piece>) {
    forall p :: p in pieces && p.Section? ==> 0 <= p.index < |sections|
  }

  function Texts(sections: seq<string>, pieces: seq<Piece>): seq<string>
    requires InRange(sections, pieces)
  {
    seq(|pieces|, i requires 0 <= i < |pieces| => assert pieces[i] in pieces; PieceText(sections, pieces[i]))
  }

  /** `"\n\n".join(texts)`. */
  function Join(texts: seq<string>): string {
    if texts == [] then ""
    else if |texts| == 1 then texts[0]
    else Join(texts[..|texts| - 1]) + BLANK_LINE + texts[|texts| - 1]
  }

  /** The length of the texts with two characters for each. */
  function Spread(texts: seq<string>): nat {
    if texts == [] then 0 else Spread(texts[..|texts| - 1]) + |texts[|texts| - 1]| + 2
  }

  lemma {:induction false} JoinLength(texts: seq<string>)
    ensures texts != [] ==> |Join(texts)| + 2 == Spread(texts)
    ensures texts == [] ==> Join(texts) == ""
  {
    if |texts| > 1 {
      JoinLength(texts[..|texts| - 1]);
    } else if |texts| == 1 {
      assert Spread(texts[..0]) == 0;
    }
  }

  lemma SpreadAdds(texts: seq<string>, t: string)
    ensures Spread(texts + [t]) == Spread(texts) + |t| + 2
  {
    assert (texts + [t])[..|texts|] == texts;
  }

  lemma TextsAdd(sections: seq<string>, pieces: seq<Piece>, p: Piece)
    requires InRange(sections, pieces + [p])
    ensures InRange(sections, pieces)
    ensures p.Section? ==> 0 <= p.index < |sections|
    ensures Texts(sections, pieces + [p]) == Texts(sections, pieces) + [PieceText(sections, p)]
  {
    hide PieceText;
    assert p in pieces + [p] && forall q :: q in pieces ==> q in pieces + [p];
    assert (pieces + [p])[..|pieces|] == pieces;
  }

  lemma {:induction false} PiecesInRange(sections: seq<string>, keep: set<nat>, n: nat)
    requires n <= |sections|
    ensures InRange(sections, Pieces(keep, n)) && InRange(sections, AllPieces(keep, n))
  {
    if n > 0 {
      PiecesInRange(sections, keep, n - 1);
    }
  }

  lemma AddPiece(sections: seq<string>, pieces: seq<Piece>, p: Piece)
    requires InRange(sections, pieces) && (p.Section? ==> 0 <= p.index < |sections|)
    ensures InRange(sections, pieces + [p])
    ensures Spread(Texts(sections, pieces + [p])) == Spread(Texts(sections, pieces)) + |PieceText(sections, p)| + 2
  {
    TextsAdd(sections, pieces, p);
    SpreadAdds(Texts(sections, pieces), PieceText(sections, p));
  }

  lemma ExtendCosts(sections: seq<string>, pieces: seq<Piece>, i: nat)
    requires InRange(sections, pieces) && i < |sections|
    ensures InRange(sections, Extend(pieces, i))
    ensures Texts(sections, Extend(pieces, i))
            == Texts(sections, pieces) + (if Gap(pieces, i) then [OMITTED] else []) + [Strip(sections[i])]
    ensures Spread(Texts(sections, Extend(pieces, i)))
            <= Spread(Texts(sections, pieces)) + if pieces == [] then |sections[i]| + 2 else Cost(sections[i])
  {
    var mid := if Gap(pieces, i) then pieces + [Omission] else pieces;
    if Gap(pieces, i) {
      AddPiece(sections, pieces, Omission);
      TextsAdd(sections, pieces, Omission);
    }
    AddPiece(sections, mid, Section(i));
    TextsAdd(sections, mid, Section(i));
    hide InRange, Spread, Texts;
  }

  /** The loop's `previous` is the section last added. */
  lemma ExtendEnds(pieces: seq<Piece>, i: nat, previous: int)
    requires if pieces == [] then previous == -1 else 0 <= previous && pieces[|pieces| - 1] == Section(previous)
    ensures Gap(pieces, i) <==> previous >= 0 && i != previous + 1
    ensures var more := Extend(pieces, i); more != [] && more[|more| - 1] == Section(i)
  {
  }

  lemma NoTexts(sections: seq<string>)
    ensures InRange(sections, []) && Texts(sections, []) == [] && Spread([]) == 0
  {
  }

  /** The joins and inner markers never counted while choosing are covered by what each choice was charged. */
  lemma {:induction false} PiecesAreCovered(sections: seq<string>, keep: set<nat>, n: nat)
    requires n <= |sections| && 0 in keep
    ensures InRange(sections, Pieces(keep, n))
    ensures Spread(Texts(sections, Pieces(keep, n))) <= Used(sections, keep, n) + 2
    ensures n > 0 ==> Pieces(keep, n) != []
  {
    hide InRange, Spread, Texts, Gap;
    NoTexts(sections);
    if n > 0 {
      PiecesAreCovered(sections, keep, n - 1);
      if n - 1 in keep {
        ExtendCosts(sections, Pieces(keep, n - 1), n - 1);
      }
      if n == 1 {
        assert Pieces(keep, 0) == [] && Used(sections, keep, 0) == 0;
      }
    }
  }

  /** The text of an excerpt, from the sections it keeps. */
  function Assemble(sections: seq<string>, keep: set<nat>): string {
    PiecesInRange(sections, keep, |sections|);
    Strip(Join(Texts(sections, AllPieces(keep, |sections|))))
  }

  /** However sections are kept, the text is at most what was used, and one marker with its blank line. */
  lemma AssembledLength(sections: seq<string>, keep: set<nat>)
    requires sections != [] && 0 in keep
    ensures |Assemble(sections, keep)| <= Used(sections, keep, |sections|) + |OMITTED| + 2
  {
    var n := |sections|;
    PiecesAreCovered(sections, keep, n);
    PiecesInRange(sections, keep, n);
    if n - 1 !in keep {
      AddPiece(sections, Pieces(keep, n), Omission);
    } else {
      assert AllPieces(keep, n) == Pieces(keep, n);
    }
    JoinLength(Texts(sections, AllPieces(keep, n)));
    hide Pieces, Spread, Join, Used;
  }

  /** The sections among the pieces, in order. */
  function Indices(pieces: seq<Piece>): seq<int> {
    if pieces == [] then []
    else
      var last := pieces[|pieces| - 1];
      Indices(pieces[..|pieces| - 1]) + if last.Section? then [last.index] else []
  }

  lemma IndicesAdd(pieces: seq<Piece>, p: Piece)
    ensures Indices(pieces + [p]) == Indices(pieces) + if p.Section? then [p.index] else []
  {
    assert (pieces + [p])[..|pieces|] == pieces;
  }

  lemma IndicesExtend(pieces: seq<Piece>, i: nat)
    ensures Indices(Extend(pieces, i)) == Indices(pieces) + [i]
  {
    IndicesAdd(pieces, Omission);
    IndicesAdd(pieces, Section(i));
    IndicesAdd(pieces + [Omission], Section(i));
  }

  ghost predicate Ascending(shown: seq<int>, n: int) {
    && (forall a | 0 <= a < |shown| :: 0 <= shown[a] < n)
    && (forall a, b | 0 <= a < b < |shown| :: shown[a] < shown[b])
  }

  lemma AscendingGrows(shown: seq<int>, n: nat)
    requires Ascending(shown, n)
    ensures Ascending(shown, n + 1) && Ascending(shown + [n], n + 1)
  {
  }

  lemma PiecesShow(keep: set<nat>, n: nat)
    ensures Indices(Pieces(keep, n + 1)) == Indices(Pieces(keep, n)) + if n in keep then [n] else []
  {
    IndicesExtend(Pieces(keep, n), n);
    hide Extend, Indices;
  }

  lemma {:induction false} ShownInOrder(keep: set<nat>, n: nat)
    ensures Ascending(Indices(Pieces(keep, n)), n)
  {
    if n == 0 {
      assert Pieces(keep, 0) == [] && Indices([]) == [];
      hide Pieces, Indices;
    } else {
      hide Pieces, Indices, Ascending;
      ShownInOrder(keep, n - 1);
      PiecesShow(keep, n - 1);
      AscendingGrows(Indices(Pieces(keep, n - 1)), n - 1);
    }
  }

  lemma {:induction false} ShownIfKept(keep: set<nat>, n: nat, i: nat)
    ensures i in Indices(Pieces(keep, n)) <==> i < n && i in keep
  {
    if n > 0 {
      ShownIfKept(keep, n - 1, i);
      PiecesShow(keep, n - 1);
      hide Pieces, Indices;
    }
  }

  /** The excerpt shows exactly the kept sections, each once, in their original order. */
  lemma KeptInOrder(keep: set<nat>, n: nat)
    ensures Ascending(Indices(AllPieces(keep, n)), n)
    ensures forall i: nat :: i in Indices(AllPieces(keep, n)) <==> i < n && i in keep
  {
    ShownInOrder(keep, n);
    forall i: nat ensures i in Indices(Pieces(keep, n)) <==> i < n && i in keep {
      ShownIfKept(keep, n, i);
    }
    IndicesAdd(Pieces(keep, n), Omission);
    assert Pieces(keep, n) + [] == Pieces(keep, n);
    assert Indices(Pieces(keep, n)) + [] == Indices(Pieces(keep, n));
    hide Indices, Pieces, Ascending;
  }

  // ---- What the text shows ------------------------------------------------------------------

  /** The kept sections before `n`, in order. */
  function Shown(keep: set<nat>, n: nat): seq<nat> {
    if n == 0 then [] else Shown(keep, n - 1) + if n - 1 in keep then [n - 1] else []
  }

  lemma {:induction false} ShownAscends(keep: set<nat>, n: nat, i: nat)
    ensures i in Shown(keep, n) <==> i < n && i in keep
    ensures forall a, b | 0 <= a < b < |Shown(keep, n)| :: Shown(keep, n)[a] < Shown(keep, n)[b] < n
    ensures Shown(keep, n) != [] ==> Shown(keep, n)[|Shown(keep, n)| - 1] < n
  {
    if n > 0 {
      ShownAscends(keep, n - 1, i);
    }
  }

  /** What stands between two sections shown one after the other. */
  function Between(first: nat, second: nat): string {
    if second == first + 1 then BLANK_LINE else BLANK_LINE + OMITTED + BLANK_LINE
  }

  /** The stripped sections `shown` stand in the text at `starts`, with what belongs in between, and `closing` last. */
  ghost predicate LaidOut(text: string, sections: seq<string>, shown: seq<nat>, starts: seq<nat>, closing: string) {
    && |starts| == |shown| > 0 && starts[0] == 0
    && (forall j | 0 <= j < |shown| :: StandsAt(text, sections, shown[j], starts[j]))
    && (forall j | 0 < j < |shown| :: Follows(text, sections, shown, starts, j))
    && var last := |shown| - 1;
       shown[last] < |sections| && starts[last] + |Strip(sections[shown[last]])| <= |text|
       && text[starts[last] + |Strip(sections[shown[last]])|..] == closing
  }

  ghost predicate StandsAt(text: string, sections: seq<string>, i: nat, start: nat) {
    && i < |sections| && start + |Strip(sections[i])| <= |text|
    && text[start..start + |Strip(sections[i])|] == Strip(sections[i])
  }

  ghost predicate Follows(text: string, sections: seq<string>, shown: seq<nat>, starts: seq<nat>, j: nat)
    requires 0 < j < |shown| == |starts|
  {
    && shown[j - 1] < |sections|
    && var end := starts[j - 1] + |Strip(sections[shown[j - 1]])|;
       end <= starts[j] <= |text| && text[end..starts[j]] == Between(shown[j - 1], shown[j])
  }

  lemma JoinAdds(texts: seq<string>, t: string)
    ensures Join(texts + [t]) == if texts == [] then t else Join(texts) + BLANK_LINE + t
  {
    assert (texts + [t])[..|texts|] == texts;
  }

  lemma FirstIsLaidOut(sections: seq<string>, i: nat)
    requires i < |sections|
    ensures LaidOut(Strip(sections[i]), sections, [i], [0], "")
  {
    hide Strip;
    var t := Strip(sections[i]);
    assert t[0..|t|] == t && t[|t|..] == "";
  }

  lemma FrontStands(text: string, more: string, sections: seq<string>, i: nat, start: nat)
    requires StandsAt(text, sections, i, start)
    ensures StandsAt(text + more, sections, i, start)
  {
    hide Strip;
    var end := start + |Strip(sections[i])|;
    assert (text + more)[start..end] == text[start..end];
  }

  lemma FrontFollows(text: string, more: string, sections: seq<string>, shown: seq<nat>, starts: seq<nat>,
                     shown1: seq<nat>, starts1: seq<nat>, j: nat)
    requires 0 < j < |shown| == |starts| && |shown1| == |starts1| && shown <= shown1 && starts <= starts1
    requires Follows(text, sections, shown, starts, j)
    ensures Follows(text + more, sections, shown1, starts1, j)
  {
    hide Strip, Between;
    var end := starts[j - 1] + |Strip(sections[shown[j - 1]])|;
    assert (text + more)[end..starts[j]] == text[end..starts[j]];
  }

  lemma NextStands(text: string, sep: string, sections: seq<string>, i: nat)
    requires i < |sections|
    ensures StandsAt(text + (sep + Strip(sections[i])), sections, i, |text| + |sep|)
  {
    hide Strip;
    var t := Strip(sections[i]);
    assert text + (sep + t) == (text + sep) + t;
  }

  lemma NextFollows(text: string, sep: string, t: string)
    ensures (text + (sep + t))[|text|..|text| + |sep|] == sep
  {
  }

  /** One more section after what is laid out. */
  lemma NextIsLaidOut(text: string, sections: seq<string>, shown: seq<nat>, starts: seq<nat>, i: nat)
    requires LaidOut(text, sections, shown, starts, "") && i < |sections|
    ensures var sep := Between(shown[|shown| - 1], i);
            LaidOut(text + (sep + Strip(sections[i])), sections, shown + [i], starts + [|text| + |sep|], "")
  {
    hide Strip, Between, StandsAt, Follows;
    var last := |shown| - 1;
    var sep, t := Between(shown[last], i), Strip(sections[i]);
    var longer, shown1, starts1 := text + (sep + t), shown + [i], starts + [|text| + |sep|];
    assert starts[last] + |Strip(sections[shown[last]])| == |text|;
    NextStands(text, sep, sections, i);
    NextFollows(text, sep, t);
    forall j | 0 <= j < |shown1| ensures StandsAt(longer, sections, shown1[j], starts1[j]) {
      if j < |shown| {
        FrontStands(text, sep + t, sections, shown[j], starts[j]);
      }
    }
    forall j | 0 < j < |shown1| ensures Follows(longer, sections, shown1, starts1, j) {
      if j < |shown| {
        FrontFollows(text, sep + t, sections, shown, starts, shown1, starts1, j);
      } else {
        FollowsLast(longer, sections, shown1, starts1, |text|);
      }
    }
  }

  lemma FollowsLast(longer: string, sections: seq<string>, shown: seq<nat>, starts: seq<nat>, end: nat)
    requires |shown| == |starts| > 1 && shown[|shown| - 2] < |sections|
    requires end == starts[|shown| - 2] + |Strip(sections[shown[|shown| - 2]])| <= starts[|shown| - 1] <= |longer|
    requires longer[end..starts[|shown| - 1]] == Between(shown[|shown| - 2], shown[|shown| - 1])
    ensures Follows(longer, sections, shown, starts, |shown| - 1)
  {
  }

  /** The marker after what is laid out. */
  lemma ClosingIsLaidOut(text: string, sections: seq<string>, shown: seq<nat>, starts: seq<nat>, closing: string)
    requires LaidOut(text, sections, shown, starts, "")
    ensures LaidOut(text + closing, sections, shown, starts, closing)
  {
    hide Strip, Between, StandsAt, Follows;
    var longer, last := text + closing, |shown| - 1;
    assert starts[last] + |Strip(sections[shown[last]])| == |text|;
    forall j | 0 <= j < |shown| ensures StandsAt(longer, sections, shown[j], starts[j]) {
      FrontStands(text, closing, sections, shown[j], starts[j]);
    }
    forall j | 0 < j < |shown| ensures Follows(longer, sections, shown, starts, j) {
      FrontFollows(text, closing, sections, shown, starts, shown, starts, j);
    }
    assert longer[|text|..] == closing;
  }

  /** The last piece is the last section shown. */
  lemma {:induction false} LastPiece(keep: set<nat>, n: nat)
    ensures Pieces(keep, n) == [] <==> Shown(keep, n) == []
    ensures Pieces(keep, n) != [] ==>
              Pieces(keep, n)[|Pieces(keep, n)| - 1] == Section(Shown(keep, n)[|Shown(keep, n)| - 1])
  {
    if n > 0 {
      LastPiece(keep, n - 1);
    }
  }

  /** The joined pieces before `n` are laid out in the text. */
  lemma {:induction false} PiecesAreLaidOut(sections: seq<string>, keep: set<nat>, n: nat) returns (starts: seq<nat>)
    requires n <= |sections| && InRange(sections, Pieces(keep, n)) && Shown(keep, n) != []
    ensures LaidOut(Join(Texts(sections, Pieces(keep, n))), sections, Shown(keep, n), starts, "")
  {
    NotBeforeTheFirst(keep, n);
    hide InRange, LaidOut, Join, Texts, Pieces, Shown;
    PiecesInRange(sections, keep, n - 1);
    if n - 1 !in keep {
      NothingNew(keep, n);
      starts := PiecesAreLaidOut(sections, keep, n - 1);
    } else if Shown(keep, n - 1) == [] {
      starts := FirstPieceIsLaidOut(sections, keep, n);
    } else {
      starts := PiecesAreLaidOut(sections, keep, n - 1);
      starts := NextPiece(sections, keep, n, starts);
    }
  }

  lemma NotBeforeTheFirst(keep: set<nat>, n: nat)
    ensures Shown(keep, n) != [] ==> n > 0
  {
  }

  lemma NothingNew(keep: set<nat>, n: nat)
    requires n > 0 && n - 1 !in keep
    ensures Pieces(keep, n) == Pieces(keep, n - 1) && Shown(keep, n) == Shown(keep, n - 1)
  {
  }

  lemma FirstPieceIsLaidOut(sections: seq<string>, keep: set<nat>, n: nat) returns (starts: seq<nat>)
    requires 0 < n <= |sections| && n - 1 in keep && Shown(keep, n - 1) == [] && InRange(sections, Pieces(keep, n))
    ensures LaidOut(Join(Texts(sections, Pieces(keep, n))), sections, Shown(keep, n), starts, "")
  {
    hide *;
    LastPiece(keep, n - 1);
    FirstPiece(keep, n);
    starts := [0];
    FirstIsLaidOut(sections, n - 1);
    OnePiece(sections, n - 1);
  }

  lemma FirstPiece(keep: set<nat>, n: nat)
    requires n > 0 && n - 1 in keep && Pieces(keep, n - 1) == [] && Shown(keep, n - 1) == []
    ensures Pieces(keep, n) == [Section(n - 1)] && Shown(keep, n) == [n - 1]
  {
  }

  lemma NextPiece(sections: seq<string>, keep: set<nat>, n: nat, before: seq<nat>) returns (starts: seq<nat>)
    requires 0 < n <= |sections| && n - 1 in keep && Shown(keep, n - 1) != []
    requires InRange(sections, Pieces(keep, n - 1)) && InRange(sections, Pieces(keep, n))
    requires LaidOut(Join(Texts(sections, Pieces(keep, n - 1))), sections, Shown(keep, n - 1), before, "")
    ensures LaidOut(Join(Texts(sections, Pieces(keep, n))), sections, Shown(keep, n), starts, "")
  {
    hide LaidOut, Join, Texts, Extend, InRange, Between, Strip;
    LastPiece(keep, n - 1);
    var pieces, shown := Pieces(keep, n - 1), Shown(keep, n - 1);
    assert Shown(keep, n) == shown + [n - 1] && Pieces(keep, n) == Extend(pieces, n - 1);
    hide Pieces, Shown;
    var text := Join(Texts(sections, pieces));
    var sep := Between(shown[|shown| - 1], n - 1);
    NextIsLaidOut(text, sections, shown, before, n - 1);
    starts := before + [|text| + |sep|];
    ExtendJoins(sections, pieces, n - 1);
  }

  lemma OnePiece(sections: seq<string>, i: nat)
    requires i < |sections|
    ensures InRange(sections, [Section(i)]) && Join(Texts(sections, [Section(i)])) == Strip(sections[i])
  {
    var pieces: seq<Piece> := [];
    assert pieces + [Section(i)] == [Section(i)];
    TextsAdd(sections, pieces, Section(i));
    assert Texts(sections, pieces) == [];
    JoinAdds([], Strip(sections[i]));
    assert [] + [Strip(sections[i])] == [Strip(sections[i])];
    hide Texts, Join, Strip;
  }

  /** One more section adds to the joined text what belongs between, and the section. */
  lemma ExtendJoins(sections: seq<string>, pieces: seq<Piece>, i: nat)
    requires InRange(sections, pieces) && i < |sections| && pieces != []
    requires pieces[|pieces| - 1].Section? && 0 <= pieces[|pieces| - 1].index
    ensures InRange(sections, Extend(pieces, i))
    ensures Join(Texts(sections, Extend(pieces, i)))
            == Join(Texts(sections, pieces)) + (Between(pieces[|pieces| - 1].index, i) + Strip(sections[i]))
  {
    hide Join, Texts, Strip, InRange, Extend, Spread, Cost;
    var texts, t := Texts(sections, pieces), Strip(sections[i]);
    assert Gap(pieces, i) <==> i != pieces[|pieces| - 1].index + 1;
    ExtendCosts(sections, pieces, i);
    SameLength(sections, pieces);
    hide Gap;
    if Gap(pieces, i) {
      JoinAdds(texts, OMITTED);
      JoinAdds(texts + [OMITTED], t);
      Regroup(Join(texts), BLANK_LINE, OMITTED, BLANK_LINE, t);
    } else {
      JoinAdds(texts, t);
      assert texts + [] + [t] == texts + [t];
      assert Join(texts) + BLANK_LINE + t == Join(texts) + (BLANK_LINE + t);
    }
  }

  lemma Regroup(a: string, b: string, c: string, d: string, e: string)
    ensures a + b + c + d + e == a + ((b + c + d) + e)
  {
  }

  lemma SameLength(sections: seq<string>, pieces: seq<Piece>)
    requires InRange(sections, pieces)
    ensures |Texts(sections, pieces)| == |pieces|
  {
  }

  /**
   What an excerpt shows: stripped, a text in which the kept sections stand in document order, each stripped,
   a blank line between neighbours and the marker where sections are missing, also after the last one.
   */
  ghost predicate Shows(excerpt: string, sections: seq<string>, keep: set<nat>) {
    exists text, shown, starts :: ShowsBy(excerpt, sections, keep, text, shown, starts)
  }

  ghost predicate ShowsBy(excerpt: string, sections: seq<string>, keep: set<nat>, text: string, shown: seq<nat>,
                          starts: seq<nat>)
  {
    && excerpt == Strip(text) && Lists(shown, keep, |sections|)
    && LaidOut(text, sections, shown, starts, if |sections| - 1 in keep then "" else BLANK_LINE + OMITTED)
  }

  /** `shown` lists the kept sections, each once, in rising order. */
  ghost predicate Lists(shown: seq<nat>, keep: set<nat>, n: nat) {
    && (forall a, b | 0 <= a < b < |shown| :: shown[a] < shown[b])
    && (forall i: nat :: i in shown <==> i < n && i in keep)
  }

  /** However sections are kept, with the first among them, the excerpt shows exactly those. */
  lemma AssembledShows(sections: seq<string>, keep: set<nat>)
    requires sections != [] && 0 in keep
    ensures Shows(Assemble(sections, keep), sections, keep)
  {
    var n := |sections|;
    var shown := Shown(keep, n);
    PiecesInRange(sections, keep, n);
    ShownLists(keep, n);
    assert 0 in shown;
    hide LaidOut, Shown, Texts, Join, Strip, InRange, Lists;
    var starts := PiecesAreLaidOut(sections, keep, n);
    var text := Join(Texts(sections, Pieces(keep, n)));
    LastPiece(keep, n);
    if n - 1 in keep {
      assert AllPieces(keep, n) == Pieces(keep, n);
      assert ShowsBy(Assemble(sections, keep), sections, keep, text, shown, starts);
    } else {
      ClosingIsLaidOut(text, sections, shown, starts, BLANK_LINE + OMITTED);
      ClosingJoins(sections, Pieces(keep, n));
      assert ShowsBy(Assemble(sections, keep), sections, keep, text + (BLANK_LINE + OMITTED), shown, starts);
    }
  }

  lemma ShownLists(keep: set<nat>, n: nat)
    ensures Lists(Shown(keep, n), keep, n)
  {
    hide Shown;
    ShownAscends(keep, n, 0);
    forall i: nat ensures i in Shown(keep, n) <==> i < n && i in keep {
      ShownAscends(keep, n, i);
    }
  }

  lemma ClosingJoins(sections: seq<string>, pieces: seq<Piece>)
    requires InRange(sections, pieces + [Omission]) && pieces != []
    ensures InRange(sections, pieces)
    ensures Join(Texts(sections, pieces + [Omission])) == Join(Texts(sections, pieces)) + (BLANK_LINE + OMITTED)
  {
    TextsAdd(sections, pieces, Omission);
    SameLength(sections, pieces);
    JoinAdds(Texts(sections, pieces), OMITTED);
    hide Texts, Join;
  }

  // ---- The loops ----------------------------------------------------------------------------

  /** No section left out would still have fitted. */
  ghost predicate LeavesNoRoom(sections: seq<string>, keep: set<nat>, budget: nat) {
    forall i: nat | i < |sections| && i !in keep :: Used(sections, keep, |sections|) + Cost(sections[i]) > budget
  }

  ghost predicate Ranks(order: seq<nat>, n: nat) {
    forall i: nat :: i in order <==> i < n
  }

  /** What was kept when section `order[k]` had its turn. */
  ghost function KeptBefore(order: seq<nat>, k: nat, keep: set<nat>): set<nat>
    requires k <= |order|
  {
    {0} + set j | 0 <= j < k && order[j] in keep :: order[j]
  }

  /** At its turn a section is kept exactly if it fits with what the turns before it kept. */
  ghost predicate ChosenInTurn(sections: seq<string>, order: seq<nat>, budget: nat, keep: set<nat>) {
    forall k: nat | k < |order| :: ChosenAt(sections, order, budget, keep, k)
  }

  ghost predicate ChosenAt(sections: seq<string>, order: seq<nat>, budget: nat, keep: set<nat>, k: nat)
    requires k < |order|
  {
    order[k] < |sections| && order[k] !in KeptBefore(order, k, keep) ==>
      (order[k] in keep <==>
         Used(sections, KeptBefore(order, k, keep), |sections|) + Cost(sections[order[k]]) <= budget)
  }

  lemma KeptBeforeStays(order: seq<nat>, k: nat, keep: set<nat>, x: nat)
    requires k <= |order| && x !in order[..k]
    ensures KeptBefore(order, k, keep + {x}) == KeptBefore(order, k, keep)
  {
    assert forall j | 0 <= j < k :: order[j] == order[..k][j] && order[..k][j] in order[..k];
  }

  lemma OneMoreTurn(sections: seq<string>, order: seq<nat>, budget: nat, keep: set<nat>, k: nat)
    requires k < |order| && order[k] < |sections| && order[k] !in keep && order[k] !in order[..k]
    requires keep == KeptBefore(order, k, keep)
    requires forall j: nat | j < k :: ChosenAt(sections, order, budget, keep, j)
    requires Used(sections, keep, |sections|) + Cost(sections[order[k]]) <= budget
    ensures keep + {order[k]} == KeptBefore(order, k + 1, keep + {order[k]})
    ensures forall j: nat | j < k + 1 :: ChosenAt(sections, order, budget, keep + {order[k]}, j)
  {
    hide Used, Cost;
    var x := order[k];
    forall j: nat | j < k + 1 ensures ChosenAt(sections, order, budget, keep + {x}, j) {
      assert order[..j] == order[..k][..j];
      KeptBeforeStays(order, j, keep, x);
      if j < k {
        assert ChosenAt(sections, order, budget, keep, j) && order[j] == order[..k][j] && order[j] in order[..k];
      }
    }
    KeptBeforeStays(order, k, keep, x);
    assert KeptBefore(order, k + 1, keep + {x}) == KeptBefore(order, k, keep + {x}) + {x};
  }

  lemma NoTurnYet(order: seq<nat>)
    ensures {0} == KeptBefore(order, 0, {0})
  {
  }

  lemma TurnWithoutChange(sections: seq<string>, order: seq<nat>, budget: nat, keep: set<nat>, k: nat)
    requires k < |order| && order[k] < |sections| && keep == KeptBefore(order, k, keep)
    requires order[k] in keep || Used(sections, keep, |sections|) + Cost(sections[order[k]]) > budget
    ensures keep == KeptBefore(order, k + 1, keep) && ChosenAt(sections, order, budget, keep, k)
  {
    hide Used;
  }

  /** The greedy loop over the sections in score order. */
  method Choose(sections: seq<string>, order: seq<nat>, budget: nat) returns (keep: set<nat>)
    requires |sections| > 1 && Ranks(order, |sections|)
    ensures 0 in keep && forall i :: i in keep ==> i < |sections|
    ensures Used(sections, keep, |sections|) <= if |sections[0]| > budget then |sections[0]| else budget
    ensures LeavesNoRoom(sections, keep, budget)
    ensures ChosenInTurn(sections, order, budget, keep)
  {
    hide Used, ChosenAt, KeptBefore;
    keep := {0};
    var used := |sections[0]|;
    FirstAlone(sections, |sections|);
    NoTurnYet(order);
    for k := 0 to |order|
      invariant 0 in keep && forall i :: i in keep ==> i < |sections|
      invariant used == Used(sections, keep, |sections|)
      invariant used <= if |sections[0]| > budget then |sections[0]| else budget
      invariant forall j | 0 <= j < k && order[j] !in keep ::
                  order[j] < |sections| && used + Cost(sections[order[j]]) > budget
      invariant keep == KeptBefore(order, k, keep)
      invariant forall j: nat | j < k :: ChosenAt(sections, order, budget, keep, j)
    {
      var index := order[k];
      assert index in order;
      if index in keep {
        TurnWithoutChange(sections, order, budget, keep, k);
        continue;
      }
      var cost := |sections[index]| + OMISSION_LENGTH;
      if used + cost > budget {
        TurnWithoutChange(sections, order, budget, keep, k);
        continue;
      }
      OneMoreTurn(sections, order, budget, keep, k);
      KeepingCosts(sections, keep, index, |sections|);
      keep := keep + {index};
      used := used + cost;
    }
    forall i: nat | i < |sections| && i !in keep
      ensures Used(sections, keep, |sections|) + Cost(sections[i]) > budget
    {
      assert i in order;
    }
  }

  /** The assembly loop. */
  method AssembleLoop(sections: seq<string>, keep: set<nat>) returns (excerpt: string)
    requires |sections| > 1
    ensures excerpt == Assemble(sections, keep)
  {
    hide InRange, Texts, Join, Extend, Gap, Strip, Spread, Cost;
    PiecesInRange(sections, keep, |sections|);
    NoTexts(sections);
    ghost var shape: seq<Piece> := [];
    var pieces: seq<string> := [];
    var previous := -1;
    for index := 0 to |sections|
      invariant shape == Pieces(keep, index) && InRange(sections, shape) && pieces == Texts(sections, shape)
      invariant if shape == [] then previous == -1
                else 0 <= previous < index && shape[|shape| - 1] == Section(previous)
    {
      if index in keep {
        ExtendCosts(sections, shape, index);
        ExtendEnds(shape, index, previous);
        shape := Extend(shape, index);
        if previous >= 0 && index != previous + 1 {
          pieces := pieces + [OMITTED];
        }
        pieces := pieces + [Strip(sections[index])];
        previous := index;
      }
    }
    if |sections| - 1 !in keep {
      TextsAdd(sections, shape, Omission);
      pieces := pieces + [OMITTED];
    } else {
      assert AllPieces(keep, |sections|) == shape;
    }
    excerpt := Strip(Join(pieces));
  }

  /** The front of the text up to the budget, without the space it ends in, a blank line and the marker. */
  ghost predicate CutShort(excerpt: string, content: string, budget: nat) {
    exists kept ::
      && kept <= content && |kept| <= budget && excerpt == kept + BLANK_LINE + OMITTED
      && (kept != [] ==> !IsSpace(kept[|kept| - 1]))
      && forall k | |kept| <= k < budget && k < |content| :: IsSpace(content[k])
  }

  lemma FrontIsCutShort(content: string, budget: nat)
    requires |content| > budget
    ensures var excerpt := RStrip(content[..budget]) + BLANK_LINE + OMITTED;
            CutShort(excerpt, content, budget) && |excerpt| <= budget + |OMITTED| + 2
  {
    var front := content[..budget];
    var kept := RStrip(front);
    assert kept <= content && forall k | |kept| <= k < budget :: content[k] == front[k];
    hide RStrip, IsSpace;
    assert kept + BLANK_LINE + OMITTED == kept + BLANK_LINE + OMITTED;
  }

  /** `select_relevant_excerpt`, over the sections of the document and their order by score. */
  method SelectRelevantExcerpt(content: string, sections: seq<string>, order: seq<nat>, budget: nat)
    returns (excerpt: string, trimmed: bool)
    requires Ranks(order, |sections|)
    ensures trimmed <==> |content| > budget
    ensures trimmed && |sections| <= 1 ==> CutShort(excerpt, content, budget)
    ensures !trimmed ==> excerpt == content
    ensures trimmed ==>
              |excerpt| <= (if |sections| > 1 && |sections[0]| > budget then |sections[0]| else budget) + |OMITTED| + 2
    ensures trimmed && |sections| > 1 ==>
              exists keep: set<nat> ::
                && 0 in keep && LeavesNoRoom(sections, keep, budget) && ChosenInTurn(sections, order, budget, keep)
                && Shows(excerpt, sections, keep)
  {
    hide Shows, ChosenInTurn, LeavesNoRoom, CutShort, Used, RStrip;
    if |content| <= budget {
      return content, false;
    }
    if |sections| <= 1 {
      FrontIsCutShort(content, budget);
      return RStrip(content[..budget]) + BLANK_LINE + OMITTED, true;
    }
    var keep := Choose(sections, order, budget);
    excerpt := AssembleLoop(sections, keep);
    AssembledLength(sections, keep);
    AssembledShows(sections, keep);
    trimmed := true;
  }
}
