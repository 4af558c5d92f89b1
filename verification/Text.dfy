/** Text: stripping, finding a passage, and the `<!-- tasque:max_chars=N -->` markers of a document. */
module Text {
  import opened Basics

  /** `str.isspace` for one character, which is also what `\s` matches. */
  predicate IsSpace(c: char) {
    var n := c as int;
    || 9 <= n <= 13 || 28 <= n <= 32 || n == 0x85 || n == 0xA0 || n == 0x1680
    || 0x2000 <= n <= 0x200A || n == 0x2028 || n == 0x2029 || n == 0x202F || n == 0x205F || n == 0x3000
  }

  function RStrip(s: string): (r: string)
    ensures r <= s && (r != [] ==> !IsSpace(r[|r| - 1]))
    ensures forall i | |r| <= i < |s| :: IsSpace(s[i])
  {
    if s != [] && IsSpace(s[|s| - 1]) then RStrip(s[..|s| - 1]) else s
  }

  function LStrip(s: string): (r: string)
    ensures |r| <= |s| && r == s[|s| - |r|..] && (r != [] ==> !IsSpace(r[0]))
    ensures forall i | 0 <= i < |s| - |r| :: IsSpace(s[i])
  {
    if s != [] && IsSpace(s[0]) then LStrip(s[1..]) else s
  }

  function Strip(s: string): (r: string)
    ensures |r| <= |s|
    ensures r != [] ==> !IsSpace(r[0]) && !IsSpace(r[|r| - 1])
  {
    LStrip(RStrip(s))
  }

  predicate IsBlank(s: string) {
    forall i | 0 <= i < |s| :: IsSpace(s[i])
  }

  // ---- Markers ------------------------------------------------------------------------------

  const BLANK_LINE := "\n\n"

  const OPENING := "<!--"
  const NAME := "tasque:max_chars"
  const EQUALS := "="
  const CLOSING := "-->"

  function DropSpaces(u: string): (r: string)
    ensures |r| <= |u| && (r != [] ==> !IsSpace(r[0]))
  {
    if u != [] && IsSpace(u[0]) then DropSpaces(u[1..]) else u
  }

  function DropDigits(u: string): (r: string)
    ensures |r| <= |u| && u[|u| - |r|..] == r
    ensures forall c :: c in u[..|u| - |r|] ==> IsDigit(c)
  {
    if u != [] && IsDigit(u[0]) then
      var r := DropDigits(u[1..]);
      assert u[..|u| - |r|] == [u[0]] + u[1..][..|u| - 1 - |r|];
      r
    else u
  }

  function Digits(u: string): (digits: string)
    ensures forall c :: c in digits ==> IsDigit(c)
  {
    u[..|u| - |DropDigits(u)|]
  }

  function AfterExact(u: string, lit: string): (r: Option<string>)
    ensures r.Some? ==> |r.value| + |lit| == |u|
  {
    if lit <= u then Some(u[|lit|..]) else None
  }

  /** What follows `lit` and the spaces after it. A run of spaces ends at something else, so it is taken whole. */
  function AfterLit(u: string, lit: string): (r: Option<string>)
    ensures r.Some? ==> |r.value| + |lit| <= |u|
  {
    if lit <= u then Some(DropSpaces(u[|lit|..])) else None
  }

  /** The marker expression up to its digits. */
  function AfterHead(u: string): (r: Option<string>)
    ensures r.Some? ==> |r.value| + 21 <= |u|
  {
    var name := AfterLit(u, OPENING);
    if name.None? then None
    else
      var equals := AfterLit(name.value, NAME);
      if equals.None? then None else AfterLit(equals.value, EQUALS)
  }

  /** A marker at the front of a text: its digits, and what follows it. */
  datatype Marker = Marker(digits: string, rest: string)

  /** The rest of the expression; the digits, too, are taken whole. */
  function ParseTail(u: string): (m: Option<Marker>)
    ensures m.Some? ==> 2 <= |m.value.digits| <= 7 && |m.value.rest| + |m.value.digits| + 3 <= |u|
    ensures m.Some? ==> forall c :: c in m.value.digits ==> IsDigit(c)
  {
    var closing := DropSpaces(DropDigits(u));
    var rest := AfterExact(closing, CLOSING);
    if 2 <= |Digits(u)| <= 7 && rest.Some? then Some(Marker(Digits(u), rest.value)) else None
  }

  /** The marker expression, matched at the front of `u`. */
  function Parse(u: string): (m: Option<Marker>)
    ensures m.Some? ==> |m.value.rest| + 26 <= |u| && |m.value.digits| <= 7
    ensures m.Some? ==> forall c :: c in m.value.digits ==> IsDigit(c)
  {
    var r := AfterHead(u);
    if r.None? then None else ParseTail(r.value)
  }

  /** The first position from `i` on at which a marker stands. */
  function FirstMarker(s: string, i: nat): (p: Option<nat>)
    requires i <= |s|
    ensures p.Some? ==> i <= p.value < |s| && Parse(s[p.value..]).Some?
    decreases |s| - i
  {
    if i == |s| then None
    else if Parse(s[i..]).Some? then Some(i)
    else FirstMarker(s, i + 1)
  }

  function DigitValue(c: char): nat
    requires IsDigit(c)
  {
    (c as int) - ('0' as int)
  }

  function ToNat(digits: string): nat
    requires forall c :: c in digits ==> IsDigit(c)
  {
    if digits == [] then 0
    else
      assert digits[|digits| - 1] in digits;
      10 * ToNat(digits[..|digits| - 1]) + DigitValue(digits[|digits| - 1])
  }

  /** `canonical_budget`. */
  function Budget(s: string): Option<nat> {
    var p := FirstMarker(s, 0);
    if p.Some? then Some(ToNat(Parse(s[p.value..]).value.digits)) else None
  }

  /** `_markers`: the text of each marker, from the left, none overlapping another. */
  function MarkersFrom(s: string, i: nat): seq<string>
    requires i <= |s|
    decreases |s| - i
  {
    var p := FirstMarker(s, i);
    if p.None? then []
    else
      var end := |s| - |Parse(s[p.value..]).value.rest|;
      [s[p.value..end]] + MarkersFrom(s, end)
  }

  function Markers(s: string): seq<string> {
    MarkersFrom(s, 0)
  }

  lemma {:induction false} FirstMarkerIsFirst(s: string, i: nat, k: nat)
    requires i <= k < |s|
    ensures FirstMarker(s, i).None? ==> Parse(s[k..]).None?
    ensures FirstMarker(s, i).Some? && k < FirstMarker(s, i).value ==> Parse(s[k..]).None?
    decreases k - i
  {
    if i < k && Parse(s[i..]).None? {
      FirstMarkerIsFirst(s, i + 1, k);
    }
  }

  lemma {:induction false} FirstMarkerFound(s: string, i: nat, p: nat)
    requires i <= p < |s| && Parse(s[p..]).Some? && forall k: nat | i <= k < p :: Parse(s[k..]).None?
    ensures FirstMarker(s, i) == Some(p)
    decreases p - i
  {
    if i < p {
      FirstMarkerFound(s, i + 1, p);
    }
  }

  lemma {:induction false} NoMarkerFound(s: string, i: nat)
    requires i <= |s| && forall k: nat | i <= k < |s| :: Parse(s[k..]).None?
    ensures FirstMarker(s, i) == None
    decreases |s| - i
  {
    if i < |s| {
      NoMarkerFound(s, i + 1);
    }
  }

  // ---- A marker is only its own text: what follows it does not matter -----------------------

  lemma {:induction false} SpacesStop(w: string, x: string)
    ensures if DropSpaces(w) != [] then DropSpaces(w + x) == DropSpaces(w) + x else |DropSpaces(w + x)| <= |x|
  {
    if w == [] {
      assert w + x == x;
    } else if IsSpace(w[0]) {
      assert (w + x)[1..] == w[1..] + x;
      SpacesStop(w[1..], x);
    }
  }

  lemma {:induction false} DigitsStop(w: string, x: string)
    ensures if DropDigits(w) != [] then DropDigits(w + x) == DropDigits(w) + x else |DropDigits(w + x)| <= |x|
  {
    if w == [] {
      assert w + x == x;
    } else if IsDigit(w[0]) {
      assert (w + x)[1..] == w[1..] + x;
      DigitsStop(w[1..], x);
    }
  }

  /** Either `f` leaves something of `w`, and the same with `x` behind it, or what it leaves is inside `x`. */
  ghost predicate Stops(left: Option<string>, more: Option<string>, x: string) {
    if left.Some? && left.value != [] then more == Some(left.value + x)
    else more.Some? ==> |more.value| <= |x|
  }

  lemma LitStops(w: string, lit: string, x: string)
    ensures Stops(AfterLit(w, lit), AfterLit(w + x, lit), x)
  {
    if |lit| <= |w| {
      assert (w + x)[..|lit|] == w[..|lit|];
      assert (w + x)[|lit|..] == w[|lit|..] + x;
      SpacesStop(w[|lit|..], x);
    }
  }

  lemma HeadStops(w: string, x: string)
    ensures Stops(AfterHead(w), AfterHead(w + x), x)
  {
    LitStops(w, OPENING, x);
    var name := AfterLit(w, OPENING);
    if name.Some? {
      LitStops(name.value, NAME, x);
      var equals := AfterLit(name.value, NAME);
      if equals.Some? {
        LitStops(equals.value, EQUALS, x);
      }
    }
    hide AfterLit;
  }

  lemma ExactStops(w: string, lit: string, x: string)
    ensures AfterExact(w, lit).Some? ==> AfterExact(w + x, lit) == Some(AfterExact(w, lit).value + x)
    ensures AfterExact(w, lit).None? && AfterExact(w + x, lit).Some? ==> |AfterExact(w + x, lit).value| < |x|
  {
    if |lit| <= |w| {
      assert (w + x)[..|lit|] == w[..|lit|];
      assert (w + x)[|lit|..] == w[|lit|..] + x;
    }
  }

  lemma DigitsKept(w: string, x: string)
    requires DropDigits(w) != []
    ensures DropDigits(w + x) == DropDigits(w) + x && Digits(w + x) == Digits(w)
  {
    DigitsStop(w, x);
    var n := |w| - |DropDigits(w)|;
    assert (w + x)[..n] == w[..n];
  }

  lemma TailStops(w: string, x: string)
    ensures ParseTail(w).Some? ==>
              ParseTail(w + x) == Some(Marker(ParseTail(w).value.digits, ParseTail(w).value.rest + x))
    ensures ParseTail(w).None? && ParseTail(w + x).Some? ==> |ParseTail(w + x).value.rest| < |x|
  {
    DigitsStop(w, x);
    var spaces := DropDigits(w);
    SpacesStop(spaces, x);
    if spaces != [] {
      DigitsKept(w, x);
      ExactStops(DropSpaces(spaces), CLOSING, x);
    }
    hide DropDigits, DropSpaces, Digits, AfterExact;
  }

  /** A marker of `w` is the same marker of `w + x`; a marker of `w + x` that `w` lacks reaches into `x`. */
  lemma ParseStops(w: string, x: string)
    ensures Parse(w).Some? ==> Parse(w + x) == Some(Marker(Parse(w).value.digits, Parse(w).value.rest + x))
    ensures Parse(w).None? && Parse(w + x).Some? ==> |Parse(w + x).value.rest| < |x|
  {
    HeadStops(w, x);
    var head := AfterHead(w);
    if head.Some? {
      TailStops(head.value, x);
    }
    hide AfterHead, ParseTail;
  }

  /** The text of a marker is a marker, with the same digits and nothing after it. */
  lemma MarkerAlone(u: string)
    requires Parse(u).Some?
    ensures var m := Parse(u).value; Parse(u[..|u| - |m.rest|]) == Some(Marker(m.digits, []))
  {
    var m := Parse(u).value;
    var w, x := u[..|u| - |m.rest|], u[|u| - |m.rest|..];
    assert u == w + x;
    ParseStops(w, x);
  }

  lemma SliceFront(s: string, p: nat, k: nat)
    requires p + k <= |s|
    ensures s[p..|s| - k] == s[p..][..|s| - p - k]
  {
  }

  /** The text of the first marker, cut out of the document. */
  lemma FirstMarkerText(s: string)
    requires FirstMarker(s, 0).Some?
    ensures var u := s[FirstMarker(s, 0).value..];
            Markers(s) != [] && Markers(s)[0] == u[..|u| - |Parse(u).value.rest|]
  {
    var p := FirstMarker(s, 0).value;
    SliceFront(s, p, |Parse(s[p..]).value.rest|);
    hide Parse, FirstMarker;
  }

  /** The first marker's text carries the budget. */
  lemma BudgetIsFirstMarker(s: string)
    ensures Markers(s) == [] <==> Budget(s).None?
    ensures Markers(s) != [] ==>
              Parse(Markers(s)[0]).Some? && Budget(s) == Some(ToNat(Parse(Markers(s)[0]).value.digits))
  {
    hide Parse, FirstMarker, ToNat;
    if FirstMarker(s, 0).Some? {
      FirstMarkerText(s);
      MarkerAlone(s[FirstMarker(s, 0).value..]);
    }
  }

  lemma SameMarkersSameBudget(s: string, t: string)
    requires Markers(s) == Markers(t)
    ensures Budget(s) == Budget(t)
  {
    BudgetIsFirstMarker(s);
    BudgetIsFirstMarker(t);
  }

  // ---- A marker opens once ------------------------------------------------------------------

  /** `r` ends `u`, and no bracket opens before it, except perhaps at the front. */
  ghost predicate OpensOnlyInFront(u: string, r: string) {
    |r| <= |u| && u[|u| - |r|..] == r && forall k | 1 <= k < |u| - |r| :: u[k] != '<'
  }

  lemma {:induction false} SpacesOpenNothing(u: string)
    ensures OpensOnlyInFront(u, DropSpaces(u)) && (|DropSpaces(u)| < |u| ==> u[0] != '<')
  {
    if u != [] && IsSpace(u[0]) {
      SpacesOpenNothing(u[1..]);
      forall k | 1 <= k < |u| - |DropSpaces(u)| ensures u[k] != '<' {
        assert u[k] == u[1..][k - 1];
      }
    }
  }

  lemma OpensChain(u: string, v: string, r: string)
    requires OpensOnlyInFront(u, v) && OpensOnlyInFront(v, r) && (|r| < |v| ==> v[0] != '<')
    ensures OpensOnlyInFront(u, r)
  {
    forall k | 1 <= k < |u| - |r| ensures u[k] != '<' {
      if k >= |u| - |v| {
        assert u[k] == v[k - (|u| - |v|)];
      }
    }
  }

  lemma LitOpensNothing(u: string, lit: string)
    requires AfterLit(u, lit).Some? && lit != [] && forall k | 1 <= k < |lit| :: lit[k] != '<'
    ensures OpensOnlyInFront(u, AfterLit(u, lit).value) && u[0] == lit[0]
  {
    var v := u[|lit|..];
    assert forall k | 0 <= k < |lit| :: u[k] == lit[k];
    SpacesOpenNothing(v);
    OpensChain(u, v, DropSpaces(v));
  }

  /** The literals of the marker expression open nothing after their first character. */
  lemma LiteralsOpenNothing()
    ensures forall k | 1 <= k < |OPENING| :: OPENING[k] != '<'
    ensures forall k | 0 <= k < |NAME| :: NAME[k] != '<'
    ensures EQUALS == "=" && OPENING[0] == '<'
  {
  }

  lemma HeadOpensOnce(u: string)
    requires AfterHead(u).Some?
    ensures OpensOnlyInFront(u, AfterHead(u).value) && u[0] == '<'
  {
    LiteralsOpenNothing();
    var name := AfterLit(u, OPENING).value;
    var equals := AfterLit(name, NAME).value;
    LitOpensNothing(u, OPENING);
    LitOpensNothing(name, NAME);
    LitOpensNothing(equals, EQUALS);
    hide AfterLit;
    OpensChain(u, name, equals);
    OpensChain(u, equals, AfterLit(equals, EQUALS).value);
  }

  lemma ClosingOpensNothing(u: string)
    requires AfterExact(u, CLOSING).Some?
    ensures var r := AfterExact(u, CLOSING).value;
            OpensOnlyInFront(u, r) && u[0] != '<' && u[|u| - |r| - 1] == '>'
  {
    assert forall k | 0 <= k < 3 :: u[k] == CLOSING[k];
  }

  lemma DigitsOpenNothing(u: string)
    ensures OpensOnlyInFront(u, DropDigits(u)) && (|DropDigits(u)| < |u| ==> u[0] != '<')
  {
    var n := |u| - |DropDigits(u)|;
    assert forall c :: c in u[..n] ==> IsDigit(c);
    hide DropDigits;
    forall k | 0 <= k < n ensures u[k] != '<' {
      assert u[..n][k] in u[..n];
    }
  }

  lemma TailOpensNothing(u: string)
    requires ParseTail(u).Some?
    ensures var r := ParseTail(u).value.rest; OpensOnlyInFront(u, r) && u[0] != '<' && u[|u| - |r| - 1] == '>'
  {
    var spaces := DropDigits(u);
    var closing := DropSpaces(spaces);
    var r := AfterExact(closing, CLOSING).value;
    hide AfterExact, DropSpaces, DropDigits, Digits, IsDigit, OpensOnlyInFront;
    assert ParseTail(u).value.rest == r;
    hide ParseTail;
    DigitsOpenNothing(u);
    SpacesOpenNothing(spaces);
    ClosingOpensNothing(closing);
    OpensChain(u, spaces, closing);
    OpensChain(u, closing, r);
    SuffixOf(u, closing);
    BeforeSuffix(u, closing, r);
  }

  lemma BeforeSuffix(u: string, v: string, r: string)
    requires |r| < |v| <= |u| && u[|u| - |v|..] == v
    ensures u[|u| - |r| - 1] == v[|v| - |r| - 1]
  {
    assert u[|u| - |v|..][|v| - |r| - 1] == u[|u| - |r| - 1];
  }

  /** A marker opens at its first character and nowhere else, and ends with a closing bracket. */
  lemma MarkerOpensOnce(u: string)
    requires Parse(u).Some?
    ensures var r := Parse(u).value.rest; OpensOnlyInFront(u, r) && u[0] == '<' && u[|u| - |r| - 1] == '>'
  {
    hide AfterHead, ParseTail, OpensOnlyInFront;
    var digits := AfterHead(u).value;
    var r := ParseTail(digits).value.rest;
    HeadOpensOnce(u);
    TailOpensNothing(digits);
    OpensChain(u, digits, r);
    SuffixOf(u, digits);
    BeforeSuffix(u, digits, r);
  }

  lemma SuffixOf(u: string, r: string)
    requires OpensOnlyInFront(u, r)
    ensures |r| <= |u| && u[|u| - |r|..] == r
  {
  }

  // ---- Writing a marker ---------------------------------------------------------------------

  lemma {:induction false} DecReadsBack(n: nat)
    ensures (forall c :: c in Dec(n) ==> IsDigit(c)) && ToNat(Dec(n)) == n
  {
    DecIsDigits(n);
    if n >= 10 {
      DecReadsBack(n / 10);
      assert Dec(n)[..|Dec(n)| - 1] == Dec(n / 10);
    } else {
      assert Dec(n)[..0] == [];
    }
  }

  function Pow10(k: nat): nat {
    if k == 0 then 1 else 10 * Pow10(k - 1)
  }

  lemma {:induction false} DecLength(n: nat, k: nat)
    requires n < Pow10(k) && k >= 1
    ensures |Dec(n)| <= k && (|Dec(n)| >= 2 <==> n >= 10)
  {
    if n >= 10 {
      DecLength(n / 10, k - 1);
    }
  }

  lemma {:induction false} ToNatBound(digits: string)
    requires forall c :: c in digits ==> IsDigit(c)
    ensures ToNat(digits) < Pow10(|digits|)
  {
    if digits != [] {
      assert digits[|digits| - 1] in digits;
      ToNatBound(digits[..|digits| - 1]);
    }
  }

  lemma Pow10Grows(a: nat, b: nat)
    requires a <= b
    ensures Pow10(a) <= Pow10(b)
    decreases b
  {
    if a < b {
      Pow10Grows(a, b - 1);
    }
  }

  /** A declared budget has at most seven digits, and its document at least 26 characters. */
  lemma BudgetBound(s: string)
    requires Budget(s).Some?
    ensures Budget(s).value < Pow10(7) && |s| >= 26
  {
    var digits := Parse(s[FirstMarker(s, 0).value..]).value.digits;
    ToNatBound(digits);
    Pow10Grows(|digits|, 7);
  }

  /** A marker written out, with what follows it. */
  function MarkerText(digits: string, rest: string): (text: string)
    ensures |text| == |digits| + |rest| + 26
  {
    OPENING + (" " + (NAME + (EQUALS + (digits + (" " + (CLOSING + rest))))))
  }

  /** What a write becomes when it drops the marker of a document with budget `n`. */
  function WithMarker(content: string, n: nat): string {
    RStrip(content) + (BLANK_LINE + MarkerText(Dec(n), "\n"))
  }

  lemma WithMarkerIsLonger(content: string, n: nat)
    ensures WithMarker(content, n) != content && |WithMarker(content, n)| >= 30
  {
    var r, w, marker := RStrip(content), WithMarker(content, n), MarkerText(Dec(n), "\n");
    assert marker[0] == '<' && !IsSpace('<');
    hide Dec, MarkerText, RStrip, IsSpace;
    assert w[|r| + 2] == marker[0];
    assert |content| > |r| + 2 ==> IsSpace(content[|r| + 2]);
  }

  lemma LitIsThere(lit: string, gap: string, b: string)
    requires |gap| <= 1 && IsBlank(gap) && b != [] && !IsSpace(b[0])
    ensures AfterLit(lit + (gap + b), lit) == Some(b)
  {
    var u := lit + (gap + b);
    assert u[..|lit|] == lit && u[|lit|..] == gap + b;
    SpaceDropped(gap, b);
  }

  lemma SpaceDropped(gap: string, b: string)
    requires |gap| <= 1 && IsBlank(gap) && b != [] && !IsSpace(b[0])
    ensures DropSpaces(gap + b) == b
  {
    if gap == [] {
      assert gap + b == b;
    } else {
      assert (gap + b)[1..] == b;
    }
  }

  lemma {:induction false} DigitsDropped(d: string, b: string)
    requires (forall c :: c in d ==> IsDigit(c)) && b != [] && !IsDigit(b[0])
    ensures DropDigits(d + b) == b && Digits(d + b) == d
  {
    if d == [] {
      assert d + b == b;
    } else {
      assert d[0] in d && (d + b)[1..] == d[1..] + b;
      DigitsDropped(d[1..], b);
    }
    assert (d + b)[..|d|] == d;
  }

  lemma WrittenHead(rest: string)
    requires rest != [] && IsDigit(rest[0])
    ensures AfterHead(OPENING + (" " + (NAME + (EQUALS + rest)))) == Some(rest)
  {
    var afterName := EQUALS + rest;
    var afterSpace := NAME + afterName;
    assert "" + afterName == afterName && "" + rest == rest;
    assert afterSpace[0] == NAME[0] && afterName[0] == EQUALS[0];
    LitIsThere(OPENING, " ", afterSpace);
    LitIsThere(NAME, "", afterName);
    LitIsThere(EQUALS, "", rest);
    hide AfterLit;
  }

  lemma ExactThere(lit: string, rest: string)
    ensures AfterExact(lit + rest, lit) == Some(rest)
  {
    assert (lit + rest)[..|lit|] == lit && (lit + rest)[|lit|..] == rest;
  }

  lemma WrittenDigits(d: string, closing: string)
    requires forall c :: c in d ==> IsDigit(c)
    requires closing != [] && !IsSpace(closing[0])
    ensures DropSpaces(DropDigits(d + (" " + closing))) == closing && Digits(d + (" " + closing)) == d
  {
    assert (" " + closing)[0] == ' ';
    DigitsDropped(d, " " + closing);
    SpaceDropped(" ", closing);
  }

  lemma WrittenTail(d: string, rest: string)
    requires d != [] && |d| <= 7 && forall c :: c in d ==> IsDigit(c)
    ensures ParseTail(d + (" " + (CLOSING + rest))) == if |d| >= 2 then Some(Marker(d, rest)) else None
  {
    hide DropDigits, DropSpaces, Digits, AfterExact;
    assert (CLOSING + rest)[0] == CLOSING[0];
    WrittenDigits(d, CLOSING + rest);
    ExactThere(CLOSING, rest);
  }

  /** A written marker reads back when its number has at least two digits, and only then. */
  lemma WrittenMarker(n: nat, rest: string)
    requires n < Pow10(7)
    ensures Parse(MarkerText(Dec(n), rest)) == if n >= 10 then Some(Marker(Dec(n), rest)) else None
  {
    var d := Dec(n);
    DecLength(n, 7);
    DecIsDigits(n);
    assert d[0] in d;
    WrittenHead(d + (" " + (CLOSING + rest)));
    WrittenTail(d, rest);
    hide AfterHead, ParseTail, Pow10, Dec;
  }

  /** The text after the opening of a written marker holds no other bracket. */
  lemma WrittenOpensOnce(d: string, rest: string, k: nat)
    requires k < |MarkerText(d, rest)| && forall c :: c in d ==> IsDigit(c)
    requires forall c :: c in rest ==> c != '<'
    ensures MarkerText(d, rest)[k] == '<' <==> k == 0
  {
    var a := " " + (NAME + (EQUALS + (d + (" " + (CLOSING + rest)))));
    assert MarkerText(d, rest)[k] == if k < 4 then OPENING[k] else a[k - 4];
    assert forall c :: c in a ==> c in " " || c in NAME || c in EQUALS || c in d || c in CLOSING || c in rest;
    assert '<' !in " " && '<' !in NAME && '<' !in EQUALS && '<' !in CLOSING && '<' !in d && '<' !in rest;
    assert k >= 4 ==> a[k - 4] in a;
  }

  /** Text without a marker, cut short and continued with a line break and a bracket, has none across the cut. */
  lemma NoMarkerAcross(content: string, r: string, tail: string, i: nat)
    requires FirstMarker(content, 0).None? && r <= content && i < |r|
    requires |tail| >= 3 && tail[0] == '\n' && tail[1] == '\n' && tail[2] == '<'
    ensures Parse((r + tail)[i..]).None?
  {
    var w := r[i..];
    FirstMarkerIsFirst(content, 0, i);
    assert content[i..] == w + content[|r|..] && (r + tail)[i..] == w + tail;
    ParseStops(w, content[|r|..]);
    ParseStops(w, tail);
    hide Parse;
    assert (w + tail)[|w|] == tail[0] && (w + tail)[|w| + 1] == tail[1] && (w + tail)[|w| + 2] == tail[2];
    if Parse(w + tail).Some? {
      MarkerOpensOnce(w + tail);
    }
  }

  lemma NotAtTheFront(u: string)
    requires u != [] && u[0] != '<'
    ensures Parse(u).None?
  {
    if Parse(u).Some? {
      MarkerOpensOnce(u);
    }
  }

  /** After the stripped text, only the written marker can match. */
  lemma NoMarkerBut(content: string, d: string, i: nat)
    requires FirstMarker(content, 0).None? && forall c :: c in d ==> IsDigit(c)
    requires var s := RStrip(content) + (BLANK_LINE + MarkerText(d, "\n")); i < |s| && i != |RStrip(content)| + 2
    ensures Parse((RStrip(content) + (BLANK_LINE + MarkerText(d, "\n")))[i..]).None?
  {
    hide Parse, FirstMarker, RStrip, MarkerText;
    var r, marker := RStrip(content), MarkerText(d, "\n");
    var tail := BLANK_LINE + marker;
    WrittenOpensOnce(d, "\n", 0);
    assert tail[2] == marker[0];
    if i < |r| {
      NoMarkerAcross(content, r, tail, i);
    } else {
      assert (r + tail)[i] == tail[i - |r|];
      if i - |r| > 2 {
        WrittenOpensOnce(d, "\n", i - |r| - 2);
        assert tail[i - |r|] == marker[i - |r| - 2];
      }
      NotAtTheFront((r + tail)[i..]);
    }
  }

  /** A dropped marker that is appended again declares the old budget, exactly when that is 10 or more. */
  lemma AppendedMarkerDeclares(content: string, n: nat)
    requires Budget(content).None? && n < Pow10(7)
    ensures Budget(WithMarker(content, n)) == if n >= 10 then Some(n) else None
  {
    var s, p := WithMarker(content, n), |RStrip(content)| + 2;
    var marker := MarkerText(Dec(n), "\n");
    assert s[p..] == marker by {
      assert s == (RStrip(content) + BLANK_LINE) + marker;
    }
    DecIsDigits(n);
    forall i: nat | i < |s| && i != p ensures Parse(s[i..]).None? {
      NoMarkerBut(content, Dec(n), i);
    }
    WrittenMarker(n, "\n");
    DecReadsBack(n);
    MarkerFoundOrNot(s, p);
    hide *;
  }

  lemma MarkerFoundOrNot(s: string, p: nat)
    requires p < |s| && forall i: nat | i < |s| && i != p :: Parse(s[i..]).None?
    ensures Budget(s) == if Parse(s[p..]).Some? then Some(ToNat(Parse(s[p..]).value.digits)) else None
  {
    if Parse(s[p..]).Some? {
      FirstMarkerFound(s, 0, p);
    } else {
      NoMarkerFound(s, 0);
    }
  }

  /** A text that is one marker declares its number. */
  lemma BudgetOfMarker(d: string)
    requires 2 <= |d| <= 7 && forall c :: c in d ==> IsDigit(c)
    ensures Budget(MarkerText(d, "")) == Some(ToNat(d))
  {
    var s := MarkerText(d, "");
    assert d[0] in d;
    WrittenHead(d + (" " + (CLOSING + "")));
    WrittenTail(d, "");
    assert s[0..] == s;
    hide AfterHead, ParseTail;
  }

  lemma MarkerOfTwoDigits(a: char, b: char)
    requires IsDigit(a) && IsDigit(b)
    ensures Budget("<!-- tasque:max_chars=" + [a, b] + " -->") == Some(ToNat([a, b]))
  {
    hide Budget, ToNat;
    BudgetOfMarker([a, b]);
    assert MarkerText([a, b], "") == "<!-- tasque:max_chars=" + [a, b] + " -->";
  }

  lemma TwoDigits(a: char, b: char)
    requires IsDigit(a) && IsDigit(b)
    ensures ToNat([a, b]) == 10 * DigitValue(a) + DigitValue(b)
  {
    var d := [a, b];
    assert d[..1] == [a];
    assert ToNat([a]) == DigitValue(a) by {
      assert [a][..0] == [];
    }
  }

  /** A text shorter than any marker declares nothing. */
  lemma NoRoomForMarker(s: string)
    requires |s| < 26
    ensures Budget(s) == None
  {
    if Budget(s).Some? {
      BudgetBound(s);
    }
  }

  // ---- Passages -----------------------------------------------------------------------------

  /** `passage` starts at position `i` of `text`. */
  predicate StartsAt(text: string, passage: string, i: nat) {
    i + |passage| <= |text| && text[i..i + |passage|] == passage
  }

  /** `text.find(passage, start)`. */
  function Find(text: string, passage: string, start: nat): (p: Option<nat>)
    ensures p.Some? ==> p.value >= start && StartsAt(text, passage, p.value)
    ensures p.Some? ==> forall k: nat | start <= k < p.value :: !StartsAt(text, passage, k)
    ensures p.None? ==> forall k: nat | start <= k :: !StartsAt(text, passage, k)
    decreases |text| - start
  {
    if start + |passage| > |text| then None
    else if StartsAt(text, passage, start) then Some(start)
    else Find(text, passage, start + 1)
  }

  /** How many of the positions before `n` the passage starts at. */
  function Starts(text: string, passage: string, n: nat): nat {
    if n == 0 then 0 else Starts(text, passage, n - 1) + if StartsAt(text, passage, n - 1) then 1 else 0
  }

  lemma {:induction false} NoStartsBetween(text: string, passage: string, a: nat, b: nat)
    requires a <= b && forall k: nat | a <= k < b :: !StartsAt(text, passage, k)
    ensures Starts(text, passage, a) == Starts(text, passage, b)
  {
    if a < b {
      NoStartsBetween(text, passage, a, b - 1);
    }
  }

  lemma NextStart(text: string, passage: string, seen: nat)
    requires seen <= |text| + 1
    ensures var p := Find(text, passage, seen);
            if p.Some? then
              seen <= p.value <= |text| && Starts(text, passage, p.value + 1) == Starts(text, passage, seen) + 1
            else Starts(text, passage, |text| + 1) == Starts(text, passage, seen)
  {
    var p := Find(text, passage, seen);
    NoStartsBetween(text, passage, seen, if p.Some? then p.value else |text| + 1);
  }

  lemma StartsAtNone(text: string, passage: string)
    ensures Starts(text, passage, 0) == 0
  {
  }

  /** `_occurrences`: every place the passage starts, overlapping ones included. */
  method Occurrences(text: string, passage: string) returns (count: nat)
    ensures count == Starts(text, passage, |text| + 1)
  {
    hide *;
    StartsAtNone(text, passage);
    count := 0;
    var start := Find(text, passage, 0);
    ghost var seen: nat := 0;
    while start.Some?
      invariant count == Starts(text, passage, seen) && seen <= |text| + 1
      invariant start == Find(text, passage, seen)
      decreases |text| + 1 - seen
    {
      NextStart(text, passage, seen);
      count := count + 1;
      seen := start.value + 1;
      start := Find(text, passage, start.value + 1);
    }
    NextStart(text, passage, seen);
  }

  /** A single occurrence is at the only position the passage starts at. */
  lemma {:induction false} SingleStart(text: string, passage: string, n: nat, i: nat, j: nat)
    requires Starts(text, passage, n) == 1 && i < n && j < n
    requires StartsAt(text, passage, i) && StartsAt(text, passage, j)
    ensures i == j
  {
    if i < n - 1 && j < n - 1 {
      if StartsAt(text, passage, n - 1) {
        StartsCount(text, passage, n - 1, i);
      }
      SingleStart(text, passage, n - 1, i, j);
    } else if i != j {
      StartsCount(text, passage, n - 1, if i < j then i else j);
    }
  }

  lemma {:induction false} StartsCount(text: string, passage: string, n: nat, i: nat)
    requires i < n && StartsAt(text, passage, i)
    ensures Starts(text, passage, n) >= 1
  {
    if i < n - 1 {
      StartsCount(text, passage, n - 1, i);
    }
  }
}
