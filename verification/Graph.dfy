/** Reachability in a finite graph, and the worklist loop that computes it. */
module Graph {

  ghost predicate IsPath<T>(arcs: set<(T, T)>, p: seq<T>) {
    && |p| > 0
    && forall i | 0 <= i < |p| - 1 :: (p[i], p[i + 1]) in arcs
  }

  /** `b` comes after `a`, or is `a`. */
  ghost predicate Reaches<T(!new)>(arcs: set<(T, T)>, a: T, b: T) {
    exists p: seq<T> :: IsPath(arcs, p) && p[0] == a && p[|p| - 1] == b
  }

  lemma ReachesSelf<T(!new)>(arcs: set<(T, T)>, a: T)
    ensures Reaches(arcs, a, a)
  {
    assert IsPath(arcs, [a]) && [a][0] == a && [a][|[a]| - 1] == a;
  }

  lemma ReachesStep<T(!new)>(arcs: set<(T, T)>, a: T, b: T, c: T)
    requires Reaches(arcs, a, b) && (b, c) in arcs
    ensures Reaches(arcs, a, c)
  {
    var p :| IsPath(arcs, p) && p[0] == a && p[|p| - 1] == b;
    var q := p + [c];
    assert IsPath(arcs, q) && q[0] == a && q[|q| - 1] == c;
  }

  lemma ReachesThrough<T(!new)>(arcs: set<(T, T)>, a: T, b: T, c: T)
    requires Reaches(arcs, a, b) && Reaches(arcs, b, c)
    ensures Reaches(arcs, a, c)
  {
    var p :| IsPath(arcs, p) && p[0] == a && p[|p| - 1] == b;
    var q :| IsPath(arcs, q) && q[0] == b && q[|q| - 1] == c;
    var r := p + q[1..];
    assert r[|r| - 1] == c && r[0] == a;
    forall i | 0 <= i < |r| - 1
      ensures (r[i], r[i + 1]) in arcs
    {
      if i >= |p| - 1 {
        assert r[i] == q[i - |p| + 1] && r[i + 1] == q[i - |p| + 2];
      }
    }
    assert IsPath(arcs, r);
  }

  /** A set that holds `a` and is closed under the arcs holds everything after `a`. */
  lemma ClosedHoldsAfter<T(!new)>(arcs: set<(T, T)>, s: set<T>, a: T, b: T)
    requires a in s && Reaches(arcs, a, b)
    requires forall x, y :: x in s && (x, y) in arcs ==> y in s
    ensures b in s
  {
    var p :| IsPath(arcs, p) && p[0] == a && p[|p| - 1] == b;
    PathStaysIn(arcs, s, p, |p| - 1);
  }

  lemma {:induction false} PathStaysIn<T(!new)>(arcs: set<(T, T)>, s: set<T>, p: seq<T>, k: nat)
    requires IsPath(arcs, p) && p[0] in s && k < |p|
    requires forall x, y :: x in s && (x, y) in arcs ==> y in s
    ensures p[k] in s
  {
    if k > 0 {
      PathStaysIn(arcs, s, p, k - 1);
      assert (p[k - 1], p[k - 1 + 1]) in arcs;
    }
  }

  /** Turning every arc round turns reachability round. */
  lemma ReachesReversed<T(!new)>(arcs: set<(T, T)>, back: set<(T, T)>, a: T, b: T)
    requires forall x, y :: (x, y) in arcs ==> (y, x) in back
    requires Reaches(arcs, a, b)
    ensures Reaches(back, b, a)
  {
    var p :| IsPath(arcs, p) && p[0] == a && p[|p| - 1] == b;
    var q := seq(|p|, i requires 0 <= i < |p| => p[|p| - 1 - i]);
    forall i | 0 <= i < |q| - 1
      ensures (q[i], q[i + 1]) in back
    {
      var j := |p| - 2 - i;
      assert (p[j], p[j + 1]) in arcs;
    }
    assert IsPath(back, q) && q[0] == b && q[|q| - 1] == a;
  }

  /** The arcs an adjacency dictionary holds. */
  ghost function ArcsOf<T>(next: map<T, seq<T>>): set<(T, T)> {
    set x, y | x in next && y in next[x] :: (x, y)
  }

  ghost predicate ReachedFrom<T(!new)>(arcs: set<(T, T)>, starts: seq<T>, v: T) {
    exists a :: a in starts && Reaches(arcs, a, v)
  }

  lemma ReachedStep<T(!new)>(arcs: set<(T, T)>, starts: seq<T>, v: T, w: T)
    requires ReachedFrom(arcs, starts, v) && (v, w) in arcs
    ensures ReachedFrom(arcs, starts, w)
  {
    var a :| a in starts && Reaches(arcs, a, v);
    ReachesStep(arcs, a, v, w);
  }

  /** Everything the loop has seen, found or still waiting, is reached, and every arc out of a found entry is seen. */
  ghost predicate Searching<T(!new)>(arcs: set<(T, T)>, starts: seq<T>, found: set<T>, waiting: seq<T>) {
    && (forall v :: v in found || v in waiting ==> ReachedFrom(arcs, starts, v))
    && (forall v :: v in starts ==> v in found || v in waiting)
    && (forall x, y :: x in found && (x, y) in arcs ==> y in found || y in waiting)
  }

  lemma SearchStarts<T(!new)>(arcs: set<(T, T)>, starts: seq<T>)
    ensures Searching(arcs, starts, {}, starts)
  {
    forall v | v in starts ensures ReachedFrom(arcs, starts, v) {
      ReachesSelf(arcs, v);
    }
  }

  lemma SearchPops<T(!new)>(arcs: set<(T, T)>, starts: seq<T>, found: set<T>, waiting: seq<T>, current: T, more: seq<T>)
    requires Searching(arcs, starts, found, waiting + [current])
    requires current !in found ==> forall y :: y in more <==> (current, y) in arcs
    ensures current in found ==> Searching(arcs, starts, found, waiting)
    ensures current !in found ==> Searching(arcs, starts, found + {current}, waiting + more)
  {
    assert current in waiting + [current];
    if current !in found {
      forall y | y in more ensures ReachedFrom(arcs, starts, y) {
        ReachedStep(arcs, starts, current, y);
      }
    }
  }

  lemma SearchEnds<T(!new)>(arcs: set<(T, T)>, starts: seq<T>, found: set<T>, v: T)
    requires Searching(arcs, starts, found, [])
    ensures v in found <==> ReachedFrom(arcs, starts, v)
  {
    if ReachedFrom(arcs, starts, v) {
      var a :| a in starts && Reaches(arcs, a, v);
      ClosedHoldsAfter(arcs, found, a, v);
    }
  }

  /** Everything the loop can ever meet. */
  ghost function Seen<T>(next: map<T, seq<T>>, starts: seq<T>): (all: set<T>)
    ensures forall v :: v in starts ==> v in all
    ensures forall x, y :: x in next && y in next[x] ==> y in all
  {
    (set x | x in starts) + (set x, y | x in next && y in next[x] :: y)
  }

  function Neighbours<T(==)>(next: map<T, seq<T>>, x: T): seq<T> {
    if x in next then next[x] else []
  }

  lemma ArcsFrom<T(!new)>(next: map<T, seq<T>>, x: T)
    ensures forall y :: y in Neighbours(next, x) <==> (x, y) in ArcsOf(next)
  {
  }

  lemma SplitLast<T>(s: seq<T>)
    requires |s| > 0
    ensures s == s[..|s| - 1] + [s[|s| - 1]]
  {
  }

  lemma LeftShrinks<T>(universe: set<T>, found: set<T>, x: T)
    requires x in universe && x !in found
    ensures |universe - (found + {x})| < |universe - found|
  {
    assert universe - (found + {x}) == universe - found - {x};
  }

  /** The worklist loop `_from` and `_before` share: pop an entry, add its neighbours, until none waits. */
  method Drain<T(==,!new)>(next: map<T, seq<T>>, starts: seq<T>) returns (found: set<T>)
    ensures forall v :: v in found <==> ReachedFrom(ArcsOf(next), starts, v)
  {
    ghost var arcs := ArcsOf(next);
    ghost var universe := Seen(next, starts);
    found := {};
    var waiting := starts;
    SearchStarts(arcs, starts);
    hide Searching, Seen, ArcsOf;
    while |waiting| > 0
      invariant found <= universe
      invariant forall v :: v in waiting ==> v in universe
      invariant Searching(arcs, starts, found, waiting)
      decreases |universe - found|, |waiting|
    {
      var last := |waiting| - 1;
      var current := waiting[last];
      SplitLast(waiting);
      waiting := waiting[..last];
      var more := Neighbours(next, current);
      ArcsFrom(next, current);
      SearchPops(arcs, starts, found, waiting, current, more);
      if current !in found {
        LeftShrinks(universe, found, current);
        found := found + {current};
        waiting := waiting + more;
      }
    }
    assert waiting == [];
    forall v ensures v in found <==> ReachedFrom(arcs, starts, v) {
      SearchEnds(arcs, starts, found, v);
    }
  }
}
