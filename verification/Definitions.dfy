/** Workflow definitions: what `validate_definition` accepts, and which nodes come before a node. */
module Definitions {
  import opened Basics
  import opened Graph

  datatype Kind = Work | FanOut | Join | Gate | OtherKind(name: string)

  /** One node of a definition. `skips` says that it has a `skip_when`, `skipAnswer` is what a skipped gate answers. */
  datatype NodeDef = NodeDef(
    key: string, kind: Kind, dependsOn: seq<string>, tolerant: bool, tolerantChildren: bool,
    rewindTo: Option<string>, skips: bool, skipAnswer: string)

  datatype Verdict =
    | Accepted
    | NoNodes
    | DuplicateKey(key: string)
    | UnsupportedKind(kind: Kind)
    | UnknownDependency(dependency: string)
    | BadRewind(key: string)

  predicate UniqueKeys(def: seq<NodeDef>) {
    forall i, j | 0 <= i < j < |def| :: def[i].key != def[j].key
  }

  predicate HasKey(def: seq<NodeDef>, key: string) {
    exists i | 0 <= i < |def| :: def[i].key == key
  }

  /** The arc (d, k) says that the node keyed k names d in its `depends_on`. */
  ghost function DependencyArcs(def: seq<NodeDef>): set<(string, string)> {
    set i, d | 0 <= i < |def| && d in def[i].dependsOn :: (d, def[i].key)
  }

  /** `key` depends on `a`, directly or not. */
  ghost predicate Before(def: seq<NodeDef>, a: string, key: string) {
    exists d :: (d, key) in DependencyArcs(def) && Reaches(DependencyArcs(def), a, d)
  }

  ghost predicate KnownDependencies(def: seq<NodeDef>) {
    forall i, d | 0 <= i < |def| && d in def[i].dependsOn :: HasKey(def, d)
  }

  ghost predicate GoodRewind(def: seq<NodeDef>, n: NodeDef) {
    n.rewindTo.Some? ==> n.kind.Work? && Before(def, n.rewindTo.value, n.key)
  }

  ghost predicate WellFormed(def: seq<NodeDef>) {
    && |def| > 0
    && UniqueKeys(def)
    && (forall n :: n in def ==> !n.kind.OtherKind?)
    && KnownDependencies(def)
    && (forall n :: n in def ==> GoodRewind(def, n))
  }

  /** No node depends on itself, directly or not. */
  ghost predicate Acyclic(def: seq<NodeDef>) {
    forall n :: n in def ==> !Before(def, n.key, n.key)
  }

  lemma HasKeyGrows(def: seq<NodeDef>, i: nat, key: string)
    requires i < |def|
    ensures HasKey(def[..i + 1], key) <==> HasKey(def[..i], key) || key == def[i].key
  {
    var longer := def[..i + 1];
    if HasKey(def[..i], key) {
      var j :| 0 <= j < i && def[..i][j].key == key;
      assert longer[j].key == key;
    }
    if key == def[i].key {
      assert longer[i].key == key;
    }
  }

  method BeforeKeys(def: seq<NodeDef>, key: string) returns (found: set<string>)
    requires UniqueKeys(def)
    ensures forall a :: a in found <==> Before(def, a, key)
  {
    var depends: map<string, seq<string>> := map[];
    for i := 0 to |def|
      invariant forall k :: k in depends <==> HasKey(def[..i], k)
      invariant forall j | 0 <= j < i :: def[j].key in depends && depends[def[j].key] == def[j].dependsOn
    {
      forall k {
        HasKeyGrows(def, i, k);
      }
      depends := depends[def[i].key := def[i].dependsOn];
    }
    assert def[..|def|] == def;
    found := Drain(depends, Neighbours(depends, key));
    forall a ensures a in found <==> Before(def, a, key) {
      BackwardIsBefore(def, depends, key, a);
    }
  }

  /** A backward search over the dependency dictionary meets exactly the keys before its start. */
  lemma BackwardIsBefore(def: seq<NodeDef>, depends: map<string, seq<string>>, key: string, a: string)
    requires forall k :: k in depends <==> HasKey(def, k)
    requires forall j | 0 <= j < |def| :: def[j].key in depends && depends[def[j].key] == def[j].dependsOn
    ensures ReachedFrom(ArcsOf(depends), Neighbours(depends, key), a) <==> Before(def, a, key)
  {
    var forward, backward := DependencyArcs(def), ArcsOf(depends);
    forall d, k ensures (d, k) in forward <==> (k, d) in backward {
      if (k, d) in backward {
        var j :| 0 <= j < |def| && def[j].key == k;
        assert d in def[j].dependsOn;
      }
    }
    ArcsFrom(depends, key);
    if ReachedFrom(backward, Neighbours(depends, key), a) {
      var d :| d in Neighbours(depends, key) && Reaches(backward, d, a);
      ReachesReversed(backward, forward, d, a);
    }
    if Before(def, a, key) {
      var d :| (d, key) in forward && Reaches(forward, a, d);
      ReachesReversed(forward, backward, a, d);
    }
  }

  /** `validate_definition`: the loops and the order of its checks. */
  method Validate(def: seq<NodeDef>) returns (v: Verdict)
    ensures v.Accepted? <==> WellFormed(def)
    ensures v.NoNodes? <==> def == []
    ensures v.UnsupportedKind? ==> v.kind.OtherKind? && exists n :: n in def && n.kind == v.kind
    ensures v.DuplicateKey? ==> exists i, j | 0 <= i < j < |def| :: def[i].key == def[j].key == v.key
    ensures v.UnknownDependency? ==> !HasKey(def, v.dependency) && exists n :: n in def && v.dependency in n.dependsOn
    ensures v.BadRewind? ==> UniqueKeys(def) && exists n :: n in def && n.key == v.key && !GoodRewind(def, n)
  {
    if |def| == 0 {
      return NoNodes;
    }
    var keys: set<string> := {};
    for i := 0 to |def|
      invariant keys == set j | 0 <= j < i :: def[j].key
      invariant forall j, k | 0 <= j < k < i :: def[j].key != def[k].key
      invariant forall j | 0 <= j < i :: !def[j].kind.OtherKind?
    {
      if def[i].key in keys {
        return DuplicateKey(def[i].key);
      }
      keys := keys + {def[i].key};
      if def[i].kind.OtherKind? {
        assert def[i] in def;
        return UnsupportedKind(def[i].kind);
      }
    }
    for i := 0 to |def|
      invariant forall j, d | 0 <= j < i && d in def[j].dependsOn :: HasKey(def, d)
    {
      for j := 0 to |def[i].dependsOn|
        invariant forall k | 0 <= k < j :: HasKey(def, def[i].dependsOn[k])
      {
        if def[i].dependsOn[j] !in keys {
          assert def[i] in def && def[i].dependsOn[j] in def[i].dependsOn;
          assert !HasKey(def, def[i].dependsOn[j]);
          return UnknownDependency(def[i].dependsOn[j]);
        }
      }
    }
    for i := 0 to |def|
      invariant forall j | 0 <= j < i :: GoodRewind(def, def[j])
    {
      if def[i].rewindTo.Some? {
        var before := BeforeKeys(def, def[i].key);
        if !def[i].kind.Work? || def[i].rewindTo.value !in before {
          assert def[i] in def && !GoodRewind(def, def[i]);
          return BadRewind(def[i].key);
        }
      }
    }
    return Accepted;
  }
}
