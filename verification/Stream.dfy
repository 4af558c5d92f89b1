/** Token usage of a provider stream: per message the largest report of each field, summed over the messages. */
module Stream {
  import opened Basics

  datatype Field = InputTokens | OutputTokens | CacheReadTokens | CacheWriteTokens

  /** An assistant event: its message id (empty: none) and the whole-number fields its usage reports. */
  datatype Event = Assistant(id: string, usage: map<Field, int>)

  datatype Usage = Usage(input: int, output: int, cacheRead: int, cacheWrite: int) {
    function Get(f: Field): int {
      match f
      case InputTokens => input
      case OutputTokens => output
      case CacheReadTokens => cacheRead
      case CacheWriteTokens => cacheWrite
    }
  }

  function Lookup(usage: map<Field, int>, f: Field): int {
    if f in usage then usage[f] else 0
  }

  // ---- What the totals should be ------------------------------------------------------------

  /** The distinct messages. */
  ghost function Ids(events: seq<Event>): set<string> {
    set e | e in events && e.id != "" :: e.id
  }

  /** The largest report of a field for one message, or zero. */
  ghost function Largest(events: seq<Event>, id: string, f: Field): int {
    if events == [] then 0
    else
      var last := events[|events| - 1];
      var rest := Largest(events[..|events| - 1], id, f);
      if last.id == id && f in last.usage then Max(rest, last.usage[f]) else rest
  }

  /** The sum of `g` over a set of messages. */
  ghost function Sum(ids: set<string>, g: string -> int): int {
    if ids == {} then 0
    else
      var id :| id in ids;
      g(id) + Sum(ids - {id}, g)
  }

  ghost function Total(events: seq<Event>, f: Field): int {
    Sum(Ids(events), id => Largest(events, id, f))
  }

  lemma {:induction false} SumTakesOut(ids: set<string>, g: string -> int, x: string)
    requires x in ids
    ensures Sum(ids, g) == g(x) + Sum(ids - {x}, g)
  {
    var id :| id in ids && Sum(ids, g) == g(id) + Sum(ids - {id}, g);
    if id != x {
      SumTakesOut(ids - {id}, g, x);
      SumTakesOut(ids - {x}, g, id);
      assert ids - {id} - {x} == ids - {x} - {id};
    }
  }

  lemma {:induction false} SumSame(ids: set<string>, g: string -> int, h: string -> int)
    requires forall id :: id in ids ==> g(id) == h(id)
    ensures Sum(ids, g) == Sum(ids, h)
  {
    if ids != {} {
      var id :| id in ids;
      SumTakesOut(ids, g, id);
      SumTakesOut(ids, h, id);
      SumSame(ids - {id}, g, h);
    }
  }

  // ---- Repeating and reordering events changes nothing --------------------------------------

  /** The largest report is an upper bound, and is reported or zero. */
  lemma {:induction false} LargestIsMaximum(events: seq<Event>, id: string, f: Field)
    ensures Largest(events, id, f) >= 0
    ensures forall e :: e in events && e.id == id && f in e.usage ==> e.usage[f] <= Largest(events, id, f)
    ensures Largest(events, id, f) == 0
            || exists e :: e in events && e.id == id && f in e.usage && e.usage[f] == Largest(events, id, f)
  {
    if events != [] {
      var rest, last := events[..|events| - 1], events[|events| - 1];
      assert events == rest + [last];
      LargestIsMaximum(rest, id, f);
    }
  }

  ghost predicate SameEvents(a: seq<Event>, b: seq<Event>) {
    forall e :: e in a <==> e in b
  }

  lemma LargestOfSameEvents(a: seq<Event>, b: seq<Event>, id: string, f: Field)
    requires SameEvents(a, b)
    ensures Largest(a, id, f) == Largest(b, id, f)
  {
    LargestIsMaximum(a, id, f);
    LargestIsMaximum(b, id, f);
  }

  /** The totals and the message count depend only on which events there are, not on order or repetition. */
  lemma OrderAndRepeatsDoNotMatter(a: seq<Event>, b: seq<Event>, f: Field)
    requires SameEvents(a, b)
    ensures Total(a, f) == Total(b, f) && |Ids(a)| == |Ids(b)|
  {
    assert Ids(a) == Ids(b);
    forall id ensures Largest(a, id, f) == Largest(b, id, f) {
      LargestOfSameEvents(a, b, id, f);
    }
    SumSame(Ids(a), id => Largest(a, id, f), id => Largest(b, id, f));
  }

  // ---- The loops ----------------------------------------------------------------------------

  /** The fields one event may raise. */
  const FIELDS := [InputTokens, OutputTokens, CacheReadTokens, CacheWriteTokens]

  lemma FieldIsListed(f: Field)
    ensures f in FIELDS
  {
    match f
    case InputTokens => assert FIELDS[0] == f;
    case OutputTokens => assert FIELDS[1] == f;
    case CacheReadTokens => assert FIELDS[2] == f;
    case CacheWriteTokens => assert FIELDS[3] == f;
  }

  /** The loop over the fields of one report. */
  method Raise(current: map<Field, int>, usage: map<Field, int>) returns (raised: map<Field, int>)
    ensures forall f :: Lookup(raised, f) ==
              if f in usage then Max(Lookup(current, f), usage[f]) else Lookup(current, f)
  {
    raised := current;
    for k := 0 to |FIELDS|
      invariant forall j | 0 <= j < |FIELDS| ::
                  Lookup(raised, FIELDS[j]) ==
                    if j < k && FIELDS[j] in usage then Max(Lookup(current, FIELDS[j]), usage[FIELDS[j]])
                    else Lookup(current, FIELDS[j])
    {
      var f := FIELDS[k];
      if f in usage {
        raised := raised[f := Max(Lookup(raised, f), usage[f])];
      }
    }
    forall f
      ensures Lookup(raised, f) ==
                if f in usage then Max(Lookup(current, f), usage[f]) else Lookup(current, f)
    {
      FieldIsListed(f);
    }
  }

  /** The dictionary holds, for each message so far, the largest report of each field. */
  ghost predicate Holds(usage: map<string, map<Field, int>>, events: seq<Event>) {
    && usage.Keys == Ids(events)
    && forall id, f :: id in usage ==> Lookup(usage[id], f) == Largest(events, id, f)
  }

  /** The keys in the order they were first met. */
  ghost predicate Ordered(order: seq<string>, ids: set<string>) {
    && (forall id :: id in order <==> id in ids)
    && (forall i, j | 0 <= i < j < |order| :: order[i] != order[j])
  }

  lemma IdsGrow(events: seq<Event>, k: nat)
    requires k < |events|
    ensures Ids(events[..k + 1]) == Ids(events[..k]) + if events[k].id == "" then {} else {events[k].id}
  {
    assert events[..k + 1] == events[..k] + [events[k]];
  }

  lemma LargestGrows(events: seq<Event>, k: nat, id: string, f: Field)
    requires k < |events|
    ensures Largest(events[..k + 1], id, f) ==
              if events[k].id == id && f in events[k].usage then Max(Largest(events[..k], id, f), events[k].usage[f])
              else Largest(events[..k], id, f)
  {
    assert events[..k + 1][..k] == events[..k];
  }

  lemma {:induction false} LargestOfNone(events: seq<Event>, id: string, f: Field)
    requires id !in Ids(events) && id != ""
    ensures Largest(events, id, f) == 0
  {
    LargestIsMaximum(events, id, f);
  }

  lemma HoldsNext(usage: map<string, map<Field, int>>, next: map<string, map<Field, int>>, events: seq<Event>,
                  k: nat, raised: map<Field, int>)
    requires k < |events| && Holds(usage, events[..k]) && events[k].id != ""
    requires next == usage[events[k].id := raised]
    requires var current := if events[k].id in usage then usage[events[k].id] else map[];
             forall f :: Lookup(raised, f) ==
               if f in events[k].usage then Max(Lookup(current, f), events[k].usage[f]) else Lookup(current, f)
    ensures Holds(next, events[..k + 1])
  {
    IdsGrow(events, k);
    forall id, f | id in next ensures Lookup(next[id], f) == Largest(events[..k + 1], id, f) {
      LargestGrows(events, k, id, f);
      if id !in usage {
        LargestOfNone(events[..k], id, f);
      }
    }
  }

  lemma HoldsSkipped(usage: map<string, map<Field, int>>, events: seq<Event>, k: nat)
    requires k < |events| && Holds(usage, events[..k]) && events[k].id == ""
    ensures Holds(usage, events[..k + 1])
  {
    IdsGrow(events, k);
    forall id, f | id in usage ensures Lookup(usage[id], f) == Largest(events[..k + 1], id, f) {
      LargestGrows(events, k, id, f);
    }
  }

  lemma {:induction false} OrderedCounts(order: seq<string>, ids: set<string>)
    requires Ordered(order, ids)
    ensures |order| == |ids|
  {
    if order == [] {
      assert ids == {};
    } else {
      var last := order[|order| - 1];
      var rest := order[..|order| - 1];
      forall id ensures id in rest <==> id in ids - {last} {
        if id in ids - {last} {
          var i :| 0 <= i < |order| && order[i] == id;
          assert rest[i] == id;
        }
      }
      OrderedCounts(rest, ids - {last});
    }
  }

  /** The assistant part of `parse_stream`. */
  method AggregateUsage(events: seq<Event>) returns (usage: Usage, messages: nat)
    ensures forall f :: usage.Get(f) == Total(events, f)
    ensures messages == |Ids(events)|
  {
    var perMessage: map<string, map<Field, int>> := map[];
    var order: seq<string> := [];
    messages := 0;
    for k := 0 to |events|
      invariant Holds(perMessage, events[..k])
      invariant Ordered(order, Ids(events[..k])) && messages == |order|
    {
      var e := events[k];
      IdsGrow(events, k);
      if e.id == "" {
        HoldsSkipped(perMessage, events, k);
        continue;
      }
      var current: map<Field, int> := map[];
      if e.id in perMessage {
        current := perMessage[e.id];
      } else {
        order := order + [e.id];
        messages := messages + 1;
      }
      var raised := Raise(current, e.usage);
      HoldsNext(perMessage, perMessage[e.id := raised], events, k, raised);
      perMessage := perMessage[e.id := raised];
    }
    assert events[..|events|] == events;
    OrderedCounts(order, Ids(events));
    usage := SumUp(perMessage, order, events);
  }

  lemma SumGrows(order: seq<string>, ids: set<string>, k: nat, g: string -> int)
    requires Ordered(order, ids) && k < |order|
    ensures Sum(set i | 0 <= i < k + 1 :: order[i], g) == Sum(set i | 0 <= i < k :: order[i], g) + g(order[k])
  {
    var more, less := set i | 0 <= i < k + 1 :: order[i], set i | 0 <= i < k :: order[i];
    assert more - {order[k]} == less;
    SumTakesOut(more, g, order[k]);
  }

  /** The loop that adds the messages up. */
  method SumUp(perMessage: map<string, map<Field, int>>, order: seq<string>, ghost events: seq<Event>)
    returns (usage: Usage)
    requires Holds(perMessage, events) && Ordered(order, Ids(events))
    ensures forall f :: usage.Get(f) == Total(events, f)
  {
    usage := Usage(0, 0, 0, 0);
    for k := 0 to |order|
      invariant forall f :: usage.Get(f) == Sum(set i | 0 <= i < k :: order[i], id => Largest(events, id, f))
    {
      var reported := perMessage[order[k]];
      ghost var before := usage;
      usage := Usage(usage.input + Lookup(reported, InputTokens), usage.output + Lookup(reported, OutputTokens),
                     usage.cacheRead + Lookup(reported, CacheReadTokens),
                     usage.cacheWrite + Lookup(reported, CacheWriteTokens));
      forall f ensures usage.Get(f) == Sum(set i | 0 <= i < k + 1 :: order[i], id => Largest(events, id, f)) {
        SumGrows(order, Ids(events), k, id => Largest(events, id, f));
        assert usage.Get(f) == before.Get(f) + Lookup(reported, f);
      }
    }
    assert (set i | 0 <= i < |order| :: order[i]) == Ids(events);
  }
}
