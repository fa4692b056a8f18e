// The doubly linked lists of events: one of all of them, one for each type, and
// the singly linked list of those that may be used again.
module EventLists {

  class Event {
    var zombie: bool
    var func: int
    var data: int
    var data2: int
    var tick: int
    var kind: nat
    var next: Event?
    var nextMain: Event?
    var prevMain: Event?
    var nextType: Event?
    var prevType: Event?
    ghost var id: nat
    ghost var listed: bool

    constructor ()
      ensures next == null && !listed
    {
      listed := false;
      zombie, func, data, data2, tick, kind := false, 0, 0, 0, 0, 0;
      next, nextMain, prevMain, nextType, prevType := null, null, null, null, null;
    }
  }

  function At(nodes: seq<Event>, i: int): Event? {
    if 0 <= i < |nodes| then nodes[i] else null
  }

  ghost predicate Distinct(nodes: seq<Event>) {
    forall i, j :: 0 <= i < j < |nodes| ==> nodes[i] != nodes[j]
  }

  ghost predicate MainChain(nodes: seq<Event>, first: Event?)
    reads nodes`nextMain, nodes`prevMain
  {
    && first == At(nodes, 0)
    && (forall i {:trigger nodes[i].nextMain} :: 0 <= i < |nodes| ==> nodes[i].nextMain == At(nodes, i + 1))
    && (forall i {:trigger nodes[i].prevMain} :: 0 <= i < |nodes| ==> nodes[i].prevMain == At(nodes, i - 1))
  }

  ghost predicate TypeChain(nodes: seq<Event>, first: Event?)
    reads nodes`nextType, nodes`prevType
  {
    && first == At(nodes, 0)
    && (forall i {:trigger nodes[i].nextType} :: 0 <= i < |nodes| ==> nodes[i].nextType == At(nodes, i + 1))
    && (forall i {:trigger nodes[i].prevType} :: 0 <= i < |nodes| ==> nodes[i].prevType == At(nodes, i - 1))
  }

  ghost predicate FreeChain(nodes: seq<Event>, first: Event?)
    reads nodes`next
  {
    && first == At(nodes, 0)
    && (forall i {:trigger nodes[i].next} :: 0 <= i < |nodes| ==> nodes[i].next == At(nodes, i + 1))
  }

  function Without(nodes: seq<Event>, i: nat): seq<Event>
    requires i < |nodes|
  {
    nodes[..i] + nodes[i + 1..]
  }

  method AddToMain(first: Event?, e: Event, ghost nodes: seq<Event>) returns (first': Event?)
    requires MainChain(nodes, first) && e !in nodes && Distinct(nodes)
    modifies e`nextMain, e`prevMain, nodes`prevMain
    ensures MainChain([e] + nodes, first')
  {
    e.nextMain := first;
    if first != null {
      first.prevMain := e;
    }
    first' := e;
    e.prevMain := null;
  }

  method RemoveFromMain(first: Event?, e: Event, ghost nodes: seq<Event>, ghost i: nat) returns (first': Event?)
    requires MainChain(nodes, first) && Distinct(nodes) && i < |nodes| && nodes[i] == e
    modifies nodes`nextMain, nodes`prevMain
    ensures MainChain(Without(nodes, i), first')
  {
    first' := first;
    if e.prevMain != null {
      e.prevMain.nextMain := e.nextMain;
    }
    if e.nextMain != null {
      e.nextMain.prevMain := e.prevMain;
    }
    if first' == e {
      first' := e.nextMain;
      if first' != null {
        first'.prevMain := null;
      }
    }
    ghost var rest := Without(nodes, i);
    forall k | 0 <= k < |rest| ensures rest[k].nextMain == At(rest, k + 1) && rest[k].prevMain == At(rest, k - 1) {
      var o := if k < i then k else k + 1;
      assert rest[k] == nodes[o] && (o != i - 1 ==> nodes[o].nextMain == At(nodes, o + 1));
    }
  }

  method AddToType(first: Event?, e: Event, ghost nodes: seq<Event>) returns (first': Event?)
    requires TypeChain(nodes, first) && e !in nodes && Distinct(nodes)
    modifies e`nextType, e`prevType, nodes`prevType
    ensures TypeChain([e] + nodes, first')
  {
    e.nextType := first;
    if first != null {
      first.prevType := e;
    }
    first' := e;
    e.prevType := null;
  }

  method RemoveFromType(first: Event?, e: Event, ghost nodes: seq<Event>, ghost i: nat) returns (first': Event?)
    requires TypeChain(nodes, first) && Distinct(nodes) && i < |nodes| && nodes[i] == e
    modifies nodes`nextType, nodes`prevType
    ensures TypeChain(Without(nodes, i), first')
  {
    first' := first;
    if e.prevType != null {
      e.prevType.nextType := e.nextType;
    }
    if e.nextType != null {
      e.nextType.prevType := e.prevType;
    }
    if first' == e {
      first' := e.nextType;
      if first' != null {
        first'.prevType := null;
      }
    }
    ghost var rest := Without(nodes, i);
    forall k | 0 <= k < |rest| ensures rest[k].nextType == At(rest, k + 1) && rest[k].prevType == At(rest, k - 1) {
      var o := if k < i then k else k + 1;
      assert rest[k] == nodes[o] && (o != i - 1 ==> nodes[o].nextType == At(nodes, o + 1));
    }
  }

  // ---------- the events of one type ----------

  ghost function OfKind(nodes: seq<Event>, kind: nat): (r: seq<Event>)
    reads nodes`kind
    ensures forall n :: n in r ==> n in nodes && n.kind == kind
  {
    if nodes == [] then []
    else (if nodes[0].kind == kind then [nodes[0]] else []) + OfKind(nodes[1..], kind)
  }

  lemma {:induction false} OfKindFrom(nodes: seq<Event>, kind: nat)
    requires Distinct(nodes)
    ensures Distinct(OfKind(nodes, kind))
    ensures forall n :: n in OfKind(nodes, kind) <==> n in nodes && n.kind == kind
  {
    if nodes != [] {
      OfKindFrom(nodes[1..], kind);
      assert nodes[0] !in nodes[1..];
      assert forall n :: n in nodes <==> n == nodes[0] || n in nodes[1..];
    }
  }

  lemma {:induction false} OfKindJoin(a: seq<Event>, b: seq<Event>, kind: nat)
    ensures OfKind(a + b, kind) == OfKind(a, kind) + OfKind(b, kind)
  {
    if a == [] {
      assert a + b == b;
    } else {
      assert (a + b)[1..] == a[1..] + b;
      OfKindJoin(a[1..], b, kind);
    }
  }

  // The place of the i-th event in the list of its type.
  ghost function Rank(nodes: seq<Event>, i: nat, kind: nat): nat
    requires i < |nodes|
    reads nodes`kind
  {
    |OfKind(nodes[..i], kind)|
  }

  lemma WithoutMiddle(a: seq<Event>, e: Event, b: seq<Event>)
    ensures (a + ([e] + b))[|a|] == e && Without(a + ([e] + b), |a|) == a + b
  {
  }

  lemma OfKindWithout(nodes: seq<Event>, i: nat, kind: nat)
    requires i < |nodes|
    ensures
      if nodes[i].kind == kind then
        var j := Rank(nodes, i, kind);
        && j < |OfKind(nodes, kind)| && OfKind(nodes, kind)[j] == nodes[i]
        && OfKind(Without(nodes, i), kind) == Without(OfKind(nodes, kind), j)
      else OfKind(Without(nodes, i), kind) == OfKind(nodes, kind)
  {
    var e, a, b := nodes[i], nodes[..i], nodes[i + 1..];
    SplitAround(nodes, i);
    OfKindJoin(a, b, kind);
    OfKindJoin(a, [e] + b, kind);
    OfKindFront(e, b, kind);
    hide OfKind, Without;
    WithoutMiddle(OfKind(a, kind), e, OfKind(b, kind));
  }

  lemma SplitAround(nodes: seq<Event>, i: nat)
    requires i < |nodes|
    ensures nodes == nodes[..i] + ([nodes[i]] + nodes[i + 1..])
    ensures Without(nodes, i) == nodes[..i] + nodes[i + 1..]
  {
  }

  lemma OfKindFront(e: Event, nodes: seq<Event>, kind: nat)
    ensures OfKind([e] + nodes, kind) == if e.kind == kind then [e] + OfKind(nodes, kind) else OfKind(nodes, kind)
  {
    assert ([e] + nodes)[1..] == nodes;
  }

  ghost predicate AllIn(nodes: seq<Event>, repr: set<Event>) {
    forall n :: n in nodes ==> n in repr
  }

  // The lists of all types hold the events of the main list.
  ghost predicate Typed(nodes: seq<Event>, firsts: seq<Event?>, repr: set<Event>)
    requires AllIn(nodes, repr)
    reads repr`kind, repr`nextType, repr`prevType
  {
    && (forall i :: 0 <= i < |nodes| ==> nodes[i].kind < |firsts|)
    && (forall t: nat :: t < |firsts| ==> TypeChain(OfKind(nodes, t), firsts[t]))
  }

  // The lists of the first n types.
  ghost function Lists(nodes: seq<Event>, n: nat): (r: seq<seq<Event>>)
    reads nodes`kind
    ensures |r| == n && forall t :: 0 <= t < n ==> r[t] == OfKind(nodes, t)
  {
    if n == 0 then [] else Lists(nodes, n - 1) + [OfKind(nodes, n - 1)]
  }

  ghost predicate Chains(lists: seq<seq<Event>>, firsts: seq<Event?>, repr: set<Event>)
    requires forall t, n :: 0 <= t < |lists| && n in lists[t] ==> n in repr
    reads repr`nextType, repr`prevType
  {
    |lists| == |firsts| && forall t :: 0 <= t < |lists| ==> TypeChain(lists[t], firsts[t])
  }

  // No event of another list is on the k-th.
  ghost predicate Alone(lists: seq<seq<Event>>, k: nat)
    requires k < |lists|
  {
    Distinct(lists[k]) && forall t, n :: 0 <= t < |lists| && t != k && n in lists[t] ==> n !in lists[k]
  }

  ghost predicate Held(lists: seq<seq<Event>>, repr: set<Event>) {
    forall t, n :: 0 <= t < |lists| && n in lists[t] ==> n in repr
  }

  // A list is as it was when none of its events was touched.
  twostate lemma TypeStays(nodes: seq<Event>)
    requires old(TypeChain(nodes, At(nodes, 0)))
    requires forall n :: n in nodes ==> n.nextType == old(n.nextType) && n.prevType == old(n.prevType)
    ensures TypeChain(nodes, At(nodes, 0))
  {
    forall i | 0 <= i < |nodes|
      ensures nodes[i].nextType == At(nodes, i + 1) && nodes[i].prevType == At(nodes, i - 1) {
      assert nodes[i] in nodes;
      assert nodes[i].nextType == old(nodes[i].nextType);
    }
  }

  method LinkAt(firsts: seq<Event?>, e: Event, k: nat, ghost lists: seq<seq<Event>>, ghost repr: set<Event>)
      returns (firsts': seq<Event?>)
    requires Held(lists, repr) && e in repr && Chains(lists, firsts, repr) && k < |lists| && Alone(lists, k)
    requires forall t :: 0 <= t < |lists| ==> e !in lists[t]
    modifies repr`nextType, repr`prevType
    ensures Held(lists[k := [e] + lists[k]], repr) && Chains(lists[k := [e] + lists[k]], firsts', repr)
  {
    assert TypeChain(lists[k], firsts[k]);
    assert forall t :: 0 <= t < |lists| ==> firsts[t] == At(lists[t], 0);
    hide TypeChain, Distinct;
    var first := AddToType(firsts[k], e, lists[k]);
    firsts' := firsts[k := first];
    forall t | 0 <= t < |lists| && t != k ensures TypeChain(lists[t], firsts'[t]) {
      assert old(TypeChain(lists[t], firsts[t])) && firsts[t] == At(lists[t], 0);
      assert forall n :: n in lists[t] ==> n != e && n !in lists[k];
      TypeStays(lists[t]);
    }
  }

  method UnlinkAt(firsts: seq<Event?>, e: Event, k: nat, ghost j: nat, ghost lists: seq<seq<Event>>,
                  ghost repr: set<Event>)
      returns (firsts': seq<Event?>)
    requires Held(lists, repr) && Chains(lists, firsts, repr) && k < |lists| && Alone(lists, k)
    requires j < |lists[k]| && lists[k][j] == e
    requires forall t :: 0 <= t < |lists| && t != k ==> e !in lists[t]
    modifies repr`nextType, repr`prevType
    ensures Held(lists[k := Without(lists[k], j)], repr) && Chains(lists[k := Without(lists[k], j)], firsts', repr)
  {
    assert TypeChain(lists[k], firsts[k]);
    assert forall t :: 0 <= t < |lists| ==> firsts[t] == At(lists[t], 0);
    hide TypeChain, Distinct;
    var first := RemoveFromType(firsts[k], e, lists[k], j);
    firsts' := firsts[k := first];
    forall t | 0 <= t < |lists| && t != k ensures TypeChain(lists[t], firsts'[t]) {
      assert old(TypeChain(lists[t], firsts[t])) && firsts[t] == At(lists[t], 0);
      assert forall n :: n in lists[t] ==> n != e && n !in lists[k];
      TypeStays(lists[t]);
    }
  }

  // The lists by type are those chains.
  lemma TypedChains(nodes: seq<Event>, firsts: seq<Event?>, repr: set<Event>)
    requires AllIn(nodes, repr)
    ensures Held(Lists(nodes, |firsts|), repr)
    ensures Typed(nodes, firsts, repr)
            <==> && Chains(Lists(nodes, |firsts|), firsts, repr)
                 && forall i :: 0 <= i < |nodes| ==> nodes[i].kind < |firsts|
  {
  }

  lemma KindsAlone(nodes: seq<Event>, n: nat, k: nat)
    requires Distinct(nodes) && k < n
    ensures Alone(Lists(nodes, n), k)
  {
    OfKindFrom(nodes, k);
  }

  method LinkType(firsts: seq<Event?>, e: Event, ghost nodes: seq<Event>, ghost all: seq<Event>, ghost repr: set<Event>)
      returns (firsts': seq<Event?>)
    requires AllIn(nodes, repr) && Typed(nodes, firsts, repr) && Distinct(nodes) && e !in nodes
    requires e in repr && all == [e] + nodes && e.kind < |firsts|
    modifies repr`nextType, repr`prevType
    ensures AllIn(all, repr) && Typed(all, firsts', repr) && |firsts'| == |firsts|
  {
    ghost var n, k, lists := |firsts|, e.kind, Lists(nodes, |firsts|);
    TypedChains(nodes, firsts, repr);
    KindsAlone(nodes, n, k);
    FrontLists(e, nodes, n);
    NotThere(e, nodes, n);
    assert forall i :: 0 <= i < |all| ==> all[i].kind < n;
    hide Typed, Chains, Alone, Held, Lists;
    firsts' := LinkAt(firsts, e, e.kind, lists, repr);
    ChainsLength(lists[k := [e] + lists[k]], firsts', repr);
    TypedChains(all, firsts', repr);
  }

  lemma ChainsLength(lists: seq<seq<Event>>, firsts: seq<Event?>, repr: set<Event>)
    requires Held(lists, repr) && Chains(lists, firsts, repr)
    ensures |lists| == |firsts|
  {
  }

  lemma NotThere(e: Event, nodes: seq<Event>, n: nat)
    requires e !in nodes
    ensures forall t :: 0 <= t < n ==> e !in Lists(nodes, n)[t]
  {
  }

  lemma FrontLists(e: Event, nodes: seq<Event>, n: nat)
    requires e.kind < n
    ensures var k := e.kind; Lists([e] + nodes, n) == Lists(nodes, n)[k := [e] + Lists(nodes, n)[k]]
  {
    forall t: nat | t < n
      ensures Lists([e] + nodes, n)[t] == Lists(nodes, n)[e.kind := [e] + Lists(nodes, n)[e.kind]][t]
    {
      OfKindFront(e, nodes, t);
    }
  }

  lemma WithoutLists(nodes: seq<Event>, i: nat, n: nat)
    requires i < |nodes| && nodes[i].kind < n
    ensures
      var k := nodes[i].kind;
      var j := Rank(nodes, i, k);
      && j < |Lists(nodes, n)[k]| && Lists(nodes, n)[k][j] == nodes[i]
      && Lists(Without(nodes, i), n) == Lists(nodes, n)[k := Without(Lists(nodes, n)[k], j)]
  {
    var k := nodes[i].kind;
    OfKindWithout(nodes, i, k);
    var j := Rank(nodes, i, k);
    forall t: nat | t < n
      ensures Lists(Without(nodes, i), n)[t] == Lists(nodes, n)[k := Without(Lists(nodes, n)[k], j)][t]
    {
      OfKindWithout(nodes, i, t);
    }
  }

  method UnlinkType(firsts: seq<Event?>, e: Event, ghost nodes: seq<Event>, ghost i: nat, ghost repr: set<Event>)
      returns (firsts': seq<Event?>)
    requires AllIn(nodes, repr) && Typed(nodes, firsts, repr) && Distinct(nodes) && i < |nodes| && nodes[i] == e
    modifies repr`nextType, repr`prevType
    ensures AllIn(Without(nodes, i), repr) && Typed(Without(nodes, i), firsts', repr) && |firsts'| == |firsts|
  {
    ghost var n, k, lists, rest := |firsts|, e.kind, Lists(nodes, |firsts|), Without(nodes, i);
    ghost var j := Rank(nodes, i, k);
    TypedChains(nodes, firsts, repr);
    KindsAlone(nodes, n, k);
    WithoutLists(nodes, i, n);
    LeftOut(nodes, i, repr);
    assert forall m :: 0 <= m < |rest| ==> rest[m] in nodes;
    assert forall m :: 0 <= m < |rest| ==> rest[m].kind < n;
    hide Typed, Chains, Alone, Held, Lists, Without, Rank;
    firsts' := UnlinkAt(firsts, e, e.kind, j, lists, repr);
    ChainsLength(lists[k := Without(lists[k], j)], firsts', repr);
    TypedChains(rest, firsts', repr);
  }

  lemma TypedIn(nodes: seq<Event>, firsts: seq<Event?>, repr: set<Event>, wider: set<Event>)
    requires AllIn(nodes, repr) && Typed(nodes, firsts, repr) && repr <= wider
    ensures AllIn(nodes, wider) && Typed(nodes, firsts, wider)
  {
  }

  lemma {:induction false} NoneOfKind(nodes: seq<Event>, kind: nat)
    requires forall i :: 0 <= i < |nodes| ==> nodes[i].kind != kind
    ensures OfKind(nodes, kind) == []
  {
    if nodes != [] {
      NoneOfKind(nodes[1..], kind);
    }
  }

  // A table with more types, of which there are no events yet.
  lemma TypedLonger(nodes: seq<Event>, firsts: seq<Event?>, longer: seq<Event?>, repr: set<Event>)
    requires AllIn(nodes, repr) && Typed(nodes, firsts, repr)
    requires firsts <= longer && forall t :: |firsts| <= t < |longer| ==> longer[t] == null
    ensures Typed(nodes, longer, repr)
  {
    forall t: nat | t < |longer| ensures TypeChain(OfKind(nodes, t), longer[t]) {
      if t < |firsts| {
        assert TypeChain(OfKind(nodes, t), firsts[t]);
      } else {
        NoneOfKind(nodes, t);
      }
      hide OfKind, AllIn;
    }
  }

  // An event that is on no list is filled in.
  method Fill(e: Event, zombie: bool, func: int, data: int, data2: int, tick: int, kind: nat, ghost id: nat,
              ghost nodes: seq<Event>, ghost firsts: seq<Event?>, ghost repr: set<Event>)
    requires AllIn(nodes, repr) && Typed(nodes, firsts, repr) && e in repr && e !in nodes
    modifies e`zombie, e`func, e`data, e`data2, e`tick, e`kind, e`next, e`id
    ensures Typed(nodes, firsts, repr)
    ensures e.zombie == zombie && e.func == func && e.data == data && e.data2 == data2 && e.tick == tick
    ensures e.kind == kind && e.next == null && e.id == id
  {
    hide Typed, Chains, Lists, Held, AllIn;
    ghost var lists := Lists(nodes, |firsts|);
    TypedChains(nodes, firsts, repr);
    e.zombie, e.func, e.data, e.data2, e.tick, e.kind, e.next := zombie, func, data, data2, tick, kind, null;
    e.id := id;
    assert Lists(nodes, |firsts|) == lists;
    TypedChains(nodes, firsts, repr);
  }

  ghost predicate OnList(nodes: seq<Event>)
    reads nodes`listed
  {
    forall n :: n in nodes ==> n.listed
  }

  method Enlist(e: Event, ghost nodes: seq<Event>)
    requires OnList(nodes)
    modifies e`listed
    ensures e.listed && OnList([e] + nodes)
  {
    e.listed := true;
  }

  method Delist(e: Event, ghost nodes: seq<Event>, ghost rest: seq<Event>)
    requires OnList(nodes) && e !in rest && forall n :: n in rest ==> n in nodes
    modifies e`listed
    ensures !e.listed && OnList(rest)
  {
    e.listed := false;
  }

  lemma Joined(e: Event, nodes: seq<Event>, repr: set<Event>)
    requires Distinct(nodes) && AllIn(nodes, repr) && e !in nodes && e in repr
    ensures Distinct([e] + nodes) && AllIn([e] + nodes, repr)
  {
  }

  lemma LeftOut(nodes: seq<Event>, i: nat, repr: set<Event>)
    requires Distinct(nodes) && AllIn(nodes, repr) && i < |nodes|
    ensures Distinct(Without(nodes, i)) && AllIn(Without(nodes, i), repr) && nodes[i] in repr
    ensures nodes[i] !in Without(nodes, i) && forall n :: n in Without(nodes, i) ==> n in nodes
  {
  }
}
