// The event system as the server runs it, on linked lists. Every operation does
// to the lists what EventSpec says, and leaves them well-formed.
module Events {
  import opened EventLists
  import S = EventSpec

  ghost function EvOf(n: Event): S.Ev
    reads n`id, n`zombie, n`func, n`data, n`data2, n`tick, n`kind
  {
    S.Ev(n.id, n.zombie, n.func, n.data, n.data2, n.tick, n.kind)
  }

  ghost function Evs(nodes: seq<Event>): (r: seq<S.Ev>)
    reads nodes`id, nodes`zombie, nodes`func, nodes`data, nodes`data2, nodes`tick, nodes`kind
    ensures |r| == |nodes| && forall i :: 0 <= i < |nodes| ==> r[i] == EvOf(nodes[i])
  {
    if nodes == [] then [] else [EvOf(nodes[0])] + Evs(nodes[1..])
  }

  lemma FrontEvs(e: Event, nodes: seq<Event>)
    ensures Evs([e] + nodes) == [EvOf(e)] + Evs(nodes)
  {
    assert ([e] + nodes)[1..] == nodes;
  }

  lemma EvsAre(nodes: seq<Event>, list: seq<S.Ev>)
    requires |list| == |nodes| && forall i :: 0 <= i < |nodes| ==> list[i] == EvOf(nodes[i])
    ensures Evs(nodes) == list
  {
  }

  // The condition of the four removals, on an event of the right list.
  predicate Picks(op: S.Op, e: Event)
    requires !op.Add?
    reads e`data, e`data2
  {
    match op
    case RemoveData(data) => e.data == data
    case RemoveTypeData(_, data) => e.data == data
    case RemoveTypeData2(_, data2) => e.data2 == data2
    case RemoveTypeDataData(_, data, data2) => e.data == data && e.data2 == data2
  }

  // The loop of the removals by type.
  method StrikeWalk(first: Event?, op: S.Op, ghost walk: seq<Event>)
    requires TypeChain(walk, first) && Distinct(walk) && !op.Add?
    modifies walk`zombie
    ensures forall j :: 0 <= j < |walk| ==> walk[j].zombie == (old(walk[j].zombie) || Picks(op, walk[j]))
  {
    var e := first;
    ghost var i := 0;
    while e != null
      invariant i <= |walk| && e == At(walk, i)
      invariant forall j :: 0 <= j < i ==> walk[j].zombie == (old(walk[j].zombie) || Picks(op, walk[j]))
      invariant forall j :: i <= j < |walk| ==> walk[j].zombie == old(walk[j].zombie)
      decreases |walk| - i
    {
      if Picks(op, e) {
        e.zombie := true;
      }
      e := e.nextType;
      i := i + 1;
    }
  }

  class Events {
    var list: Event?
    var firstInType: seq<Event?>
    var freeList: Event?
    var now: int
    var calls: nat
    const scripts: S.Scripts
    ghost var nodes: seq<Event>
    ghost var frees: seq<Event>
    ghost var serial: nat
    ghost var log: seq<nat>
    ghost var repr: set<Event>

    ghost predicate Listed()
      reads `nodes, `list, `firstInType, `repr, repr`kind, repr`nextMain, repr`prevMain, repr`nextType, repr`prevType,
            repr`listed
    {
      && AllIn(nodes, repr) && Distinct(nodes) && OnList(nodes)
      && MainChain(nodes, list) && Typed(nodes, firstInType, repr)
    }

    ghost predicate Freed()
      reads `frees, `freeList, `repr, repr`next, repr`listed
    {
      && (forall n :: n in frees ==> n in repr && !n.listed) && Distinct(frees)
      && FreeChain(frees, freeList)
    }

    ghost predicate Valid()
      reads this, repr
    {
      Listed() && Freed() && S.Apart(Abs()) && calls == |log|
    }

    ghost function Abs(): S.World
      reads this, nodes
    {
      S.World(Evs(nodes), now, serial, log)
    }

    twostate predicate Grows()
      reads this
    {
      forall n :: n in repr ==> n in old(repr) || fresh(n)
    }

    constructor (scripts: S.Scripts)
      ensures Valid() && Abs() == S.START && fresh(repr) && this.scripts == scripts
    {
      this.scripts := scripts;
      list, firstInType, freeList, now, calls := null, [], null, 0, 0;
      nodes, frees, serial, log, repr := [], [], 0, [], {};
    }

    // An event from the free list, or a new one.
    method Take() returns (e: Event)
      requires Listed() && Freed()
      modifies this`freeList, this`frees, this`repr
      ensures Listed() && Freed() && Grows() && e in repr && !e.listed && e !in frees
      ensures old(repr) <= repr
    {
      hide MainChain, Typed;
      if freeList != null {
        e := freeList;
        freeList := freeList.next;
        assert forall i :: 0 < i < |frees| ==> frees[1..][i - 1] == frees[i];
        frees := frees[1..];
      } else {
        e := new Event();
        TypedIn(nodes, firstInType, repr, repr + {e});
        repr := repr + {e};
      }
    }

    // The table of types is made long enough.
    method Extend(kind: nat)
      requires Listed()
      modifies `firstInType
      ensures Listed() && kind < |firstInType|
    {
      hide MainChain, Distinct, OnList, Typed, AllIn;
      InfoListed();
      if kind >= |firstInType| {
        var longer := firstInType + seq(kind + 1 - |firstInType|, _ => null);
        TypedLonger(nodes, firstInType, longer, repr);
        firstInType := longer;
      }
    }

    // The event joins the lists.
    method Link(e: Event)
      requires Listed() && e in repr && !e.listed && e.kind < |firstInType|
      modifies `list, `firstInType, `nodes, repr`nextMain, repr`prevMain, repr`nextType, repr`prevType, e`listed
      ensures Listed() && nodes == [e] + old(nodes) && |firstInType| == old(|firstInType|) && e.listed
    {
      ghost var was, all := nodes, [e] + nodes;
      assert e !in was;
      Joined(e, was, repr);
      hide Distinct, AllIn, Typed, OnList;
      var first := AddToMain(list, e, was);
      hide MainChain;
      var firsts := LinkType(firstInType, e, was, all, repr);
      Enlist(e, was);
      list, firstInType, nodes := first, firsts, all;
    }

    // The event leaves the main list.
    method UnlinkMain(e: Event, ghost i: nat)
      requires MainChain(nodes, list) && Distinct(nodes) && OnList(nodes) && i < |nodes| && nodes[i] == e
      requires AllIn(nodes, repr)
      modifies `list, `nodes, repr`nextMain, repr`prevMain, e`listed
      ensures nodes == Without(old(nodes), i) && MainChain(nodes, list) && OnList(nodes) && !e.listed
    {
      ghost var was, rest := nodes, Without(nodes, i);
      LeftOut(was, i, repr);
      hide Distinct, OnList, EventLists.Without;
      list := RemoveFromMain(list, e, was, i);
      hide MainChain;
      Delist(e, was, rest);
      nodes := rest;
    }

    // The event leaves the lists.
    method Unlink(e: Event, ghost i: nat)
      requires Listed() && i < |nodes| && nodes[i] == e
      modifies `list, `firstInType, `nodes, repr`nextMain, repr`prevMain, repr`nextType, repr`prevType, repr`listed
      ensures Listed() && nodes == Without(old(nodes), i) && !e.listed
      ensures forall n :: n in repr && n != e ==> n.listed == old(n.listed)
    {
      hide Distinct, Typed, OnList, MainChain, AllIn, EventLists.Without;
      ghost var was := nodes;
      LeftOut(was, i, repr);
      UnlinkMain(e, i);
      firstInType := UnlinkType(firstInType, e, was, i, repr);
    }

    lemma InfoUnlisted(e: Event)
      requires Listed() && !e.listed
      ensures e !in nodes
    {
    }

    // The new event is filled in.
    method FillIn(e: Event, zombie: bool, func: int, data: int, data2: int, tick: int, kind: nat, ghost ev: S.Ev)
      requires Listed() && Freed() && e in repr && !e.listed && e !in frees
      requires ev == S.Ev(ev.id, zombie, func, data, data2, tick, kind)
      modifies e`zombie, e`func, e`data, e`data2, e`tick, e`kind, e`next, e`id
      ensures Listed() && Freed() && Evs(nodes) == old(Evs(nodes)) && EvOf(e) == ev
    {
      hide MainChain, Typed, FreeChain, Distinct, OnList, Evs;
      InfoUnlisted(e);
      Fill(e, zombie, func, data, data2, tick, kind, ev.id, nodes, firstInType, repr);
    }

    // It joins the lists.
    method Enter(e: Event, zombie: bool, func: int, data: int, data2: int, tick: int, kind: nat, ghost ev: S.Ev)
      requires Listed() && Freed() && e in repr && !e.listed && e !in frees && kind < |firstInType|
      requires ev == S.Ev(ev.id, zombie, func, data, data2, tick, kind)
      modifies `list, `firstInType, `nodes, repr
      ensures Listed() && Freed() && nodes == [e] + old(nodes) && Evs(nodes) == [ev] + old(Evs(nodes))
    {
      hide Listed, Evs, FreeChain, Distinct;
      FillIn(e, zombie, func, data, data2, tick, kind, ev);
      ghost var was, evs := nodes, Evs(nodes);
      Link(e);
      FrontEvs(e, was);
    }

    // The table is extended, and an event found and entered.
    method Schedule(zombie: bool, func: int, data: int, data2: int, tick: int, kind: nat)
      requires Listed() && Freed()
      modifies `list, `firstInType, `freeList, `nodes, `frees, `serial, `repr, repr
      ensures Listed() && Freed() && Grows()
      ensures |nodes| == |old(nodes)| + 1 && nodes[1..] == old(nodes) && serial == old(serial) + 1
      ensures Evs(nodes) == [S.Ev(old(serial), zombie, func, data, data2, tick, kind)] + old(Evs(nodes))
    {
      hide Listed, Freed, Evs;
      Extend(kind);
      var e := Take();
      Enter(e, zombie, func, data, data2, tick, kind, S.Ev(serial, zombie, func, data, data2, tick, kind));
      serial := serial + 1;
    }

    // muxevent_add
    method Add(time: int, zombie: bool, kind: nat, func: int, data: int, data2: int)
      requires Valid()
      modifies this, repr
      ensures Valid() && Grows()
      ensures Abs() == S.Perform(old(Abs()), S.Add(time, zombie, kind, func, data, data2))
      ensures Ends(nodes, old(nodes))
    {
      hide Listed, Freed, S.Apart, Evs;
      S.PerformApart(Abs(), S.Add(time, zombie, kind, func, data, data2));
      var delay := if time < 1 then 1 else time;
      Schedule(zombie, func, data, data2, now + delay, kind);
    }

    // muxevent_remove_data
    method StrikeMain(op: S.Op)
      requires Listed() && op.RemoveData?
      modifies repr`zombie
      ensures forall n :: n in nodes ==> n.zombie == (old(n.zombie) || S.Hit(op, old(EvOf(n))))
    {
      hide Typed;
      var e := list;
      ghost var i := 0;
      while e != null
        invariant i <= |nodes| && e == At(nodes, i)
        invariant forall j :: 0 <= j < i ==> nodes[j].zombie == (old(nodes[j].zombie) || Picks(op, nodes[j]))
        invariant forall j :: i <= j < |nodes| ==> nodes[j].zombie == old(nodes[j].zombie)
        decreases |nodes| - i
      {
        if Picks(op, e) {
          e.zombie := true;
        }
        e := e.nextMain;
        i := i + 1;
      }
    }

    lemma InfoType(kind: nat)
      requires Listed() && kind < |firstInType|
      ensures
        var walk := OfKind(nodes, kind);
        && TypeChain(walk, firstInType[kind]) && Distinct(walk)
        && (forall n :: n in walk <==> n in nodes && n.kind == kind)
        && forall j :: 0 <= j < |walk| ==> walk[j] in nodes
      ensures forall n :: n in nodes ==> n in repr
    {
      OfKindFrom(nodes, kind);
    }

    // The removals by type.
    method StrikeType(op: S.Op, kind: nat)
      requires Listed() && !op.Add? && !op.RemoveData? && op.kind == kind
      modifies repr`zombie
      ensures forall n :: n in nodes ==> n.zombie == (old(n.zombie) || S.Hit(op, old(EvOf(n))))
    {
      if kind >= |firstInType| {
        return;
      }
      hide Listed, Distinct, AllIn;
      ghost var walk := OfKind(nodes, kind);
      InfoType(kind);
      StrikeWalk(firstInType[kind], op, walk);
      forall n | n in nodes ensures n.zombie == (old(n.zombie) || S.Hit(op, old(EvOf(n)))) {
        if n.kind == kind {
          assert n in walk;
        }
      }
    }

    // All events after a removal.
    method Strike(op: S.Op)
      requires Listed() && !op.Add?
      modifies repr`zombie
      ensures Evs(nodes) == S.StruckAll(op, old(Evs(nodes)))
    {
      hide Listed;
      ghost var evs := Evs(nodes);
      if op.RemoveData? {
        StrikeMain(op);
      } else {
        StrikeType(op, op.kind);
      }
      hide S.Hit;
      forall j | 0 <= j < |nodes| ensures EvOf(nodes[j]) == S.Struck(op, evs[j]) {
        assert nodes[j] in nodes;
      }
      EvsAre(nodes, S.StruckAll(op, evs));
    }

    method Remove(op: S.Op)
      requires Valid() && !op.Add?
      modifies repr`zombie
      ensures Valid() && Abs() == S.Perform(old(Abs()), op)
    {
      S.PerformApart(Abs(), op);
      hide Listed, Freed, S.Apart, Evs, S.StruckAll;
      Strike(op);
    }

    // The event may be used again.
    method PutBack(e: Event)
      requires Freed() && e in repr && !e.listed && e !in frees
      modifies `freeList, `frees, repr`next
      ensures Freed()
    {
      e.next := freeList;
      freeList := e;
      frees := [e] + frees;
    }

    // The event is taken off the lists and may be used again.
    method Retire(e: Event, ghost i: nat)
      requires Listed() && Freed() && i < |nodes| && nodes[i] == e
      modifies `list, `firstInType, `freeList, `nodes, `frees, repr`next, repr`listed
      modifies repr`nextMain, repr`prevMain, repr`nextType, repr`prevType
      ensures Listed() && Freed() && nodes == Without(old(nodes), i)
    {
      assert e in repr && e.listed && e !in frees by {
        assert e in nodes;
      }
      hide Listed, FreeChain, EventLists.Without, Distinct;
      Unlink(e, i);
      assert Freed();
      hide Freed;
      PutBack(e);
    }

    // muxevent_delete
    method Delete(e: Event, ghost i: nat)
      requires Valid() && i < |nodes| && nodes[i] == e
      modifies this, repr
      ensures Valid() && repr == old(repr) && nodes == Without(old(nodes), i)
      ensures Abs() == old(Abs()).(list := S.Without(old(Abs()).list, old(e.id)))
    {
      hide Listed, Freed, S.Apart, Evs, EventLists.Without, S.Without;
      ghost var rest := Without(nodes, i);
      ghost var goal := Abs().(list := S.Without(Evs(nodes), e.id));
      S.WithoutApart(Abs(), e.id);
      WithoutEvs(Abs(), nodes, i);
      Retire(e, i);
      assert Evs(rest) == old(Evs(rest));
      assert Abs() == goal;
    }

    method PerformOne(op: S.Op)
      requires Valid()
      modifies this, repr
      ensures Valid() && Grows() && Abs() == S.Perform(old(Abs()), op) && Ends(nodes, old(nodes))
    {
      hide Valid, S.Perform;
      match op {
        case Add(time, zombie, kind, func, data, data2) =>
          Add(time, zombie, kind, func, data, data2);
        case _ =>
          Remove(op);
      }
    }

    // The functions that a handler calls, one after the other.
    method PerformOps(ops: seq<S.Op>)
      requires Valid()
      modifies this, repr
      ensures Valid() && Grows() && Abs() == S.PerformAll(old(Abs()), ops) && Ends(nodes, old(nodes))
    {
      ghost var was, goal := nodes, S.PerformAll(Abs(), ops);
      var i := 0;
      assert ops[0..] == ops;
      assert Ends(nodes, was);
      while i < |ops|
        invariant i <= |ops| && Valid() && Grows() && Ends(nodes, was) && goal == S.PerformAll(Abs(), ops[i..])
      {
        hide Valid, S.Perform, Ends;
        assert ops[i..][1..] == ops[i + 1..];
        EndsOn(nodes, was);
        PerformOne(ops[i]);
        i := i + 1;
      }
    }

    // The function of an event is called.
    method Call(e: Event)
      requires Valid() && e in nodes
      modifies this, repr
      ensures Valid() && Grows() && Abs() == S.Call(old(Abs()), old(EvOf(e)), scripts) && Ends(nodes, old(nodes))
    {
      var ops := scripts(e.func, calls);
      log := log + [e.id];
      calls := calls + 1;
      assert Abs() == old(Abs()).(log := log);
      hide Listed, Freed, Evs, S.PerformAll, Ends;
      PerformOps(ops);
    }

    // The event is where it was, behind the events that its function added.
    method CallAt(e: Event, ghost i: nat) returns (ghost at: nat)
      requires Valid() && i < |nodes| && nodes[i] == e
      modifies this, repr
      ensures Valid() && Grows() && Abs() == S.Call(old(Abs()), old(EvOf(e)), scripts) && Ends(nodes, old(nodes))
      ensures at < |nodes| && nodes[at] == e
      ensures forall n :: n in old(nodes) ==> n.id == old(n.id) && n.kind == old(n.kind)
    {
      ghost var was, list, w := nodes, Evs(nodes), Abs().(log := log + [e.id]);
      S.ScriptBehind(w, scripts(e.func, |log|));
      assert e in nodes;
      hide Valid, S.PerformAll, Ends, S.Behind;
      Call(e);
      at := |nodes| - |was| + i;
      Places(nodes, was, list);
    }

    // muxevent_wakeup
    method Wakeup(e: Event, ghost i: nat)
      requires Valid() && i < |nodes| && nodes[i] == e
      modifies this, repr
      ensures Valid() && Grows()
      ensures S.Known(old(Abs()), old(e.id)) && Abs() == S.Wakeup(old(Abs()), old(e.id), scripts)
    {
      ghost var w, ev := Abs(), EvOf(e);
      S.FindAt(Evs(nodes), i);
      assert S.Known(w, ev.id) && S.The(w, ev.id) == ev;
      hide Valid, Evs, S.Call, S.Without, S.Known, S.The, Ends;
      assert e in nodes;
      if e.zombie {
        Delete(e, i);
      } else {
        ghost var at := CallAt(e, i);
        Delete(e, at);
      }
    }

    lemma InfoListed()
      requires Listed()
      ensures Distinct(nodes) && AllIn(nodes, repr)
    {
    }

    // An event is marked, so that its timer will only delete it.
    method Mark(e: Event, ghost at: nat)
      requires Valid() && at < |nodes| && nodes[at] == e
      modifies e`zombie
      ensures Valid() && S.Known(old(Abs()), e.id) && Abs() == S.Zombified(old(Abs()), e.id)
    {
      hide Listed, Freed, S.Apart, Evs, S.Find, Distinct;
      InfoListed();
      MarkedApart(Abs(), at);
      SetZombie(e, nodes, at);
    }

    // The runner meets a live event.
    method RunOne(e: Event, ghost i: nat)
      requires Valid() && i < |nodes| && nodes[i] == e && !e.zombie
      modifies this, repr
      ensures Valid() && Grows() && Ends(nodes, old(nodes))
      ensures S.Known(old(Abs()), old(e.id)) && Abs() == S.Ran(old(Abs()), old(e.id), scripts)
      ensures forall n :: n in old(nodes) ==> n.id == old(n.id) && n.kind == old(n.kind)
    {
      hide Valid, Evs, S.Call, S.Zombified, S.Known, S.The, Ends;
      Facing(e, i);
      ghost var at := CallAt(e, i);
      Mark(e, at);
    }

    // The event on values at the place of this one.
    lemma Facing(e: Event, i: nat)
      requires Valid() && i < |nodes| && nodes[i] == e
      ensures S.Known(Abs(), e.id) && S.The(Abs(), e.id) == EvOf(e) && e in nodes && e in repr
    {
      S.FindAt(Evs(nodes), i);
    }

    // The place of an event of the walk in the main list.
    lemma Met(walk: seq<Event>, i: nat, kind: nat) returns (m: nat)
      requires Listed() && S.Apart(Abs()) && Ends(OfKind(nodes, kind), walk) && i < |walk|
      ensures m < |nodes| && nodes[m] == walk[i]
      ensures S.Known(Abs(), walk[i].id) && S.The(Abs(), walk[i].id) == EvOf(walk[i])
    {
      var all := OfKind(nodes, kind);
      SliceAt(all, walk);
      assert all[|all| - |walk| + i] in all;
      m :| m < |nodes| && nodes[m] == walk[i];
      S.FindAt(Evs(nodes), m);
    }

    lemma NextInType(walk: seq<Event>, i: nat, kind: nat)
      requires Listed() && kind < |firstInType| && Ends(OfKind(nodes, kind), walk) && i < |walk|
      ensures walk[i].nextType == At(walk, i + 1)
    {
      var all := OfKind(nodes, kind);
      assert TypeChain(all, firstInType[kind]);
      hide Typed, Listed, OfKind;
      SliceAt(all, walk);
    }

    lemma KindInTable(walk: seq<Event>, kind: nat)
      requires Listed() && Ends(OfKind(nodes, kind), walk) && walk != []
      ensures kind < |firstInType|
    {
      var all := OfKind(nodes, kind);
      SliceAt(all, walk);
      assert all[|all| - |walk|] in all;
    }

    // One step of the walk.
    method RunnerStep(e: Event, ghost walk: seq<Event>, ghost i: nat, kind: nat) returns (run: bool)
      requires Valid() && Ends(OfKind(nodes, kind), walk) && i < |walk| && walk[i] == e
      modifies this, repr
      ensures Valid() && Grows() && Ends(OfKind(nodes, kind), walk)
      ensures forall j :: 0 <= j < |walk| ==> walk[j].id == old(walk[j].id)
      ensures S.Known(old(Abs()), old(e.id)) && run == !S.The(old(Abs()), old(e.id)).zombie
      ensures Abs() == if run then S.Ran(old(Abs()), old(e.id), scripts) else old(Abs())
      ensures |log| == |old(log)| + if run then 1 else 0
    {
      hide Listed, Freed, Evs, OfKind, S.Apart, S.Ran, S.Known, S.The;
      ghost var m := Met(walk, i, kind);
      ghost var was, all := nodes, OfKind(nodes, kind);
      run := !e.zombie;
      if run {
        S.RanLog(Abs(), e.id, scripts);
        InKind(was, kind, walk);
        hide Ends;
        RunOne(e, m);
        KindEnds(nodes, was, kind, walk);
      }
    }

    // The whole walk.
    method Walk(first: Event?, kind: nat, ghost walk: seq<Event>, ghost ids: seq<nat>) returns (ran: nat)
      requires Valid() && Ends(OfKind(nodes, kind), walk) && first == At(walk, 0)
      requires |walk| == |ids| && forall j :: 0 <= j < |walk| ==> walk[j].id == ids[j]
      modifies this, repr
      ensures Valid() && Grows() && Abs() == S.RunThrough(old(Abs()), ids, scripts)
      ensures |log| == |old(log)| + ran
    {
      hide Valid, OfKind, Ends, S.RunThrough, S.Ran;
      ran := 0;
      var e := first;
      ghost var i, goal := 0, S.RunThrough(Abs(), ids, scripts);
      assert ids[0..] == ids;
      while e != null
        invariant Valid() && Grows() && i <= |walk| == |ids| && e == At(walk, i)
        invariant Ends(OfKind(nodes, kind), walk)
        invariant forall j :: 0 <= j < |walk| ==> walk[j].id == ids[j]
        invariant S.RunThrough(Abs(), ids[i..], scripts) == goal
        invariant |log| == |old(log)| + ran
        decreases |walk| - i
      {
        ghost var w := Abs();
        var run := RunnerStep(e, walk, i, kind);
        S.RunThroughNext(w, ids, i, scripts);
        NextMet(walk, i, kind);
        ran := ran + if run then 1 else 0;
        e := e.nextType;
        i := i + 1;
      }
      assert ids[i..] == [];
      S.RunThroughNone(Abs(), scripts);
    }

    lemma NextMet(walk: seq<Event>, i: nat, kind: nat)
      requires Valid() && Ends(OfKind(nodes, kind), walk) && i < |walk|
      ensures walk[i].nextType == At(walk, i + 1)
    {
      hide Listed;
      KindInTable(walk, kind);
      NextInType(walk, i, kind);
    }

    lemma FirstMet(kind: nat)
      requires Valid()
      ensures Ends(OfKind(nodes, kind), OfKind(nodes, kind))
      ensures if kind < |firstInType| then firstInType[kind] == At(OfKind(nodes, kind), 0)
              else OfKind(nodes, kind) == []
    {
      if kind < |firstInType| {
        assert TypeChain(OfKind(nodes, kind), firstInType[kind]);
      } else {
        NoneOfKind(nodes, kind);
      }
    }

    // muxevent_run_by_type
    method RunByType(kind: nat) returns (ran: nat)
      requires Valid()
      modifies this, repr
      ensures Valid() && Grows() && Abs() == S.RunByType(old(Abs()), kind, scripts)
      ensures |log| == |old(log)| + ran
    {
      hide Valid, OfKind, Ends, S.IdsOf, S.RunThrough;
      ghost var walk, ids := OfKind(nodes, kind), S.IdsOf(Evs(nodes), kind);
      KindIds(nodes, kind);
      FirstMet(kind);
      ran := 0;
      if kind < |firstInType| {
        ran := Walk(firstInType[kind], kind, walk, ids);
      } else {
        S.RunThroughNone(Abs(), scripts);
      }
    }

    method Tick()
      requires Valid()
      modifies `now
      ensures Valid() && Abs() == old(Abs()).(tick := old(now) + 1)
    {
      now := now + 1;
    }
  }

  lemma InKind(nodes: seq<Event>, kind: nat, walk: seq<Event>)
    requires Ends(OfKind(nodes, kind), walk)
    ensures forall j :: 0 <= j < |walk| ==> walk[j] in nodes
  {
    var all := OfKind(nodes, kind);
    SliceAt(all, walk);
    forall j | 0 <= j < |walk| ensures walk[j] in nodes {
      assert all[|all| - |walk| + j] in all;
    }
  }

  lemma KindEnds(nodes: seq<Event>, was: seq<Event>, kind: nat, walk: seq<Event>)
    requires Ends(nodes, was) && Ends(OfKind(was, kind), walk)
    ensures Ends(OfKind(nodes, kind), walk)
  {
    var more := nodes[..|nodes| - |was|];
    assert nodes == more + was;
    OfKindJoin(more, was, kind);
    var a, b := OfKind(more, kind), OfKind(was, kind);
    assert (a + b)[|a| + |b| - |walk|..] == b[|b| - |walk|..];
  }

  lemma {:induction false} KindIds(nodes: seq<Event>, kind: nat)
    ensures
      var ids := S.IdsOf(Evs(nodes), kind);
      |ids| == |OfKind(nodes, kind)| && forall j :: 0 <= j < |ids| ==> ids[j] == OfKind(nodes, kind)[j].id
  {
    if nodes != [] {
      KindIds(nodes[1..], kind);
      assert Evs(nodes)[1..] == Evs(nodes[1..]);
    }
  }

  method SetZombie(e: Event, ghost nodes: seq<Event>, ghost at: nat)
    requires Distinct(nodes) && at < |nodes| && nodes[at] == e
    modifies e`zombie
    ensures Evs(nodes) == old(Evs(nodes))[at := old(Evs(nodes))[at].(zombie := true)]
  {
    ghost var list := Evs(nodes);
    ghost var goal := list[at := list[at].(zombie := true)];
    e.zombie := true;
    forall j | 0 <= j < |nodes| ensures EvOf(nodes[j]) == goal[j] {
      assert j != at ==> nodes[j] != e;
    }
    EvsAre(nodes, goal);
  }

  lemma MarkedApart(w: S.World, at: nat)
    requires S.Apart(w) && at < |w.list|
    ensures
      var e, marked := w.list[at], w.(list := w.list[at := w.list[at].(zombie := true)]);
      S.Known(w, e.id) && S.Zombified(w, e.id) == marked && S.Apart(marked)
  {
    S.FindAt(w.list, at);
  }

  // The list b is what was there before some events were put in front of it.
  ghost predicate Ends(a: seq<Event>, b: seq<Event>) {
    |a| >= |b| && a[|a| - |b|..] == b
  }

  lemma SliceAt<T>(a: seq<T>, b: seq<T>)
    requires |a| >= |b| && a[|a| - |b|..] == b
    ensures forall j :: 0 <= j < |b| ==> a[|a| - |b| + j] == b[j]
  {
    forall j | 0 <= j < |b| ensures a[|a| - |b| + j] == b[j] {
      assert a[|a| - |b|..][j] == b[j];
    }
  }

  lemma Places(now: seq<Event>, was: seq<Event>, list: seq<S.Ev>)
    requires Ends(now, was) && |list| == |was| && S.Behind(list, Evs(now))
    ensures |now| >= |was|
    ensures forall j :: 0 <= j < |was| ==>
                          now[|now| - |was| + j] == was[j] && was[j].id == list[j].id && was[j].kind == list[j].kind
  {
    var d := |now| - |was|;
    SliceAt(now, was);
    SliceAt(S.Tags(Evs(now)), S.Tags(list));
    hide S.Tags, Evs, Ends, S.Behind;
    forall j | 0 <= j < |was| ensures was[j].id == list[j].id && was[j].kind == list[j].kind {
      assert S.Tags(Evs(now))[d + j] == S.Tags(list)[j];
      assert Evs(now)[d + j] == EvOf(now[d + j]);
    }
  }

  lemma EndsOn(b: seq<Event>, c: seq<Event>)
    requires Ends(b, c)
    ensures forall a :: Ends(a, b) ==> Ends(a, c)
  {
  }

  lemma WithoutEvs(w: S.World, nodes: seq<Event>, i: nat)
    requires i < |nodes| && S.Apart(w) && w.list == Evs(nodes)
    ensures Evs(Without(nodes, i)) == S.Without(Evs(nodes), nodes[i].id)
  {
    hide Evs, S.Apart, S.Without;
    var evs, rest := Evs(nodes), Without(nodes, i);
    S.WithoutAt(w, i);
    forall j | 0 <= j < |rest| ensures (evs[..i] + evs[i + 1..])[j] == EvOf(rest[j]) {
      var k := if j < i then j else j + 1;
      assert rest[j] == nodes[k] && (evs[..i] + evs[i + 1..])[j] == evs[k];
    }
    EvsAre(rest, evs[..i] + evs[i + 1..]);
  }
}