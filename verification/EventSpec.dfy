// Timed events on values: what is scheduled, what is cancelled and whose
// function is called.
module EventSpec {

  // An event; `id` tells the events apart that have used the same memory.
  datatype Ev = Ev(id: nat, zombie: bool, func: int, data: int, data2: int, tick: int, kind: nat)

  // What a handler or the rest of the server may do to the events.
  datatype Op =
    | Add(time: int, zombie: bool, kind: nat, func: int, data: int, data2: int)
    | RemoveData(data: int)
    | RemoveTypeData(kind: nat, data: int)
    | RemoveTypeData2(kind: nat, data2: int)
    | RemoveTypeDataData(kind: nat, data: int, data2: int)

  // The list, latest first, the tick, the next id, and whose functions have
  // been called, in order.
  datatype World = World(list: seq<Ev>, tick: int, serial: nat, log: seq<nat>)

  // What a handler does, given its function and how many were called before.
  type Scripts = (int, nat) -> seq<Op>

  predicate Hit(op: Op, e: Ev) {
    match op
    case Add(_, _, _, _, _, _) => false
    case RemoveData(data) => e.data == data
    case RemoveTypeData(kind, data) => e.kind == kind && e.data == data
    case RemoveTypeData2(kind, data2) => e.kind == kind && e.data2 == data2
    case RemoveTypeDataData(kind, data, data2) => e.kind == kind && e.data == data && e.data2 == data2
  }

  function Struck(op: Op, e: Ev): Ev {
    e.(zombie := e.zombie || Hit(op, e))
  }

  function StruckAll(op: Op, list: seq<Ev>): (r: seq<Ev>)
    ensures |r| == |list| && forall i :: 0 <= i < |list| ==> r[i] == Struck(op, list[i])
  {
    if list == [] then [] else [Struck(op, list[0])] + StruckAll(op, list[1..])
  }

  function Perform(w: World, op: Op): World {
    if op.Add? then
      var time := if op.time < 1 then 1 else op.time;
      w.(list := [Ev(w.serial, op.zombie, op.func, op.data, op.data2, w.tick + time, op.kind)] + w.list,
         serial := w.serial + 1)
    else
      w.(list := StruckAll(op, w.list))
  }

  function PerformAll(w: World, ops: seq<Op>): World
    decreases |ops|
  {
    if ops == [] then w else PerformAll(Perform(w, ops[0]), ops[1..])
  }

  function Without(list: seq<Ev>, id: nat): seq<Ev> {
    if list == [] then []
    else if list[0].id == id then list[1..]
    else [list[0]] + Without(list[1..], id)
  }

  function Find(list: seq<Ev>, id: nat): (i: nat)
    ensures i <= |list| && (i < |list| ==> list[i].id == id)
    ensures forall j :: 0 <= j < i ==> list[j].id != id
  {
    if list == [] || list[0].id == id then 0 else 1 + Find(list[1..], id)
  }

  predicate Known(w: World, id: nat) {
    Find(w.list, id) < |w.list|
  }

  function The(w: World, id: nat): Ev
    requires Known(w, id)
  {
    w.list[Find(w.list, id)]
  }

  // The function of an event is called.
  function Call(w: World, e: Ev, scripts: Scripts): World {
    PerformAll(w.(log := w.log + [e.id]), scripts(e.func, |w.log|))
  }

  // The timer of an event goes off.
  function Wakeup(w: World, id: nat, scripts: Scripts): World
    requires Known(w, id)
  {
    var w' := if The(w, id).zombie then w else Call(w, The(w, id), scripts);
    w'.(list := Without(w'.list, id))
  }

  function Zombified(w: World, id: nat): World
    requires Known(w, id)
  {
    w.(list := w.list[Find(w.list, id) := The(w, id).(zombie := true)])
  }

  function IdsOf(list: seq<Ev>, kind: nat): seq<nat> {
    if list == [] then []
    else (if list[0].kind == kind then [list[0].id] else []) + IdsOf(list[1..], kind)
  }

  // The walk of the runner over the events that were in the list of the type.
  function RunThrough(w: World, ids: seq<nat>, scripts: Scripts): World
    decreases |ids|
  {
    if ids == [] then w
    else if !Known(w, ids[0]) || The(w, ids[0]).zombie then RunThrough(w, ids[1..], scripts)
    else
      var called := Call(w, The(w, ids[0]), scripts);
      RunThrough(if Known(called, ids[0]) then Zombified(called, ids[0]) else called, ids[1..], scripts)
  }

  function RunByType(w: World, kind: nat, scripts: Scripts): World {
    RunThrough(w, IdsOf(w.list, kind), scripts)
  }

  datatype Step = Outside(op: Op) | Timer(id: nat) | Runner(kind: nat) | Tick

  predicate Possible(w: World, step: Step) {
    step.Timer? ==> Known(w, step.id)
  }

  function Next(w: World, step: Step, scripts: Scripts): World
    requires Possible(w, step)
  {
    match step
    case Outside(op) => Perform(w, op)
    case Timer(id) => Wakeup(w, id, scripts)
    case Runner(kind) => RunByType(w, kind, scripts)
    case Tick => w.(tick := w.tick + 1)
  }

  predicate Run(w: World, steps: seq<Step>, scripts: Scripts)
    decreases |steps|
  {
    steps == [] || (Possible(w, steps[0]) && Run(Next(w, steps[0], scripts), steps[1..], scripts))
  }

  function After(w: World, steps: seq<Step>, scripts: Scripts): World
    requires Run(w, steps, scripts)
    decreases |steps|
  {
    if steps == [] then w else After(Next(w, steps[0], scripts), steps[1..], scripts)
  }

  const START := World([], 0, 0, [])

  // ---------- at most once ----------

  // Ids differ, and an event whose function was called is live no more.
  ghost predicate Inv(w: World) {
    && (forall i, j :: 0 <= i < j < |w.list| ==> w.list[i].id != w.list[j].id)
    && (forall i :: 0 <= i < |w.list| ==> w.list[i].id < w.serial)
    && (forall i :: 0 <= i < |w.log| ==> w.log[i] < w.serial)
    && (forall i, j :: 0 <= i < j < |w.log| ==> w.log[i] != w.log[j])
    && (forall i :: 0 <= i < |w.list| && !w.list[i].zombie ==> w.list[i].id !in w.log)
  }

  // The same, while the function of the event `id` is being called.
  ghost predicate Calling(w: World, id: nat) {
    && (forall i, j :: 0 <= i < j < |w.list| ==> w.list[i].id != w.list[j].id)
    && (forall i :: 0 <= i < |w.list| ==> w.list[i].id < w.serial)
    && (forall i :: 0 <= i < |w.log| ==> w.log[i] < w.serial)
    && (forall i, j :: 0 <= i < j < |w.log| ==> w.log[i] != w.log[j])
    && (forall i :: 0 <= i < |w.list| && !w.list[i].zombie && w.list[i].id != id ==> w.list[i].id !in w.log)
    && id in w.log
  }

  lemma PerformInv(w: World, op: Op)
    requires Inv(w)
    ensures Inv(Perform(w, op))
  {
  }

  lemma PerformCalling(w: World, op: Op, id: nat)
    requires Calling(w, id)
    ensures Calling(Perform(w, op), id)
  {
  }

  lemma {:induction false} ScriptCalling(w: World, ops: seq<Op>, id: nat)
    requires Calling(w, id)
    ensures Calling(PerformAll(w, ops), id)
    decreases |ops|
  {
    if ops != [] {
      PerformCalling(w, ops[0], id);
      ScriptCalling(Perform(w, ops[0]), ops[1..], id);
    }
  }

  lemma CallCalling(w: World, id: nat, scripts: Scripts)
    requires Inv(w) && Known(w, id) && !The(w, id).zombie
    ensures Calling(Call(w, The(w, id), scripts), id)
  {
    var w' := w.(log := w.log + [id]);
    assert id in w'.log;
    ScriptCalling(w', scripts(The(w, id).func, |w.log|), id);
  }

  lemma {:induction false} WithoutIs(list: seq<Ev>, id: nat)
    ensures
      var i := Find(list, id);
      Without(list, id) == if i < |list| then list[..i] + list[i + 1..] else list
  {
    if list != [] && list[0].id != id {
      WithoutIs(list[1..], id);
      assert list == [list[0]] + list[1..];
    }
  }

  // The rest of the condition holds on for a list with some events left out.
  ghost predicate Fewer(part: seq<Ev>, list: seq<Ev>, id: nat) {
    && (forall i, j :: 0 <= i < j < |part| ==> part[i].id != part[j].id)
    && (forall i :: 0 <= i < |part| ==> part[i].id != id && part[i] in list)
  }

  lemma WithoutFewer(list: seq<Ev>, id: nat)
    requires forall i, j :: 0 <= i < j < |list| ==> list[i].id != list[j].id
    ensures Fewer(Without(list, id), list, id)
  {
    WithoutIs(list, id);
    var at, part := Find(list, id), Without(list, id);
    forall i | 0 <= i < |part| ensures part[i].id != id && part[i] in list {
      assert part[i] == list[if i < at then i else i + 1];
    }
  }

  lemma Gone(w: World, id: nat)
    requires Calling(w, id)
    ensures Inv(w.(list := Without(w.list, id)))
  {
    WithoutFewer(w.list, id);
  }

  lemma Done(w: World, id: nat)
    requires Calling(w, id)
    ensures Inv(if Known(w, id) then Zombified(w, id) else w)
  {
  }

  lemma WakeupInv(w: World, id: nat, scripts: Scripts)
    requires Inv(w) && Known(w, id)
    ensures Inv(Wakeup(w, id, scripts))
  {
    if The(w, id).zombie {
      WithoutFewer(w.list, id);
    } else {
      CallCalling(w, id, scripts);
      Gone(Call(w, The(w, id), scripts), id);
      hide Call, Inv, Calling, Without;
    }
  }

  lemma {:induction false} RunThroughInv(w: World, ids: seq<nat>, scripts: Scripts)
    requires Inv(w)
    ensures Inv(RunThrough(w, ids, scripts))
    decreases |ids|
  {
    if ids != [] {
      if !Known(w, ids[0]) || The(w, ids[0]).zombie {
        RunThroughInv(w, ids[1..], scripts);
      } else {
        CallCalling(w, ids[0], scripts);
        var called := Call(w, The(w, ids[0]), scripts);
        Done(called, ids[0]);
        hide Call, Inv, Calling, Zombified;
        RunThroughInv(if Known(called, ids[0]) then Zombified(called, ids[0]) else called, ids[1..], scripts);
      }
    }
  }

  lemma {:induction false} RunInv(w: World, steps: seq<Step>, scripts: Scripts)
    requires Inv(w) && Run(w, steps, scripts)
    ensures Inv(After(w, steps, scripts))
    decreases |steps|
  {
    if steps != [] {
      match steps[0] {
        case Outside(op) => PerformInv(w, op);
        case Timer(id) => WakeupInv(w, id, scripts);
        case Runner(kind) => RunThroughInv(w, IdsOf(w.list, kind), scripts);
        case Tick =>
      }
      RunInv(Next(w, steps[0], scripts), steps[1..], scripts);
    }
  }

  // Whatever the handlers do, the function of an event is called at most once.
  lemma AtMostOnce(steps: seq<Step>, scripts: Scripts, i: nat, j: nat)
    requires Run(START, steps, scripts) && i < j < |After(START, steps, scripts).log|
    ensures After(START, steps, scripts).log[i] != After(START, steps, scripts).log[j]
  {
    RunInv(START, steps, scripts);
  }

  // ---------- the runner ----------

  predicate Spared(ops: seq<Op>, e: Ev) {
    forall i :: 0 <= i < |ops| ==> !Hit(ops[i], e)
  }

  lemma {:induction false} FindAt(list: seq<Ev>, i: nat)
    requires i < |list| && forall j, k :: 0 <= j < k < |list| ==> list[j].id != list[k].id
    ensures Find(list, list[i].id) == i
  {
    if i > 0 {
      assert list[0].id != list[i].id;
      FindAt(list[1..], i - 1);
    }
  }

  ghost predicate Apart(w: World) {
    && (forall i, j :: 0 <= i < j < |w.list| ==> w.list[i].id != w.list[j].id)
    && (forall i :: 0 <= i < |w.list| ==> w.list[i].id < w.serial)
  }

  // An event is only changed by being hit.
  lemma PerformKeeps(w: World, op: Op, id: nat)
    requires Apart(w) && Known(w, id)
    ensures Apart(Perform(w, op)) && Known(Perform(w, op), id) && Perform(w, op).log == w.log
    ensures The(Perform(w, op), id) == Struck(op, The(w, id))
  {
    var i, list := Find(w.list, id), Perform(w, op).list;
    if op.Add? {
      assert list[i + 1] == w.list[i];
      FindAt(list, i + 1);
    } else {
      FindAt(list, i);
    }
  }

  lemma {:induction false} ScriptKeeps(w: World, ops: seq<Op>, id: nat)
    requires Apart(w) && Known(w, id)
    ensures
      var w' := PerformAll(w, ops);
      && Apart(w') && Known(w', id) && w'.log == w.log
      && The(w', id) == The(w, id).(zombie := The(w, id).zombie || !Spared(ops, The(w, id)))
    decreases |ops|
  {
    if ops != [] {
      PerformKeeps(w, ops[0], id);
      var w' := Perform(w, ops[0]);
      hide Perform, Apart;
      ScriptKeeps(w', ops[1..], id);
      var e := The(w, id);
      assert Spared(ops, e) <==> !Hit(ops[0], e) && Spared(ops[1..], e) by {
        assert ops == [ops[0]] + ops[1..];
      }
      assert forall i :: 0 <= i < |ops[1..]| ==> Hit(ops[1..][i], e) == Hit(ops[1..][i], The(w', id));
    }
  }

  // The world after the runner has called one event's function.
  function Ran(w: World, id: nat, scripts: Scripts): World
    requires Known(w, id)
  {
    var called := Call(w, The(w, id), scripts);
    if Known(called, id) then Zombified(called, id) else called
  }

  lemma RanKeeps(w: World, id: nat, scripts: Scripts, other: nat)
    requires Inv(w) && Known(w, id) && !The(w, id).zombie && Known(w, other)
    ensures
      var w', e := Ran(w, id, scripts), The(w, other);
      && Inv(w') && Known(w', other) && w'.log == w.log + [id]
      && The(w', other)
         == e.(zombie := other == id || e.zombie || !Spared(scripts(The(w, id).func, |w.log|), e))
  {
    CallCalling(w, id, scripts);
    var start := w.(log := w.log + [id]);
    var ops := scripts(The(w, id).func, |w.log|);
    ScriptKeeps(start, ops, other);
    ScriptKeeps(start, ops, id);
    var called := Call(w, The(w, id), scripts);
    Done(called, id);
    ZombifiedKeeps(called, id, other);
  }

  lemma ZombifiedKeeps(w: World, id: nat, other: nat)
    requires Apart(w) && Known(w, id) && Known(w, other)
    ensures Known(Zombified(w, id), other) && Zombified(w, id).log == w.log
    ensures The(Zombified(w, id), other) == if other == id then The(w, id).(zombie := true) else The(w, other)
  {
    FindAt(Zombified(w, id).list, Find(w.list, other));
  }

  // The events that the runner calls, in the order of the walk.
  function Calls(w: World, ids: seq<nat>, scripts: Scripts): seq<nat>
    decreases |ids|
  {
    if ids == [] then []
    else if !Known(w, ids[0]) || The(w, ids[0]).zombie then Calls(w, ids[1..], scripts)
    else [ids[0]] + Calls(Ran(w, ids[0], scripts), ids[1..], scripts)
  }

  lemma {:induction false} RunnerLogs(w: World, ids: seq<nat>, scripts: Scripts)
    requires Inv(w)
    ensures RunThrough(w, ids, scripts).log == w.log + Calls(w, ids, scripts)
    decreases |ids|
  {
    if ids != [] {
      if !Known(w, ids[0]) || The(w, ids[0]).zombie {
        RunnerLogs(w, ids[1..], scripts);
      } else {
        RanKeeps(w, ids[0], scripts, ids[0]);
        hide Inv;
        RunnerLogs(Ran(w, ids[0], scripts), ids[1..], scripts);
      }
    }
  }

  ghost predicate AllDiffer(ids: seq<nat>) {
    forall i, j :: 0 <= i < j < |ids| ==> ids[i] != ids[j]
  }

  ghost predicate AllKnown(w: World, ids: seq<nat>) {
    forall i :: 0 <= i < |ids| ==> Known(w, ids[i])
  }

  // The n-th of the called functions, that of ids[q], does not hit the event e.
  ghost predicate Passes(w: World, ids: seq<nat>, called: seq<nat>, scripts: Scripts, q: nat, n: nat, e: Ev)
    requires q < |ids| && AllKnown(w, ids)
  {
    n < |called| && called[n] == ids[q] ==> Spared(scripts(The(w, ids[q]).func, |w.log| + n), e)
  }

  // The event at p is live and no function called before it is reached hits it.
  ghost predicate Reached(w: World, ids: seq<nat>, called: seq<nat>, scripts: Scripts, p: nat)
    requires p < |ids| && AllKnown(w, ids)
  {
    && !The(w, ids[p]).zombie
    && forall q: nat, n: nat :: q < p ==> Passes(w, ids, called, scripts, q, n, The(w, ids[p]))
  }

  // Only events of the walk are called, in its order.
  ghost predicate InOrder(called: seq<nat>, ids: seq<nat>) {
    && (forall n :: 0 <= n < |called| ==> called[n] in ids)
    && (forall m, n, q, r ::
          0 <= m < n < |called| && 0 <= q < |ids| && 0 <= r < |ids| ==>
            called[m] == ids[q] && called[n] == ids[r] ==> q < r)
  }

  lemma {:induction false} CallsInOrder(w: World, ids: seq<nat>, scripts: Scripts)
    requires AllDiffer(ids)
    ensures InOrder(Calls(w, ids, scripts), ids)
    decreases |ids|
  {
    if ids != [] {
      var w' := if !Known(w, ids[0]) || The(w, ids[0]).zombie then w else Ran(w, ids[0], scripts);
      CallsInOrder(w', ids[1..], scripts);
      var more, called := Calls(w', ids[1..], scripts), Calls(w, ids, scripts);
      OrderFront(called, more, ids);
    }
  }

  lemma OrderFront(called: seq<nat>, more: seq<nat>, ids: seq<nat>)
    requires ids != [] && AllDiffer(ids) && InOrder(more, ids[1..]) && (called == more || called == [ids[0]] + more)
    ensures InOrder(called, ids)
  {
    assert forall n :: 0 <= n < |more| ==> more[n] in ids[1..];
    forall m, n, q, r | 0 <= m < n < |called| && 0 <= q < |ids| && 0 <= r < |ids|
                        && called[m] == ids[q] && called[n] == ids[r] ensures q < r {
      var off := |called| - |more|;
      assert called[n] == more[n - off] && more[n - off] in ids[1..];
      assert r > 0;
      if m >= off {
        assert called[m] == more[m - off] && more[m - off] in ids[1..];
        assert ids[1..][q - 1] == ids[q] && ids[1..][r - 1] == ids[r];
      }
    }
  }

  lemma TailDiffers(ids: seq<nat>)
    requires AllDiffer(ids) && ids != []
    ensures AllDiffer(ids[1..]) && ids[0] !in ids[1..]
  {
  }

  lemma SparedAlike(ops: seq<Op>, e: Ev, z: bool)
    ensures Spared(ops, e.(zombie := z)) == Spared(ops, e)
  {
    assert forall i :: 0 <= i < |ops| ==> Hit(ops[i], e.(zombie := z)) == Hit(ops[i], e);
  }

  // What is reached in the rest of the walk, when the first event is passed over.
  lemma ReachedSkip(w: World, ids: seq<nat>, more: seq<nat>, scripts: Scripts, p: nat)
    requires 0 < p < |ids| && AllKnown(w, ids) && AllDiffer(ids) && AllKnown(w, ids[1..]) && ids[0] !in more
    ensures Reached(w, ids, more, scripts, p) <==> Reached(w, ids[1..], more, scripts, p - 1)
  {
    var e := The(w, ids[p]);
    forall q: nat, n: nat | 0 < q < p
      ensures Passes(w, ids, more, scripts, q, n, e) == Passes(w, ids[1..], more, scripts, q - 1, n, e) {
    }
    forall n: nat ensures Passes(w, ids, more, scripts, 0, n, e) {
    }
    if Reached(w, ids[1..], more, scripts, p - 1) {
      forall q: nat, n: nat | q < p ensures Passes(w, ids, more, scripts, q, n, e) {
        if q > 0 {
          assert Passes(w, ids[1..], more, scripts, q - 1, n, e);
        }
      }
    }
    if Reached(w, ids, more, scripts, p) {
      forall q: nat, n: nat | q < p - 1 ensures Passes(w, ids[1..], more, scripts, q, n, e) {
        assert Passes(w, ids, more, scripts, q + 1, n, e);
      }
    }
  }

  // The same, when the function of the first event has been called.
  lemma PassesLater(w: World, w': World, ids: seq<nat>, more: seq<nat>, scripts: Scripts, q: nat, n: nat,
                    e: Ev, z: bool)
    requires 0 < q < |ids| && AllKnown(w, ids) && AllKnown(w', ids[1..]) && AllDiffer(ids)
    requires |w'.log| == |w.log| + 1 && The(w', ids[q]).func == The(w, ids[q]).func
    ensures Passes(w, ids, [ids[0]] + more, scripts, q, n + 1, e)
         == Passes(w', ids[1..], more, scripts, q - 1, n, e.(zombie := z))
    ensures Passes(w, ids, [ids[0]] + more, scripts, q, 0, e)
  {
    SparedAlike(scripts(The(w, ids[q]).func, |w'.log| + n), e, z);
    assert n < |more| ==> ([ids[0]] + more)[n + 1] == more[n];
  }

  lemma ReachedAfter(w: World, w': World, ids: seq<nat>, more: seq<nat>, scripts: Scripts, p: nat)
    requires 0 < p < |ids| && AllKnown(w, ids) && AllKnown(w', ids[1..]) && AllDiffer(ids) && ids[0] !in more
    requires |w'.log| == |w.log| + 1
    requires forall q :: 0 < q < |ids| ==>
               && Known(w', ids[q])
               && The(w', ids[q]) == The(w, ids[q]).(
                    zombie := The(w, ids[q]).zombie
                              || !Spared(scripts(The(w, ids[0]).func, |w.log|), The(w, ids[q])))
    ensures Reached(w, ids, [ids[0]] + more, scripts, p) <==> Reached(w', ids[1..], more, scripts, p - 1)
  {
    var called := [ids[0]] + more;
    var e, e' := The(w, ids[p]), The(w', ids[p]);
    assert Passes(w, ids, called, scripts, 0, 0, e) <==> Spared(scripts(The(w, ids[0]).func, |w.log|), e);
    if Reached(w', ids[1..], more, scripts, p - 1) {
      forall q: nat, n: nat | q < p ensures Passes(w, ids, called, scripts, q, n, e) {
        if q > 0 && n > 0 {
          assert Passes(w', ids[1..], more, scripts, q - 1, n - 1, e');
          PassesLater(w, w', ids, more, scripts, q, n - 1, e, e'.zombie);
        } else if q == 0 && 0 < n < |called| {
          assert called[n] == more[n - 1];
        }
      }
    }
    if Reached(w, ids, called, scripts, p) {
      forall q: nat, n: nat | q < p - 1 ensures Passes(w', ids[1..], more, scripts, q, n, e') {
        assert Passes(w, ids, called, scripts, q + 1, n + 1, e);
        PassesLater(w, w', ids, more, scripts, q + 1, n, e, e'.zombie);
      }
    }
  }

  lemma RanKeepsAll(w: World, ids: seq<nat>, scripts: Scripts)
    requires Inv(w) && AllDiffer(ids) && AllKnown(w, ids) && ids != [] && !The(w, ids[0]).zombie
    ensures
      var w' := Ran(w, ids[0], scripts);
      && Inv(w') && AllKnown(w', ids[1..]) && |w'.log| == |w.log| + 1
      && forall q :: 0 < q < |ids| ==>
                       Known(w', ids[q]) && The(w', ids[q])
                       == The(w, ids[q]).(zombie := The(w, ids[q]).zombie
                                                    || !Spared(scripts(The(w, ids[0]).func, |w.log|), The(w, ids[q])))
  {
    var w' := Ran(w, ids[0], scripts);
    assert Known(w, ids[0]);
    RanKeeps(w, ids[0], scripts, ids[0]);
    forall q | 0 < q < |ids|
      ensures Known(w', ids[q]) && The(w', ids[q])
              == The(w, ids[q]).(zombie := The(w, ids[q]).zombie
                                           || !Spared(scripts(The(w, ids[0]).func, |w.log|), The(w, ids[q]))) {
      assert Known(w, ids[q]);
      RanKeeps(w, ids[0], scripts, ids[q]);
    }
  }

  // An event of the walk is called just when it is live and not hit by a
  // function that is called before it is reached.
  lemma {:induction false} CallsExactly(w: World, ids: seq<nat>, scripts: Scripts, p: nat)
    requires Inv(w) && AllDiffer(ids) && AllKnown(w, ids) && p < |ids|
    ensures ids[p] in Calls(w, ids, scripts) <==> Reached(w, ids, Calls(w, ids, scripts), scripts, p)
    decreases |ids|
  {
    var tail := ids[1..];
    TailDiffers(ids);
    assert Known(w, ids[0]) && AllKnown(w, tail);
    var live := !The(w, ids[0]).zombie;
    var w' := if live then Ran(w, ids[0], scripts) else w;
    CallsInOrder(w', tail, scripts);
    var more := Calls(w', tail, scripts);
    assert ids[0] !in more;
    if live {
      RanKeepsAll(w, ids, scripts);
    }
    hide Inv, Ran, The, Known;
    if p > 0 {
      CallsExactly(w', tail, scripts, p - 1);
      if live {
        ReachedAfter(w, w', ids, more, scripts, p);
      } else {
        ReachedSkip(w, ids, more, scripts, p);
      }
    }
  }

  lemma {:induction false} IdsOfIs(list: seq<Ev>, kind: nat)
    requires forall i, j :: 0 <= i < j < |list| ==> list[i].id != list[j].id
    ensures AllDiffer(IdsOf(list, kind))
    ensures forall id :: id in IdsOf(list, kind)
                    <==> exists i :: 0 <= i < |list| && list[i].id == id && list[i].kind == kind
  {
    if list != [] {
      var tail := list[1..];
      IdsOfIs(tail, kind);
      forall id
        ensures id in IdsOf(list, kind)
           <==> exists i :: 0 <= i < |list| && list[i].id == id && list[i].kind == kind
      {
        if i :| 0 <= i < |tail| && tail[i].id == id && tail[i].kind == kind {
          assert list[i + 1] == tail[i];
        }
        if i :| 0 <= i < |list| && list[i].id == id && list[i].kind == kind {
          assert i > 0 ==> tail[i - 1] == list[i];
        }
      }
      assert list[0].id !in IdsOf(tail, kind);
    }
  }

  // The runner calls, in list order, exactly the events of the type that were
  // live when it was started and are not cancelled before they are reached;
  // none that was added meanwhile.
  lemma RunnerCallsExactly(w: World, kind: nat, scripts: Scripts, p: nat)
    requires Inv(w)
    ensures
      var ids, called := IdsOf(w.list, kind), Calls(w, IdsOf(w.list, kind), scripts);
      && RunByType(w, kind, scripts).log == w.log + called
      && InOrder(called, ids)
      && AllKnown(w, ids) && (p < |ids| ==> (ids[p] in called <==> Reached(w, ids, called, scripts, p)))
      && forall id :: id in called ==> id < w.serial
  {
    var ids := IdsOf(w.list, kind);
    IdsOfIs(w.list, kind);
    forall i | 0 <= i < |ids| ensures Known(w, ids[i]) && ids[i] < w.serial {
      assert ids[i] in ids;
      var j: nat :| j < |w.list| && w.list[j].id == ids[i] && w.list[j].kind == kind;
      FindAt(w.list, j);
    }
    RunnerLogs(w, ids, scripts);
    CallsInOrder(w, ids, scripts);
    if p < |ids| {
      CallsExactly(w, ids, scripts, p);
    }
  }

  lemma PerformApart(w: World, op: Op)
    requires Apart(w)
    ensures Apart(Perform(w, op))
  {
  }

  lemma WithoutApart(w: World, id: nat)
    requires Apart(w)
    ensures Apart(w.(list := Without(w.list, id)))
  {
    WithoutFewer(w.list, id);
  }

  function Tags(list: seq<Ev>): (r: seq<(nat, nat)>)
    ensures |r| == |list| && forall i :: 0 <= i < |list| ==> r[i] == (list[i].id, list[i].kind)
  {
    if list == [] then [] else [(list[0].id, list[0].kind)] + Tags(list[1..])
  }

  // Handlers only put events in front; those that were there keep their places.
  ghost predicate Behind(list: seq<Ev>, later: seq<Ev>) {
    |later| >= |list| && Tags(later)[|later| - |list|..] == Tags(list)
  }

  lemma PerformBehind(w: World, op: Op)
    ensures Behind(w.list, Perform(w, op).list)
  {
    if op.Add? {
      assert Tags(Perform(w, op).list)[1..] == Tags(w.list);
    } else {
      assert Tags(Perform(w, op).list) == Tags(w.list);
    }
  }

  lemma {:induction false} ScriptBehind(w: World, ops: seq<Op>)
    ensures Behind(w.list, PerformAll(w, ops).list)
    decreases |ops|
  {
    if ops != [] {
      var next, last := Perform(w, ops[0]).list, PerformAll(w, ops).list;
      ScriptBehind(Perform(w, ops[0]), ops[1..]);
      PerformBehind(w, ops[0]);
      hide Perform, PerformAll;
      assert Tags(last)[|last| - |w.list|..] == Tags(last)[|last| - |next|..][|next| - |w.list|..];
    }
  }

  lemma WithoutAt(w: World, i: nat)
    requires Apart(w) && i < |w.list|
    ensures Without(w.list, w.list[i].id) == w.list[..i] + w.list[i + 1..]
  {
    FindAt(w.list, i);
    WithoutIs(w.list, w.list[i].id);
  }

  // The walk goes on behind the event that is met.
  lemma RunThroughNext(w: World, ids: seq<nat>, i: nat, scripts: Scripts)
    requires i < |ids| && Known(w, ids[i])
    ensures RunThrough(w, ids[i..], scripts)
         == RunThrough(if The(w, ids[i]).zombie then w else Ran(w, ids[i], scripts), ids[i + 1..], scripts)
  {
    assert ids[i..][1..] == ids[i + 1..] && ids[i..][0] == ids[i];
  }

  lemma RunThroughNone(w: World, scripts: Scripts)
    ensures RunThrough(w, [], scripts) == w
  {
  }

  lemma {:induction false} ScriptLog(w: World, ops: seq<Op>)
    ensures PerformAll(w, ops).log == w.log
    decreases |ops|
  {
    if ops != [] {
      ScriptLog(Perform(w, ops[0]), ops[1..]);
    }
  }

  lemma RanLog(w: World, id: nat, scripts: Scripts)
    requires Known(w, id)
    ensures Ran(w, id, scripts).log == w.log + [The(w, id).id]
  {
    ScriptLog(w.(log := w.log + [The(w, id).id]), scripts(The(w, id).func, |w.log|));
  }
}
