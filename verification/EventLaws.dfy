// What each step does to the events, and that a live event whose timer goes off is
// called.
module EventLaws {
  import opened EventSpec

  // ---------- one operation ----------

  // A new event is first in the list, live or cancelled as it was asked for, and due
  // after its time, or after one tick when that is less. All others stay.
  lemma AddedExactly(w: World, time: int, zombie: bool, kind: nat, func: int, data: int, data2: int, other: nat)
    requires Inv(w)
    ensures var w' := Perform(w, Add(time, zombie, kind, func, data, data2));
            var e := Ev(w.serial, zombie, func, data, data2, w.tick + (if time > 1 then time else 1), kind);
            && Inv(w') && !Known(w, w.serial) && Known(w', w.serial) && The(w', w.serial) == e
            && (other != w.serial ==> (Known(w', other) <==> Known(w, other)))
            && (Known(w, other) ==> Known(w', other) && The(w', other) == The(w, other))
            && w'.log == w.log && w'.tick == w.tick && w'.serial == w.serial + 1
  {
    var op := Add(time, zombie, kind, func, data, data2);
    PerformInv(w, op);
    if Known(w, other) {
      PerformKeeps(w, op, other);
    }
  }

  // Each way to cancel events means those whose fields are all as given.
  lemma RemovedExactly(w: World, op: Op, id: nat)
    requires Inv(w) && Known(w, id) && !op.Add?
    ensures var w', e := Perform(w, op), The(w, id);
            var hit := && (op.RemoveTypeData2? || e.data == op.data)
                       && (op.RemoveData? || e.kind == op.kind)
                       && (op.RemoveTypeData2? || op.RemoveTypeDataData? ==> e.data2 == op.data2);
            && |w'.list| == |w.list| && w'.log == w.log
            && Known(w', id) && The(w', id) == e.(zombie := e.zombie || hit)
  {
    PerformKeeps(w, op, id);
  }

  // ---------- a timer ----------

  // The timer of a live event calls its function, that of a cancelled one does not;
  // then the event is known no more. The others stay, and only what the function asks
  // for cancels any of them.
  lemma TimerExactly(w: World, id: nat, scripts: Scripts, other: nat)
    requires Inv(w) && Known(w, id)
    ensures var w', e := Wakeup(w, id, scripts), The(w, id);
            && Inv(w') && !Known(w', id)
            && w'.log == w.log + (if e.zombie then [] else [id])
            && (other != id && Known(w, other) ==>
                  && Known(w', other)
                  && The(w', other) == The(w, other).(
                       zombie := The(w, other).zombie
                                 || (!e.zombie && !Spared(scripts(e.func, |w.log|), The(w, other)))))
  {
    var e := The(w, id);
    var w1 := if e.zombie then w else Call(w, e, scripts);
    WakeupInv(w, id, scripts);
    if !e.zombie {
      ScriptKeeps(w.(log := w.log + [id]), scripts(e.func, |w.log|), id);
      if Known(w, other) {
        ScriptKeeps(w.(log := w.log + [id]), scripts(e.func, |w.log|), other);
      }
    }
    GoneExactly(w1, id, other);
    hide Inv, Spared, Without;
  }

  lemma NotFound(w: World, id: nat)
    requires Apart(w)
    ensures !Known(w.(list := Without(w.list, id)), id)
  {
    WithoutFewer(w.list, id);
  }

  // Places behind the one that is left out move up.
  lemma FoundWithout(list: seq<Ev>, at: nat, i: nat)
    requires (forall j, k :: 0 <= j < k < |list| ==> list[j].id != list[k].id) && at < |list| && i < |list| && i != at
    ensures var part := list[..at] + list[at + 1..];
            var j := if i < at then i else i - 1;
            part[j] == list[i] && Find(part, list[i].id) == j
  {
    var part := list[..at] + list[at + 1..];
    var j := if i < at then i else i - 1;
    forall k, m | 0 <= k < m < |part| ensures part[k].id != part[m].id {
      assert part[k] == list[if k < at then k else k + 1] && part[m] == list[if m < at then m else m + 1];
    }
    FindAt(part, j);
  }

  lemma GoneExactly(w: World, id: nat, other: nat)
    requires Apart(w)
    ensures var w' := w.(list := Without(w.list, id));
            !Known(w', id) && (other != id && Known(w, other) ==> Known(w', other) && The(w', other) == The(w, other))
  {
    NotFound(w, id);
    if other != id && Known(w, other) {
      WithoutIs(w.list, id);
      if Known(w, id) {
        FoundWithout(w.list, Find(w.list, id), Find(w.list, other));
      }
    }
    hide Without, Find;
  }

  // ---------- over runs ----------

  // The calls of one step: the timer of a live event, or what the runner reaches.
  function CallsOf(w: World, step: Step, scripts: Scripts): seq<nat>
    requires Possible(w, step)
  {
    match step
    case Timer(id) => if The(w, id).zombie then [] else [id]
    case Runner(kind) => Calls(w, IdsOf(w.list, kind), scripts)
    case Outside(_) => []
    case Tick => []
  }

  lemma NextCalls(w: World, step: Step, scripts: Scripts)
    requires Inv(w) && Possible(w, step)
    ensures Next(w, step, scripts).log == w.log + CallsOf(w, step, scripts)
    ensures Inv(Next(w, step, scripts))
  {
    match step
    case Outside(op) => PerformInv(w, op);
    case Timer(id) => TimerExactly(w, id, scripts, id);
    case Runner(kind) =>
      RunnerLogs(w, IdsOf(w.list, kind), scripts);
      RunThroughInv(w, IdsOf(w.list, kind), scripts);
    case Tick =>
  }

  // Nothing in this step cancels the event or calls it.
  ghost predicate SparedBy(w: World, step: Step, scripts: Scripts, id: nat)
    requires Possible(w, step) && Known(w, id)
  {
    var e := The(w, id);
    match step
    case Outside(op) => !Hit(op, e)
    case Timer(other) => other != id && (The(w, other).zombie || Spared(scripts(The(w, other).func, |w.log|), e))
    case Runner(kind) => e.kind != kind && CallsSpare(w, Calls(w, IdsOf(w.list, kind), scripts), scripts, e)
    case Tick => true
  }

  // The n-th function that is called finds n more in the log than the first.
  ghost predicate CallsSpare(w: World, called: seq<nat>, scripts: Scripts, e: Ev) {
    forall n :: 0 <= n < |called| && Known(w, called[n]) ==>
                  Spared(scripts(The(w, called[n]).func, |w.log| + n), e)
  }

  // What the runner meets later was there before, with the same function.
  lemma LaterWas(w: World, ids: seq<nat>, scripts: Scripts, id: nat)
    requires Inv(w) && AllDiffer(ids) && AllKnown(w, ids)
    requires ids != [] && Known(w, ids[0]) && !The(w, ids[0]).zombie && id in ids[1..]
    ensures var w' := Ran(w, ids[0], scripts);
            Known(w, id) && Known(w', id) && The(w', id).func == The(w, id).func
  {
    var q :| 0 < q < |ids| && ids[q] == id;
    assert Known(w, ids[q]);
    RanKeeps(w, ids[0], scripts, id);
  }

  lemma CallsSpareLater(w: World, ids: seq<nat>, scripts: Scripts, id: nat)
    requires Inv(w) && AllDiffer(ids) && AllKnown(w, ids) && id !in ids && Known(w, id)
    requires ids != [] && Known(w, ids[0]) && !The(w, ids[0]).zombie
    requires CallsSpare(w, Calls(w, ids, scripts), scripts, The(w, id))
    ensures var w' := Ran(w, ids[0], scripts);
            && Inv(w') && AllKnown(w', ids[1..]) && Known(w', id) && The(w', id) == The(w, id)
            && CallsSpare(w', Calls(w', ids[1..], scripts), scripts, The(w, id))
  {
    hide Inv, Spared, The, Known, Ran, AllKnown, AllDiffer, InOrder, Calls;
    var w', e := Ran(w, ids[0], scripts), The(w, id);
    var called, more := Calls(w, ids, scripts), Calls(w', ids[1..], scripts);
    RunThroughFirst(w, ids, scripts);
    RanKeepsAll(w, ids, scripts);
    RanKeeps(w, ids[0], scripts, id);
    TailDiffers(ids);
    CalledOf(w', ids[1..], scripts);
    assert called[0] == ids[0];
    forall n | 0 <= n < |more| && Known(w', more[n])
      ensures Spared(scripts(The(w', more[n]).func, |w'.log| + n), e)
    {
      LaterWas(w, ids, scripts, more[n]);
      assert called[n + 1] == more[n];
    }
  }

  lemma CalledOf(w: World, ids: seq<nat>, scripts: Scripts)
    requires AllDiffer(ids)
    ensures forall n :: 0 <= n < |Calls(w, ids, scripts)| ==> Calls(w, ids, scripts)[n] in ids
  {
    CallsInOrder(w, ids, scripts);
  }

  lemma RunThroughFirst(w: World, ids: seq<nat>, scripts: Scripts)
    requires ids != [] && Known(w, ids[0])
    ensures RunThrough(w, ids, scripts)
         == RunThrough(if The(w, ids[0]).zombie then w else Ran(w, ids[0], scripts), ids[1..], scripts)
    ensures Calls(w, ids, scripts)
         == if The(w, ids[0]).zombie then Calls(w, ids[1..], scripts)
            else [ids[0]] + Calls(Ran(w, ids[0], scripts), ids[1..], scripts)
  {
  }

  lemma {:induction false} RunThroughSpares(w: World, ids: seq<nat>, scripts: Scripts, id: nat)
    requires Inv(w) && AllDiffer(ids) && AllKnown(w, ids) && id !in ids && Known(w, id)
    requires CallsSpare(w, Calls(w, ids, scripts), scripts, The(w, id))
    ensures Known(RunThrough(w, ids, scripts), id) && The(RunThrough(w, ids, scripts), id) == The(w, id)
    decreases |ids|
  {
    if ids != [] {
      assert Known(w, ids[0]);
      TailDiffers(ids);
      assert AllKnown(w, ids[1..]);
      RunThroughFirst(w, ids, scripts);
      if The(w, ids[0]).zombie {
        RunThroughSpares(w, ids[1..], scripts, id);
      } else {
        CallsSpareLater(w, ids, scripts, id);
        RunThroughSpares(Ran(w, ids[0], scripts), ids[1..], scripts, id);
      }
      hide Inv, Spared, The, Known, Ran, CallsSpare, RunThrough, Calls;
    }
  }

  lemma AllOfKind(w: World, kind: nat, id: nat)
    requires Inv(w)
    ensures AllDiffer(IdsOf(w.list, kind)) && AllKnown(w, IdsOf(w.list, kind))
    ensures Known(w, id) && The(w, id).kind != kind ==> id !in IdsOf(w.list, kind)
  {
    var ids := IdsOf(w.list, kind);
    IdsOfIs(w.list, kind);
    forall i | 0 <= i < |ids| ensures Known(w, ids[i]) {
      assert ids[i] in ids;
      var j: nat :| j < |w.list| && w.list[j].id == ids[i] && w.list[j].kind == kind;
      FindAt(w.list, j);
    }
    if Known(w, id) && id in ids {
      var j: nat :| j < |w.list| && w.list[j].id == id && w.list[j].kind == kind;
      FindAt(w.list, j);
    }
  }

  lemma NextSpares(w: World, step: Step, scripts: Scripts, id: nat)
    requires Inv(w) && Possible(w, step) && Known(w, id) && !The(w, id).zombie && SparedBy(w, step, scripts, id)
    ensures var w' := Next(w, step, scripts); Inv(w') && Known(w', id) && The(w', id) == The(w, id)
  {
    NextCalls(w, step, scripts);
    match step
    case Outside(op) => PerformKeeps(w, op, id);
    case Timer(other) => TimerExactly(w, other, scripts, id);
    case Runner(kind) =>
      AllOfKind(w, kind, id);
      RunThroughSpares(w, IdsOf(w.list, kind), scripts, id);
    case Tick =>
  }

  // No step of the run cancels the event or calls it.
  ghost predicate Untouched(w: World, steps: seq<Step>, scripts: Scripts, id: nat)
    requires Run(w, steps, scripts)
    decreases |steps|
  {
    steps == []
    || (&& Known(w, id) && SparedBy(w, steps[0], scripts, id)
        && Untouched(Next(w, steps[0], scripts), steps[1..], scripts, id))
  }

  lemma {:induction false} UntouchedStays(w: World, steps: seq<Step>, scripts: Scripts, id: nat)
    requires Inv(w) && Run(w, steps, scripts) && Known(w, id) && !The(w, id).zombie
    requires Untouched(w, steps, scripts, id)
    ensures var w' := After(w, steps, scripts); Inv(w') && Known(w', id) && The(w', id) == The(w, id)
    decreases |steps|
  {
    hide Inv, Known, The, SparedBy, Next;
    if steps != [] {
      NextSpares(w, steps[0], scripts, id);
      UntouchedStays(Next(w, steps[0], scripts), steps[1..], scripts, id);
    }
  }

  lemma {:induction false} LogGrows(w: World, steps: seq<Step>, scripts: Scripts)
    requires Inv(w) && Run(w, steps, scripts)
    ensures w.log <= After(w, steps, scripts).log && Inv(After(w, steps, scripts))
    decreases |steps|
  {
    hide Inv, Next, CallsOf;
    if steps != [] {
      NextCalls(w, steps[0], scripts);
      LogGrows(Next(w, steps[0], scripts), steps[1..], scripts);
    }
  }

  // Over every run: an event that is added live, that nothing cancels and no runner
  // calls, and whose timer goes off, is called then, and is in the log exactly once for
  // ever after.
  lemma LiveEventIsCalled(before: seq<Step>, op: Op, meanwhile: seq<Step>, after: seq<Step>, scripts: Scripts)
    requires op.Add? && !op.zombie
    requires Run(START, before, scripts)
    requires var w := Perform(After(START, before, scripts), op);
             var id := After(START, before, scripts).serial;
             && Run(w, meanwhile, scripts) && Untouched(w, meanwhile, scripts, id)
             && var w' := After(w, meanwhile, scripts);
             Known(w', id) ==> Run(Wakeup(w', id, scripts), after, scripts)
    ensures var id := After(START, before, scripts).serial;
            var w := After(Perform(After(START, before, scripts), op), meanwhile, scripts);
            && Known(w, id) && id !in w.log
            && Wakeup(w, id, scripts).log == w.log + [id]
            && OnceIn(After(Wakeup(w, id, scripts), after, scripts).log, id)
  {
    hide Perform, Wakeup, Inv, Known, The;
    var start := After(START, before, scripts);
    var id := start.serial;
    Starting();
    LogGrows(START, before, scripts);
    AddedExactly(start, op.time, op.zombie, op.kind, op.func, op.data, op.data2, id);
    UntouchedStays(Perform(start, op), meanwhile, scripts, id);
    var w := After(Perform(start, op), meanwhile, scripts);
    LiveIsNew(w, id);
    TimerExactly(w, id, scripts, id);
    var w' := Wakeup(w, id, scripts);
    LogGrows(w', after, scripts);
    assert w'.log[|w.log|] == id;
    CalledOnce(After(w', after, scripts), |w.log|);
  }

  lemma Starting()
    ensures Inv(START)
  {
  }

  lemma LiveIsNew(w: World, id: nat)
    requires Inv(w) && Known(w, id) && !The(w, id).zombie
    ensures id !in w.log
  {
  }

  ghost predicate OnceIn(log: seq<nat>, id: nat) {
    exists i :: 0 <= i < |log| && log[i] == id && forall j :: 0 <= j < |log| && j != i ==> log[j] != id
  }

  lemma CalledOnce(w: World, i: nat)
    requires Inv(w) && i < |w.log|
    ensures OnceIn(w.log, w.log[i])
  {
    assert forall j :: 0 <= j < |w.log| && j != i ==> w.log[j] != w.log[i];
  }
}
