// No command is lost, doubled or handed to another object: what is queued for
// an object changes only by what is asked for, served, halted or drained.
module CommandQueueConservation {
  import opened CommandQueueSpec
  import opened CommandQueueInvariant

  // What a queued command will do, apart from when.
  datatype Job = Job(player: int, cause: int, comm: string)

  function JobOf(e: Entry): Job {
    Job(e.player, e.cause, e.comm)
  }

  // How often the job occurs in the queue.
  function Times(q: seq<Entry>, j: Job): nat {
    if q == [] then 0
    else (if JobOf(q[0]) == j then 1 else 0) + Times(q[1..], j)
  }

  // How often the job is queued anywhere.
  function Load(s: State, j: Job): nat {
    Times(Pending(s.ready, j.player), j) + Times(s.wait, j) + Times(s.sem, j)
  }

  function Requested(a: Action, j: Job): nat {
    if (a.TimedWait? || a.SemWait?) && a.admission == Admitted && Job(a.player, a.cause, a.comm) == j then 1
    else 0
  }

  function DroppedByHalt(s: State, player: int, obj: int, j: Job): nat {
    (if j.player == player || j.player == obj then Times(Pending(s.ready, j.player), j) else 0)
    + Times(Taken(Halted(s.owner, player, obj), s.wait, |s.wait|), j)
    + Times(Taken(Halted(s.owner, player, obj), s.sem, |s.sem|), j)
  }

  function Dropped(w: World, s: State, a: Action, j: Job): nat
    requires Allowed(w, a)
  {
    match a
    case TimedWait(player, _, _, _, RanAway) => DroppedByHalt(s, OwnerOf(s.owner, player), NOTHING, j)
    case SemWait(player, _, _, _, _, _, RanAway) => DroppedByHalt(s, OwnerOf(s.owner, player), NOTHING, j)
    case Halt(player, obj) => DroppedByHalt(s, player, obj, j)
    case Destroy(obj) =>
      var sem := HaltQue(w, s, NOTHING, obj).sem;
      DroppedByHalt(s, NOTHING, obj, j) + Times(Taken(Waiting(obj, 0), sem, |sem|), j)
    case Notify(thing, attr, key, count) =>
      if key == Drain then Times(Taken(Waiting(thing, attr), s.sem, NotifyLimit(s, thing, attr, key, count)), j)
      else 0
    case _ => 0
  }

  lemma {:induction false} TimesConcat(p: seq<Entry>, q: seq<Entry>, j: Job)
    ensures Times(p + q, j) == Times(p, j) + Times(q, j)
  {
    if p == [] {
      assert p + q == q;
    } else {
      TimesConcat(p[1..], q, j);
      assert (p + q)[1..] == p[1..] + q;
    }
  }

  lemma {:induction false} TimesSplit(want: Want, q: seq<Entry>, n: nat, j: Job)
    ensures Times(q, j) == Times(Taken(want, q, n), j) + Times(Kept(want, q, n), j)
  {
    if q != [] && n != 0 {
      if Wants(want, q[0]) {
        TimesSplit(want, q[1..], n - 1, j);
      } else {
        TimesSplit(want, q[1..], n, j);
      }
    }
  }

  lemma {:induction false} TimesInserted(q: seq<Entry>, e: Entry, j: Job)
    ensures Times(InsertByTime(q, e), j) == Times(q, j) + Times([e], j)
  {
    if q == [] || e.waittime < q[0].waittime {
      TimesConcat([e], q, j);
    } else {
      TimesInserted(q[1..], e, j);
      assert InsertByTime(q, e)[1..] == InsertByTime(q[1..], e);
    }
  }

  lemma {:induction false} TimesAdvanced(q: seq<Entry>, seconds: int, j: Job)
    ensures Times(AdvanceAll(q, seconds), j) == Times(q, j)
  {
    if q != [] {
      TimesAdvanced(q[1..], seconds, j);
      assert AdvanceAll(q, seconds)[1..] == AdvanceAll(q[1..], seconds);
    }
  }

  lemma EnterAdds(r: Ready, e: Entry, j: Job)
    ensures Times(Pending(Enter(r, e), j.player), j) == Times(Pending(r, j.player), j) + Times([e], j)
  {
    TimesConcat(Pending(r, j.player), [e], j);
  }

  lemma {:induction false} PromotionAdds(r: Ready, es: seq<Entry>, j: Job)
    ensures Times(Pending(PromoteAll(r, es), j.player), j) == Times(Pending(r, j.player), j) + Times(es, j)
  {
    if es != [] {
      var front, e := es[..|es| - 1], es[|es| - 1];
      PromotionAdds(r, front, j);
      EnterAdds(PromoteAll(r, front), Runnable(e), j);
      hide Enter, Pending;
      assert Times([Runnable(e)], j) == Times([e], j);
      TimesConcat(front, [e], j);
      assert es == front + [e];
    }
  }

  lemma EnqueueAdds(s: State, e: Entry, j: Job)
    ensures Load(Enqueue(s, e), j) == Load(s, j) + Times([e], j)
  {
    if e.sem == NOTHING && e.waittime <= s.now {
      EnterAdds(s.ready, e.(waittime := 0), j);
      assert Times([e.(waittime := 0)], j) == Times([e], j);
    } else if e.sem == NOTHING {
      TimesInserted(s.wait, e, j);
    } else {
      TimesConcat(s.sem, [e], j);
    }
  }

  lemma SecondConserves(s: State, j: Job)
    ensures Load(DoSecond(s), j) == Load(s, j)
  {
    TimesSplit(Expired(s.now), s.sem, |s.sem|, j);
    PromotionAdds(s.ready, Taken(Expired(s.now), s.sem, |s.sem|), j);
  }

  lemma WakeConserves(s: State, i: nat, j: Job)
    requires i < |s.wait|
    ensures Load(DoWake(s, i), j) == Load(s, j)
  {
    var before, e, after := s.wait[..i], s.wait[i], s.wait[i + 1..];
    assert s.wait == before + ([e] + after);
    TimesConcat(before, [e] + after, j);
    TimesConcat([e], after, j);
    TimesConcat(before, after, j);
    EnterAdds(s.ready, Runnable(e), j);
    assert Times([Runnable(e)], j) == Times([e], j);
  }

  lemma NotifyConserves(w: World, s: State, a: Action, j: Job)
    requires a.Notify? && Allowed(w, a)
    ensures Load(Perform(w, s, a), j) + Dropped(w, s, a, j) == Load(s, j)
  {
    var n := NotifyLimit(s, a.thing, a.attr, a.key, a.count);
    TimesSplit(Waiting(a.thing, a.attr), s.sem, n, j);
    PromotionAdds(s.ready, Taken(Waiting(a.thing, a.attr), s.sem, n), j);
  }

  lemma FlushedTwice(w: World, r: Ready, player: int, obj: int, o: int)
    ensures Pending(Flush(w, Flush(w, r, player), obj), o) == if o == player || o == obj then [] else Pending(r, o)
  {
  }

  lemma HaltConserves(w: World, s: State, player: int, obj: int, j: Job)
    ensures Load(HaltQue(w, s, player, obj), j) + DroppedByHalt(s, player, obj, j) == Load(s, j)
  {
    hide Flush;
    FlushedTwice(w, s.ready, player, obj, j.player);
    TimesSplit(Halted(s.owner, player, obj), s.wait, |s.wait|, j);
    TimesSplit(Halted(s.owner, player, obj), s.sem, |s.sem|, j);
  }

  // The waiting commands that a halt leaves: those of other owners and, when an
  // object is named, those of other objects.
  function Left(owner: Owners, player: int, obj: int, q: seq<Entry>): seq<Entry> {
    if q == [] then []
    else
      var rest := Left(owner, player, obj, q[1..]);
      if player != NOTHING && OwnerOf(owner, q[0].player) != player then [q[0]] + rest
      else if obj != NOTHING && q[0].player != obj then [q[0]] + rest
      else rest
  }

  lemma {:induction false} KeptAreLeft(owner: Owners, player: int, obj: int, q: seq<Entry>, n: nat)
    requires |q| <= n
    ensures Kept(Halted(owner, player, obj), q, n) == Left(owner, player, obj, q)
  {
    if q != [] {
      if Wants(Halted(owner, player, obj), q[0]) {
        KeptAreLeft(owner, player, obj, q[1..], n - 1);
      } else {
        KeptAreLeft(owner, player, obj, q[1..], n);
      }
    }
  }

  // Exactly these commands survive a halt. Two run lists are emptied, of the player
  // and of the object, whoever owns what; of the commands that wait those go whose
  // owner and whose object both match.
  lemma HaltSurvivors(w: World, s: State, player: int, obj: int, o: int)
    ensures var t := HaltQue(w, s, player, obj);
            && Pending(t.ready, o) == (if o == player || o == obj then [] else Pending(s.ready, o))
            && t.wait == Left(s.owner, player, obj, s.wait)
            && t.sem == Left(s.owner, player, obj, s.sem)
  {
    FlushedTwice(w, s.ready, player, obj, o);
    KeptAreLeft(s.owner, player, obj, s.wait, |s.wait|);
    KeptAreLeft(s.owner, player, obj, s.sem, |s.sem|);
  }

  // Halting a player stops every command of his objects that waits, and none that
  // is ready to run.
  lemma OwnedRunOn(w: World, s: State, player: int, o: int)
    requires player != NOTHING && o != NOTHING && o != player
    ensures var t := HaltQue(w, s, player, NOTHING);
            && Pending(t.ready, o) == Pending(s.ready, o)
            && forall e :: e in t.wait || e in t.sem ==> OwnerOf(s.owner, e.player) != player
  {
    HaltSurvivors(w, s, player, NOTHING, o);
    KeptAllUnwanted(Halted(s.owner, player, NOTHING), s.wait);
    KeptAllUnwanted(Halted(s.owner, player, NOTHING), s.sem);
  }

  // Halting one object of a player stops every command of the player himself that
  // is ready to run, and none that waits.
  lemma OwnerStopsWithObject(w: World, s: State, player: int, obj: int, e: Entry)
    requires player != obj && obj != NOTHING && e.player == player
    ensures var t := HaltQue(w, s, player, obj);
            && Pending(t.ready, player) == []
            && (e in t.wait <==> e in s.wait) && (e in t.sem <==> e in s.sem)
  {
    HaltSurvivors(w, s, player, obj, player);
    StillThere(s.owner, player, obj, s.wait, e);
    StillThere(s.owner, player, obj, s.sem, e);
  }

  lemma {:induction false} StillThere(owner: Owners, player: int, obj: int, q: seq<Entry>, e: Entry)
    requires obj != NOTHING && e.player != obj
    ensures e in Left(owner, player, obj, q) <==> e in q
  {
    if q != [] {
      StillThere(owner, player, obj, q[1..], e);
    }
  }

  // What a wait asks for is queued when it is admitted; when its owner ran away,
  // what was halted is gone.
  lemma WaitQueConserves(w: World, s: State, player: int, cause: int, howlong: int, sem: int, attr: int,
                         comm: string, admission: Admission, j: Job)
    ensures Load(WaitQue(w, s, player, cause, howlong, sem, attr, comm, admission), j)
            + (if admission == RanAway then DroppedByHalt(s, OwnerOf(s.owner, player), NOTHING, j) else 0)
         == Load(s, j) + (if admission == Admitted && Job(player, cause, comm) == j then 1 else 0)
  {
    hide Load, DroppedByHalt;
    match admission
    case Admitted =>
      EnqueueAdds(s, Entry(player, cause, sem, if howlong > 0 then s.now + howlong else 0, attr, comm), j);
    case Refused =>
    case RanAway => HaltConserves(w, s, OwnerOf(s.owner, player), NOTHING, j);
  }

  lemma SemWaitConserves(w: World, s: State, a: Action, j: Job)
    requires a.SemWait? && Allowed(w, a)
    ensures Load(Perform(w, s, a), j) + Dropped(w, s, a, j) == Load(s, j) + Requested(a, j)
  {
    hide WaitQue;
    var s1 := s.(count := AddTo(s.count, a.thing, 1, a.attr));
    WaitQueConserves(w, s1, a.player, a.cause, 0, NOTHING, a.attr, a.comm, a.admission, j);
    WaitQueConserves(w, s1, a.player, a.cause, a.howlong, a.thing, a.attr, a.comm, a.admission, j);
  }

  lemma DestroyConserves(w: World, s: State, obj: int, j: Job)
    requires Good(w, obj)
    ensures Load(DestroyObj(w, s, obj), j) + Dropped(w, s, Destroy(obj), j) == Load(s, j)
  {
    var halted := HaltQue(w, s, NOTHING, obj);
    HaltConserves(w, s, NOTHING, obj, j);
    TimesSplit(Waiting(obj, 0), halted.sem, |halted.sem|, j);
    hide HaltQue, DroppedByHalt;
  }

  lemma PerformConserves(w: World, s: State, a: Action, j: Job)
    requires Allowed(w, a)
    ensures Load(Perform(w, s, a), j) + Dropped(w, s, a, j) == Load(s, j) + Requested(a, j)
  {
    match a
    case TimedWait(player, cause, howlong, comm, admission) =>
      hide WaitQue, Load, DroppedByHalt;
      WaitQueConserves(w, s, player, cause, howlong, NOTHING, 0, comm, admission, j);
    case SemWait(_, _, _, _, _, _, _) =>
      hide Perform, Load;
      SemWaitConserves(w, s, a, j);
    case Notify(_, _, _, _) =>
      hide Perform, Load, Dropped;
      NotifyConserves(w, s, a, j);
    case Halt(player, obj) =>
      hide Load, DroppedByHalt;
      HaltConserves(w, s, player, obj, j);
    case Warp(seconds) =>
      TimesAdvanced(s.sem, seconds, j);
      SecondConserves(s.(sem := AdvanceAll(s.sem, seconds), dequeue := true), j);
    case Own(_, _) =>
    case Destroy(obj) => DestroyConserves(w, s, obj, j);
  }

  function RequestedAll(script: seq<Action>, j: Job): nat {
    if script == [] then 0
    else RequestedAll(script[..|script| - 1], j) + Requested(script[|script| - 1], j)
  }

  predicate Discards(a: Action) {
    a.Halt? || a.Destroy? || (a.Notify? && a.key == Drain) || ((a.TimedWait? || a.SemWait?) && a.admission == RanAway)
  }

  lemma {:induction false} PerformAllConserves(w: World, s: State, script: seq<Action>, j: Job)
    requires forall a :: a in script ==> Allowed(w, a) && !Discards(a)
    ensures Load(PerformAll(w, s, script), j) == Load(s, j) + RequestedAll(script, j)
  {
    if script != [] {
      PerformAllConserves(w, s, script[..|script| - 1], j);
      PerformConserves(w, PerformAll(w, s, script[..|script| - 1]), script[|script| - 1], j);
    }
  }

  // All that the commands served as numbers n, n + 1, ... ask for.
  function AskedBy(exec: nat -> seq<Action>, n: nat, served: nat, j: Job): nat
    decreases served
  {
    if served == 0 then 0 else RequestedAll(exec(n), j) + AskedBy(exec, n + 1, served - 1, j)
  }

  ghost predicate KeepingScripts(exec: nat -> seq<Action>) {
    forall n: nat, a :: a in exec(n) ==> !Discards(a)
  }

  // Served and still queued together make up what was queued at the start and
  // what the served commands asked for, object by object.
  lemma {:induction false} ServeConserves(w: World, s: State, ncmds: int, exec: nat -> seq<Action>, n: nat, j: Job)
    requires AllowedScripts(w, exec) && KeepingScripts(exec)
    requires Shape(w, s)
    ensures var out := Serve(w, s, ncmds, exec, n);
            Times(out.served, j) + Load(out.state, j) == Load(s, j) + AskedBy(exec, n, |out.served|, j)
    decreases ncmds - n, |s.ready.ring|
  {
    hide Shape, Load, Perform, PerformAll;
    if n < ncmds && s.ready.ring != [] {
      var s' := s.(ready := Turn(s.ready));
      TurnKeeps(w, s);
      TurnTakesFirst(w, s, j);
      var q := Pending(s.ready, s.ready.ring[0]);
      if q == [] {
        ServeConserves(w, s', ncmds, exec, n, j);
      } else {
        var s'' := PerformAll(w, s', exec(n));
        PerformAllKeeps(w, s', exec(n));
        PerformAllConserves(w, s', exec(n), j);
        ServeConserves(w, s'', ncmds, exec, n + 1, j);
        TimesConcat([q[0]], Serve(w, s'', ncmds, exec, n + 1).served, j);
      }
    }
  }

  lemma TurnTakesFirst(w: World, s: State, j: Job)
    requires Shape(w, s) && s.ready.ring != []
    ensures var q := Pending(s.ready, s.ready.ring[0]);
            Load(s, j) == Times(if q == [] then [] else [q[0]], j) + Load(s.(ready := Turn(s.ready)), j)
  {
    var front := s.ready.ring[0];
    var q := Pending(s.ready, front);
    if q != [] {
      assert q[0].player == front;
      assert q == [q[0]] + q[1..];
      TimesConcat([q[0]], q[1..], j);
    }
  }
}
