// The command scheduler itself: the queues together, the semaphore counters,
// and the operations of the server on them.
module Scheduler {
  import opened CommandQueueSpec
  import opened CommandQueueInvariant
  import opened CommandQueue

  // Serving from s0 is serving these and going on from s.
  ghost predicate SoFar(w: World, s0: State, ncmds: int, exec: nat -> seq<Action>, s: State, served: seq<Entry>)
    requires AllowedScripts(w, exec)
  {
    var rest := Serve(w, s, ncmds, exec, |served|);
    Serve(w, s0, ncmds, exec, 0) == Outcome(rest.state, served + rest.served)
  }

  lemma SoFarStarts(w: World, s: State, ncmds: int, exec: nat -> seq<Action>)
    requires AllowedScripts(w, exec)
    ensures SoFar(w, s, ncmds, exec, s, [])
  {
    assert [] + Serve(w, s, ncmds, exec, 0).served == Serve(w, s, ncmds, exec, 0).served;
  }

  lemma SoFarSteps(w: World, s0: State, ncmds: int, exec: nat -> seq<Action>, s: State, s': State,
                   served: seq<Entry>, one: seq<Entry>)
    requires AllowedScripts(w, exec) && SoFar(w, s0, ncmds, exec, s, served)
    requires var rest := Serve(w, s', ncmds, exec, |served| + |one|);
             Serve(w, s, ncmds, exec, |served|) == Outcome(rest.state, one + rest.served)
    ensures SoFar(w, s0, ncmds, exec, s', served + one)
  {
    hide Serve;
    var rest := Serve(w, s', ncmds, exec, |served| + |one|);
    assert served + (one + rest.served) == (served + one) + rest.served;
  }

  lemma SoFarStops(w: World, s0: State, ncmds: int, exec: nat -> seq<Action>, s: State, served: seq<Entry>)
    requires AllowedScripts(w, exec) && SoFar(w, s0, ncmds, exec, s, served)
    requires |served| >= ncmds || s.ready.ring == []
    ensures Serve(w, s0, ncmds, exec, 0) == Outcome(s, served)
  {
  }

  class Scheduler {
    const w: World
    const ready: ReadyQueue
    const sem: SemQueue
    const wait: WaitQueue
    var now: int
    var dequeue: bool
    var owner: Owners
    var count: Counters
    ghost var Repr: set<object>

    ghost function Abs(): State
      reads this, ready, sem, wait
    {
      State(now, dequeue, owner, ready.Abs(), wait.cmds, sem.cmds, count)
    }

    // No node is in two lists.
    ghost predicate Apart()
      reads this, ready, sem, wait
    {
      && (forall i :: 0 <= i < |sem.nodes| ==> sem.nodes[i] !in ready.cells)
      && (forall i :: 0 <= i < |wait.nodes| ==> wait.nodes[i] !in ready.cells)
      && (forall i, j :: 0 <= i < |sem.nodes| && 0 <= j < |wait.nodes| ==> sem.nodes[i] != wait.nodes[j])
    }

    ghost predicate Owns()
      reads this, ready, sem, wait
    {
      && (forall q :: q in ready.objs ==> q in Repr)
      && (forall n :: n in ready.cells ==> n in Repr)
      && (forall i :: 0 <= i < |sem.nodes| ==> sem.nodes[i] in Repr)
      && (forall i :: 0 <= i < |wait.nodes| ==> wait.nodes[i] in Repr)
    }

    ghost predicate Valid()
      reads this, Repr
    {
      && this in Repr && ready in Repr && sem in Repr && wait in Repr
      && Owns() && Apart() && ready.w == w
      && ready.Valid() && sem.Valid() && wait.Valid()
    }

    constructor (w: World, now: int, owner: Owners)
      ensures Valid() && fresh(Repr) && this.w == w
      ensures Abs() == State(now, true, owner, Ready(map[], []), [], [], map[])
    {
      hide ReadyQueue.Valid, SemQueue.Valid, WaitQueue.Valid;
      this.w, this.now, dequeue, this.owner, count := w, now, true, owner, map[];
      ready := new ReadyQueue(w);
      sem := new SemQueue();
      wait := new WaitQueue();
      new;
      Repr := {this, ready, sem, wait};
    }

    // Everything new in the footprint was allocated on the way.
    twostate predicate ReprGrows()
      reads this
    {
      forall o :: o in Repr ==> o in old(Repr) || fresh(o)
    }

    // A command that is in no list.
    ghost predicate Loose(cmd: Bque)
      reads this, ready, sem, wait, cmd
    {
      cmd in Repr && cmd.home == null && !cmd.armed && cmd !in ready.cells && cmd !in sem.nodes && cmd !in wait.nodes
    }

    method NewCommand(player: int, cause: int, comm: string) returns (cmd: Bque)
      requires Valid()
      modifies Repr
      ensures Valid() && fresh(cmd) && Repr == old(Repr) + {cmd} && Loose(cmd) && Abs() == old(Abs())
      ensures cmd.Val() == Entry(player, cause, NOTHING, 0, 0, comm)
    {
      hide ReadyQueue.Valid, SemQueue.Valid, WaitQueue.Valid;
      cmd := new Bque(player, cause, comm);
      Repr := Repr + {cmd};
    }

    // Its fields may change while it is in no list.
    method SetFields(cmd: Bque, sem: int, waittime: int, attr: int)
      requires Valid() && Loose(cmd)
      modifies Repr
      ensures Valid() && Repr == old(Repr) && Loose(cmd) && Abs() == old(Abs()) && this.sem.nodes == old(this.sem.nodes)
      ensures cmd.Val() == old(cmd.Val()).(sem := sem, waittime := waittime, attr := attr)
    {
      hide ReadyQueue.Valid, SemQueue.Valid, WaitQueue.Valid;
      cmd.sem, cmd.waittime, cmd.attr := sem, waittime, attr;
    }

    method Detach(ghost i: nat, trail: Bque?, point: Bque) returns (next: Bque?)
      requires Valid() && At(sem.nodes, i, trail, point)
      modifies Repr
      ensures Valid() && Repr == old(Repr) && Loose(point) && i < |old(Abs()).sem| && At(sem.nodes, i, trail, next)
      ensures Abs() == old(Abs()).(sem := Without(old(Abs()).sem, i)) && point.Val() == old(Abs()).sem[i]
    {
      hide ReadyQueue.Valid, SemQueue.Valid, WaitQueue.Valid;
      next := sem.Unlink(i, trail, point);
    }

    method EnterRun(cmd: Bque)
      requires Valid() && Loose(cmd) && Good(w, cmd.player)
      modifies Repr
      ensures Valid() && ReprGrows()
      ensures Abs() == old(Abs()).(ready := Enter(old(Abs().ready), old(cmd.Val()).(waittime := 0)))
      ensures sem.nodes == old(sem.nodes)
    {
      hide ReadyQueue.Valid, SemQueue.Valid, WaitQueue.Valid;
      ready.Append(cmd);
      Repr := Repr + ready.objs;
    }

    method EnterWait(cmd: Bque)
      requires Valid() && Loose(cmd)
      modifies Repr
      ensures Valid() && ReprGrows()
      ensures Abs() == old(Abs()).(wait := InsertByTime(old(Abs()).wait, old(cmd.Val())))
    {
      hide ReadyQueue.Valid, SemQueue.Valid, WaitQueue.Valid;
      wait.Insert(cmd);
    }

    method EnterSem(cmd: Bque)
      requires Valid() && Loose(cmd)
      modifies Repr
      ensures Valid() && ReprGrows()
      ensures Abs() == old(Abs()).(sem := old(Abs()).sem + [old(cmd.Val())])
    {
      hide ReadyQueue.Valid, SemQueue.Valid, WaitQueue.Valid;
      sem.Append(cmd);
    }

    method CqueEnqueue(cmd: Bque)
      requires Valid() && Loose(cmd) && Good(w, cmd.player)
      modifies Repr
      ensures Valid() && ReprGrows()
      ensures Abs() == Enqueue(old(Abs()), old(cmd.Val()))
      ensures old(cmd.sem == NOTHING && cmd.waittime <= now) ==> sem.nodes == old(sem.nodes)
    {
      hide Valid, Loose;
      if cmd.sem == NOTHING {
        if cmd.waittime <= now {
          EnterRun(cmd);
        } else {
          EnterWait(cmd);
        }
      } else {
        EnterSem(cmd);
      }
    }

    // Takes `point` off the semaphore queue; `run` says whether it goes on to its run list.
    method TakeOut(ghost i: nat, trail: Bque?, point: Bque, run: bool) returns (next: Bque?)
      requires Valid() && At(sem.nodes, i, trail, point) && Good(w, point.player) && 0 <= now
      modifies Repr
      ensures Valid() && ReprGrows() && i < |old(Abs()).sem| && At(sem.nodes, i, trail, next)
      ensures Abs() == TakenAt(run, false, old(Abs()), i)
    {
      hide Valid, Loose;
      next := Detach(i, trail, point);
      if run {
        SetFields(point, NOTHING, 0, point.attr);
        CqueEnqueue(point);
      }
    }

    // What a node on the semaphore queue stands for.
    lemma Seen(i: nat, trail: Bque?, point: Bque?)
      requires Valid() && At(sem.nodes, i, trail, point)
      ensures i <= |Abs().sem| && (point == null <==> i == |Abs().sem|)
      ensures point != null ==> point.Val() == Abs().sem[i]
    {
    }

    method Take(run: bool, release: bool, trail: Bque?, point: Bque, ghost want: Want, ghost s0: State,
                ghost limit: nat, ghost i: nat, ghost taken: seq<Entry>)
        returns (next: Bque?)
      requires Valid() && 0 <= now && At(sem.nodes, i, trail, point) && |taken| < limit
      requires InScan(w, want, run, release, s0, Abs(), limit, i, taken) && Wants(want, point.Val())
      modifies Repr
      ensures Valid() && ReprGrows() && now == old(now)
      ensures InScan(w, want, run, release, s0, Abs(), limit, i, taken + [old(point.Val())])
      ensures At(sem.nodes, i, trail, next) && |Abs().sem| == |old(Abs()).sem| - 1
    {
      assert this in Repr;
      Seen(i, trail, point);
      InScanTakes(w, want, run, release, s0, Abs(), limit, i, taken);
      hide Valid, InScan, AllGood, Wants, Promote;
      if release {
        var _ := AddTo(point.sem, -1, point.attr);
      }
      next := TakeOut(i, trail, point, run);
    }

    // One node of a scan of the semaphore queue: it is taken out when it is
    // wanted and passed otherwise.
    method Visit(wanted: bool, run: bool, release: bool, trail: Bque?, point: Bque, ghost want: Want, ghost s0: State,
                 ghost limit: nat, ghost i: nat, ghost taken: seq<Entry>)
        returns (trail': Bque?, next: Bque?, ghost i': nat, ghost taken': seq<Entry>)
      requires Valid() && 0 <= now && At(sem.nodes, i, trail, point) && |taken| < limit
      requires InScan(w, want, run, release, s0, Abs(), limit, i, taken) && wanted == Wants(want, point.Val())
      modifies Repr
      ensures Valid() && ReprGrows() && now == old(now)
      ensures InScan(w, want, run, release, s0, Abs(), limit, i', taken') && At(sem.nodes, i', trail', next)
      ensures |taken'| == |taken| + (if wanted then 1 else 0) && |Abs().sem| - i' < |old(Abs()).sem| - i
    {
      Seen(i, trail, point);
      hide Valid, InScan, AllGood, Wants, Promote, Enqueue;
      if wanted {
        taken', i', trail' := taken + [point.Val()], i, trail;
        next := Take(run, release, trail, point, want, s0, limit, i, taken);
      } else {
        InScanSkips(w, want, run, release, s0, Abs(), limit, i, taken);
        taken', i', trail' := taken, i + 1, point;
        next := StepOver(i, trail, point);
      }
    }

    method AddTo(thing: int, am: int, attr: int) returns (num: int)
      requires Valid()
      modifies `count
      ensures Valid() && Abs() == old(Abs()).(count := CommandQueueSpec.AddTo(old(count), thing, am, attr))
      ensures num == Count(old(count), thing, attr) + am
    {
      hide ReadyQueue.Valid, SemQueue.Valid, WaitQueue.Valid;
      num := Count(count, thing, attr) + am;
      if num != 0 {
        count := count[(thing, attr) := num];
      } else {
        count := count - {(thing, attr)};
      }
    }

    method NotifyLoop(thing: int, attr: int, key: Key, count: int, ghost limit: nat) returns (n: nat)
      requires Valid() && 0 <= now && AllGood(w, Abs().sem)
      requires if key == NotifyFirst then 0 < count == limit else limit == |Abs().sem|
      modifies Repr
      ensures Valid() && ReprGrows()
      ensures n == |Taken(Waiting(thing, attr), old(Abs()).sem, limit)|
      ensures Abs() == old(Abs()).(
                sem := Kept(Waiting(thing, attr), old(Abs()).sem, limit),
                ready := if key == Drain then old(Abs()).ready
                         else PromoteAll(old(Abs()).ready, Taken(Waiting(thing, attr), old(Abs()).sem, limit)))
    {
      hide Valid, InScan, AllGood, Kept, Taken;
      ghost var want := Waiting(thing, attr);
      ghost var i, taken := 0, [];
      var point, trail: Bque? := sem.first, null;
      n := 0;
      InScanStarts(w, want, key != Drain, false, Abs(), limit);
      Start();
      while point != null && !(key == NotifyFirst && n >= count)
        invariant Valid() && ReprGrows() && 0 <= now
        invariant InScan(w, want, key != Drain, false, old(Abs()), Abs(), limit, i, taken)
        invariant n == |taken| <= limit && At(sem.nodes, i, trail, point)
        decreases |Abs().sem| - i
      {
        InScanSize(w, want, key != Drain, false, old(Abs()), Abs(), limit, i, taken);
        Seen(i, trail, point);
        var wanted := point.sem == thing && (point.attr == attr || attr == 0);
        trail, point, i, taken := Visit(wanted, key != Drain, false, trail, point, want, old(Abs()), limit, i, taken);
        if wanted {
          n := n + 1;
        }
      }
      Seen(i, trail, point);
      InScanEnds(w, want, key != Drain, false, old(Abs()), Abs(), limit, i, taken);
    }

    method StepOver(ghost i: nat, trail: Bque?, point: Bque) returns (next: Bque?)
      requires Valid() && At(sem.nodes, i, trail, point)
      ensures At(sem.nodes, i + 1, point, next)
    {
      next := sem.Advance(i, trail, point);
    }

    lemma Start()
      requires Valid()
      ensures At(sem.nodes, 0, null, sem.first)
    {
    }

    method ClearCount(thing: int, attr: int)
      requires Valid()
      modifies `count
      ensures Valid() && Abs() == old(Abs()).(count := old(count) - {(thing, attr)})
    {
      hide ReadyQueue.Valid, SemQueue.Valid, WaitQueue.Valid;
      count := count - {(thing, attr)};
    }

    method NotifyWaiters(thing: int, attr: int, key: Key, limit: int) returns (num: nat)
      requires Valid() && 0 <= now && AllGood(w, Abs().sem) && (key == NotifyFirst ==> limit > 0)
      modifies Repr
      ensures Valid() && ReprGrows()
      ensures var n := NotifyLimit(old(Abs()), thing, attr, key, limit);
              var taken := Taken(Waiting(thing, attr), old(Abs()).sem, n);
              num == |taken| &&
              Abs() == old(Abs()).(
                sem := Kept(Waiting(thing, attr), old(Abs()).sem, n),
                ready := if key == Drain then old(Abs()).ready else PromoteAll(old(Abs()).ready, taken))
    {
      hide Valid, AllGood, Promote, Wants;
      var waiting := if attr != 0 then Count(count, thing, attr) else 1;
      if waiting > 0 {
        num := NotifyLoop(thing, attr, key, limit, NotifyLimit(Abs(), thing, attr, key, limit));
      } else {
        num := 0;
      }
    }

    method LowerCount(thing: int, attr: int, key: Key, limit: int)
      requires Valid()
      modifies `count
      ensures Valid()
      ensures Abs() == old(Abs()).(
                count := if key == NotifyFirst then CommandQueueSpec.AddTo(old(count), thing, -limit, attr)
                         else old(count) - {(thing, attr)})
    {
      hide Valid;
      if key == NotifyFirst {
        var _ := AddTo(thing, -limit, attr);
      } else {
        ClearCount(thing, attr);
      }
    }

    method NfyQue(thing: int, attr: int, key: Key, limit: int) returns (num: nat)
      requires Valid() && 0 <= now && AllGood(w, Abs().sem) && (key == NotifyFirst ==> limit > 0)
      modifies Repr
      ensures Valid() && ReprGrows()
      ensures Abs() == CommandQueueSpec.NfyQue(old(Abs()), thing, attr, key, limit)
      ensures num == |Taken(Waiting(thing, attr), old(Abs()).sem, NotifyLimit(old(Abs()), thing, attr, key, limit))|
    {
      assert this in Repr;
      hide Valid, AllGood, Taken, Kept, PromoteAll, CommandQueueSpec.AddTo, NotifyLimit;
      num := NotifyWaiters(thing, attr, key, limit);
      LowerCount(thing, attr, key, limit);
    }

    method FlushRun(o: int) returns (n: nat)
      requires Valid()
      modifies Repr
      ensures Valid() && ReprGrows() && n == |Pending(old(Abs()).ready, o)|
      ensures Abs() == old(Abs()).(ready := Flush(w, old(Abs()).ready, o))
    {
      hide ReadyQueue.Valid, SemQueue.Valid, WaitQueue.Valid;
      n := ready.Flush(o);
      Repr := Repr + ready.objs;
    }

    method DropWaiting(ghost i: nat, trail: Bque?, point: Bque) returns (next: Bque?)
      requires Valid() && At(wait.nodes, i, trail, point)
      modifies Repr
      ensures Valid() && Repr == old(Repr) && i < |old(Abs()).wait| && At(wait.nodes, i, trail, next)
      ensures |Abs().wait| == |old(Abs()).wait| - 1
      ensures Abs() == old(Abs()).(wait := Without(old(Abs()).wait, i))
    {
      hide ReadyQueue.Valid, SemQueue.Valid, WaitQueue.Valid;
      next := wait.Unlink(i, trail, point);
    }

    method PassWaiting(ghost i: nat, trail: Bque?, point: Bque) returns (next: Bque?)
      requires Valid() && At(wait.nodes, i, trail, point)
      ensures At(wait.nodes, i + 1, point, next)
    {
      next := wait.Advance(i, trail, point);
    }

    lemma SeenWaiting(i: nat, trail: Bque?, point: Bque?)
      requires Valid() && At(wait.nodes, i, trail, point)
      ensures i <= |Abs().wait| && (point == null <==> i == |Abs().wait|)
      ensures point != null ==> point.Val() == Abs().wait[i]
    {
    }

    lemma StartWaiting()
      requires Valid()
      ensures At(wait.nodes, 0, null, wait.head)
    {
    }

    method VisitWaiting(wanted: bool, trail: Bque?, point: Bque, ghost want: Want, ghost s0: State,
                        ghost i: nat, ghost taken: seq<Entry>)
        returns (trail': Bque?, next: Bque?, ghost i': nat, ghost taken': seq<Entry>)
      requires Valid() && At(wait.nodes, i, trail, point)
      requires InWaitScan(want, s0, Abs(), i, taken) && wanted == Wants(want, point.Val())
      modifies Repr
      ensures Valid() && Repr == old(Repr) && At(wait.nodes, i', trail', next)
      ensures InWaitScan(want, s0, Abs(), i', taken')
      ensures |taken'| == |taken| + (if wanted then 1 else 0) && |Abs().wait| - i' < |old(Abs()).wait| - i
    {
      SeenWaiting(i, trail, point);
      hide Valid, InWaitScan, Wants;
      if wanted {
        InWaitScanTakes(want, s0, Abs(), i, taken);
        trail', i', taken' := trail, i, taken + [point.Val()];
        next := DropWaiting(i, trail, point);
      } else {
        InWaitScanSkips(want, s0, Abs(), i, taken);
        trail', i', taken' := point, i + 1, taken;
        next := PassWaiting(i, trail, point);
      }
    }

    method HaltWaiting(player: int, obj: int) returns (n: nat)
      requires Valid()
      modifies Repr
      ensures Valid() && Repr == old(Repr)
      ensures n == |Taken(Halted(old(owner), player, obj), old(Abs()).wait, |old(Abs()).wait|)|
      ensures Abs() == old(Abs()).(wait := Kept(Halted(old(owner), player, obj), old(Abs()).wait, |old(Abs()).wait|))
    {
      var want := Halted(owner, player, obj);
      ghost var i, taken := 0, [];
      var point, trail: Bque? := wait.head, null;
      n := 0;
      InWaitScanStarts(want, Abs());
      StartWaiting();
      hide Valid, InWaitScan, Kept, Taken, Wants;
      while point != null
        invariant Valid() && Repr == old(Repr) && At(wait.nodes, i, trail, point)
        invariant InWaitScan(want, old(Abs()), Abs(), i, taken) && n == |taken|
        decreases |Abs().wait| - i
      {
        var wanted := Wants(want, point.Val());
        trail, point, i, taken := VisitWaiting(wanted, trail, point, want, old(Abs()), i, taken);
        if wanted {
          n := n + 1;
        }
      }
      SeenWaiting(i, trail, point);
      InWaitScanEnds(want, old(Abs()), Abs(), i, taken);
    }

    method HaltBlocked(player: int, obj: int) returns (n: nat)
      requires Valid() && 0 <= now && AllGood(w, Abs().sem)
      modifies Repr
      ensures Valid() && ReprGrows()
      ensures var gone := Taken(Halted(old(owner), player, obj), old(Abs()).sem, |old(Abs()).sem|);
              n == |gone| &&
              Abs() == old(Abs()).(sem := Kept(Halted(old(owner), player, obj), old(Abs()).sem, |old(Abs()).sem|),
                                   count := CommandQueueSpec.Release(old(count), gone))
    {
      var want := Halted(owner, player, obj);
      ghost var limit := |Abs().sem|;
      ghost var i, taken := 0, [];
      var point, trail: Bque? := sem.first, null;
      n := 0;
      InScanStarts(w, want, false, true, Abs(), limit);
      Start();
      hide Valid, InScan, AllGood, Kept, Taken, Wants;
      while point != null
        invariant Valid() && ReprGrows() && 0 <= now
        invariant InScan(w, want, false, true, old(Abs()), Abs(), limit, i, taken)
        invariant n == |taken| && At(sem.nodes, i, trail, point)
        decreases |Abs().sem| - i
      {
        InScanSize(w, want, false, true, old(Abs()), Abs(), limit, i, taken);
        Seen(i, trail, point);
        var wanted := Wants(want, point.Val());
        trail, point, i, taken := Visit(wanted, false, true, trail, point, want, old(Abs()), limit, i, taken);
        if wanted {
          n := n + 1;
        }
      }
      Seen(i, trail, point);
      InScanEnds(w, want, false, true, old(Abs()), Abs(), limit, i, taken);
    }

    method HaltQue(player: int, obj: int) returns (numhalted: nat)
      requires Valid() && 0 <= now && AllGood(w, Abs().sem)
      modifies Repr
      ensures Valid() && ReprGrows()
      ensures Abs() == CommandQueueSpec.HaltQue(w, old(Abs()), player, obj)
      ensures numhalted == HaltCount(w, old(Abs()), player, obj)
    {
      hide Valid, AllGood, Flush, Kept, Taken;
      var a := FlushRun(player);
      var b := FlushRun(obj);
      var c := HaltWaiting(player, obj);
      var d := HaltBlocked(player, obj);
      numhalted := a + b + c + d;
    }

    // A new command passes the tests and is queued.
    method QueueNew(player: int, cause: int, howlong: int, sem: int, attr: int, comm: string)
      requires Valid() && Good(w, player)
      modifies Repr
      ensures Valid() && ReprGrows()
      ensures Abs() == CommandQueueSpec.WaitQue(w, old(Abs()), player, cause, howlong, sem, attr, comm, Admitted)
    {
      hide Valid, Loose;
      var cmd := NewCommand(player, cause, comm);
      SetFields(cmd, sem, if howlong > 0 then now + howlong else 0, attr);
      CqueEnqueue(cmd);
    }

    // `admission` is what the tests of setup_que say.
    method WaitQue(player: int, cause: int, howlong: int, sem: int, attr: int, comm: string, admission: Admission)
      requires Valid() && Good(w, player) && 0 <= now && AllGood(w, Abs().sem)
      modifies Repr
      ensures Valid() && ReprGrows()
      ensures Abs() == CommandQueueSpec.WaitQue(w, old(Abs()), player, cause, howlong, sem, attr, comm, admission)
    {
      hide Valid, AllGood;
      match admission
      case Admitted => QueueNew(player, cause, howlong, sem, attr, comm);
      case Refused =>
      case RanAway => var _ := HaltQue(OwnerOf(owner, player), NOTHING);
    }

    // do_second: timed waits that have run out.
    method DoSecond()
      requires Valid() && 0 <= now && AllGood(w, Abs().sem)
      modifies Repr
      ensures Valid() && ReprGrows()
      ensures Abs() == CommandQueueSpec.DoSecond(old(Abs()))
    {
      if dequeue {
        ExpireAll();
      }
    }

    method ExpireAll()
      requires Valid() && 0 <= now && AllGood(w, Abs().sem)
      modifies Repr
      ensures Valid() && ReprGrows()
      ensures var late := Taken(Expired(now), old(Abs()).sem, |old(Abs()).sem|);
              Abs() == old(Abs()).(sem := Kept(Expired(now), old(Abs()).sem, |old(Abs()).sem|),
                                   ready := PromoteAll(old(Abs()).ready, late),
                                   count := CommandQueueSpec.Release(old(count), late))
    {
      ghost var want, limit := Expired(now), |Abs().sem|;
      ghost var i, taken := 0, [];
      var point, trail: Bque? := sem.first, null;
      InScanStarts(w, want, true, true, Abs(), limit);
      Start();
      assert forall e :: Wants(want, e) <==> e.waittime != 0 && e.waittime <= now;
      hide Valid, InScan, AllGood, Kept, Taken, Wants;
      while point != null
        invariant Valid() && ReprGrows() && 0 <= now == old(now)
        invariant InScan(w, want, true, true, old(Abs()), Abs(), limit, i, taken)
        invariant At(sem.nodes, i, trail, point)
        decreases |Abs().sem| - i
      {
        InScanSize(w, want, true, true, old(Abs()), Abs(), limit, i, taken);
        Seen(i, trail, point);
        var late := point.waittime != 0 && point.waittime <= now;
        trail, point, i, taken := Visit(late, true, true, trail, point, want, old(Abs()), limit, i, taken);
      }
      Seen(i, trail, point);
      InScanEnds(w, want, true, true, old(Abs()), Abs(), limit, i, taken);
    }

    method WarpBlocked(seconds: int)
      requires Valid()
      modifies Repr
      ensures Valid() && Repr == old(Repr)
      ensures Abs() == old(Abs()).(sem := AdvanceAll(old(Abs()).sem, seconds))
    {
      hide ReadyQueue.Valid, SemQueue.Valid, WaitQueue.Valid;
      sem.Warp(seconds);
    }

    method Switch(on: bool)
      requires Valid()
      modifies `dequeue
      ensures Valid() && Abs() == old(Abs()).(dequeue := on)
    {
      hide ReadyQueue.Valid, SemQueue.Valid, WaitQueue.Valid;
      dequeue := on;
    }

    method DoWarp(seconds: int)
      requires Valid() && 0 <= now && AllGood(w, Abs().sem)
      modifies Repr
      ensures Valid() && ReprGrows()
      ensures Abs() == CommandQueueSpec.DoWarp(old(Abs()), seconds)
    {
      assert this in Repr;
      hide Valid, CommandQueueSpec.DoSecond;
      var was := dequeue;
      Switch(true);
      WarpBlocked(seconds);
      DoSecond();
      Switch(was);
    }

    method DoSemWait(player: int, cause: int, thing: int, attr: int, howlong: int, comm: string,
                     admission: Admission)
      requires Valid() && Good(w, player) && 0 <= now && AllGood(w, Abs().sem)
      modifies Repr
      ensures Valid() && ReprGrows()
      ensures Abs() == CommandQueueSpec.DoSemWait(w, old(Abs()), player, cause, thing, attr, howlong, comm, admission)
    {
      assert this in Repr;
      hide Valid, AllGood, CommandQueueSpec.WaitQue;
      var num := AddTo(thing, 1, attr);
      if num <= 0 {
        WaitQue(player, cause, 0, NOTHING, attr, comm, admission);
      } else {
        WaitQue(player, cause, howlong, thing, attr, comm, admission);
      }
    }

    method FreeCounts(obj: int)
      requires Valid()
      modifies `count
      ensures Valid() && Abs() == old(Abs()).(count := Freed(old(count), obj))
    {
      hide ReadyQueue.Valid, SemQueue.Valid, WaitQueue.Valid;
      count := Freed(count, obj);
    }

    method SetOwner(obj: int, who: int)
      requires Valid()
      modifies `owner
      ensures Valid() && Abs() == old(Abs()).(owner := old(owner)[obj := who])
    {
      hide ReadyQueue.Valid, SemQueue.Valid, WaitQueue.Valid;
      owner := owner[obj := who];
    }

    // What destroy_obj does to the queues; the attributes are freed at the end.
    method DestroyObj(obj: int)
      requires Valid() && Shape(w, Abs()) && Good(w, obj)
      modifies Repr
      ensures Valid() && ReprGrows() && Shape(w, Abs()) && Unused(Abs(), obj)
      ensures Abs() == CommandQueueSpec.DestroyObj(w, old(Abs()), obj)
    {
      hide Valid, Shape, AllGood, Unused, CommandQueueSpec.HaltQue, CommandQueueSpec.NfyQue, Freed;
      InFootprint();
      DestroyKeeps(w, Abs(), obj);
      HaltKeeps(w, Abs(), NOTHING, obj);
      ShapeInfo(Abs());
      ShapeInfo(CommandQueueSpec.HaltQue(w, Abs(), NOTHING, obj));
      var _ := HaltQue(NOTHING, obj);
      var _ := NfyQue(obj, 0, Drain, 0);
      FreeCounts(obj);
      SetOwner(obj, GOD);
    }

    lemma InFootprint()
      requires Valid()
      ensures this in Repr
    {
    }

    lemma ShapeInfo(s: State)
      requires Shape(w, s)
      ensures 0 <= s.now && AllGood(w, s.sem)
    {
      assert forall k :: 0 <= k < |s.sem| ==> BlockedEntry(w, s.sem[k]);
    }

    method Perform(a: Action)
      requires Valid() && Shape(w, Abs()) && Allowed(w, a)
      modifies Repr
      ensures Valid() && ReprGrows() && Shape(w, Abs())
      ensures Abs() == CommandQueueSpec.Perform(w, old(Abs()), a)
    {
      PerformKeeps(w, Abs(), a);
      ShapeInfo(Abs());
      hide Valid, Shape;
      match a
      case TimedWait(player, cause, howlong, comm, admission) =>
        WaitQue(player, cause, howlong, NOTHING, 0, comm, admission);
      case SemWait(player, cause, thing, attr, howlong, comm, admission) =>
        DoSemWait(player, cause, thing, attr, howlong, comm, admission);
      case Notify(thing, attr, key, limit) => var _ := NfyQue(thing, attr, key, limit);
      case Halt(player, obj) => var _ := HaltQue(player, obj);
      case Warp(seconds) => DoWarp(seconds);
      case Own(obj, who) => SetOwner(obj, who);
      case Destroy(obj) => DestroyObj(obj);
    }

    method PerformAll(script: seq<Action>)
      requires Valid() && Shape(w, Abs()) && forall a :: a in script ==> Allowed(w, a)
      modifies Repr
      ensures Valid() && ReprGrows() && Shape(w, Abs())
      ensures Abs() == CommandQueueSpec.PerformAll(w, old(Abs()), script)
    {
      hide Valid, Shape, CommandQueueSpec.Perform;
      for k := 0 to |script|
        invariant Valid() && ReprGrows() && Shape(w, Abs())
        invariant Abs() == CommandQueueSpec.PerformAll(w, old(Abs()), script[..k])
      {
        assert script[..k + 1][..k] == script[..k];
        Perform(script[k]);
      }
      assert script[..|script|] == script;
    }

    method TakeTurn() returns (obj: int, cmd: Bque?)
      requires Valid() && ready.qhead != null
      modifies Repr
      ensures Valid() && Repr == old(Repr) && old(Abs()).ready.ring != []
      ensures obj == old(Abs()).ready.ring[0] && Abs() == old(Abs()).(ready := Turn(old(Abs()).ready))
      ensures cmd == null <==> Pending(old(Abs()).ready, obj) == []
      ensures cmd != null ==> cmd.Val() == Pending(old(Abs()).ready, obj)[0]
    {
      hide ReadyQueue.Valid, SemQueue.Valid, WaitQueue.Valid;
      obj, cmd := ready.TakeTurn();
    }

    lemma RingHead()
      requires Valid()
      ensures ready.qhead == null <==> Abs().ready.ring == []
    {
    }

    // One round of the do_top loop, when `count` commands have been served.
    method ServeOne(ncmds: int, exec: nat -> seq<Action>, count: nat) returns (count': nat, ghost served: seq<Entry>)
      requires Valid() && Shape(w, Abs()) && AllowedScripts(w, exec) && count < ncmds && ready.qhead != null
      modifies Repr
      ensures Valid() && ReprGrows() && Shape(w, Abs())
      ensures count' == count + |served| && count' <= ncmds
      ensures |served| > 0 || |Abs().ready.ring| < |old(Abs()).ready.ring|
      ensures Serve(w, old(Abs()), ncmds, exec, count)
           == var rest := Serve(w, Abs(), ncmds, exec, count'); Outcome(rest.state, served + rest.served)
    {
      hide Valid, Shape, Abs, CommandQueueSpec.PerformAll;
      RingHead();
      TurnKeeps(w, Abs());
      var obj, tmp := TakeTurn();
      if tmp == null {
        count', served := count, [];
      } else {
        hide Turn;
        PerformAll(exec(count));
        count', served := count + 1, [Pending(old(Abs()).ready, obj)[0]];
      }
    }

    method ServeLoop(ncmds: int, exec: nat -> seq<Action>) returns (count: nat, ghost served: seq<Entry>)
      requires Valid() && Shape(w, Abs()) && AllowedScripts(w, exec)
      modifies Repr
      ensures Valid() && ReprGrows() && Shape(w, Abs())
      ensures Serve(w, old(Abs()), ncmds, exec, 0) == Outcome(Abs(), served) && count == |served|
    {
      count, served := 0, [];
      SoFarStarts(w, Abs(), ncmds, exec);
      hide Valid, Shape, Abs, SoFar, Serve, AllowedScripts;
      while count < ncmds && ready.qhead != null
        invariant Valid() && ReprGrows() && Shape(w, Abs()) && count == |served|
        invariant SoFar(w, old(Abs()), ncmds, exec, Abs(), served)
        decreases ncmds - count, |Abs().ready.ring|
      {
        ghost var s, one := Abs(), [];
        count, one := ServeOne(ncmds, exec, count);
        SoFarSteps(w, old(Abs()), ncmds, exec, s, Abs(), served, one);
        served := served + one;
      }
      RingHead();
      SoFarStops(w, old(Abs()), ncmds, exec, Abs(), served);
    }

    // do_top: `exec(n)` is what the command served as number n does while it
    // runs, nothing when its object is going or halted.
    method DoTop(ncmds: int, exec: nat -> seq<Action>) returns (count: nat, ghost served: seq<Entry>)
      requires Valid() && Shape(w, Abs()) && AllowedScripts(w, exec)
      modifies Repr
      ensures Valid() && ReprGrows() && Shape(w, Abs())
      ensures Outcome(Abs(), served) == CommandQueueSpec.DoTop(w, old(Abs()), ncmds, exec)
      ensures count == |served|
    {
      count, served := 0, [];
      hide Valid, Shape, Serve, AllowedScripts;
      if dequeue {
        count, served := ServeLoop(ncmds, exec);
      }
    }

    // The timer of a waiting command fires.
    method DetachWaiting(pending: Bque, ghost k: nat)
      requires Valid() && k < |wait.nodes| && wait.nodes[k] == pending
      modifies Repr
      ensures Valid() && Repr == old(Repr) && k < |old(Abs()).wait|
      ensures Loose(pending) && pending.Val() == old(Abs()).wait[k]
      ensures Abs() == old(Abs()).(wait := Without(old(Abs()).wait, k))
    {
      hide ReadyQueue.Valid, SemQueue.Valid, WaitQueue.Valid;
      wait.Remove(pending, k);
    }

    method WakeupWaitQue(pending: Bque, ghost k: nat)
      requires Valid() && Shape(w, Abs()) && k < |wait.nodes| && wait.nodes[k] == pending
      modifies Repr
      ensures Valid() && ReprGrows() && k < |old(Abs()).wait|
      ensures Abs() == DoWake(old(Abs()), k)
    {
      SeenWaiting(k, if k == 0 then null else wait.nodes[k - 1], pending);
      assert TimedEntry(w, Abs().wait[k]);
      hide Valid, Shape;
      DetachWaiting(pending, k);
      SetFields(pending, pending.sem, 0, pending.attr);
      CqueEnqueue(pending);
    }
  }
}
