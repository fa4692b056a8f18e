// What every step of the scheduler keeps: the shape of the queues and the
// agreement between the semaphore counters and the commands that wait.
module CommandQueueInvariant {
  import opened CommandQueueSpec

  ghost predicate Sorted(q: seq<Entry>) {
    forall i, j :: 0 <= i < j < |q| ==> q[i].waittime <= q[j].waittime
  }

  ghost predicate Distinct(ring: seq<int>) {
    forall i, j :: 0 <= i < j < |ring| ==> ring[i] != ring[j]
  }

  // Every object is on the ring at most once; an object with pending commands
  // is on it; a run list holds commands of its own object that wait for nothing.
  ghost predicate ReadyInv(w: World, r: Ready) {
    && Distinct(r.ring)
    && (forall o :: o in r.ring ==> o in r.run)
    && (forall o :: o in r.run ==> Good(w, o) && (r.run[o] != [] ==> o in r.ring))
    && (forall o, e :: o in r.run && e in r.run[o] ==> e.player == o && e.sem == NOTHING && e.waittime == 0)
  }

  ghost predicate TimedEntry(w: World, e: Entry) {
    e.sem == NOTHING && e.waittime > 0 && Good(w, e.player)
  }

  ghost predicate BlockedEntry(w: World, e: Entry) {
    Good(w, e.sem) && e.attr > 0 && Good(w, e.player)
  }

  ghost predicate QueuesInv(w: World, s: State) {
    && 0 <= s.now
    && Sorted(s.wait)
    && (forall e :: e in s.wait ==> TimedEntry(w, e))
    && (forall e :: e in s.sem ==> BlockedEntry(w, e))
  }

  // The number of commands that wait on this attribute of this object.
  function Waiters(q: seq<Entry>, thing: int, attr: int): nat {
    if q == [] then 0
    else (if q[0].sem == thing && q[0].attr == attr then 1 else 0) + Waiters(q[1..], thing, attr)
  }

  function Max0(n: int): nat {
    if n > 0 then n else 0
  }

  ghost predicate Accounting(s: State) {
    forall thing, attr :: attr > 0 ==> Waiters(s.sem, thing, attr) == Max0(Count(s.count, thing, attr))
  }

  ghost predicate Shape(w: World, s: State) {
    ReadyInv(w, s.ready) && QueuesInv(w, s)
  }

  ghost predicate Inv(w: World, s: State) {
    Shape(w, s) && Accounting(s)
  }

  // ---------- the ready side ----------

  lemma EnterKeepsReady(w: World, r: Ready, e: Entry)
    requires ReadyInv(w, r) && Good(w, e.player) && e.sem == NOTHING && e.waittime == 0
    ensures ReadyInv(w, Enter(r, e))
  {
    var r' := Enter(r, e);
    forall o | o in r'.ring ensures o in r'.run {
      assert o in r.ring || o == e.player;
    }
    forall o, f | o in r'.run && f in r'.run[o] ensures f.player == o && f.sem == NOTHING && f.waittime == 0 {
      if o == e.player {
        assert f in Pending(r, o) || f == e;
      }
    }
  }

  lemma {:induction false} PromoteAllKeepsReady(w: World, r: Ready, es: seq<Entry>)
    requires ReadyInv(w, r) && forall e :: e in es ==> Good(w, e.player)
    ensures ReadyInv(w, PromoteAll(r, es))
  {
    if es != [] {
      PromoteAllKeepsReady(w, r, es[..|es| - 1]);
      EnterKeepsReady(w, PromoteAll(r, es[..|es| - 1]), Runnable(es[|es| - 1]));
    }
  }

  lemma FlushKeepsReady(w: World, r: Ready, o: int)
    requires ReadyInv(w, r)
    ensures ReadyInv(w, Flush(w, r, o))
  {
  }

  lemma TurnKeepsReady(w: World, r: Ready)
    requires ReadyInv(w, r) && r.ring != []
    ensures ReadyInv(w, Turn(r))
  {
    var r' := Turn(r);
    var o := r.ring[0];
    var rest := r'.run[o];
    assert forall x :: x in r.ring[1..] ==> x != o;
    forall x | x in r'.ring ensures x in r'.run {
      assert x in r.ring;
    }
    forall x | x in r'.run && r'.run[x] != [] ensures x in r'.ring {
      assert x in r.ring;
      if x != o {
        assert x in r.ring[1..];
      }
    }
    forall x, e | x in r'.run && e in r'.run[x] ensures e.player == x && e.sem == NOTHING && e.waittime == 0 {
      if x == o {
        assert e in r.run[o];
      }
    }
  }

  lemma TurnKeeps(w: World, s: State)
    requires Shape(w, s) && s.ready.ring != []
    ensures Shape(w, s.(ready := Turn(s.ready)))
    ensures var q := Pending(s.ready, s.ready.ring[0]); q != [] ==> q[0].player == s.ready.ring[0]
  {
    TurnKeepsReady(w, s.ready);
  }

  // ---------- the queues ----------

  lemma {:induction false} TakenAndKept(want: Want, q: seq<Entry>, n: nat)
    ensures forall e :: e in Taken(want, q, n) ==> e in q && Wants(want, e)
    ensures forall e :: e in Kept(want, q, n) ==> e in q
    ensures Sorted(q) ==> Sorted(Kept(want, q, n))
  {
    if q != [] && n != 0 {
      if Wants(want, q[0]) {
        TakenAndKept(want, q[1..], n - 1);
      } else {
        TakenAndKept(want, q[1..], n);
        if Sorted(q) {
          forall e | e in Kept(want, q[1..], n) ensures q[0].waittime <= e.waittime {
            assert e in q[1..];
          }
        }
      }
    }
  }

  lemma {:induction false} InsertByTimeElements(q: seq<Entry>, e: Entry)
    ensures forall x :: x in InsertByTime(q, e) <==> x == e || x in q
    ensures |InsertByTime(q, e)| == |q| + 1
  {
    if q != [] && q[0].waittime <= e.waittime {
      InsertByTimeElements(q[1..], e);
      assert q == [q[0]] + q[1..];
    }
  }

  // The entries of one second, in queue order.
  function DueAt(q: seq<Entry>, t: int): seq<Entry> {
    if q == [] then []
    else if q[0].waittime == t then [q[0]] + DueAt(q[1..], t)
    else DueAt(q[1..], t)
  }

  lemma {:induction false} NoneDueBefore(q: seq<Entry>, t: int)
    requires forall e :: e in q ==> t < e.waittime
    ensures DueAt(q, t) == []
  {
    if q != [] {
      NoneDueBefore(q[1..], t);
    }
  }

  lemma {:induction false} InsertionKeepsSorted(q: seq<Entry>, e: Entry)
    requires Sorted(q)
    ensures Sorted(InsertByTime(q, e))
  {
    if q != [] && q[0].waittime <= e.waittime {
      InsertionKeepsSorted(q[1..], e);
      InsertByTimeElements(q[1..], e);
      assert forall x :: x in InsertByTime(q[1..], e) ==> q[0].waittime <= x.waittime;
    }
  }

  // A timed command goes behind everything due no later than itself: the queue
  // stays sorted and is first-in first-out within each second.
  lemma {:induction false} TimedInsertion(q: seq<Entry>, e: Entry, t: int)
    requires Sorted(q)
    ensures Sorted(InsertByTime(q, e))
    ensures DueAt(InsertByTime(q, e), t) == if t == e.waittime then DueAt(q, t) + [e] else DueAt(q, t)
  {
    InsertionKeepsSorted(q, e);
    if q == [] || e.waittime < q[0].waittime {
      assert ([e] + q)[1..] == q;
      if t == e.waittime {
        NoneDueBefore(q, t);
      }
    } else {
      TimedInsertion(q[1..], e, t);
      hide Sorted;
      assert InsertByTime(q, e)[1..] == InsertByTime(q[1..], e);
    }
  }

  lemma WakingKeepsSorted(q: seq<Entry>, i: nat)
    requires i < |q| && Sorted(q)
    ensures Sorted(q[..i] + q[i + 1..])
    ensures forall e :: e in q[..i] + q[i + 1..] ==> e in q
  {
  }

  // ---------- counting waiters ----------

  lemma {:induction false} WaitersConcat(p: seq<Entry>, q: seq<Entry>, thing: int, attr: int)
    ensures Waiters(p + q, thing, attr) == Waiters(p, thing, attr) + Waiters(q, thing, attr)
  {
    if p == [] {
      assert p + q == q;
    } else {
      WaitersConcat(p[1..], q, thing, attr);
      assert (p + q)[1..] == p[1..] + q;
    }
  }

  lemma {:induction false} WaitersSplit(want: Want, q: seq<Entry>, n: nat, thing: int, attr: int)
    ensures Waiters(q, thing, attr)
         == Waiters(Taken(want, q, n), thing, attr) + Waiters(Kept(want, q, n), thing, attr)
  {
    if q != [] && n != 0 {
      if Wants(want, q[0]) {
        WaitersSplit(want, q[1..], n - 1, thing, attr);
      } else {
        WaitersSplit(want, q[1..], n, thing, attr);
      }
    }
  }

  // Waking n commands of a semaphore wakes the n longest waiting, or all of them.
  lemma {:induction false} TakenWaiters(q: seq<Entry>, n: nat, thing: int, attr: int, t: int, a: int)
    requires attr != 0
    ensures |Taken(Waiting(thing, attr), q, n)| == Waiters(Taken(Waiting(thing, attr), q, n), thing, attr)
    ensures |Taken(Waiting(thing, attr), q, n)|
         == if n < Waiters(q, thing, attr) then n else Waiters(q, thing, attr)
    ensures (t, a) != (thing, attr) ==> Waiters(Taken(Waiting(thing, attr), q, n), t, a) == 0
  {
    if q != [] && n != 0 {
      if Wants(Waiting(thing, attr), q[0]) {
        TakenWaiters(q[1..], n - 1, thing, attr, t, a);
      } else {
        TakenWaiters(q[1..], n, thing, attr, t, a);
      }
    }
  }

  lemma {:induction false} ReleaseCounts(m: Counters, es: seq<Entry>, thing: int, attr: int)
    ensures Count(Release(m, es), thing, attr) == Count(m, thing, attr) - Waiters(es, thing, attr)
  {
    if es != [] {
      var front, e := es[..|es| - 1], es[|es| - 1];
      ReleaseCounts(m, front, thing, attr);
      assert es == front + [e];
      WaitersConcat(front, [e], thing, attr);
    }
  }

  lemma {:induction false} WaitersPresent(q: seq<Entry>, thing: int, attr: int)
    ensures Waiters(q, thing, attr) > 0 <==> exists e :: e in q && e.sem == thing && e.attr == attr
  {
    if q != [] {
      WaitersPresent(q[1..], thing, attr);
      assert q == [q[0]] + q[1..];
    }
  }

  // ---------- accounting, operation by operation ----------

  // Entries leave the semaphore queue and each of them lowers its counter.
  lemma ReleaseKeepsAccounting(want: Want, s: State, s': State)
    requires Accounting(s)
    requires s'.sem == Kept(want, s.sem, |s.sem|)
    requires s'.count == Release(s.count, Taken(want, s.sem, |s.sem|))
    ensures Accounting(s')
  {
    var gone := Taken(want, s.sem, |s.sem|);
    forall thing, attr | attr > 0
      ensures Waiters(s'.sem, thing, attr) == Max0(Count(s'.count, thing, attr))
    {
      WaitersSplit(want, s.sem, |s.sem|, thing, attr);
      ReleaseCounts(s.count, gone, thing, attr);
    }
  }

  lemma NotifyKeepsAccounting(s: State, thing: int, attr: int, key: Key, count: int)
    requires Accounting(s) && attr > 0 && (key == NotifyFirst ==> count > 0)
    ensures Accounting(NfyQue(s, thing, attr, key, count))
  {
    var s' := NfyQue(s, thing, attr, key, count);
    var n := NotifyLimit(s, thing, attr, key, count);
    forall t, a | a > 0 ensures Waiters(s'.sem, t, a) == Max0(Count(s'.count, t, a)) {
      WaitersSplit(Waiting(thing, attr), s.sem, n, t, a);
      TakenWaiters(s.sem, n, thing, attr, t, a);
      WaitersBound(s.sem, thing, attr);
    }
  }

  lemma {:induction false} WaitersBound(q: seq<Entry>, thing: int, attr: int)
    ensures Waiters(q, thing, attr) <= |q|
  {
    if q != [] {
      WaitersBound(q[1..], thing, attr);
    }
  }

  // Notifying without naming an attribute empties the queue of this object but
  // leaves its counters standing: the counters stay right exactly when nothing
  // was waiting there.
  lemma NotifyAnyAccounting(w: World, s: State, thing: int, key: Key, count: int)
    requires Inv(w, s) && key != NotifyFirst
    ensures Accounting(NfyQue(s, thing, 0, key, count)) <==> forall e :: e in s.sem ==> e.sem != thing
  {
    var s' := NfyQue(s, thing, 0, key, count);
    var want := Waiting(thing, 0);
    KeptAllUnwanted(want, s.sem);
    if e :| e in s.sem && e.sem == thing {
      WaitersPresent(s.sem, thing, e.attr);
      WaitersPresent(s'.sem, thing, e.attr);
      assert Max0(Count(s'.count, thing, e.attr)) > 0;
    } else {
      NothingTaken(want, s.sem, |s.sem|);
    }
  }

  lemma {:induction false} KeptAllUnwanted(want: Want, q: seq<Entry>)
    ensures forall e :: e in Kept(want, q, |q|) ==> !Wants(want, e)
  {
    if q != [] {
      if Wants(want, q[0]) {
        KeptAllUnwanted(want, q[1..]);
      } else {
        assert |q[1..]| + 1 == |q|;
        KeptLimit(want, q[1..], |q|);
        KeptAllUnwanted(want, q[1..]);
      }
    }
  }

  // A limit at or above the length of the queue is no limit.
  lemma {:induction false} KeptLimit(want: Want, q: seq<Entry>, n: nat)
    requires |q| <= n
    ensures Kept(want, q, n) == Kept(want, q, |q|)
    ensures Taken(want, q, n) == Taken(want, q, |q|)
  {
    if q != [] {
      if Wants(want, q[0]) {
        KeptLimit(want, q[1..], n - 1);
      } else {
        KeptLimit(want, q[1..], n);
        KeptLimit(want, q[1..], |q|);
      }
    }
  }

  lemma {:induction false} NothingTaken(want: Want, q: seq<Entry>, n: nat)
    requires forall e :: e in q ==> !Wants(want, e)
    ensures Taken(want, q, n) == [] && Kept(want, q, n) == q
  {
    if q != [] && n != 0 {
      NothingTaken(want, q[1..], n);
    }
  }

  // The counter is raised before the command is tested. When it is then not
  // admitted, the counter stays right exactly when it was below zero, whoever is
  // halted for it.
  lemma SemWaitAccounting(w: World, s: State, player: int, cause: int, thing: int, attr: int, howlong: int,
                          comm: string, admission: Admission)
    requires Accounting(s) && Good(w, player) && Good(w, thing) && attr > 0
    ensures Accounting(DoSemWait(w, s, player, cause, thing, attr, howlong, comm, admission))
       <==> admission == Admitted || Count(s.count, thing, attr) < 0
  {
    var s1 := s.(count := AddTo(s.count, thing, 1, attr));
    var s' := DoSemWait(w, s, player, cause, thing, attr, howlong, comm, admission);
    match admission
    case Admitted =>
      forall t, a | a > 0 ensures Waiters(s'.sem, t, a) == Max0(Count(s'.count, t, a)) {
        if Count(s.count, thing, attr) >= 0 {
          WaitersConcat(s.sem, [s'.sem[|s.sem|]], t, a);
        }
      }
    case Refused => RaisedAccounting(s, s1, thing, attr);
    case RanAway =>
      RaisedAccounting(s, s1, thing, attr);
      HaltKeepsGap(w, s1, OwnerOf(s.owner, player), thing, attr);
  }

  // A counter that is raised although nobody comes to wait.
  lemma RaisedAccounting(s: State, s1: State, thing: int, attr: int)
    requires Accounting(s) && attr > 0 && s1 == s.(count := AddTo(s.count, thing, 1, attr))
    ensures Accounting(s1) <==> Count(s.count, thing, attr) < 0
    ensures Count(s.count, thing, attr) >= 0 ==> Waiters(s1.sem, thing, attr) < Count(s1.count, thing, attr)
  {
    assert Waiters(s1.sem, thing, attr) == Max0(Count(s.count, thing, attr));
    if Count(s.count, thing, attr) < 0 {
      forall t, a | a > 0 ensures Waiters(s1.sem, t, a) == Max0(Count(s1.count, t, a)) {
      }
    }
  }

  // Halting commands lowers counter and waiters alike.
  lemma HaltKeepsGap(w: World, s: State, player: int, thing: int, attr: int)
    requires attr > 0
    ensures Accounting(s) ==> Accounting(HaltQue(w, s, player, NOTHING))
    ensures Waiters(s.sem, thing, attr) < Count(s.count, thing, attr) ==> !Accounting(HaltQue(w, s, player, NOTHING))
  {
    var s' := HaltQue(w, s, player, NOTHING);
    var want := Halted(s.owner, player, NOTHING);
    if Accounting(s) {
      ReleaseKeepsAccounting(want, s, s');
    }
    WaitersSplit(want, s.sem, |s.sem|, thing, attr);
    ReleaseCounts(s.count, Taken(want, s.sem, |s.sem|), thing, attr);
  }

  // The first wait of all, refused: the counter says one, and nobody waits.
  lemma RefusedWaitIsCounted(w: World, player: int, thing: int, attr: int, comm: string)
    requires Good(w, player) && Good(w, thing) && attr > 0
    ensures var s := State(0, true, map[], Ready(map[], []), [], [], map[]);
            var t := Perform(w, s, SemWait(player, player, thing, attr, 0, comm, Refused));
            Inv(w, s) && Count(t.count, thing, attr) == 1 && t.sem == [] && !Accounting(t)
  {
    var s := State(0, true, map[], Ready(map[], []), [], [], map[]);
    SemWaitAccounting(w, s, player, player, thing, attr, 0, comm, Refused);
  }

  lemma {:induction false} WarpWaiters(q: seq<Entry>, seconds: int, thing: int, attr: int)
    ensures Waiters(AdvanceAll(q, seconds), thing, attr) == Waiters(q, thing, attr)
  {
    if q != [] {
      WarpWaiters(q[1..], seconds, thing, attr);
      assert AdvanceAll(q, seconds)[1..] == AdvanceAll(q[1..], seconds);
    }
  }

  // ---------- every step keeps the invariant ----------

  // The two operations that do not keep the counters right.
  predicate Sound(a: Action) {
    (a.SemWait? ==> a.admission == Admitted) && (a.Notify? ==> a.attr > 0)
  }

  lemma EnqueueKeeps(w: World, s: State, e: Entry)
    requires Shape(w, s) && Good(w, e.player)
    requires e.sem == NOTHING || BlockedEntry(w, e)
    ensures Shape(w, Enqueue(s, e))
  {
    if e.sem == NOTHING && e.waittime <= s.now {
      EnterKeepsReady(w, s.ready, e.(waittime := 0));
    } else if e.sem == NOTHING {
      InsertionKeepsSorted(s.wait, e);
      InsertByTimeElements(s.wait, e);
    }
  }

  lemma HaltKeeps(w: World, s: State, player: int, obj: int)
    requires Shape(w, s)
    ensures Shape(w, HaltQue(w, s, player, obj))
    ensures Accounting(s) ==> Accounting(HaltQue(w, s, player, obj))
  {
    FlushKeepsReady(w, s.ready, player);
    FlushKeepsReady(w, Flush(w, s.ready, player), obj);
    TakenAndKept(Halted(s.owner, player, obj), s.wait, |s.wait|);
    TakenAndKept(Halted(s.owner, player, obj), s.sem, |s.sem|);
    if Accounting(s) {
      ReleaseKeepsAccounting(Halted(s.owner, player, obj), s, HaltQue(w, s, player, obj));
    }
  }

  lemma WaitQueKeeps(w: World, s: State, player: int, cause: int, howlong: int, sem: int, attr: int, comm: string,
                     admission: Admission)
    requires Shape(w, s) && Good(w, player) && (sem == NOTHING || (Good(w, sem) && attr > 0))
    ensures Shape(w, WaitQue(w, s, player, cause, howlong, sem, attr, comm, admission))
    ensures Accounting(s) && sem == NOTHING ==>
              Accounting(WaitQue(w, s, player, cause, howlong, sem, attr, comm, admission))
  {
    match admission
    case Admitted =>
      EnqueueKeeps(w, s, Entry(player, cause, sem, if howlong > 0 then s.now + howlong else 0, attr, comm));
    case Refused =>
    case RanAway => HaltKeeps(w, s, OwnerOf(s.owner, player), NOTHING);
  }

  lemma SemWaitKeeps(w: World, s: State, player: int, cause: int, thing: int, attr: int, howlong: int,
                     comm: string, admission: Admission)
    requires Shape(w, s) && Good(w, player) && Good(w, thing) && attr > 0
    ensures Shape(w, DoSemWait(w, s, player, cause, thing, attr, howlong, comm, admission))
  {
    var s1 := s.(count := AddTo(s.count, thing, 1, attr));
    WaitQueKeeps(w, s1, player, cause, 0, NOTHING, attr, comm, admission);
    WaitQueKeeps(w, s1, player, cause, howlong, thing, attr, comm, admission);
  }

  lemma NotifyKeeps(w: World, s: State, thing: int, attr: int, key: Key, count: int)
    requires Shape(w, s) && (key == NotifyFirst ==> count > 0)
    ensures Shape(w, NfyQue(s, thing, attr, key, count))
    ensures Accounting(s) && attr > 0 ==> Accounting(NfyQue(s, thing, attr, key, count))
  {
    var n := NotifyLimit(s, thing, attr, key, count);
    TakenAndKept(Waiting(thing, attr), s.sem, n);
    PromoteAllKeepsReady(w, s.ready, Taken(Waiting(thing, attr), s.sem, n));
    if Accounting(s) && attr > 0 {
      NotifyKeepsAccounting(s, thing, attr, key, count);
    }
  }

  lemma SecondKeeps(w: World, s: State)
    requires Shape(w, s)
    ensures Shape(w, DoSecond(s))
    ensures Accounting(s) ==> Accounting(DoSecond(s))
  {
    TakenAndKept(Expired(s.now), s.sem, |s.sem|);
    PromoteAllKeepsReady(w, s.ready, Taken(Expired(s.now), s.sem, |s.sem|));
    if s.dequeue && Accounting(s) {
      ReleaseKeepsAccounting(Expired(s.now), s, DoSecond(s));
    }
  }

  lemma WarpKeeps(w: World, s: State, seconds: int)
    requires Shape(w, s)
    ensures Shape(w, DoWarp(s, seconds))
    ensures Accounting(s) ==> Accounting(DoWarp(s, seconds))
  {
    var s' := s.(sem := AdvanceAll(s.sem, seconds), dequeue := true);
    forall thing, attr ensures Waiters(s'.sem, thing, attr) == Waiters(s.sem, thing, attr) {
      WarpWaiters(s.sem, seconds, thing, attr);
    }
    forall e | e in s'.sem ensures BlockedEntry(w, e) {
      var i :| 0 <= i < |s.sem| && s'.sem[i] == e;
      assert BlockedEntry(w, s.sem[i]);
    }
    SecondKeeps(w, s');
  }

  lemma WakeKeeps(w: World, s: State, i: nat)
    requires Shape(w, s) && i < |s.wait|
    ensures Shape(w, DoWake(s, i))
    ensures Accounting(s) ==> Accounting(DoWake(s, i))
  {
    WakingKeepsSorted(s.wait, i);
    assert TimedEntry(w, s.wait[i]);
    EnterKeepsReady(w, s.ready, Runnable(s.wait[i]));
  }

  // Nothing of this object is queued, and nothing waits on it.
  ghost predicate Unused(s: State, obj: int) {
    && Pending(s.ready, obj) == []
    && (forall e :: e in s.wait ==> e.player != obj)
    && (forall e :: e in s.sem ==> e.player != obj && e.sem != obj)
  }

  // Destroying an object leaves nothing of it in the queues, and the counters of
  // all objects right; the drain that names no attribute does no harm, because
  // the attributes that count are freed.
  lemma DestroyKeeps(w: World, s: State, obj: int)
    requires Shape(w, s) && Good(w, obj)
    ensures Shape(w, DestroyObj(w, s, obj)) && Unused(DestroyObj(w, s, obj), obj)
    ensures Accounting(s) ==> Accounting(DestroyObj(w, s, obj))
  {
    var halted := HaltQue(w, s, NOTHING, obj);
    var drained := NfyQue(halted, obj, 0, Drain, 0);
    var s' := DestroyObj(w, s, obj);
    HaltKeeps(w, s, NOTHING, obj);
    NotifyKeeps(w, halted, obj, 0, Drain, 0);
    TakenAndKept(Waiting(obj, 0), halted.sem, |halted.sem|);
    KeptAllUnwanted(Halted(s.owner, NOTHING, obj), s.wait);
    KeptAllUnwanted(Halted(s.owner, NOTHING, obj), s.sem);
    KeptAllUnwanted(Waiting(obj, 0), halted.sem);
    if Accounting(s) {
      forall thing, attr | attr > 0 ensures Waiters(s'.sem, thing, attr) == Max0(Count(s'.count, thing, attr)) {
        WaitersPresent(s'.sem, thing, attr);
        if thing != obj {
          OthersWait(halted.sem, obj, thing, attr);
          assert Waiters(halted.sem, thing, attr) == Max0(Count(halted.count, thing, attr));
        }
      }
    }
  }

  lemma OthersWait(q: seq<Entry>, obj: int, thing: int, attr: int)
    requires thing != obj
    ensures Waiters(Kept(Waiting(obj, 0), q, |q|), thing, attr) == Waiters(q, thing, attr)
  {
    WaitersSplit(Waiting(obj, 0), q, |q|, thing, attr);
    TakenAndKept(Waiting(obj, 0), q, |q|);
    WaitersPresent(Taken(Waiting(obj, 0), q, |q|), thing, attr);
  }

  lemma PerformKeeps(w: World, s: State, a: Action)
    requires Shape(w, s) && Allowed(w, a)
    ensures Shape(w, Perform(w, s, a))
    ensures Accounting(s) && Sound(a) ==> Accounting(Perform(w, s, a))
  {
    match a
    case TimedWait(player, cause, howlong, comm, admission) =>
      WaitQueKeeps(w, s, player, cause, howlong, NOTHING, 0, comm, admission);
    case SemWait(player, cause, thing, attr, howlong, comm, admission) =>
      SemWaitKeeps(w, s, player, cause, thing, attr, howlong, comm, admission);
      if Accounting(s) {
        SemWaitAccounting(w, s, player, cause, thing, attr, howlong, comm, admission);
      }
    case Notify(thing, attr, key, count) => NotifyKeeps(w, s, thing, attr, key, count);
    case Halt(player, obj) => HaltKeeps(w, s, player, obj);
    case Warp(seconds) => WarpKeeps(w, s, seconds);
    case Own(_, _) =>
    case Destroy(obj) => DestroyKeeps(w, s, obj);
  }

  lemma {:induction false} PerformAllKeeps(w: World, s: State, script: seq<Action>)
    requires Shape(w, s) && forall a :: a in script ==> Allowed(w, a)
    ensures Shape(w, PerformAll(w, s, script))
    ensures Accounting(s) && (forall a :: a in script ==> Sound(a)) ==> Accounting(PerformAll(w, s, script))
  {
    if script != [] {
      PerformAllKeeps(w, s, script[..|script| - 1]);
      PerformKeeps(w, PerformAll(w, s, script[..|script| - 1]), script[|script| - 1]);
    }
  }

  ghost predicate SoundScripts(exec: nat -> seq<Action>) {
    forall n: nat, a :: a in exec(n) ==> Sound(a)
  }

  lemma {:induction false} ServeKeeps(w: World, s: State, ncmds: int, exec: nat -> seq<Action>, n: nat)
    requires Shape(w, s) && AllowedScripts(w, exec)
    ensures Shape(w, Serve(w, s, ncmds, exec, n).state)
    ensures Accounting(s) && SoundScripts(exec) ==> Accounting(Serve(w, s, ncmds, exec, n).state)
    decreases ncmds - n, |s.ready.ring|
  {
    hide Shape, Perform, PerformAll;
    if n < ncmds && s.ready.ring != [] {
      var s' := s.(ready := Turn(s.ready));
      TurnKeeps(w, s);
      if Pending(s.ready, s.ready.ring[0]) == [] {
        ServeKeeps(w, s', ncmds, exec, n);
      } else {
        PerformAllKeeps(w, s', exec(n));
        ServeKeeps(w, PerformAll(w, s', exec(n)), ncmds, exec, n + 1);
      }
    }
  }

  ghost predicate SoundEvent(ev: Event) {
    (ev.Command? ==> Sound(ev.action)) && (ev.Top? ==> SoundScripts(ev.exec))
  }

  // ---------- every run keeps the invariant ----------

  lemma NextKeeps(w: World, s: State, ev: Event)
    requires Shape(w, s) && Possible(w, s, ev)
    ensures Shape(w, Next(w, s, ev))
    ensures Accounting(s) && SoundEvent(ev) ==> Accounting(Next(w, s, ev))
  {
    match ev
    case Command(a) => PerformKeeps(w, s, a);
    case Second => SecondKeeps(w, s);
    case Wake(i) => WakeKeeps(w, s, i);
    case Tick(_) =>
    case Top(ncmds, exec) => ServeKeeps(w, s, ncmds, exec, 0);
  }

  // Over every run of the server, while objects are created, change hands and are
  // destroyed, the queues keep their shape; when waits on semaphores are admitted
  // and notifications name their attribute, the number of commands waiting on a
  // semaphore is its counter, or none when that is negative.
  lemma {:induction false} RunsKeepInvariant(w: World, s: State, events: seq<Event>, t: State)
    requires Shape(w, s) && Reaches(w, s, events, t)
    ensures Shape(w, t)
    ensures Accounting(s) && (forall ev :: ev in events ==> SoundEvent(ev)) ==> Accounting(t)
    decreases |events|
  {
    hide Shape, Accounting, Next, Possible;
    if events != [] {
      NextKeeps(w, s, events[0]);
      RunsKeepInvariant(w, Next(w, s, events[0]), events[1..], t);
    }
  }

  // ---------- scanning a queue in place ----------

  function Without<T>(s: seq<T>, i: nat): seq<T>
    requires i < |s|
  {
    s[..i] + s[i + 1..]
  }

  // A scan that began with q0 has taken these entries out, has passed the first
  // i of what is left in q, and has the rest of q before it.
  ghost predicate Scanned(want: Want, q0: seq<Entry>, limit: nat, q: seq<Entry>, i: nat, taken: seq<Entry>) {
    && i <= |q| && |taken| <= limit
    && Kept(want, q0, limit) == q[..i] + Kept(want, q[i..], limit - |taken|)
    && Taken(want, q0, limit) == taken + Taken(want, q[i..], limit - |taken|)
  }

  lemma PromoteOneMore(r: Ready, es: seq<Entry>, e: Entry)
    ensures PromoteAll(r, []) == r
    ensures PromoteAll(r, es + [e]) == Promote(PromoteAll(r, es), e)
  {
    assert (es + [e])[..|es|] == es;
  }

  lemma ReleaseOneMore(m: Counters, es: seq<Entry>, e: Entry)
    ensures Release(m, []) == m
    ensures Release(m, es + [e]) == AddTo(Release(m, es), e.sem, -1, e.attr)
  {
    assert (es + [e])[..|es|] == es;
  }

  ghost predicate AllGood(w: World, q: seq<Entry>) {
    forall k :: 0 <= k < |q| ==> Good(w, q[k].player)
  }

  lemma ScanStarts(want: Want, q0: seq<Entry>, limit: nat)
    ensures Scanned(want, q0, limit, q0, 0, [])
  {
    assert q0[0..] == q0;
  }

  lemma ScanSkips(want: Want, q0: seq<Entry>, limit: nat, q: seq<Entry>, i: nat, taken: seq<Entry>)
    requires Scanned(want, q0, limit, q, i, taken) && i < |q| && !Wants(want, q[i])
    ensures Scanned(want, q0, limit, q, i + 1, taken)
  {
    var k := limit - |taken|;
    assert q[i..][1..] == q[i + 1..];
    if k != 0 {
      assert q[..i] + ([q[i]] + Kept(want, q[i + 1..], k)) == q[..i + 1] + Kept(want, q[i + 1..], k);
    }
  }

  lemma ScanTakes(want: Want, q0: seq<Entry>, limit: nat, q: seq<Entry>, i: nat, taken: seq<Entry>)
    requires Scanned(want, q0, limit, q, i, taken) && i < |q| && Wants(want, q[i]) && |taken| < limit
    ensures Scanned(want, q0, limit, Without(q, i), i, taken + [q[i]])
  {
    var k := limit - |taken|;
    var q' := Without(q, i);
    assert q[i..][1..] == q[i + 1..] == q'[i..];
    assert q'[..i] == q[..i];
    assert taken + ([q[i]] + Taken(want, q'[i..], k - 1)) == taken + [q[i]] + Taken(want, q'[i..], k - 1);
  }

  lemma ScanEnds(want: Want, q0: seq<Entry>, limit: nat, q: seq<Entry>, i: nat, taken: seq<Entry>)
    requires Scanned(want, q0, limit, q, i, taken) && (i == |q| || |taken| == limit)
    ensures Kept(want, q0, limit) == q && Taken(want, q0, limit) == taken
  {
    assert q == q[..i] + q[i..];
  }

  lemma AllGoodWithout(w: World, q: seq<Entry>, i: nat)
    requires AllGood(w, q) && i < |q|
    ensures Good(w, q[i].player) && AllGood(w, Without(q, i))
  {
  }

  // The scheduler while it scans the semaphore queue: what has been taken out
  // has gone to its run list (run) or nowhere, and has lowered its counter
  // (release) or not.
  ghost predicate InScan(w: World, want: Want, run: bool, release: bool, s0: State, s: State, limit: nat,
                         i: nat, taken: seq<Entry>)
  {
    && Scanned(want, s0.sem, limit, s.sem, i, taken)
    && AllGood(w, s.sem)
    && |s.sem| + |taken| == |s0.sem|
    && s == s0.(sem := s.sem,
                ready := if run then PromoteAll(s0.ready, taken) else s0.ready,
                count := if release then Release(s0.count, taken) else s0.count)
  }

  // The entry at place i is taken out.
  function TakenAt(run: bool, release: bool, s: State, i: nat): State
    requires i < |s.sem|
  {
    var e := s.sem[i];
    s.(sem := Without(s.sem, i),
       ready := if run then Promote(s.ready, e) else s.ready,
       count := if release then AddTo(s.count, e.sem, -1, e.attr) else s.count)
  }

  lemma InScanStarts(w: World, want: Want, run: bool, release: bool, s: State, limit: nat)
    requires AllGood(w, s.sem)
    ensures InScan(w, want, run, release, s, s, limit, 0, [])
  {
    ScanStarts(want, s.sem, limit);
  }

  lemma InScanSize(w: World, want: Want, run: bool, release: bool, s0: State, s: State, limit: nat,
                   i: nat, taken: seq<Entry>)
    requires InScan(w, want, run, release, s0, s, limit, i, taken)
    ensures |s.sem| + |taken| == |s0.sem|
  {
  }

  lemma InScanSkips(w: World, want: Want, run: bool, release: bool, s0: State, s: State, limit: nat,
                    i: nat, taken: seq<Entry>)
    requires InScan(w, want, run, release, s0, s, limit, i, taken) && i < |s.sem| && !Wants(want, s.sem[i])
    ensures InScan(w, want, run, release, s0, s, limit, i + 1, taken)
  {
    ScanSkips(want, s0.sem, limit, s.sem, i, taken);
  }

  lemma InScanTakes(w: World, want: Want, run: bool, release: bool, s0: State, s: State, limit: nat,
                    i: nat, taken: seq<Entry>)
    requires InScan(w, want, run, release, s0, s, limit, i, taken) && i < |s.sem| && Wants(want, s.sem[i])
    requires |taken| < limit
    ensures Good(w, s.sem[i].player)
    ensures InScan(w, want, run, release, s0, TakenAt(run, release, s, i), limit, i, taken + [s.sem[i]])
  {
    var e := s.sem[i];
    AllGoodWithout(w, s.sem, i);
    ScanTakes(want, s0.sem, limit, s.sem, i, taken);
    PromoteOneMore(s0.ready, taken, e);
    ReleaseOneMore(s0.count, taken, e);
    hide Scanned, Promote, PromoteAll, Release, AddTo, AllGood;
  }

  lemma InScanEnds(w: World, want: Want, run: bool, release: bool, s0: State, s: State, limit: nat,
                   i: nat, taken: seq<Entry>)
    requires InScan(w, want, run, release, s0, s, limit, i, taken) && (i == |s.sem| || |taken| == limit)
    ensures taken == Taken(want, s0.sem, limit)
    ensures s == s0.(sem := Kept(want, s0.sem, limit),
                     ready := if run then PromoteAll(s0.ready, taken) else s0.ready,
                     count := if release then Release(s0.count, taken) else s0.count)
  {
    ScanEnds(want, s0.sem, limit, s.sem, i, taken);
  }

  // The scheduler while it scans the wait queue.
  ghost predicate InWaitScan(want: Want, s0: State, s: State, i: nat, taken: seq<Entry>) {
    && Scanned(want, s0.wait, |s0.wait|, s.wait, i, taken)
    && |s.wait| + |taken| == |s0.wait|
    && s == s0.(wait := s.wait)
  }

  lemma InWaitScanStarts(want: Want, s: State)
    ensures InWaitScan(want, s, s, 0, [])
  {
    ScanStarts(want, s.wait, |s.wait|);
  }

  lemma InWaitScanSkips(want: Want, s0: State, s: State, i: nat, taken: seq<Entry>)
    requires InWaitScan(want, s0, s, i, taken) && i < |s.wait| && !Wants(want, s.wait[i])
    ensures InWaitScan(want, s0, s, i + 1, taken)
  {
    ScanSkips(want, s0.wait, |s0.wait|, s.wait, i, taken);
  }

  lemma InWaitScanTakes(want: Want, s0: State, s: State, i: nat, taken: seq<Entry>)
    requires InWaitScan(want, s0, s, i, taken) && i < |s.wait| && Wants(want, s.wait[i])
    ensures InWaitScan(want, s0, s.(wait := Without(s.wait, i)), i, taken + [s.wait[i]])
  {
    ScanTakes(want, s0.wait, |s0.wait|, s.wait, i, taken);
  }

  lemma InWaitScanEnds(want: Want, s0: State, s: State, i: nat, taken: seq<Entry>)
    requires InWaitScan(want, s0, s, i, taken) && i == |s.wait|
    ensures taken == Taken(want, s0.wait, |s0.wait|)
    ensures s == s0.(wait := Kept(want, s0.wait, |s0.wait|))
  {
    ScanEnds(want, s0.wait, |s0.wait|, s.wait, i, taken);
  }
}
