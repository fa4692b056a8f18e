// What each operation does, said without the functions that compute it: which
// commands leave a queue, where they go, when they are due, and what the counters
// are afterwards.
module CommandQueueLaws {
  import opened CommandQueueSpec
  import opened CommandQueueInvariant
  import opened CommandQueueConservation
  import opened CommandQueueFairness

  // ---------- run lists ----------

  function RunnableAll(es: seq<Entry>): (r: seq<Entry>)
    ensures |r| == |es| && forall i :: 0 <= i < |es| ==> r[i] == es[i].(sem := NOTHING, waittime := 0)
  {
    if es == [] then [] else [es[0].(sem := NOTHING, waittime := 0)] + RunnableAll(es[1..])
  }

  // These commands are now last in the run lists of their objects, in this order, and
  // those objects are on the ring, behind the others.
  ghost predicate Appended(r: Ready, r': Ready, es: seq<Entry>) {
    (forall o :: RunAppended(r, r', es, o)) && r.ring <= r'.ring && (forall o :: o in r'.ring <==> OnRing(r, es, o))
  }

  ghost predicate RunAppended(r: Ready, r': Ready, es: seq<Entry>, o: int) {
    Pending(r', o) == Pending(r, o) + RunnableAll(Of(es, o))
  }

  ghost predicate OnRing(r: Ready, es: seq<Entry>, o: int) {
    o in r.ring || exists i :: 0 <= i < |es| && es[i].player == o
  }

  lemma {:induction false} OfOneMore(es: seq<Entry>, e: Entry, o: int)
    ensures Of(es + [e], o) == Of(es, o) + if e.player == o then [e] else []
  {
    if es == [] {
      assert es + [e] == [e];
    } else {
      var more := es + [e];
      OfOneMore(es[1..], e, o);
      assert more[0] == es[0];
      assert more[1..] == es[1..] + [e];
      hide Of;
      OfFirst(es, o);
      OfFirst(more, o);
    }
  }

  lemma OfFirst(es: seq<Entry>, o: int)
    requires es != []
    ensures Of(es, o) == if es[0].player == o then [es[0]] + Of(es[1..], o) else Of(es[1..], o)
  {
  }

  lemma RunnableOneMore(es: seq<Entry>, e: Entry)
    ensures RunnableAll(es + [e]) == RunnableAll(es) + [Runnable(e)]
    ensures RunnableAll([]) == []
  {
  }

  lemma AppendedNone(r: Ready)
    ensures Appended(r, r, [])
  {
  }

  lemma PromotedRun(r: Ready, r': Ready, es: seq<Entry>, e: Entry, o: int)
    requires RunAppended(r, r', es, o)
    ensures RunAppended(r, Promote(r', e), es + [e], o)
  {
    OfOneMore(es, e, o);
    RunnableOneMore(Of(es, o), e);
    assert Pending(Promote(r', e), o) == Pending(r', o) + if e.player == o then [Runnable(e)] else [];
    hide Of, RunnableAll, Promote;
  }

  lemma OnRingOneMore(r: Ready, es: seq<Entry>, e: Entry, o: int)
    ensures OnRing(r, es + [e], o) <==> OnRing(r, es, o) || o == e.player
  {
    var more := es + [e];
    assert more[|es|] == e;
    assert forall i :: 0 <= i < |es| ==> more[i] == es[i];
  }

  lemma AppendedOne(r: Ready, r': Ready, es: seq<Entry>, e: Entry)
    requires Appended(r, r', es)
    ensures Appended(r, Promote(r', e), es + [e])
  {
    hide RunAppended, OnRing;
    var r'' := Promote(r', e);
    forall o ensures RunAppended(r, r'', es + [e], o) {
      PromotedRun(r, r', es, e, o);
    }
    forall o ensures o in r''.ring <==> OnRing(r, es + [e], o) {
      OnRingOneMore(r, es, e, o);
    }
  }

  lemma {:induction false} PromotedAppends(r: Ready, es: seq<Entry>)
    ensures Appended(r, PromoteAll(r, es), es)
  {
    hide Appended, Promote;
    if es == [] {
      AppendedNone(r);
    } else {
      PromotedAppends(r, es[..|es| - 1]);
      AppendedOne(r, PromoteAll(r, es[..|es| - 1]), es[..|es| - 1], es[|es| - 1]);
      assert es[..|es| - 1] + [es[|es| - 1]] == es;
    }
  }

  // ---------- notifications ----------

  // The commands that wait on this attribute of the object, or on any when attr is 0.
  function WaitingOn(q: seq<Entry>, thing: int, attr: int): seq<Entry> {
    if q == [] then []
    else (if q[0].sem == thing && (attr == 0 || q[0].attr == attr) then [q[0]] else []) + WaitingOn(q[1..], thing, attr)
  }

  // The queue without the first n of them.
  function Overtaken(q: seq<Entry>, thing: int, attr: int, n: nat): seq<Entry> {
    if q == [] then []
    else if n > 0 && q[0].sem == thing && (attr == 0 || q[0].attr == attr) then Overtaken(q[1..], thing, attr, n - 1)
    else [q[0]] + Overtaken(q[1..], thing, attr, n)
  }

  function FirstOf<T>(s: seq<T>, n: nat): seq<T> {
    if n < |s| then s[..n] else s
  }

  lemma {:induction false} TakenAreFirst(q: seq<Entry>, thing: int, attr: int, n: nat)
    ensures Taken(Waiting(thing, attr), q, n) == FirstOf(WaitingOn(q, thing, attr), n)
  {
    if n > 0 && q != [] {
      if q[0].sem == thing && (attr == 0 || q[0].attr == attr) {
        TakenAreFirst(q[1..], thing, attr, n - 1);
      } else {
        TakenAreFirst(q[1..], thing, attr, n);
      }
    }
  }

  lemma {:induction false} KeptAreOvertaken(q: seq<Entry>, thing: int, attr: int, n: nat)
    ensures Kept(Waiting(thing, attr), q, n) == Overtaken(q, thing, attr, n)
  {
    if n == 0 {
      NoneOvertaken(q, thing, attr);
    } else if q != [] {
      if q[0].sem == thing && (attr == 0 || q[0].attr == attr) {
        KeptAreOvertaken(q[1..], thing, attr, n - 1);
      } else {
        KeptAreOvertaken(q[1..], thing, attr, n);
      }
    }
  }

  lemma {:induction false} NoneOvertaken(q: seq<Entry>, thing: int, attr: int)
    ensures Overtaken(q, thing, attr, 0) == q
  {
    if q != [] {
      NoneOvertaken(q[1..], thing, attr);
    }
  }

  // How many commands a notification takes at most.
  function NotifiedMost(s: State, thing: int, attr: int, key: Key, n: nat): nat {
    if attr != 0 && Count(s.count, thing, attr) <= 0 then 0
    else if key == NotifyFirst then n
    else |s.sem|
  }

  // Exactly what a notification does. It takes the longest waiting commands of the
  // semaphore, unless its counter says that there are none; they run, or are gone
  // when it is a drain; and the counter is n less than it was, below zero if need
  // be, or nothing.
  lemma NotifyExactly(s: State, thing: int, attr: int, key: Key, n: nat)
    requires key == NotifyFirst ==> n > 0
    ensures var t := NfyQue(s, thing, attr, key, n);
            var m := NotifiedMost(s, thing, attr, key, n);
            var taken := FirstOf(WaitingOn(s.sem, thing, attr), m);
            && t.sem == Overtaken(s.sem, thing, attr, m)
            && (if key == Drain then t.ready == s.ready else Appended(s.ready, t.ready, taken))
            && (forall o, a :: (o, a) != (thing, attr) ==> Count(t.count, o, a) == Count(s.count, o, a))
            && Count(t.count, thing, attr) == (if key == NotifyFirst then Count(s.count, thing, attr) - n else 0)
            && t == s.(sem := t.sem, ready := t.ready, count := t.count)
  {
    var m := NotifiedMost(s, thing, attr, key, n);
    TakenAreFirst(s.sem, thing, attr, m);
    KeptAreOvertaken(s.sem, thing, attr, m);
    PromotedAppends(s.ready, Taken(Waiting(thing, attr), s.sem, m));
    hide Appended, Taken, Kept, PromoteAll;
  }

  // ---------- waits ----------

  lemma EnterAppends(r: Ready, e: Entry)
    ensures Appended(r, Enter(r, e.(sem := NOTHING, waittime := 0)), [e])
  {
    AppendedNone(r);
    AppendedOne(r, r, [], e);
    assert [] + [e] == [e];
  }

  // An admitted wait for a time is due exactly then, and goes behind what is due no
  // later; every run list stays as it was. With no time to wait it is at once the
  // last in the run list of its object.
  lemma TimedWaitDue(w: World, s: State, player: int, cause: int, howlong: int, comm: string)
    requires Shape(w, s) && Good(w, player)
    ensures var t := Perform(w, s, TimedWait(player, cause, howlong, comm, Admitted));
            var e := Entry(player, cause, NOTHING, s.now + howlong, 0, comm);
            howlong > 0 ==>
              && t == s.(wait := t.wait) && Sorted(t.wait) && multiset(t.wait) == multiset(s.wait) + multiset{e}
              && forall d :: DueAt(t.wait, d) == DueAt(s.wait, d) + if d == s.now + howlong then [e] else []
    ensures var t := Perform(w, s, TimedWait(player, cause, howlong, comm, Admitted));
            howlong <= 0 ==>
              && t == s.(ready := t.ready)
              && Appended(s.ready, t.ready, [Entry(player, cause, NOTHING, 0, 0, comm)])
  {
    var e := Entry(player, cause, NOTHING, if howlong > 0 then s.now + howlong else 0, 0, comm);
    if howlong > 0 {
      forall d
        ensures DueAt(InsertByTime(s.wait, e), d) == DueAt(s.wait, d) + if d == s.now + howlong then [e] else []
      {
        TimedInsertion(s.wait, e, d);
      }
      InsertionKeepsSorted(s.wait, e);
      InsertedOnce(s.wait, e);
    } else {
      EnterAppends(s.ready, e);
    }
    hide Appended, Sorted, InsertByTime, Enter;
  }

  lemma {:induction false} InsertedOnce(q: seq<Entry>, e: Entry)
    ensures multiset(InsertByTime(q, e)) == multiset(q) + multiset{e}
  {
    if q != [] && q[0].waittime <= e.waittime {
      InsertedOnce(q[1..], e);
      assert q == [q[0]] + q[1..];
    }
  }

  // A wait on a semaphore raises its counter by one. While that is not above zero,
  // because there were more notifications than waits, the command runs at once,
  // whatever its timeout; otherwise it is last in the queue, with its deadline if it
  // has one.
  lemma SemWaitDue(w: World, s: State, player: int, cause: int, thing: int, attr: int, howlong: int, comm: string)
    requires 0 <= s.now && Good(w, player) && Good(w, thing) && attr > 0
    ensures var t := Perform(w, s, SemWait(player, cause, thing, attr, howlong, comm, Admitted));
            var deadline := if howlong > 0 then s.now + howlong else 0;
            && (forall o, a :: (o, a) != (thing, attr) ==> Count(t.count, o, a) == Count(s.count, o, a))
            && Count(t.count, thing, attr) == Count(s.count, thing, attr) + 1
            && (Count(s.count, thing, attr) < 0 ==>
                  && t == s.(ready := t.ready, count := t.count)
                  && Appended(s.ready, t.ready, [Entry(player, cause, NOTHING, 0, attr, comm)]))
            && (Count(s.count, thing, attr) >= 0 ==>
                  && t == s.(sem := t.sem, count := t.count)
                  && t.sem == s.sem + [Entry(player, cause, thing, deadline, attr, comm)])
  {
    EnterAppends(s.ready, Entry(player, cause, NOTHING, 0, attr, comm));
    hide Appended;
  }

  // A wait that is refused has raised its counter all the same, and does no more.
  lemma RefusedRaises(w: World, s: State, player: int, cause: int, thing: int, attr: int, howlong: int, comm: string)
    requires Good(w, player) && Good(w, thing) && attr > 0
    ensures var t := Perform(w, s, SemWait(player, cause, thing, attr, howlong, comm, Refused));
            && t == s.(count := t.count)
            && (forall o, a :: Count(t.count, o, a) == Count(s.count, o, a) + if (o, a) == (thing, attr) then 1 else 0)
    ensures Perform(w, s, TimedWait(player, cause, howlong, comm, Refused)) == s
  {
  }

  // ---------- notifications ahead of the waits ----------

  ghost predicate SemWaits(w: World, waits: seq<Action>, thing: int, attr: int) {
    && Good(w, thing) && attr > 0
    && forall i :: 0 <= i < |waits| ==> SemWaitOn(w, waits[i], thing, attr)
  }

  predicate SemWaitOn(w: World, a: Action, thing: int, attr: int) {
    a.SemWait? && Good(w, a.player) && a.thing == thing && a.attr == attr && a.admission == Admitted
  }

  // The commands of such waits, when they run at once and when they are blocked.
  function RunAs(waits: seq<Action>): (r: seq<Entry>)
    requires forall i :: 0 <= i < |waits| ==> waits[i].SemWait?
    ensures |r| == |waits|
  {
    seq(|waits|, i requires 0 <= i < |waits| =>
      Entry(waits[i].player, waits[i].cause, NOTHING, 0, waits[i].attr, waits[i].comm))
  }

  function BlockedAs(waits: seq<Action>, now: int): (r: seq<Entry>)
    requires forall i :: 0 <= i < |waits| ==> waits[i].SemWait?
    ensures |r| == |waits|
  {
    seq(|waits|, i requires 0 <= i < |waits| =>
      var a := waits[i];
      Entry(a.player, a.cause, a.thing, if a.howlong > 0 then now + a.howlong else 0, a.attr, a.comm))
  }

  lemma AppendedThen(r: Ready, r': Ready, r'': Ready, es: seq<Entry>, e: Entry)
    requires Appended(r, r', es) && Appended(r', r'', [e])
    ensures Appended(r, r'', es + [e])
  {
    hide OnRing, RunAppended;
    forall o ensures RunAppended(r, r'', es + [e], o) {
      assert RunAppended(r, r', es, o) && RunAppended(r', r'', [e], o);
      RunAppendedThen(r, r', r'', es, e, o);
    }
    forall o ensures o in r''.ring <==> OnRing(r, es + [e], o) {
      OnRingOneMore(r, es, e, o);
      OnRingOneMore(r', [], e, o);
      assert [] + [e] == [e];
      assert !OnRing(r', [], o) <==> o !in r'.ring by {
        NobodyMore(r', o);
      }
    }
  }

  lemma NobodyMore(r: Ready, o: int)
    ensures OnRing(r, [], o) <==> o in r.ring
  {
  }

  lemma RunAppendedThen(r: Ready, r': Ready, r'': Ready, es: seq<Entry>, e: Entry, o: int)
    requires RunAppended(r, r', es, o) && RunAppended(r', r'', [e], o)
    ensures RunAppended(r, r'', es + [e], o)
  {
    OfOneMore(es, e, o);
    OfOneMore([], e, o);
    assert [] + [e] == [e];
    RunnableOneMore(Of(es, o), e);
    RunnableOneMore([], e);
    hide Of, RunnableAll;
  }

  // How many of the waits find that they were notified.
  function Forestalled(count: int, waits: nat): nat {
    if count >= 0 then 0 else if -count < waits then -count else waits
  }

  ghost predicate CameToWait(s: State, t: State, thing: int, attr: int, waits: seq<Action>)
    requires forall i :: 0 <= i < |waits| ==> waits[i].SemWait?
  {
    var k := Forestalled(Count(s.count, thing, attr), |waits|);
    && t == s.(ready := t.ready, sem := t.sem, count := t.count)
    && Appended(s.ready, t.ready, RunAs(waits[..k]))
    && t.sem == s.sem + BlockedAs(waits[k..], s.now)
    && Count(t.count, thing, attr) == Count(s.count, thing, attr) + |waits|
    && forall o, a :: (o, a) != (thing, attr) ==> Count(t.count, o, a) == Count(s.count, o, a)
  }

  lemma RunsOneMore(front: seq<Action>, a: Action)
    requires (forall i :: 0 <= i < |front| ==> front[i].SemWait?) && a.SemWait?
    ensures RunAs((front + [a])[..|front| + 1])
         == RunAs(front[..|front|]) + [Entry(a.player, a.cause, NOTHING, 0, a.attr, a.comm)]
  {
    assert (front + [a])[..|front| + 1] == front + [a] && front[..|front|] == front;
  }

  lemma BlocksOneMore(front: seq<Action>, a: Action, k: nat, now: int)
    requires (forall i :: 0 <= i < |front| ==> front[i].SemWait?) && a.SemWait? && k <= |front|
    ensures RunAs((front + [a])[..k]) == RunAs(front[..k])
    ensures BlockedAs((front + [a])[k..], now)
         == BlockedAs(front[k..], now)
            + [Entry(a.player, a.cause, a.thing, if a.howlong > 0 then now + a.howlong else 0, a.attr, a.comm)]
  {
    assert (front + [a])[..k] == front[..k] && (front + [a])[k..] == front[k..] + [a];
  }

  lemma NoneBlocked(waits: seq<Action>, k: nat, now: int)
    requires (forall i :: 0 <= i < |waits| ==> waits[i].SemWait?) && k == |waits|
    ensures BlockedAs(waits[k..], now) == []
  {
  }

  lemma OneMoreWait(w: World, s: State, s': State, thing: int, attr: int, front: seq<Action>, a: Action)
    requires SemWaits(w, front, thing, attr) && SemWaitOn(w, a, thing, attr) && 0 <= s.now
    requires CameToWait(s, s', thing, attr, front)
    ensures CameToWait(s, Perform(w, s', a), thing, attr, front + [a])
  {
    hide Appended, Perform, Count, RunAs, BlockedAs;
    var t := Perform(w, s', a);
    SemWaitDue(w, s', a.player, a.cause, thing, attr, a.howlong, a.comm);
    assert a == SemWait(a.player, a.cause, thing, attr, a.howlong, a.comm, Admitted);
    var c := Count(s.count, thing, attr);
    if c + |front| < 0 {
      RunsOneMore(front, a);
      NoneBlocked(front, |front|, s.now);
      NoneBlocked(front + [a], |front| + 1, s.now);
      AppendedThen(s.ready, s'.ready, t.ready, RunAs(front[..|front|]),
                   Entry(a.player, a.cause, NOTHING, 0, attr, a.comm));
    } else {
      BlocksOneMore(front, a, Forestalled(c, |front|), s.now);
    }
  }

  lemma NobodyCame(s: State, thing: int, attr: int)
    ensures CameToWait(s, s, thing, attr, [])
  {
    AppendedNone(s.ready);
    assert RunAs([]) == [] && BlockedAs([], s.now) == [];
    hide Appended;
  }

  // Waits on one semaphore, one after the other: as many as it was notified too often
  // run at once, in their order, and the others are blocked behind those that were.
  lemma {:induction false} WaitsInTurn(w: World, s: State, thing: int, attr: int, waits: seq<Action>)
    requires 0 <= s.now && SemWaits(w, waits, thing, attr)
    ensures CameToWait(s, PerformAll(w, s, waits), thing, attr, waits)
  {
    hide CameToWait, Perform;
    if waits == [] {
      NobodyCame(s, thing, attr);
    } else {
      var front, a := waits[..|waits| - 1], waits[|waits| - 1];
      WaitsInTurn(w, s, thing, attr, front);
      OneMoreWait(w, s, PerformAll(w, s, front), thing, attr, front, a);
      assert waits == front + [a];
    }
  }

  // Notifications are not lost when nothing waits: after n of them ahead of the waits,
  // the next n waits run at once and those after them are blocked.
  lemma NotifiedAhead(w: World, s: State, thing: int, attr: int, n: nat, waits: seq<Action>)
    requires 0 <= s.now && Count(s.count, thing, attr) == 0 && n > 0 && SemWaits(w, waits, thing, attr)
    ensures var t := PerformAll(w, Perform(w, s, Notify(thing, attr, NotifyFirst, n)), waits);
            var k := if n < |waits| then n else |waits|;
            && Appended(s.ready, t.ready, RunAs(waits[..k]))
            && t.sem == s.sem + BlockedAs(waits[k..], s.now)
            && Count(t.count, thing, attr) == |waits| - n
  {
    var s' := Perform(w, s, Notify(thing, attr, NotifyFirst, n));
    NotifyExactly(s, thing, attr, NotifyFirst, n);
    NoneOvertaken(s.sem, thing, attr);
    assert s'.ready == s.ready;
    WaitsInTurn(w, s', thing, attr, waits);
  }

  // ---------- deadlines ----------

  // The commands without a deadline and those whose deadline is still to come.
  function NotDue(q: seq<Entry>, now: int): seq<Entry> {
    if q == [] then []
    else (if q[0].waittime == 0 || q[0].waittime > now then [q[0]] else []) + NotDue(q[1..], now)
  }

  function Due(q: seq<Entry>, now: int): seq<Entry> {
    if q == [] then []
    else (if q[0].waittime == 0 || q[0].waittime > now then [] else [q[0]]) + Due(q[1..], now)
  }

  lemma {:induction false} ExpiredAreDue(q: seq<Entry>, now: int, n: nat)
    requires |q| <= n
    ensures Taken(Expired(now), q, n) == Due(q, now)
    ensures Kept(Expired(now), q, n) == NotDue(q, now)
  {
    if q != [] {
      if q[0].waittime == 0 || q[0].waittime > now {
        ExpiredAreDue(q[1..], now, n);
      } else {
        ExpiredAreDue(q[1..], now, n - 1);
      }
    }
  }

  lemma {:induction false} NotDueTimes(q: seq<Entry>, now: int, e: Entry)
    ensures multiset(NotDue(q, now))[e] == if e.waittime == 0 || e.waittime > now then multiset(q)[e] else 0
  {
    if q != [] {
      NotDueTimes(q[1..], now, e);
      assert q == [q[0]] + q[1..];
    }
  }

  // Exactly what do_second does while the queue is on. A command is blocked afterwards
  // just when it was before and has no deadline or one that is still to come, in the
  // same order and as often; the others are last in the run lists, in their order, and
  // the counters are lower by one for each of them.
  lemma SecondExactly(s: State)
    ensures !s.dequeue ==> DoSecond(s) == s
    ensures s.dequeue ==>
              var t, due := DoSecond(s), Due(s.sem, s.now);
              && t == s.(sem := NotDue(s.sem, s.now), ready := t.ready, count := t.count)
              && Appended(s.ready, t.ready, due)
              && (forall e :: multiset(t.sem)[e] ==
                    if e.waittime == 0 || e.waittime > s.now then multiset(s.sem)[e] else 0)
              && forall o, a :: Count(t.count, o, a) == Count(s.count, o, a) - Waiters(due, o, a)
  {
    if s.dequeue {
      ExpiredAreDue(s.sem, s.now, |s.sem|);
      PromotedAppends(s.ready, Due(s.sem, s.now));
      forall o, a
        ensures Count(Release(s.count, Due(s.sem, s.now)), o, a)
             == Count(s.count, o, a) - Waiters(Due(s.sem, s.now), o, a)
      {
        ReleaseCounts(s.count, Due(s.sem, s.now), o, a);
      }
      forall e ensures multiset(NotDue(s.sem, s.now))[e] ==
                         if e.waittime == 0 || e.waittime > s.now then multiset(s.sem)[e] else 0 {
        NotDueTimes(s.sem, s.now, e);
      }
      hide Appended, Release, PromoteAll, Count, Waiters, Due, NotDue, Taken, Kept;
    }
  }

  // What stays blocked when time is warped, each deadline so much nearer.
  function WarpedNotDue(q: seq<Entry>, now: int, seconds: int): seq<Entry> {
    if q == [] then []
    else if q[0].waittime == 0 then [q[0]] + WarpedNotDue(q[1..], now, seconds)
    else if q[0].waittime > 0 && q[0].waittime - seconds > now then
      [q[0].(waittime := q[0].waittime - seconds)] + WarpedNotDue(q[1..], now, seconds)
    else WarpedNotDue(q[1..], now, seconds)
  }

  function WarpedDue(q: seq<Entry>, now: int, seconds: int): seq<Entry> {
    if q == [] then []
    else if q[0].waittime == 0 || (q[0].waittime > 0 && q[0].waittime - seconds > now) then
      WarpedDue(q[1..], now, seconds)
    else [q[0]] + WarpedDue(q[1..], now, seconds)
  }

  // The same commands, apart from their deadlines.
  ghost predicate AlikeButTime(es: seq<Entry>, fs: seq<Entry>) {
    |es| == |fs| && forall i :: 0 <= i < |es| ==> es[i].(waittime := 0) == fs[i].(waittime := 0)
  }

  lemma {:induction false} WarpedAreDue(q: seq<Entry>, now: int, seconds: int)
    requires 0 <= now
    ensures NotDue(AdvanceAll(q, seconds), now) == WarpedNotDue(q, now, seconds)
    ensures AlikeButTime(Due(AdvanceAll(q, seconds), now), WarpedDue(q, now, seconds))
  {
    if q != [] {
      WarpedAreDue(q[1..], now, seconds);
      assert AdvanceAll(q, seconds)[1..] == AdvanceAll(q[1..], seconds);
    }
  }

  lemma {:induction false} AlikeRun(es: seq<Entry>, fs: seq<Entry>, o: int)
    requires AlikeButTime(es, fs)
    ensures RunnableAll(Of(es, o)) == RunnableAll(Of(fs, o))
  {
    if es != [] {
      assert es[0].(waittime := 0) == fs[0].(waittime := 0);
      AlikeRun(es[1..], fs[1..], o);
      OfFirst(es, o);
      OfFirst(fs, o);
      hide Of;
      RunnableFirst(es[0], Of(es[1..], o));
      RunnableFirst(fs[0], Of(fs[1..], o));
    }
  }

  lemma RunnableFirst(e: Entry, es: seq<Entry>)
    ensures RunnableAll([e] + es) == [Runnable(e)] + RunnableAll(es)
  {
  }

  lemma AlikeAppended(r: Ready, r': Ready, es: seq<Entry>, fs: seq<Entry>)
    requires Appended(r, r', es) && AlikeButTime(es, fs)
    ensures Appended(r, r', fs)
  {
    hide Of, RunnableAll;
    forall o ensures RunAppended(r, r', fs, o) {
      AlikeRun(es, fs, o);
      assert RunAppended(r, r', es, o);
    }
    forall o ensures OnRing(r, es, o) == OnRing(r, fs, o) {
      assert forall i :: 0 <= i < |es| ==> es[i].(waittime := 0).player == fs[i].(waittime := 0).player;
    }
  }

  // Exactly what a warp does, whether the queue is on or not: a command stays blocked
  // just when it has no deadline or one that is later than the seconds that are warped,
  // which is so much nearer then; the others are last in the run lists.
  lemma WarpExactly(s: State, seconds: int)
    requires 0 <= s.now
    ensures var t, due := DoWarp(s, seconds), WarpedDue(s.sem, s.now, seconds);
            && t == s.(sem := WarpedNotDue(s.sem, s.now, seconds), ready := t.ready, count := t.count)
            && Appended(s.ready, t.ready, due)
            && forall o, a :: Count(t.count, o, a) == Count(s.count, o, a) - Waiters(due, o, a)
  {
    hide Appended, Count;
    var s' := s.(sem := AdvanceAll(s.sem, seconds), dequeue := true);
    var due := WarpedDue(s.sem, s.now, seconds);
    SecondExactly(s');
    WarpedAreDue(s.sem, s.now, seconds);
    AlikeAppended(s.ready, DoSecond(s').ready, Due(s'.sem, s.now), due);
    forall o, a ensures Waiters(Due(s'.sem, s.now), o, a) == Waiters(due, o, a) {
      AlikeWaiters(Due(s'.sem, s.now), due, o, a);
    }
    hide DoSecond, Waiters, Due, WarpedDue, NotDue, WarpedNotDue;
  }

  lemma {:induction false} AlikeWaiters(es: seq<Entry>, fs: seq<Entry>, o: int, a: int)
    requires AlikeButTime(es, fs)
    ensures Waiters(es, o, a) == Waiters(fs, o, a)
  {
    if es != [] {
      assert es[0].(waittime := 0) == fs[0].(waittime := 0);
      AlikeWaiters(es[1..], fs[1..], o, a);
    }
  }

  // ---------- a command without a deadline waits until it is released ----------

  // The action may take this blocked command off its queue: a notification or drain of
  // its semaphore, a halt that may mean it, or the end of its object or of the object
  // it waits on.
  predicate Frees(a: Action, e: Entry) {
    match a
    case TimedWait(_, _, _, _, admission) => admission == RanAway
    case SemWait(_, _, _, _, _, _, admission) => admission == RanAway
    case Notify(thing, attr, _, _) => thing == e.sem && (attr == 0 || attr == e.attr)
    case Halt(_, obj) => obj == NOTHING || obj == e.player
    case Destroy(obj) => obj == e.player || obj == e.sem
    case Warp(_) => false
    case Own(_, _) => false
  }

  ghost predicate FreesIn(ev: Event, e: Entry) {
    match ev
    case Command(a) => Frees(a, e)
    case Top(_, exec) => exists n: nat, a :: a in exec(n) && Frees(a, e)
    case _ => false
  }

  lemma {:induction false} KeptTimes(want: Want, q: seq<Entry>, n: nat, e: Entry)
    requires !Wants(want, e)
    ensures multiset(Kept(want, q, n))[e] == multiset(q)[e]
  {
    if q != [] && n != 0 {
      KeptTimes(want, q[1..], if Wants(want, q[0]) then n - 1 else n, e);
      assert q == [q[0]] + q[1..];
    }
  }

  lemma TimesBehindFirst(q: seq<Entry>, first: Entry, rest: seq<Entry>, e: Entry)
    requires q == [first] + rest
    ensures multiset(q)[e] == (if first == e then 1 else 0) + multiset(rest)[e]
  {
  }

  lemma {:induction false} AdvancedTimes(q: seq<Entry>, seconds: int, e: Entry)
    requires e.waittime == 0
    ensures multiset(AdvanceAll(q, seconds))[e] == multiset(q)[e]
  {
    if q == [] {
      assert AdvanceAll(q, seconds) == [];
    } else {
      AdvancedTimes(q[1..], seconds, e);
      TimesBehindFirst(q, q[0], q[1..], e);
      AdvanceFirst(q, seconds);
      TimesBehindFirst(AdvanceAll(q, seconds), Advance(q[0], seconds), AdvanceAll(q[1..], seconds), e);
    }
    hide AdvanceAll;
  }

  lemma AdvanceFirst(q: seq<Entry>, seconds: int)
    requires q != []
    ensures AdvanceAll(q, seconds) == [Advance(q[0], seconds)] + AdvanceAll(q[1..], seconds)
  {
  }

  lemma SecondHolds(s: State, e: Entry)
    requires e.waittime == 0
    ensures multiset(DoSecond(s).sem)[e] == multiset(s.sem)[e]
  {
    KeptTimes(Expired(s.now), s.sem, |s.sem|, e);
  }

  lemma PerformHolds(w: World, s: State, a: Action, e: Entry)
    requires Allowed(w, a) && e.waittime == 0 && e.sem != NOTHING && !Frees(a, e)
    ensures multiset(Perform(w, s, a).sem)[e] >= multiset(s.sem)[e]
  {
    match a
    case TimedWait(_, _, _, _, _) =>
    case SemWait(_, _, _, _, _, _, _) =>
    case Notify(thing, attr, key, n) =>
      KeptTimes(Waiting(thing, attr), s.sem, NotifyLimit(s, thing, attr, key, n), e);
    case Halt(player, obj) => KeptTimes(Halted(s.owner, player, obj), s.sem, |s.sem|, e);
    case Warp(seconds) =>
      AdvancedTimes(s.sem, seconds, e);
      SecondHolds(s.(sem := AdvanceAll(s.sem, seconds), dequeue := true), e);
    case Own(_, _) =>
    case Destroy(obj) =>
      var halted := HaltQue(w, s, NOTHING, obj);
      KeptTimes(Halted(s.owner, NOTHING, obj), s.sem, |s.sem|, e);
      KeptTimes(Waiting(obj, 0), halted.sem, |halted.sem|, e);
  }

  lemma {:induction false} ScriptHolds(w: World, s: State, script: seq<Action>, e: Entry)
    requires forall a :: a in script ==> Allowed(w, a) && !Frees(a, e)
    requires e.waittime == 0 && e.sem != NOTHING
    ensures multiset(PerformAll(w, s, script).sem)[e] >= multiset(s.sem)[e]
  {
    hide Perform;
    if script != [] {
      ScriptHolds(w, s, script[..|script| - 1], e);
      PerformHolds(w, PerformAll(w, s, script[..|script| - 1]), script[|script| - 1], e);
    }
  }

  lemma {:induction false} ServeHolds(w: World, s: State, ncmds: int, exec: nat -> seq<Action>, n: nat, e: Entry)
    requires AllowedScripts(w, exec) && e.waittime == 0 && e.sem != NOTHING
    requires forall k: nat, a :: a in exec(k) ==> !Frees(a, e)
    ensures multiset(Serve(w, s, ncmds, exec, n).state.sem)[e] >= multiset(s.sem)[e]
    decreases ncmds - n, |s.ready.ring|
  {
    hide Perform, PerformAll;
    if n < ncmds && s.ready.ring != [] {
      var s' := s.(ready := Turn(s.ready));
      if Pending(s.ready, s.ready.ring[0]) == [] {
        ServeHolds(w, s', ncmds, exec, n, e);
      } else {
        ScriptHolds(w, s', exec(n), e);
        ServeHolds(w, PerformAll(w, s', exec(n)), ncmds, exec, n + 1, e);
      }
    }
  }

  // Over every run: as often as a command without a deadline is blocked, so often it
  // stays blocked until something frees it. No clock does.
  lemma {:induction false} UntimedStays(w: World, s: State, events: seq<Event>, t: State, e: Entry)
    requires Reaches(w, s, events, t) && e.waittime == 0 && e.sem != NOTHING
    requires forall ev :: ev in events ==> !FreesIn(ev, e)
    ensures multiset(t.sem)[e] >= multiset(s.sem)[e]
    decreases |events|
  {
    hide Perform, DoSecond;
    if events != [] {
      var s', ev := Next(w, s, events[0]), events[0];
      assert !FreesIn(ev, e);
      match ev {
        case Command(a) => PerformHolds(w, s, a, e);
        case Second => SecondHolds(s, e);
        case Top(ncmds, exec) => ServeHolds(w, s, ncmds, exec, 0, e);
        case _ =>
      }
      hide Next;
      UntimedStays(w, s', events[1..], t, e);
    }
  }

  // ---------- timers, halts and destruction ----------

  // The timer of a waiting command puts it last in the run list of its object.
  lemma WakeExactly(s: State, i: nat)
    requires i < |s.wait|
    ensures var t := DoWake(s, i);
            && t == s.(wait := s.wait[..i] + s.wait[i + 1..], ready := t.ready)
            && Appended(s.ready, t.ready, [s.wait[i]])
  {
    EnterAppends(s.ready, s.wait[i]);
  }

  // A halt lowers each counter by as many waiters as are gone, and changes nothing but
  // the queues and the counters; nobody loses his place on the ring.
  lemma HaltCounts(w: World, s: State, player: int, obj: int, o: int, a: int)
    ensures var t := HaltQue(w, s, player, obj);
            && Count(t.count, o, a)
               == Count(s.count, o, a) - (Waiters(s.sem, o, a) - Waiters(Left(s.owner, player, obj, s.sem), o, a))
            && t.ready.ring == s.ready.ring
            && t == s.(ready := t.ready, wait := t.wait, sem := t.sem, count := t.count)
  {
    var want := Halted(s.owner, player, obj);
    KeptAreLeft(s.owner, player, obj, s.sem, |s.sem|);
    ReleaseCounts(s.count, Taken(want, s.sem, |s.sem|), o, a);
    WaitersSplit(want, s.sem, |s.sem|, o, a);
  }

  // The commands that have nothing to do with this object.
  function Strangers(q: seq<Entry>, obj: int): seq<Entry> {
    if q == [] then []
    else (if q[0].player != obj && q[0].sem != obj then [q[0]] else []) + Strangers(q[1..], obj)
  }

  lemma {:induction false} HaltAndDrain(owner: Owners, q: seq<Entry>, obj: int, n: nat)
    requires obj != NOTHING && |q| <= n
    ensures |Left(owner, NOTHING, obj, q)| <= |q|
    ensures Kept(Waiting(obj, 0), Left(owner, NOTHING, obj, q), n) == Strangers(q, obj)
  {
    if q != [] {
      HaltAndDrain(owner, q[1..], obj, n - 1);
      HaltAndDrain(owner, q[1..], obj, n);
    }
  }

  lemma {:induction false} HaltsOwn(owner: Owners, q: seq<Entry>, obj: int)
    requires obj != NOTHING && forall e :: e in q ==> e.sem == NOTHING
    ensures Left(owner, NOTHING, obj, q) == Strangers(q, obj)
  {
    if q != [] {
      HaltsOwn(owner, q[1..], obj);
    }
  }

  // Exactly what the end of an object does: its commands and those that wait on it are
  // gone, all others stay in their places; its counters are gone, and those of other
  // objects are lower by its commands that waited there; it belongs to #1.
  lemma DestroyExactly(w: World, s: State, obj: int, o: int, a: int)
    requires Shape(w, s) && Good(w, obj)
    ensures var t := DestroyObj(w, s, obj);
            && Pending(t.ready, o) == (if o == obj then [] else Pending(s.ready, o))
            && t.wait == Strangers(s.wait, obj) && t.sem == Strangers(s.sem, obj)
            && Count(t.count, o, a) == (if o == obj then 0
                                        else Count(s.count, o, a) - (Waiters(s.sem, o, a) - Waiters(t.sem, o, a)))
            && OwnerOf(t.owner, o) == (if o == obj then GOD else OwnerOf(s.owner, o))
            && t.ready.ring == s.ready.ring && t.now == s.now && t.dequeue == s.dequeue
  {
    HaltSurvivors(w, s, NOTHING, obj, o);
    HaltCounts(w, s, NOTHING, obj, o, a);
    HaltAndDrain(s.owner, s.sem, obj, |s.sem|);
    HaltsOwn(s.owner, s.wait, obj);
    var halted := HaltQue(w, s, NOTHING, obj);
    KeptLimit(Waiting(obj, 0), halted.sem, |s.sem|);
    if o != obj {
      OthersWait(halted.sem, obj, o, a);
    }
    hide HaltQue, Left, Strangers, Kept, Waiters;
  }

  // ---------- the numbers that are told to the player ----------

  lemma {:induction false} TakenSize(want: Want, q: seq<Entry>, n: nat)
    ensures |Taken(want, q, n)| == |q| - |Kept(want, q, n)|
  {
    if q != [] && n != 0 {
      TakenSize(want, q[1..], if Wants(want, q[0]) then n - 1 else n);
    }
  }

  // A halt tells how many commands it took off the two run lists and off the queues,
  // and a notification how many it took off the semaphore queue.
  lemma NumbersTold(w: World, s: State, player: int, obj: int, thing: int, attr: int, key: Key, n: nat)
    requires key == NotifyFirst ==> n > 0
    ensures var t := HaltQue(w, s, player, obj);
            HaltCount(w, s, player, obj)
            == |Pending(s.ready, player)| + (if obj == player then 0 else |Pending(s.ready, obj)|)
               + (|s.wait| - |t.wait|) + (|s.sem| - |t.sem|)
    ensures |Taken(Waiting(thing, attr), s.sem, NotifyLimit(s, thing, attr, key, n))|
         == |s.sem| - |NfyQue(s, thing, attr, key, n).sem|
  {
    TakenSize(Halted(s.owner, player, obj), s.wait, |s.wait|);
    TakenSize(Halted(s.owner, player, obj), s.sem, |s.sem|);
    TakenSize(Waiting(thing, attr), s.sem, NotifyLimit(s, thing, attr, key, n));
    hide Taken, Kept, Release, PromoteAll;
  }
}
