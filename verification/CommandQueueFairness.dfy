// Who is served when: the turns of the ring, the order within one object, and
// what becomes of every command that was asked for.
module CommandQueueFairness {
  import opened CommandQueueSpec
  import opened CommandQueueInvariant

  // Nothing is taken from o and no place on the ring is lost.
  ghost predicate Grows(r: Ready, r': Ready, o: int) {
    r.ring <= r'.ring && Pending(r, o) <= Pending(r', o)
  }

  // The action does not empty the run list of o.
  predicate Spares(s: State, a: Action, o: int) {
    match a
    case TimedWait(player, _, _, _, admission) => admission == RanAway ==> OwnerOf(s.owner, player) != o
    case SemWait(player, _, _, _, _, _, admission) => admission == RanAway ==> OwnerOf(s.owner, player) != o
    case Halt(player, obj) => player != o && obj != o
    case Destroy(obj) => obj != o
    case _ => true
  }

  predicate SparesAll(w: World, s: State, script: seq<Action>, o: int)
    requires forall a :: a in script ==> Allowed(w, a)
  {
    script == []
    || (var front := script[..|script| - 1];
        SparesAll(w, s, front, o) && Spares(PerformAll(w, s, front), script[|script| - 1], o))
  }

  lemma {:induction false} PromoteAllGrows(r: Ready, es: seq<Entry>, o: int)
    ensures Grows(r, PromoteAll(r, es), o)
  {
    if es != [] {
      PromoteAllGrows(r, es[..|es| - 1], o);
    }
  }

  lemma HaltGrows(w: World, s: State, player: int, obj: int, o: int)
    requires player != o && obj != o
    ensures Grows(s.ready, HaltQue(w, s, player, obj).ready, o)
  {
  }

  lemma WaitQueGrows(w: World, s: State, player: int, cause: int, howlong: int, sem: int, attr: int, comm: string,
                     admission: Admission, o: int)
    requires o != NOTHING && (admission == RanAway ==> OwnerOf(s.owner, player) != o)
    ensures Grows(s.ready, WaitQue(w, s, player, cause, howlong, sem, attr, comm, admission).ready, o)
  {
    if admission == RanAway {
      HaltGrows(w, s, OwnerOf(s.owner, player), NOTHING, o);
    }
  }

  lemma PerformGrows(w: World, s: State, a: Action, o: int)
    requires Allowed(w, a) && Spares(s, a, o) && o != NOTHING
    ensures Grows(s.ready, Perform(w, s, a).ready, o)
  {
    hide WaitQue, HaltQue, Grows;
    match a
    case TimedWait(player, cause, howlong, comm, admission) =>
      WaitQueGrows(w, s, player, cause, howlong, NOTHING, 0, comm, admission, o);
    case SemWait(player, cause, thing, attr, howlong, comm, admission) =>
      var s' := s.(count := AddTo(s.count, thing, 1, attr));
      WaitQueGrows(w, s', player, cause, 0, NOTHING, attr, comm, admission, o);
      WaitQueGrows(w, s', player, cause, howlong, thing, attr, comm, admission, o);
    case Notify(thing, attr, key, count) =>
      PromoteAllGrows(s.ready, [], o);
      PromoteAllGrows(s.ready, Taken(Waiting(thing, attr), s.sem, NotifyLimit(s, thing, attr, key, count)), o);
    case Halt(player, obj) => HaltGrows(w, s, player, obj, o);
    case Warp(seconds) =>
      var sem := AdvanceAll(s.sem, seconds);
      PromoteAllGrows(s.ready, Taken(Expired(s.now), sem, |sem|), o);
    case Own(_, _) => PromoteAllGrows(s.ready, [], o);
    case Destroy(obj) => HaltGrows(w, s, NOTHING, obj, o);
  }

  lemma {:induction false} PerformAllGrows(w: World, s: State, script: seq<Action>, o: int)
    requires o != NOTHING && (forall a :: a in script ==> Allowed(w, a)) && SparesAll(w, s, script, o)
    ensures Grows(s.ready, PerformAll(w, s, script).ready, o)
  {
    if script != [] {
      PerformAllGrows(w, s, script[..|script| - 1], o);
      PerformGrows(w, PerformAll(w, s, script[..|script| - 1]), script[|script| - 1], o);
    }
  }

  // No command served in this round empties the run list of o.
  ghost predicate RoundSpares(w: World, s: State, ncmds: int, exec: nat -> seq<Action>, n: nat, o: int)
    requires AllowedScripts(w, exec)
    decreases ncmds - n, |s.ready.ring|
  {
    n < ncmds && s.ready.ring != [] ==>
      var s' := s.(ready := Turn(s.ready));
      if Pending(s.ready, s.ready.ring[0]) == [] then RoundSpares(w, s', ncmds, exec, n, o)
      else
        && SparesAll(w, s', exec(n), o)
        && RoundSpares(w, PerformAll(w, s', exec(n)), ncmds, exec, n + 1, o)
  }

  // The k-th command served is the first of o, and before it come commands of
  // different objects that stood before o on the ring.
  ghost predicate ServedAt(served: seq<Entry>, k: nat, first: Entry, ahead: seq<int>) {
    && k <= |ahead| && k < |served| && served[k] == first
    && (forall i :: 0 <= i < k ==> served[i].player in ahead)
    && (forall i, j :: 0 <= i < j < k ==> served[i].player != served[j].player)
  }

  // An object at position p of the ring with a pending command is served after
  // at most p other commands, one for each object ahead of it at most, whatever
  // the commands do in between short of halting the object itself.
  lemma {:induction false} ServedInTurn(w: World, s: State, ncmds: int, exec: nat -> seq<Action>, n: nat, p: nat)
      returns (k: nat)
    requires Shape(w, s) && AllowedScripts(w, exec)
    requires p < |s.ready.ring| && n + p < ncmds
    requires Pending(s.ready, s.ready.ring[p]) != [] && RoundSpares(w, s, ncmds, exec, n, s.ready.ring[p])
    ensures ServedAt(Serve(w, s, ncmds, exec, n).served, k,
                     Pending(s.ready, s.ready.ring[p])[0], s.ready.ring[..p])
    decreases p
  {
    hide Shape, Perform, PerformAll;
    var o := s.ready.ring[p];
    var q := Pending(s.ready, s.ready.ring[0]);
    if p == 0 {
      k := 0;
    } else {
      hide ServedAt;
      var s' := s.(ready := Turn(s.ready));
      TurnKeeps(w, s);
      TurnMovesUp(w, s, p);
      if q == [] {
        var j := ServedInTurn(w, s', ncmds, exec, n, p - 1);
        k := j;
        ServedFurtherBack(Serve(w, s', ncmds, exec, n).served, j, Pending(s.ready, o)[0], s.ready.ring[..p]);
      } else {
        var s'' := PerformAll(w, s', exec(n));
        PerformAllKeeps(w, s', exec(n));
        PerformAllGrows(w, s', exec(n), o);
        assert s''.ready.ring[..p - 1] == s'.ready.ring[..p - 1];
        var j := ServedInTurn(w, s'', ncmds, exec, n + 1, p - 1);
        k := j + 1;
        ServedNext(q[0], Serve(w, s'', ncmds, exec, n + 1).served, j, Pending(s.ready, o)[0], s.ready.ring[..p]);
      }
    }
  }

  lemma TurnMovesUp(w: World, s: State, p: nat)
    requires Shape(w, s) && 0 < p < |s.ready.ring|
    ensures var r, r' := s.ready, Turn(s.ready);
            && p <= |r'.ring| && r'.ring[p - 1] == r.ring[p] && r'.ring[..p - 1] == r.ring[1..p] == r.ring[..p][1..]
            && Pending(r', r.ring[p]) == Pending(r, r.ring[p])
            && r.ring[0] !in r.ring[1..p] && r.ring[p] != NOTHING
  {
    assert s.ready.ring[p] != s.ready.ring[0];
  }

  lemma ServedFurtherBack(served: seq<Entry>, k: nat, first: Entry, ahead: seq<int>)
    requires ahead != [] && ServedAt(served, k, first, ahead[1..])
    ensures ServedAt(served, k, first, ahead)
  {
  }

  lemma ServedNext(e: Entry, served: seq<Entry>, k: nat, first: Entry, ahead: seq<int>)
    requires ahead != [] && e.player == ahead[0] && ahead[0] !in ahead[1..]
    requires ServedAt(served, k, first, ahead[1..])
    ensures ServedAt([e] + served, k + 1, first, ahead)
  {
    forall i | 0 <= i < k + 1 ensures ([e] + served)[i].player in ahead {
      if i > 0 {
        assert served[i - 1].player in ahead[1..];
      }
    }
  }

  // The commands of one object, in the order in which they occur.
  function Of(es: seq<Entry>, o: int): seq<Entry> {
    if es == [] then [] else (if es[0].player == o then [es[0]] else []) + Of(es[1..], o)
  }

  // What is pending for an object is run in the order of the list, and before
  // anything that arrives later.
  lemma {:induction false} ServedInOrder(w: World, s: State, ncmds: int, exec: nat -> seq<Action>, n: nat, o: int)
    requires Shape(w, s) && AllowedScripts(w, exec) && RoundSpares(w, s, ncmds, exec, n, o) && o >= 0
    ensures var out := Serve(w, s, ncmds, exec, n);
            Pending(s.ready, o) <= Of(out.served, o) + Pending(out.state.ready, o)
    decreases ncmds - n, |s.ready.ring|
  {
    hide Shape, Perform, PerformAll;
    if n < ncmds && s.ready.ring != [] {
      var q := Pending(s.ready, s.ready.ring[0]);
      var s' := s.(ready := Turn(s.ready));
      TurnKeeps(w, s);
      if q == [] {
        ServedInOrder(w, s', ncmds, exec, n, o);
      } else {
        var s'' := PerformAll(w, s', exec(n));
        PerformAllKeeps(w, s', exec(n));
        PerformAllGrows(w, s', exec(n), o);
        ServedInOrder(w, s'', ncmds, exec, n + 1, o);
        InOrderStep(s.ready, s''.ready, Serve(w, s'', ncmds, exec, n + 1), o);
      }
    }
  }

  lemma InOrderStep(r: Ready, r'': Ready, rest: Outcome, o: int)
    requires r.ring != [] && Pending(r, r.ring[0]) != []
    requires Pending(r, r.ring[0])[0].player == r.ring[0]
    requires Grows(Turn(r), r'', o)
    requires Pending(r'', o) <= Of(rest.served, o) + Pending(rest.state.ready, o)
    ensures Pending(r, o) <= Of([Pending(r, r.ring[0])[0]] + rest.served, o) + Pending(rest.state.ready, o)
  {
    var first := Pending(r, r.ring[0])[0];
    var mine := if r.ring[0] == o then [first] else [];
    var later := Of(rest.served, o) + Pending(rest.state.ready, o);
    assert ([first] + rest.served)[1..] == rest.served;
    assert Of([first] + rest.served, o) + Pending(rest.state.ready, o) == mine + later;
    assert Pending(r, o) == mine + Pending(Turn(r), o);
    assert Pending(Turn(r), o) <= later;
  }

  // The loop stops only when it has served what it was asked to or when nobody
  // is left on the ring.
  lemma {:induction false} ServesAll(w: World, s: State, ncmds: int, exec: nat -> seq<Action>, n: nat)
    requires AllowedScripts(w, exec) && n <= ncmds
    ensures var out := Serve(w, s, ncmds, exec, n);
            |out.served| <= ncmds - n && (out.state.ready.ring != [] ==> |out.served| == ncmds - n)
    decreases ncmds - n, |s.ready.ring|
  {
    if n < ncmds && s.ready.ring != [] {
      var q := Pending(s.ready, s.ready.ring[0]);
      var s' := s.(ready := Turn(s.ready));
      if q == [] {
        ServesAll(w, s', ncmds, exec, n);
      } else {
        ServesAll(w, PerformAll(w, s', exec(n)), ncmds, exec, n + 1);
      }
    }
  }
}
