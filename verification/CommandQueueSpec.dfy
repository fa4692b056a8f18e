// The command scheduler as a state machine on values: the run lists and the
// round-robin ring, the time-sorted wait queue, the semaphore queue, and the
// attribute counters that say how many commands wait on each semaphore.
module CommandQueueSpec {

  const NOTHING := -1

  // One queued command. `sem` is the object it waits on (NOTHING when it does
  // not wait on a semaphore), `attr` the attribute that counts the waiters, and
  // `waittime` the second at which it is due (0 when it carries no deadline).
  datatype Entry = Entry(player: int, cause: int, sem: int, waittime: int, attr: int, comm: string)

  // The objects that exist at some time while the server runs. A number once used
  // stays good, since what is left of a destroyed object is an object.
  datatype World = World(objects: set<int>)

  predicate Good(w: World, o: int) {
    0 <= o && o in w.objects
  }

  // Run lists by obj, and the ring of objects that take turns.
  datatype Ready = Ready(run: map<int, seq<Entry>>, ring: seq<int>)

  type Counters = map<(int, int), int>

  // The owner of each object.
  type Owners = map<int, int>

  function OwnerOf(m: Owners, o: int): int {
    if o in m then m[o] else NOTHING
  }

  datatype State = State(
    now: int,
    dequeue: bool,
    owner: Owners,
    ready: Ready,
    wait: seq<Entry>,
    sem: seq<Entry>,
    count: Counters)

  datatype Key = NotifyFirst | NotifyAll | Drain

  // What becomes of a new command: it passes, it is refused without more (its
  // object is halted or cannot pay), or it is one too many for the owner of its
  // object, who is halted then.
  datatype Admission = Admitted | Refused | RanAway

  // What an executed command may do to the queues. `Own` gives a new object, or one
  // that changes hands, its owner.
  datatype Action =
    | TimedWait(player: int, cause: int, howlong: int, comm: string, admission: Admission)
    | SemWait(player: int, cause: int, thing: int, attr: int, howlong: int, comm: string, admission: Admission)
    | Notify(thing: int, attr: int, key: Key, count: int)
    | Halt(player: int, obj: int)
    | Warp(seconds: int)
    | Own(obj: int, owner: int)
    | Destroy(obj: int)

  // What the main loop may do. In `Top`, `exec(n)` is what the command served
  // as number n does while it runs.
  datatype Event =
    | Command(action: Action)
    | Second
    | Wake(i: nat)
    | Tick(seconds: nat)
    | Top(ncmds: int, exec: nat -> seq<Action>)

  // ---------- the ready side: run lists and ring ----------

  function Pending(r: Ready, o: int): seq<Entry> {
    if o in r.run then r.run[o] else []
  }

  // An entry that no longer waits for anything.
  function Runnable(e: Entry): Entry {
    e.(sem := NOTHING, waittime := 0)
  }

  function Find(w: World, r: Ready, o: int): Ready {
    if o !in r.run && Good(w, o) then r.(run := r.run[o := []]) else r
  }

  function Enter(r: Ready, e: Entry): Ready {
    Ready(r.run[e.player := Pending(r, e.player) + [e]],
          if e.player in r.ring then r.ring else r.ring + [e.player])
  }

  function Promote(r: Ready, e: Entry): Ready {
    Enter(r, Runnable(e))
  }

  function PromoteAll(r: Ready, es: seq<Entry>): Ready {
    if es == [] then r else Promote(PromoteAll(r, es[..|es| - 1]), es[|es| - 1])
  }

  function Flush(w: World, r: Ready, o: int): Ready {
    var f := Find(w, r, o);
    if o in f.run then f.(run := f.run[o := []]) else f
  }

  // The first command leaves its run list.
  function Drop(r: Ready, o: int): Ready {
    if Pending(r, o) == [] then r else r.(run := r.run[o := r.run[o][1..]])
  }

  // One turn of the ring: the front object gives up its first command and goes
  // to the back, or leaves the ring when nothing is left on its list.
  function Turn(r: Ready): Ready
    requires r.ring != []
  {
    var o := r.ring[0];
    var rest := if Pending(r, o) == [] then [] else Pending(r, o)[1..];
    Ready(r.run[o := rest], if rest == [] then r.ring[1..] else r.ring[1..] + [o])
  }

  lemma EnterAfterFind(w: World, r: Ready, e: Entry)
    ensures Enter(Find(w, r, e.player), e) == Enter(r, e)
  {
  }

  lemma FlushAfterFind(w: World, r: Ready, o: int)
    ensures Find(w, Find(w, r, o), o) == Find(w, r, o)
    ensures Pending(Find(w, r, o), o) == Pending(r, o)
    ensures Flush(w, Find(w, r, o), o) == Flush(w, r, o)
  {
  }

  lemma FlushAfterDrop(w: World, r: Ready, o: int)
    ensures Flush(w, Drop(r, o), o) == Flush(w, r, o)
  {
    if Pending(r, o) != [] {
      assert r.run[o := r.run[o][1..]][o := []] == r.run[o := []];
    }
  }

  lemma FlushWhenEmpty(w: World, r: Ready, o: int)
    requires Pending(r, o) == [] && Find(w, r, o) == r
    ensures Flush(w, r, o) == r
  {
    if o in r.run {
      assert r.run[o := []] == r.run;
    }
  }

  lemma TurnDrops(w: World, r: Ready)
    requires r.ring != [] && r.ring[0] in r.run
    ensures var o := r.ring[0]; var r' := Drop(Find(w, r, o), o);
            Turn(r) == r'.(ring := if Pending(r', o) == [] then r.ring[1..] else r.ring[1..] + [o])
  {
    var o := r.ring[0];
    if Pending(r, o) == [] {
      assert r.run[o := []] == r.run;
    }
  }

  // ---------- taking entries out of a queue ----------

  datatype Want =
    | Halted(owner: Owners, player: int, obj: int)
    | Waiting(thing: int, attr: int)
    | Expired(now: int)

  predicate Wants(want: Want, e: Entry) {
    match want
    case Halted(owner, player, obj) =>
      (player == NOTHING || player == OwnerOf(owner, e.player)) && (obj == NOTHING || obj == e.player)
    case Waiting(thing, attr) => e.sem == thing && (e.attr == attr || attr == 0)
    case Expired(now) => e.waittime != 0 && e.waittime <= now
  }

  // The first n entries of q that are wanted, in queue order.
  function Taken(want: Want, q: seq<Entry>, n: nat): seq<Entry> {
    if q == [] || n == 0 then []
    else if Wants(want, q[0]) then [q[0]] + Taken(want, q[1..], n - 1)
    else Taken(want, q[1..], n)
  }

  // What remains of q once those are gone.
  function Kept(want: Want, q: seq<Entry>, n: nat): seq<Entry> {
    if q == [] || n == 0 then q
    else if Wants(want, q[0]) then Kept(want, q[1..], n - 1)
    else [q[0]] + Kept(want, q[1..], n)
  }

  function InsertByTime(q: seq<Entry>, e: Entry): seq<Entry> {
    if q == [] || e.waittime < q[0].waittime then [e] + q
    else [q[0]] + InsertByTime(q[1..], e)
  }

  // ---------- the counters ----------

  function Count(m: Counters, thing: int, attr: int): int {
    if (thing, attr) in m then m[(thing, attr)] else 0
  }

  // A zero is stored by clearing the attribute.
  function AddTo(m: Counters, thing: int, am: int, attr: int): Counters {
    var num := Count(m, thing, attr) + am;
    if num != 0 then m[(thing, attr) := num] else m - {(thing, attr)}
  }

  // One decrement for each entry taken off the semaphore queue.
  function Release(m: Counters, es: seq<Entry>): Counters {
    if es == [] then m
    else var e := es[|es| - 1]; AddTo(Release(m, es[..|es| - 1]), e.sem, -1, e.attr)
  }

  // ---------- the operations ----------

  function Enqueue(s: State, e: Entry): State {
    if e.sem == NOTHING then
      if e.waittime <= s.now then s.(ready := Enter(s.ready, e.(waittime := 0)))
      else s.(wait := InsertByTime(s.wait, e))
    else s.(sem := s.sem + [e])
  }

  function NotifyLimit(s: State, thing: int, attr: int, key: Key, count: int): nat
    requires key == NotifyFirst ==> count > 0
  {
    if attr != 0 && Count(s.count, thing, attr) <= 0 then 0
    else if key == NotifyFirst then count else |s.sem|
  }

  function NfyQue(s: State, thing: int, attr: int, key: Key, count: int): State
    requires key == NotifyFirst ==> count > 0
  {
    var n := NotifyLimit(s, thing, attr, key, count);
    var want := Waiting(thing, attr);
    s.(sem := Kept(want, s.sem, n),
       ready := if key == Drain then s.ready else PromoteAll(s.ready, Taken(want, s.sem, n)),
       count := if key == NotifyFirst then AddTo(s.count, thing, -count, attr) else s.count - {(thing, attr)})
  }

  function HaltQue(w: World, s: State, player: int, obj: int): State {
    var want := Halted(s.owner, player, obj);
    s.(ready := Flush(w, Flush(w, s.ready, player), obj),
       wait := Kept(want, s.wait, |s.wait|),
       sem := Kept(want, s.sem, |s.sem|),
       count := Release(s.count, Taken(want, s.sem, |s.sem|)))
  }

  function HaltCount(w: World, s: State, player: int, obj: int): nat {
    var want := Halted(s.owner, player, obj);
    |Pending(s.ready, player)| + |Pending(Flush(w, s.ready, player), obj)|
    + |Taken(want, s.wait, |s.wait|)| + |Taken(want, s.sem, |s.sem|)|
  }

  function WaitQue(w: World, s: State, player: int, cause: int, howlong: int, sem: int, attr: int, comm: string,
                   admission: Admission): State
  {
    match admission
    case Admitted =>
      Enqueue(s, Entry(player, cause, sem, if howlong > 0 then s.now + howlong else 0, attr, comm))
    case Refused => s
    case RanAway => HaltQue(w, s, OwnerOf(s.owner, player), NOTHING)
  }

  // The counter is raised before the new command is tested.
  function DoSemWait(w: World, s: State, player: int, cause: int, thing: int, attr: int, howlong: int, comm: string,
                     admission: Admission): State
  {
    var s' := s.(count := AddTo(s.count, thing, 1, attr));
    if Count(s'.count, thing, attr) <= 0 then WaitQue(w, s', player, cause, 0, NOTHING, attr, comm, admission)
    else WaitQue(w, s', player, cause, howlong, thing, attr, comm, admission)
  }

  function DoSecond(s: State): State {
    if !s.dequeue then s
    else
      var late := Taken(Expired(s.now), s.sem, |s.sem|);
      s.(sem := Kept(Expired(s.now), s.sem, |s.sem|),
         ready := PromoteAll(s.ready, late),
         count := Release(s.count, late))
  }

  function Advance(e: Entry, seconds: int): Entry {
    if e.waittime > 0 then
      e.(waittime := if e.waittime - seconds <= 0 then -1 else e.waittime - seconds)
    else e
  }

  function AdvanceAll(q: seq<Entry>, seconds: int): (r: seq<Entry>)
    ensures |r| == |q|
    ensures forall i :: 0 <= i < |q| ==> r[i] == Advance(q[i], seconds)
  {
    seq(|q|, i requires 0 <= i < |q| => Advance(q[i], seconds))
  }

  // The queue is switched on for the duration of a warp.
  function DoWarp(s: State, seconds: int): State {
    DoSecond(s.(sem := AdvanceAll(s.sem, seconds), dequeue := true)).(dequeue := s.dequeue)
  }

  function DoWake(s: State, i: nat): State
    requires i < |s.wait|
  {
    s.(wait := s.wait[..i] + s.wait[i + 1..], ready := Promote(s.ready, s.wait[i]))
  }

  // The attributes of an object are freed, its counters with them.
  function Freed(m: Counters, obj: int): Counters {
    map k | k in m && k.0 != obj :: m[k]
  }

  // What is left of an object belongs to #1.
  const GOD := 1

  // destroy_obj, on the queues: its commands are halted, what waits on it is
  // drained without naming an attribute, and its attributes go.
  function DestroyObj(w: World, s: State, obj: int): State {
    var drained := NfyQue(HaltQue(w, s, NOTHING, obj), obj, 0, Drain, 0);
    drained.(count := Freed(drained.count, obj), owner := drained.owner[obj := GOD])
  }

  predicate Allowed(w: World, a: Action) {
    match a
    case TimedWait(player, _, _, _, _) => Good(w, player)
    case SemWait(player, _, thing, attr, _, _, _) => Good(w, player) && Good(w, thing) && attr > 0
    case Notify(thing, _, key, count) => Good(w, thing) && (key == NotifyFirst ==> count > 0)
    case Halt(_, _) => true
    case Warp(_) => true
    case Own(obj, _) => Good(w, obj)
    case Destroy(obj) => Good(w, obj)
  }

  function Perform(w: World, s: State, a: Action): State
    requires Allowed(w, a)
  {
    match a
    case TimedWait(player, cause, howlong, comm, admission) =>
      WaitQue(w, s, player, cause, howlong, NOTHING, 0, comm, admission)
    case SemWait(player, cause, thing, attr, howlong, comm, admission) =>
      DoSemWait(w, s, player, cause, thing, attr, howlong, comm, admission)
    case Notify(thing, attr, key, count) => NfyQue(s, thing, attr, key, count)
    case Halt(player, obj) => HaltQue(w, s, player, obj)
    case Warp(seconds) => DoWarp(s, seconds)
    case Own(obj, owner) => s.(owner := s.owner[obj := owner])
    case Destroy(obj) => DestroyObj(w, s, obj)
  }

  function PerformAll(w: World, s: State, script: seq<Action>): State
    requires forall a :: a in script ==> Allowed(w, a)
  {
    if script == [] then s
    else Perform(w, PerformAll(w, s, script[..|script| - 1]), script[|script| - 1])
  }

  ghost predicate AllowedScripts(w: World, exec: nat -> seq<Action>) {
    forall n: nat, a :: a in exec(n) ==> Allowed(w, a)
  }

  datatype Outcome = Outcome(state: State, served: seq<Entry>)

  // The main loop of do_top: `n` commands have been served so far.
  ghost function Serve(w: World, s: State, ncmds: int, exec: nat -> seq<Action>, n: nat): Outcome
    requires AllowedScripts(w, exec)
    decreases ncmds - n, |s.ready.ring|
  {
    if n >= ncmds || s.ready.ring == [] then Outcome(s, [])
    else
      var q := Pending(s.ready, s.ready.ring[0]);
      var s' := s.(ready := Turn(s.ready));
      if q == [] then Serve(w, s', ncmds, exec, n)
      else
        var rest := Serve(w, PerformAll(w, s', exec(n)), ncmds, exec, n + 1);
        Outcome(rest.state, [q[0]] + rest.served)
  }

  ghost function DoTop(w: World, s: State, ncmds: int, exec: nat -> seq<Action>): Outcome
    requires AllowedScripts(w, exec)
  {
    if s.dequeue then Serve(w, s, ncmds, exec, 0) else Outcome(s, [])
  }

  ghost predicate Possible(w: World, s: State, ev: Event) {
    match ev
    case Command(a) => Allowed(w, a)
    case Second => true
    case Wake(i) => i < |s.wait|
    case Tick(_) => true
    case Top(_, exec) => AllowedScripts(w, exec)
  }

  ghost function Next(w: World, s: State, ev: Event): State
    requires Possible(w, s, ev)
  {
    match ev
    case Command(a) => Perform(w, s, a)
    case Second => DoSecond(s)
    case Wake(i) => DoWake(s, i)
    case Tick(d) => s.(now := s.now + d)
    case Top(ncmds, exec) => DoTop(w, s, ncmds, exec).state
  }

  // A run of the server: each event is possible where it happens.
  ghost predicate Reaches(w: World, s: State, events: seq<Event>, t: State)
    decreases |events|
  {
    if events == [] then s == t
    else Possible(w, s, events[0]) && Reaches(w, Next(w, s, events[0]), events[1..], t)
  }
}
