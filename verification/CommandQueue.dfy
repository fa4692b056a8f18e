// The scheduler as the server keeps it: linked commands, per-object run lists
// on a linked ring, and a wait and a semaphore queue threaded through the same
// nodes. Every method is proved against the operation on values that it stands
// for; the ghost sequences say which nodes a list holds.
module CommandQueue {
  import opened CommandQueueSpec
  import opened CommandQueueInvariant

  class Bque {
    var next: Bque?
    const player: int
    const cause: int
    const comm: string
    var sem: int
    var waittime: int
    var attr: int
    var armed: bool        // its timer is pending
    ghost var home: object?  // the list that holds it

    constructor (player: int, cause: int, comm: string)
      ensures Val() == Entry(player, cause, NOTHING, 0, 0, comm) && !armed && home == null
    {
      this.player, this.cause, this.comm := player, cause, comm;
      sem, waittime, attr := NOTHING, 0, 0;
      armed, next, home := false, null, null;
    }

    function Val(): Entry
      reads `sem, `waittime, `attr
    {
      Entry(player, cause, sem, waittime, attr, comm)
    }
  }

  ghost predicate Unique(nodes: seq<Bque>) {
    forall i, j :: 0 <= i < j < |nodes| ==> nodes[i] != nodes[j]
  }

  // The nodes reached from `first` are exactly these, without repetition.
  ghost predicate Chain(first: Bque?, nodes: seq<Bque>)
    reads nodes`next
  {
    && (nodes == [] ==> first == null)
    && (nodes != [] ==> first == nodes[0] && nodes[|nodes| - 1].next == null)
    && (forall i {:trigger nodes[i].next} :: 0 <= i < |nodes| - 1 ==> nodes[i].next == nodes[i + 1])
    && Unique(nodes)
  }

  // They belong to this list alone and carry these commands.
  ghost predicate Holds(nodes: seq<Bque>, cmds: seq<Entry>, home: object, armed: bool)
    reads nodes`home, nodes`armed, nodes`sem, nodes`waittime, nodes`attr
  {
    && |nodes| == |cmds|
    && (forall i :: 0 <= i < |nodes| ==> nodes[i].home == home && nodes[i].armed == armed && nodes[i].Val() == cmds[i])
  }

  // `trail` is the node before `point`, or null at the front.
  ghost predicate At(nodes: seq<Bque>, i: nat, trail: Bque?, point: Bque?) {
    && i <= |nodes|
    && point == (if i < |nodes| then nodes[i] else null)
    && trail == (if i == 0 then null else nodes[i - 1])
  }

  ghost function With<T>(s: seq<T>, i: nat, x: T): seq<T>
    requires i <= |s|
  {
    s[..i] + [x] + s[i..]
  }

  lemma HoldsWithout(nodes: seq<Bque>, cmds: seq<Entry>, home: object, armed: bool, i: nat)
    requires Holds(nodes, cmds, home, armed) && i < |nodes|
    ensures Holds(Without(nodes, i), Without(cmds, i), home, armed) && nodes[i].Val() == cmds[i]
  {
  }

  lemma LastWithout(nodes: seq<Bque>, i: nat, trail: Bque?, point: Bque)
    requires At(nodes, i, trail, point) && Unique(nodes)
    ensures var rest := Without(nodes, i);
            (if rest == [] then null else rest[|rest| - 1])
            == if point == nodes[|nodes| - 1] then trail else nodes[|nodes| - 1]
  {
  }

  lemma NotHeld(nodes: seq<Bque>, cmds: seq<Entry>, home: object, armed: bool, cmd: Bque)
    requires Holds(nodes, cmds, home, armed) && cmd.home != home
    ensures cmd !in nodes && |nodes| == |cmds|
  {
  }

  lemma HoldsWith(nodes: seq<Bque>, cmds: seq<Entry>, home: object, armed: bool, i: nat, cmd: Bque)
    requires Holds(nodes, cmds, home, armed) && i <= |nodes| && cmd.home == home && cmd.armed == armed
    ensures |nodes| == |cmds| && Holds(With(nodes, i, cmd), With(cmds, i, cmd.Val()), home, armed)
  {
  }

  // Takes `point` out of a chain whose first node is `first`.
  method Bypass(first: Bque?, ghost nodes: seq<Bque>, ghost i: nat, trail: Bque?, point: Bque)
      returns (head: Bque?, next: Bque?)
    requires Chain(first, nodes) && At(nodes, i, trail, point)
    modifies nodes`next
    ensures Chain(head, Without(nodes, i)) && At(Without(nodes, i), i, trail, next) && point !in Without(nodes, i)
  {
    next := point.next;
    if trail != null {
      trail.next := next;
      head := first;
    } else {
      head := next;
    }
  }

  // Puts `cmd` between `trail` and `point`.
  method Splice(first: Bque?, ghost nodes: seq<Bque>, ghost i: nat, trail: Bque?, point: Bque?, cmd: Bque)
      returns (head: Bque?)
    requires Chain(first, nodes) && At(nodes, i, trail, point) && cmd !in nodes
    modifies cmd`next, nodes`next
    ensures Chain(head, With(nodes, i, cmd))
  {
    cmd.next := point;
    if trail != null {
      trail.next := cmd;
      head := first;
    } else {
      head := cmd;
    }
  }

  // One object's run list, and its place on the ring.
  class Objqe {
    const obj: int
    var cque: Bque?
    var ctail: Bque?
    var next: Objqe?
    var queued: bool
    ghost var nodes: seq<Bque>
    ghost var cmds: seq<Entry>

    ghost predicate Valid()
      reads `cque, `ctail, `nodes, `cmds, nodes
    {
      && Chain(cque, nodes)
      && ctail == (if nodes == [] then null else nodes[|nodes| - 1])
      && Holds(nodes, cmds, this, false)
    }

    constructor (obj: int)
      ensures Valid() && this.obj == obj && cmds == [] && nodes == [] && !queued && next == null
    {
      this.obj := obj;
      cque, ctail, next, queued := null, null, null, false;
      nodes, cmds := [], [];
    }

    method Append(cmd: Bque)
      requires Valid() && cmd.home == null && !cmd.armed
      modifies this`cque, this`ctail, this`nodes, this`cmds, cmd, nodes
      ensures Valid() && nodes == old(nodes) + [cmd] && cmds == old(cmds) + [cmd.Val()]
      ensures cmd.Val() == old(cmd.Val()) && cmd.home == this
    {
      if ctail == null {
        cque, ctail := cmd, cmd;
        cmd.next := null;
      } else {
        ctail.next := cmd;
        ctail := cmd;
        ctail.next := null;
      }
      cmd.home := this;
      nodes, cmds := nodes + [cmd], cmds + [cmd.Val()];
    }

    method Deque() returns (cmd: Bque?)
      requires Valid()
      modifies this`cque, this`ctail, this`nodes, this`cmds, nodes
      ensures Valid() && (cque == null <==> cmds == [])
      ensures cmd == null <==> old(cmds) == []
      ensures cmd == null ==> nodes == old(nodes) && cmds == []
      ensures cmd != null ==> old(nodes) == [cmd] + nodes && old(cmds) == [cmd.Val()] + cmds
      ensures cmd != null ==> cmd.home == null && !cmd.armed
    {
      if cque == null {
        return null;
      }
      cmd := cque;
      if cmd.next == null {
        cque, ctail := null, null;
      } else {
        cque := cmd.next;
      }
      cmd.home := null;
      nodes, cmds := nodes[1..], cmds[1..];
    }
  }

  // The objects with run lists, and the ring of those that take turns.
  class ReadyQueue {
    const w: World
    var obq: map<int, Objqe>
    var qhead: Objqe?
    var qtail: Objqe?
    ghost var ring: seq<Objqe>
    ghost var run: map<int, seq<Entry>>
    ghost var turns: seq<int>
    ghost var objs: set<Objqe>
    ghost var cells: set<Bque>

    ghost function Abs(): Ready
      reads `run, `turns
    {
      Ready(run, turns)
    }

    ghost predicate ValidLists()
      reads `obq, `run, `objs, `cells, objs`cque, objs`ctail, objs`nodes, objs`cmds, cells
    {
      && run.Keys == obq.Keys
      && (forall o :: o in obq ==> obq[o] in objs && obq[o].obj == o)
      && (forall q :: q in objs ==> q.obj in obq && obq[q.obj] == q && run[q.obj] == q.cmds)
      && (forall q, n :: q in objs && n in q.nodes ==> n in cells)
      && (forall q :: q in objs ==> q.Valid())
    }

    // These objects, and only they, are marked as being on the ring.
    ghost predicate OnRing(ring: seq<Objqe>, turns: seq<int>)
      reads `objs, objs`queued
    {
      && |ring| == |turns|
      && (forall i :: 0 <= i < |ring| ==> ring[i] in objs && ring[i].obj == turns[i] && ring[i].queued)
      && (forall q :: q in objs && q.queued ==> q in ring)
    }

    ghost predicate Linked(ring: seq<Objqe>)
      reads `qhead, `qtail, ring`next
    {
      && (forall i, j :: 0 <= i < j < |ring| ==> ring[i] != ring[j])
      && (forall i {:trigger ring[i].next} :: 0 <= i < |ring| - 1 ==> ring[i].next == ring[i + 1])
      && (ring == [] ==> qhead == null && qtail == null)
      && (ring != [] ==> qhead == ring[0] && qtail == ring[|ring| - 1] && qtail.next == null)
    }

    ghost predicate ValidRing()
      reads `qhead, `qtail, `ring, `turns, `objs, objs`next, objs`queued
    {
      OnRing(ring, turns) && Linked(ring)
    }

    ghost predicate Valid()
      reads this, objs, cells
    {
      ValidLists() && ValidRing()
    }

    constructor (w: World)
      ensures Valid() && this.w == w && Abs() == Ready(map[], []) && objs == {} && cells == {}
    {
      this.w := w;
      obq, qhead, qtail := map[], null, null;
      ring, run, turns := [], map[], [];
      objs, cells := {}, {};
    }

    method AddToLists(player: int) returns (tmp: Objqe)
      requires ValidLists() && player !in obq
      modifies `obq, `run, `objs
      ensures ValidLists() && fresh(tmp) && !tmp.queued && objs == old(objs) + {tmp}
      ensures obq == old(obq)[player := tmp] && run == old(run)[player := []]
    {
      hide Objqe.Valid;
      tmp := new Objqe(player);
      assert ValidLists();
      obq := obq[player := tmp];
      run := run[player := []];
      objs := objs + {tmp};
    }

    method AddObject(player: int) returns (tmp: Objqe)
      requires Valid() && player !in obq
      modifies `obq, `run, `objs
      ensures Valid() && fresh(tmp) && objs == old(objs) + {tmp}
      ensures obq == old(obq)[player := tmp] && run == old(run)[player := []]
    {
      hide ValidLists;
      tmp := AddToLists(player);
    }

    method CqueFind(player: int) returns (tmp: Objqe?)
      requires Valid()
      modifies `obq, `run, `objs
      ensures Valid() && fresh(objs - old(objs)) && old(objs) <= objs
      ensures Abs() == Find(w, old(Abs()), player)
      ensures tmp == if player in obq then obq[player] else null
      ensures player in old(obq) || Good(w, player) ==> tmp != null
      ensures player in old(obq) ==> obq == old(obq) && run == old(run) && objs == old(objs)
      ensures player in obq <==> player in run
      ensures tmp != null ==>
                && tmp in objs && tmp.obj == player
                && forall i :: 0 <= i < |tmp.nodes| ==> tmp.nodes[i] in cells
      ensures forall q :: q in objs && q.obj == player ==> q == tmp
      ensures (tmp == null || tmp.cque == null) <==> Pending(Abs(), player) == []
    {
      if player in obq {
        tmp := obq[player];
      } else if Good(w, player) {
        tmp := AddObject(player);
      } else {
        tmp := null;
      }
    }

    // A node outside one list is untouched by work on that list.
    lemma ListsApart(tmp: Objqe)
      requires ValidLists() && tmp in objs
      ensures forall q, i, k :: q in objs && q != tmp && 0 <= i < |q.nodes| && 0 <= k < |tmp.nodes|
                ==> q.nodes[i] != tmp.nodes[k]
    {
    }

    method AppendToList(tmp: Objqe, cmd: Bque)
      requires ValidLists() && tmp in objs
      requires cmd !in cells && cmd.home == null && !cmd.armed
      modifies `run, `cells, tmp`cque, tmp`ctail, tmp`nodes, tmp`cmds, tmp.nodes, cmd
      ensures ValidLists() && cells == old(cells) + {cmd} && cmd.Val() == old(cmd.Val()) && cmd.home == tmp
      ensures run == old(run)[tmp.obj := Pending(old(Abs()), tmp.obj) + [cmd.Val()]]
    {
      hide Objqe.Valid;
      ListsApart(tmp);
      tmp.Append(cmd);
      assert forall q :: q in objs ==> q.Valid();
      run := run[tmp.obj := tmp.cmds];
      cells := cells + {cmd};
    }

    method AppendTo(tmp: Objqe, cmd: Bque)
      requires Valid() && tmp in objs
      requires cmd !in cells && cmd.home == null && !cmd.armed
      modifies `run, `cells, tmp`cque, tmp`ctail, tmp`nodes, tmp`cmds, tmp.nodes, cmd
      ensures Valid() && cells == old(cells) + {cmd} && cmd.Val() == old(cmd.Val()) && cmd.home == tmp
      ensures run == old(run)[tmp.obj := Pending(old(Abs()), tmp.obj) + [cmd.Val()]]
    {
      hide ValidLists, ValidRing;
      AppendToList(tmp, cmd);
    }

    method JoinRing(tmp: Objqe)
      requires Valid() && tmp in objs && forall q :: q in objs && q.obj == tmp.obj ==> q == tmp
      modifies `qhead, `qtail, `ring, `turns, objs`next, tmp`queued
      ensures Valid()
      ensures turns == if tmp.obj in old(turns) then old(turns) else old(turns) + [tmp.obj]
    {
      hide ValidLists;
      if !tmp.queued {
        if qhead == null {
          qhead, qtail := tmp, tmp;
          tmp.next := null;
        } else {
          qtail.next := tmp;
          qtail := tmp;
          qtail.next := null;
        }
        tmp.queued := true;
        assert tmp.obj !in turns;
        ring := ring + [tmp];
        turns := turns + [tmp.obj];
      }
    }

    method SetDue(cmd: Bque)
      requires Valid() && cmd !in cells
      modifies cmd`waittime
      ensures Valid() && cmd.waittime == 0
    {
      hide ValidRing, Chain;
      cmd.waittime := 0;
      assert forall q :: q in objs ==> q.Valid();
    }

    method Enlist(tmp: Objqe, cmd: Bque)
      requires Valid() && tmp in objs && tmp.obj == cmd.player
      requires forall q :: q in objs && q.obj == tmp.obj ==> q == tmp
      requires forall i :: 0 <= i < |tmp.nodes| ==> tmp.nodes[i] in cells
      requires cmd !in cells && cmd.home == null && !cmd.armed
      modifies `run, `cells, `qhead, `qtail, `ring, `turns, objs, cells, cmd
      ensures Valid() && cells == old(cells) + {cmd}
      ensures cmd.home != null && cmd.Val() == old(cmd.Val()).(waittime := 0)
      ensures Abs() == Enter(old(Abs()), cmd.Val())
    {
      hide Valid;
      SetDue(cmd);
      AppendTo(tmp, cmd);
      JoinRing(tmp);
    }

    // The run branch of cque_enqueue.
    method Append(cmd: Bque)
      requires Valid() && (cmd.player in obq || Good(w, cmd.player))
      requires cmd !in cells && cmd.home == null && !cmd.armed
      modifies this, objs, cells, cmd
      ensures Valid() && fresh(objs - old(objs)) && cells == old(cells) + {cmd}
      ensures cmd.home != null && cmd.Val() == old(cmd.Val()).(waittime := 0)
      ensures Abs() == Enter(old(Abs()), cmd.Val())
    {
      EnterAfterFind(w, Abs(), cmd.Val().(waittime := 0));
      hide Valid, Find, Enter;
      var tmp := CqueFind(cmd.player);
      Enlist(tmp, cmd);
    }

    method DequeFrom(tmp: Objqe) returns (cmd: Bque?)
      requires ValidLists() && tmp in objs
      modifies `run, tmp`cque, tmp`ctail, tmp`nodes, tmp`cmds, tmp.nodes
      ensures ValidLists() && tmp.obj in old(run) && (tmp.cque == null <==> run[tmp.obj] == [])
      ensures cmd == null <==> old(run)[tmp.obj] == []
      ensures run == old(run)[tmp.obj := if cmd == null then [] else old(run)[tmp.obj][1..]]
      ensures cmd != null ==> cmd.home == null && !cmd.armed && cmd.Val() == old(run)[tmp.obj][0]
    {
      hide Objqe.Valid;
      ListsApart(tmp);
      cmd := tmp.Deque();
      assert forall q :: q in objs ==> q.Valid();
      run := run[tmp.obj := tmp.cmds];
    }

    method CqueDeque(player: int) returns (cmd: Bque?)
      requires Valid()
      modifies `obq, `run, `objs, objs`cque, objs`ctail, objs`nodes, objs`cmds, cells
      ensures Valid() && fresh(objs - old(objs)) && old(objs) <= objs
      ensures cmd == null <==> Pending(old(Abs()), player) == []
      ensures cmd != null ==> cmd.home == null && !cmd.armed && cmd.Val() == Pending(old(Abs()), player)[0]
      ensures Abs() == Drop(Find(w, old(Abs()), player), player)
      ensures player in obq ==> (obq[player].cque == null <==> run[player] == [])
      ensures player in old(obq) ==> obq == old(obq) && objs == old(objs)
    {
      hide ValidLists, ValidRing;
      var tmp := CqueFind(player);
      if tmp == null {
        return null;
      }
      cmd := DequeFrom(tmp);
    }

    // Freeing a whole run list, as halt_que does.
    method FreeAll(player: int) returns (n: nat)
      requires Valid() && player in obq
      modifies `obq, `run, `objs, objs`cque, objs`ctail, objs`nodes, objs`cmds, cells
      ensures Valid() && objs == old(objs) && player in obq
      ensures n == |Pending(old(Abs()), player)| && Pending(Abs(), player) == []
      ensures turns == old(turns)
      ensures CommandQueueSpec.Flush(w, Abs(), player) == CommandQueueSpec.Flush(w, old(Abs()), player)
      ensures Find(w, old(Abs()), player) == old(Abs()) ==> Find(w, Abs(), player) == Abs()
    {
      hide Valid, CommandQueueSpec.Flush;
      n := 0;
      FlushAfterFind(w, Abs(), player);
      FlushAfterDrop(w, Find(w, Abs(), player), player);
      var point := CqueDeque(player);
      while point != null
        invariant Valid() && objs == old(objs) && player in obq && turns == old(turns)
        invariant CommandQueueSpec.Flush(w, Abs(), player) == CommandQueueSpec.Flush(w, old(Abs()), player)
        invariant n + |Pending(Abs(), player)| + (if point == null then 0 else 1) == |Pending(old(Abs()), player)|
        invariant point == null ==> Pending(Abs(), player) == []
        invariant Find(w, old(Abs()), player) == old(Abs()) ==> Find(w, Abs(), player) == Abs()
        decreases |Pending(Abs(), player)|, point != null
      {
        n := n + 1;
        FlushAfterFind(w, Abs(), player);
        FlushAfterDrop(w, Find(w, Abs(), player), player);
        point := CqueDeque(player);
      }
    }

    method Flush(player: int) returns (n: nat)
      requires Valid()
      modifies `obq, `run, `objs, objs`cque, objs`ctail, objs`nodes, objs`cmds, cells
      ensures Valid() && fresh(objs - old(objs)) && old(objs) <= objs
      ensures n == |Pending(old(Abs()), player)|
      ensures Abs() == CommandQueueSpec.Flush(w, old(Abs()), player)
    {
      hide Valid, Find, CommandQueueSpec.Flush;
      n := 0;
      FlushAfterFind(w, Abs(), player);
      var pque := CqueFind(player);
      if pque != null && pque.cque != null {
        n := FreeAll(player);
      }
      FlushWhenEmpty(w, Abs(), player);
    }

    method LeaveRing()
      requires ValidRing() && qhead != null
      modifies `qhead, `qtail, `ring, `turns, qhead`queued
      ensures ValidRing() && old(turns) != [] && turns == old(turns)[1..]
    {
      qhead.queued := false;
      qhead := qhead.next;
      if qhead == null {
        qtail := null;
      }
      ring, turns := ring[1..], turns[1..];
    }

    lemma Rotated(ring: seq<Objqe>, turns: seq<int>)
      requires OnRing(ring, turns) && ring != []
      ensures OnRing(ring[1..] + [ring[0]], turns[1..] + [turns[0]])
    {
      assert ring == [ring[0]] + ring[1..];
    }

    method Rotate(ghost ring: seq<Objqe>)
      requires Linked(ring) && ring != []
      modifies `qhead, `qtail, ring`next
      ensures Linked(ring[1..] + [ring[0]])
    {
      qtail.next := qhead;
      qtail := qtail.next;
      qhead := qhead.next;
      qtail.next := null;
    }

    method GoToBack()
      requires ValidRing() && qhead != null
      modifies `qhead, `qtail, `ring, `turns, objs`next
      ensures ValidRing() && old(turns) != [] && turns == old(turns)[1..] + [old(turns)[0]]
    {
      Rotated(ring, turns);
      Rotate(ring);
      hide Linked;
      ring, turns := ring[1..] + [ring[0]], turns[1..] + [turns[0]];
    }

    method MoveFront()
      requires Valid() && qhead != null
      modifies `qhead, `qtail, `ring, `turns, objs`next, qhead`queued
      ensures Valid() && old(turns) != []
      ensures turns == if old(qhead.cque) == null then old(turns)[1..] else old(turns)[1..] + [old(turns)[0]]
    {
      hide ValidLists, ValidRing;
      if qhead.cque == null {
        LeaveRing();
      } else {
        GoToBack();
      }
    }

    // The head of the do_top loop: the front object gives up a command and its place.
    method TakeTurn() returns (obj: int, cmd: Bque?)
      requires Valid() && qhead != null
      modifies `obq, `run, `objs, `qhead, `qtail, `ring, `turns, objs, cells
      ensures Valid() && objs == old(objs)
      ensures old(turns) != [] && obj == old(turns)[0] && Abs() == Turn(old(Abs()))
      ensures cmd == null <==> Pending(old(Abs()), obj) == []
      ensures cmd != null ==> cmd.home == null && !cmd.armed && cmd.Val() == Pending(old(Abs()), obj)[0]
    {
      hide ReadyQueue.Valid, Turn, Find, Drop, Pending;
      FrontOfRing();
      TurnDrops(w, Abs());
      obj := qhead.obj;
      cmd := CqueDeque(obj);
      FrontOfRing();
      MoveFront();
    }

    lemma FrontOfRing()
      requires Valid() && qhead != null
      ensures turns != [] && qhead in objs && qhead.obj == turns[0] && qhead.obj in obq && obq[qhead.obj] == qhead
      ensures qhead.obj in run && (qhead.cque == null <==> Pending(Abs(), qhead.obj) == [])
    {
    }
  }

  // The semaphore queue: first in, first out, with a tail pointer.
  class SemQueue {
    var first: Bque?
    var last: Bque?
    ghost var nodes: seq<Bque>
    ghost var cmds: seq<Entry>

    ghost predicate Valid()
      reads this, nodes
    {
      && Chain(first, nodes)
      && last == (if nodes == [] then null else nodes[|nodes| - 1])
      && Holds(nodes, cmds, this, false)
    }

    constructor ()
      ensures Valid() && cmds == [] && nodes == []
    {
      first, last := null, null;
      nodes, cmds := [], [];
    }

    method Append(cmd: Bque)
      requires Valid() && cmd.home == null && !cmd.armed
      modifies this, cmd, nodes
      ensures Valid() && nodes == old(nodes) + [cmd] && cmds == old(cmds) + [cmd.Val()]
      ensures cmd.Val() == old(cmd.Val()) && cmd.home == this
    {
      cmd.next := null;
      if last != null {
        last.next := cmd;
      } else {
        first := cmd;
      }
      last := cmd;
      cmd.home := this;
      nodes, cmds := nodes + [cmd], cmds + [cmd.Val()];
    }

    method Advance(ghost i: nat, trail: Bque?, point: Bque) returns (next: Bque?)
      requires Valid() && At(nodes, i, trail, point)
      ensures At(nodes, i + 1, point, next)
    {
      next := point.next;
    }

    method Forget(ghost i: nat, trail: Bque?, point: Bque)
      requires At(nodes, i, trail, point) && point !in Without(nodes, i)
      requires Unique(nodes) && Chain(first, Without(nodes, i)) && Holds(nodes, cmds, this, false)
      requires last == nodes[|nodes| - 1]
      modifies `last, `nodes, `cmds, point`home
      ensures Valid() && nodes == Without(old(nodes), i) && cmds == Without(old(cmds), i)
      ensures point.home == null && !point.armed && point.Val() == old(cmds)[i]
    {
      HoldsWithout(nodes, cmds, this, false, i);
      LastWithout(nodes, i, trail, point);
      hide Chain, Holds, Without;
      if point == last {
        last := trail;
      }
      nodes, cmds := Without(nodes, i), Without(cmds, i);
      point.home := null;
    }

    method Unlink(ghost i: nat, trail: Bque?, point: Bque) returns (next: Bque?)
      requires Valid() && At(nodes, i, trail, point)
      modifies this, nodes
      ensures Valid() && i < |old(cmds)| && nodes == Without(old(nodes), i) && cmds == Without(old(cmds), i)
      ensures point.home == null && !point.armed && point.Val() == old(cmds)[i] && point !in nodes
      ensures At(nodes, i, trail, next)
    {
      assert Chain(first, nodes) && Unique(nodes) && Holds(nodes, cmds, this, false) && last == nodes[|nodes| - 1];
      hide Valid, Unique, Chain, Holds, Without;
      first, next := Bypass(first, nodes, i, trail, point);
      Forget(i, trail, point);
    }

    method Postpone(ghost i: nat, point: Bque, seconds: int)
      requires Valid() && i < |nodes| && point == nodes[i]
      modifies `cmds, point`waittime
      ensures Valid() && cmds == old(cmds)[i := CommandQueueSpec.Advance(old(cmds)[i], seconds)]
    {
      if point.waittime > 0 {
        point.waittime := point.waittime - seconds;
        if point.waittime <= 0 {
          point.waittime := -1;
        }
      }
      cmds := cmds[i := point.Val()];
    }

    // @queue/warp moves the deadlines that are set.
    method Warp(seconds: int)
      requires Valid()
      modifies `cmds, nodes
      ensures Valid() && cmds == AdvanceAll(old(cmds), seconds)
      ensures nodes == old(nodes)
    {
      var point := first;
      ghost var i := 0;
      while point != null
        invariant Valid() && i <= |nodes| == |cmds| == |old(cmds)|
        invariant point == if i < |nodes| then nodes[i] else null
        invariant cmds[i..] == old(cmds)[i..]
        invariant forall k :: 0 <= k < i ==> cmds[k] == CommandQueueSpec.Advance(old(cmds)[k], seconds)
        decreases |nodes| - i
      {
        Postpone(i, point, seconds);
        point, i := point.next, i + 1;
      }
    }
  }

  lemma {:induction false} InsertionPlace(q: seq<Entry>, i: nat, e: Entry)
    requires i <= |q| && forall k :: 0 <= k < i ==> q[k].waittime <= e.waittime
    requires i < |q| ==> e.waittime < q[i].waittime
    ensures InsertByTime(q, e) == With(q, i, e)
  {
    if i > 0 {
      InsertionPlace(q[1..], i - 1, e);
    }
  }

  // The wait queue: sorted by time, reached from its head only.
  class WaitQueue {
    var head: Bque?
    ghost var nodes: seq<Bque>
    ghost var cmds: seq<Entry>

    ghost predicate Valid()
      reads this, nodes
    {
      Chain(head, nodes) && Holds(nodes, cmds, this, true)
    }

    constructor ()
      ensures Valid() && cmds == [] && nodes == []
    {
      head := null;
      nodes, cmds := [], [];
    }

    method Advance(ghost i: nat, trail: Bque?, point: Bque) returns (next: Bque?)
      requires Valid() && At(nodes, i, trail, point)
      ensures At(nodes, i + 1, point, next)
    {
      next := point.next;
    }

    method Link(ghost i: nat, trail: Bque?, point: Bque?, cmd: Bque)
      requires Valid() && At(nodes, i, trail, point) && cmd.home == null
      modifies this, cmd, nodes
      ensures Valid() && nodes == With(old(nodes), i, cmd) && cmds == With(old(cmds), i, cmd.Val())
      ensures cmd.Val() == old(cmd.Val()) && cmd.home == this
    {
      NotHeld(nodes, cmds, this, true, cmd);
      hide Chain, Holds, With;
      head := Splice(head, nodes, i, trail, point, cmd);
      Admit(i, cmd);
    }

    method Admit(ghost i: nat, cmd: Bque)
      requires i <= |nodes| && cmd !in nodes
      requires Chain(head, With(nodes, i, cmd)) && Holds(nodes, cmds, this, true)
      modifies `nodes, `cmds, cmd`armed, cmd`home
      ensures Valid() && nodes == With(old(nodes), i, cmd) && cmds == With(old(cmds), i, cmd.Val())
      ensures cmd.Val() == old(cmd.Val()) && cmd.home == this
    {
      hide Chain, Holds, With;
      cmd.armed, cmd.home := true, this;
      HoldsWith(nodes, cmds, this, true, i, cmd);
      nodes, cmds := With(nodes, i, cmd), With(cmds, i, cmd.Val());
    }

    // Passes the nodes due no later than t.
    method FindPlace(t: int) returns (ghost i: nat, trail: Bque?, point: Bque?)
      requires Valid()
      ensures At(nodes, i, trail, point) && i <= |cmds|
      ensures forall k :: 0 <= k < i ==> cmds[k].waittime <= t
      ensures i < |cmds| ==> t < cmds[i].waittime
    {
      point, trail, i := head, null, 0;
      while point != null && point.waittime <= t
        invariant At(nodes, i, trail, point)
        invariant forall k :: 0 <= k < i ==> cmds[k].waittime <= t
        decreases |nodes| - i
      {
        trail, point, i := point, point.next, i + 1;
      }
    }

    method Insert(cmd: Bque)
      requires Valid() && cmd.home == null
      modifies this, cmd, nodes
      ensures Valid() && cmd.Val() == old(cmd.Val()) && cmd.home == this
      ensures cmds == InsertByTime(old(cmds), cmd.Val())
      ensures forall k :: 0 <= k < |nodes| ==> nodes[k] == cmd || nodes[k] in old(nodes)
    {
      ghost var i;
      var trail, point;
      i, trail, point := FindPlace(cmd.waittime);
      InsertionPlace(cmds, i, cmd.Val());
      hide Valid;
      Link(i, trail, point, cmd);
    }

    method Forget(ghost i: nat, point: Bque)
      requires i < |nodes| && point == nodes[i] && point !in Without(nodes, i)
      requires Chain(head, Without(nodes, i)) && Holds(nodes, cmds, this, true)
      modifies `nodes, `cmds, point`armed, point`home
      ensures Valid() && nodes == Without(old(nodes), i) && cmds == Without(old(cmds), i)
      ensures point.home == null && !point.armed && point.Val() == old(cmds)[i]
    {
      HoldsWithout(nodes, cmds, this, true, i);
      hide Chain, Holds, Without;
      nodes, cmds := Without(nodes, i), Without(cmds, i);
      point.armed, point.home := false, null;
    }

    method Unlink(ghost i: nat, trail: Bque?, point: Bque) returns (next: Bque?)
      requires Valid() && At(nodes, i, trail, point)
      modifies this, nodes
      ensures Valid() && i < |old(cmds)| && nodes == Without(old(nodes), i) && cmds == Without(old(cmds), i)
      ensures point.home == null && !point.armed && point.Val() == old(cmds)[i] && point !in nodes
      ensures At(nodes, i, trail, next)
    {
      hide WaitQueue.Valid, Chain, Holds, Without;
      Parts();
      head, next := Bypass(head, nodes, i, trail, point);
      Forget(i, point);
    }

    lemma Parts()
      requires Valid()
      ensures Chain(head, nodes) && Holds(nodes, cmds, this, true) && |nodes| == |cmds| && Unique(nodes)
    {
    }

    // The removal in wakeup_wait_que, whose timer has just fired.
    method Remove(pending: Bque, ghost k: nat)
      requires Valid() && k < |nodes| && nodes[k] == pending
      modifies this, nodes
      ensures Valid() && k < |old(cmds)| && nodes == Without(old(nodes), k) && cmds == Without(old(cmds), k)
      ensures pending.home == null && !pending.armed && pending.Val() == old(cmds)[k] && pending !in nodes
    {
      if head == pending {
        var next := Unlink(0, null, pending);
      } else {
        var point := head;
        ghost var i := 0;
        while point.next != pending
          invariant i < k && point == nodes[i]
          decreases k - i
        {
          point, i := point.next, i + 1;
        }
        var next := Unlink(i + 1, point, pending);
      }
    }
  }
}
