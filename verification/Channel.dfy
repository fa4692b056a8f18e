// The users of a channel: a table in order of their numbers, and the list of
// those that messages are sent to.
module Channel {
  import opened Memory

  class Comuser {
    const who: int
    var on: bool
    var title: string
    var onNext: Comuser?

    constructor (who: int)
      ensures this.who == who && on && title == "" && onNext == null
    {
      this.who, on, title, onNext := who, true, "", null;
    }
  }

  ghost predicate Ascending(us: seq<Comuser?>) {
    && (forall i :: 0 <= i < |us| ==> us[i] != null)
    && (forall i, j :: 0 <= i < j < |us| ==> us[i].who < us[j].who)
  }

  ghost predicate Listens(us: seq<Comuser?>, player: int)
    requires Ascending(us)
  {
    exists i :: 0 <= i < |us| && us[i].who == player
  }

  // ---------- the list of listeners ----------

  function At(on: seq<Comuser>, i: int): Comuser? {
    if 0 <= i < |on| then on[i] else null
  }

  ghost predicate Chain(on: seq<Comuser>, first: Comuser?)
    reads on`onNext
  {
    && first == At(on, 0)
    && (forall i {:trigger on[i].onNext} :: 0 <= i < |on| ==> on[i].onNext == At(on, i + 1))
  }

  ghost predicate Distinct(on: seq<Comuser>) {
    forall i, j :: 0 <= i < j < |on| ==> on[i] != on[j]
  }

  lemma PlacedAscending(us: seq<Comuser?>, w: nat, u: Comuser)
    requires Ascending(us) && w <= |us|
    requires (forall i :: 0 <= i < w ==> us[i].who < u.who) && (forall i :: w <= i < |us| ==> us[i].who > u.who)
    ensures Ascending(Inserted(us, w, u))
  {
    var n := Inserted(us, w, u);
    forall i | 0 <= i < |n| ensures n[i] == if i < w then us[i] else if i == w then u else us[i - 1] {
    }
  }

  lemma Spliced(us: seq<Comuser?>, now: seq<Comuser?>, w: nat, u: Comuser)
    requires Ascending(us) && w <= |us| && |now| == |us| + 1
    requires now[..w] == us[..w] && now[w] == u && now[w + 1..] == us[w..]
    requires w > 0 ==> us[w - 1].who < u.who
    requires forall i :: w <= i < |us| ==> us[i].who > u.who
    ensures now == Inserted(us, w, u) && Ascending(now)
  {
    assert now == now[..w] + [now[w]] + now[w + 1..];
    PlacedAscending(us, w, u);
  }

  lemma DeletedAscending(us: seq<Comuser?>, w: nat)
    requires Ascending(us) && w < |us|
    ensures Ascending(Deleted(us, w))
  {
  }

  // The i-th listener is passed over, by the one before it or by the head.
  method UnlinkOn(first: Comuser?, prev: Comuser?, user: Comuser, ghost on: seq<Comuser>, ghost i: nat)
      returns (first': Comuser?)
    requires Chain(on, first) && Distinct(on) && i < |on| && on[i] == user && prev == At(on, i - 1)
    modifies on`onNext
    ensures Chain(Deleted(on, i), first')
  {
    first' := first;
    if prev != null {
      prev.onNext := user.onNext;
    } else {
      first' := user.onNext;
    }
    ghost var now := Deleted(on, i);
    forall k | 0 <= k < |now| ensures now[k].onNext == At(now, k + 1) {
      assert now[k] == on[if k < i then k else k + 1];
    }
  }

  class Channel {
    var users: array<Comuser?>
    var numUsers: nat
    var onUsers: Comuser?
    ghost var on: seq<Comuser>

    ghost predicate Valid()
      reads this, users, on`onNext
    {
      && numUsers <= users.Length && Ascending(users[..numUsers])
      && Chain(on, onUsers) && Distinct(on)
      && forall u :: u in on ==> u in users[..numUsers]
    }

    ghost function Users(): seq<Comuser?>
      requires Valid()
      reads this, users, on`onNext
    {
      users[..numUsers]
    }

    constructor ()
      ensures Valid() && Users() == [] && on == []
    {
      users := new Comuser?[0];
      numUsers, onUsers, on := 0, null, [];
    }

    // The binary search; it passes over empty entries at the end.
    method SelectUser(player: int) returns (user: Comuser?)
      requires Valid()
      ensures user != null ==> user in Users() && user.who == player
      ensures user == null <==> !Listens(Users(), player)
    {
      ghost var us := users[..numUsers];
      var first, last := 0, numUsers - 1;
      while first <= last
        invariant 0 <= first <= last + 1 <= numUsers
        invariant forall i :: 0 <= i < first ==> us[i].who < player
        invariant forall i :: last < i < numUsers ==> us[i].who > player
        decreases last - first
      {
        var current := (first + last) / 2;
        assert us[current] == users[current];
        if users[current] == null {
          last := last - 1;
        } else if users[current].who == player {
          return users[current];
        } else if users[current].who < player {
          first := current + 1;
        } else {
          last := current - 1;
        }
      }
      return null;
    }

    // Ten more entries, if one more user would fill the table.
    method Grow()
      requires numUsers <= users.Length
      modifies `users
      ensures numUsers < users.Length && users[..numUsers] == old(users[..numUsers])
      ensures users == old(users) || fresh(users)
    {
      if numUsers + 1 >= users.Length {
        users := Realloc(users, users.Length + 10, null);
      }
    }

    // Users with greater numbers move up until the place of the new one is free.
    method Place(user: Comuser) returns (ghost w: nat)
      requires numUsers < users.Length && Ascending(users[..numUsers]) && !Listens(users[..numUsers], user.who)
      modifies `numUsers, users
      ensures numUsers == old(numUsers) + 1 && w < numUsers
      ensures users[..numUsers] == Inserted(old(users[..numUsers]), w, user) && Ascending(users[..numUsers])
    {
      ghost var us := users[..numUsers];
      numUsers := numUsers + 1;
      var i := numUsers - 1;
      while i > 0 && users[i - 1].who > user.who
        invariant 0 <= i < numUsers == |us| + 1 <= users.Length && Ascending(us)
        invariant users[..i] == us[..i] && users[i + 1..numUsers] == us[i..]
        invariant forall j :: i <= j < |us| ==> us[j].who > user.who
      {
        assert users[i - 1] == us[..i][i - 1];
        users[i] := users[i - 1];
        i := i - 1;
        assert users[i + 1..numUsers] == [us[i]] + us[i + 1..];
      }
      assert i > 0 ==> us[..i][i - 1] == users[i - 1];
      assert i > 0 ==> us[i - 1].who < user.who;
      hide Ascending;
      users[i] := user;
      w := i;
      ghost var now := users[..numUsers];
      assert now[..i] == us[..i];
      assert now[i + 1..] == us[i..];
      Spliced(us, now, i, user);
    }

    // do_joinchannel
    method DoJoin(player: int, undead: bool) returns (user: Comuser, joined: bool)
      requires Valid()
      modifies this, users, Users()
      ensures Valid() && user.who == player && user.on
      ensures Listens(old(Users()), player) ==>
                && user in old(Users()) && Users() == old(Users()) && on == old(on) && joined == !old(user.on)
      ensures !Listens(old(Users()), player) ==>
                && fresh(user) && joined && on == (if undead then [user] else []) + old(on)
                && exists w :: 0 <= w <= |old(Users())| && Users() == Inserted(old(Users()), w, user)
    {
      var found := SelectUser(player);
      if found == null {
        user := new Comuser(player);
        joined := Admit(user, undead);
      } else {
        user := found;
        joined := !user.on;
        if joined {
          user.on := true;
        }
      }
    }

    method Admit(user: Comuser, undead: bool) returns (joined: bool)
      requires Valid() && !Listens(Users(), user.who) && user !in on
      modifies this, users, user`onNext
      ensures Valid() && joined && on == (if undead then [user] else []) + old(on)
      ensures exists w :: 0 <= w <= |old(Users())| && Users() == Inserted(old(Users()), w, user)
    {
      ghost var us := users[..numUsers];
      Grow();
      ghost var w := Place(user);
      assert forall u :: u in us ==> u in users[..numUsers];
      assert users[..numUsers][w] == user;
      if undead {
        user.onNext := onUsers;
        onUsers := user;
        on := [user] + on;
      }
      joined := true;
    }

    // do_comdisconnectchannel: the player's entry leaves the list of listeners.
    method Disconnect(player: int)
      requires Valid()
      modifies `onUsers, `on, on`onNext
      ensures Valid() && (forall u :: u in on <==> u in old(on) && u.who != player)
    {
      OnlyOne(users[..numUsers], on, player);
      var prev, user := null, onUsers;
      ghost var i := 0;
      while user != null && user.who != player
        invariant i <= |on| && user == At(on, i) && prev == At(on, i - 1)
        invariant forall j :: 0 <= j < i ==> on[j].who != player
        decreases |on| - i
      {
        prev := user;
        user := user.onNext;
        i := i + 1;
      }
      if user != null {
        Unlinked(on, Deleted(on, i), i);
        onUsers := UnlinkOn(onUsers, prev, user, on, i);
        on := Deleted(on, i);
      }
    }

    // The table part of do_delcomchannel.
    method DelUser(player: int)
      requires Valid()
      modifies this, users, on`onNext
      ensures Valid() && !Listens(Users(), player)
      ensures !Listens(old(Users()), player) ==> Users() == old(Users())
      ensures Listens(old(Users()), player) ==>
                Left(old(Users()), Users(), player)
      ensures forall u :: u in on <==> u in old(on) && u.who != player
    {
      hide Channel.Valid, Left, Taking, Ascending, Listens;
      InTable();
      ghost var us, gone := Users(), false;
      var i := 0;
      TakingStarts(us, on, player);
      while i < numUsers
        invariant Valid() && users == old(users) && Ascending(us) && 0 <= i
        invariant Taking(us, Users(), old(on), on, i, gone, player)
        decreases numUsers - i
      {
        InTable();
        ghost var was := Users();
        TakingOn(us, was, old(on), on, i, gone, player);
        if users[i].who == player {
          TakeOut(i);
          InTable();
          TakingOut(us, Users(), old(on), on, i, player);
          gone := true;
        }
        i := i + 1;
      }
      InTable();
      TakingEnds(us, Users(), old(on), on, i, gone, player);
    }

    // The table is what it stands for.
    lemma InTable()
      requires Valid()
      ensures numUsers == |Users()| <= users.Length && Ascending(Users())
      ensures forall i :: 0 <= i < numUsers ==> users[i] != null && users[i] == Users()[i]
      ensures forall u :: u in on ==> u in Users()
    {
    }

    method TakeOut(i: nat)
      requires Valid() && i < numUsers
      modifies this, users, on`onNext
      ensures Valid() && users == old(users) && Users() == Deleted(old(Users()), i)
      ensures forall u :: u in on <==> u in old(on) && u.who != old(users[i]).who
    {
      ghost var us := users[..numUsers];
      assert us[i] == users[i];
      DeletedAscending(us, i);
      DeletedOthers(us, i);
      Disconnect(users[i].who);
      RemoveAt(users, i, numUsers);
      numUsers := numUsers - 1;
    }
  }

  // Exactly the user with the number is gone from the table.
  ghost predicate Left(us: seq<Comuser?>, now: seq<Comuser?>, player: int)
    requires Ascending(us)
  {
    exists w :: 0 <= w < |us| && us[w].who == player && now == Deleted(us, w)
  }

  // The loop of the deletion at place i: the player has been met and is gone from
  // both, or has not been met and nothing has changed.
  ghost predicate Taking(us: seq<Comuser?>, now: seq<Comuser?>, wasOn: seq<Comuser>, on: seq<Comuser>, i: int,
                         gone: bool, player: int)
    requires Ascending(us)
  {
    && Ascending(now)
    && (forall u :: u in wasOn ==> u in us)
    && if gone then
         && Left(us, now, player) && !Listens(now, player)
         && (forall u :: u in on ==> u in wasOn && u.who != player)
         && (forall u :: u in wasOn && u.who != player ==> u in on)
       else
         && now == us && on == wasOn && 0 <= i <= |us|
         && forall j :: 0 <= j < i ==> us[j].who != player
  }

  lemma TakingStarts(us: seq<Comuser?>, on: seq<Comuser>, player: int)
    requires Ascending(us) && forall u :: u in on ==> u in us
    ensures Taking(us, us, on, on, 0, false, player)
  {
  }

  // Another user is passed, and the player is met only once.
  lemma TakingOn(us: seq<Comuser?>, now: seq<Comuser?>, wasOn: seq<Comuser>, on: seq<Comuser>, i: nat,
                 gone: bool, player: int)
    requires Ascending(us) && Taking(us, now, wasOn, on, i, gone, player) && i < |now|
    ensures now[i] != null
    ensures now[i].who != player ==> Taking(us, now, wasOn, on, i + 1, gone, player)
    ensures now[i].who == player ==> !gone && now == us && on == wasOn
  {
  }

  lemma TakingOut(us: seq<Comuser?>, now: seq<Comuser?>, wasOn: seq<Comuser>, on: seq<Comuser>, i: nat, player: int)
    requires Ascending(us) && i < |us| && us[i].who == player && now == Deleted(us, i)
    requires (forall u :: u in wasOn ==> u in us) && forall u :: u in on <==> u in wasOn && u.who != player
    ensures Taking(us, now, wasOn, on, i + 1, true, player)
  {
    DeletedAscending(us, i);
    DeletedUnlike(us, i);
  }

  lemma TakingEnds(us: seq<Comuser?>, now: seq<Comuser?>, wasOn: seq<Comuser>, on: seq<Comuser>, i: nat,
                   gone: bool, player: int)
    requires Ascending(us) && Taking(us, now, wasOn, on, i, gone, player) && i >= |now|
    ensures Ascending(now) && !Listens(now, player)
    ensures if Listens(us, player) then Left(us, now, player) else now == us
    ensures forall u :: u in on <==> u in wasOn && u.who != player
  {
    if !gone {
      OnIn(us, on, player);
    }
  }

  lemma DeletedUnlike(us: seq<Comuser?>, w: nat)
    requires Ascending(us) && w < |us|
    ensures Ascending(Deleted(us, w)) && forall j :: 0 <= j < |us| - 1 ==> Deleted(us, w)[j].who != us[w].who
  {
  }

  lemma DeletedOthers(us: seq<Comuser?>, w: nat)
    requires Ascending(us) && w < |us|
    ensures forall u :: u in us && u.who != us[w].who ==> u in Deleted(us, w)
  {
    forall u | u in us && u.who != us[w].who ensures u in Deleted(us, w) {
      var j :| 0 <= j < |us| && us[j] == u;
      assert Deleted(us, w)[if j < w then j else j - 1] == u;
    }
  }

  lemma OnIn(us: seq<Comuser?>, on: seq<Comuser>, player: int)
    requires Ascending(us) && !Listens(us, player) && forall u :: u in on ==> u in us
    ensures forall u :: u in on ==> u.who != player
  {
    forall u | u in on ensures u.who != player {
      assert u in us;
    }
  }

  // At most one listener has the number.
  lemma OnlyOne(us: seq<Comuser?>, on: seq<Comuser>, player: int)
    requires Ascending(us) && Distinct(on) && forall u :: u in on ==> u in us
    ensures forall i, j :: 0 <= i < j < |on| ==> on[i].who != on[j].who
  {
    forall i, j | 0 <= i < j < |on| ensures on[i].who != on[j].who {
      assert on[i] in us && on[j] in us;
    }
  }

  lemma Unlinked(was: seq<Comuser>, now: seq<Comuser>, i: nat)
    requires i < |was| && now == Deleted(was, i)
    requires forall j, k :: 0 <= j < k < |was| ==> was[j].who != was[k].who
    ensures Distinct(now) && forall u :: u in now <==> u in was && u.who != was[i].who
  {
    forall u | u in was && u.who != was[i].who ensures u in now {
      var j :| 0 <= j < |was| && was[j] == u;
      assert now[if j < i then j else j - 1] == u;
    }
  }
}
