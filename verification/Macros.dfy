// The macro sets of the server and the slots by which players refer to them:
// deleting a set renumbers those behind it, in the table and in every slot.
module Macros {
  import opened Commac
  import opened Memory

  const SLOTS := 5

  class MacroSet {
    const player: int
    const desc: string

    constructor (player: int, desc: string)
      ensures this.player == player && this.desc == desc
    {
      this.player, this.desc := player, desc;
    }
  }

  // What a slot holds after the set `gone` was deleted.
  function Shift(slot: int, gone: int): int {
    if slot == gone then -1 else if slot > gone then slot - 1 else slot
  }

  // Every slot of a legal table keeps its meaning just when the deleted number
  // is not negative: an empty slot stays empty, and only the deleted set's slots
  // are emptied.
  lemma ShiftKeeps(gone: int, n: nat)
    requires n > 0
    ensures (forall s :: -1 <= s < n ==> -1 <= Shift(s, gone) && (Shift(s, gone) == -1 <==> s == -1 || s == gone))
            <==> gone >= 0
  {
    assert gone < -1 ==> Shift(-1, gone) == -2;
    assert gone == -1 ==> Shift(0, gone) == -1;
  }

  // The slots of a player refer to some of n sets, the current slot to one.
  ghost predicate Legal(slots: seq<int>, curmac: int, n: nat) {
    && |slots| == SLOTS
    && (forall j :: 0 <= j < SLOTS ==> -1 <= slots[j] < n)
    && (curmac == -1 || (0 <= curmac < SLOTS && slots[curmac] >= 0))
  }

  function ShiftAll(slots: seq<int>, gone: int): (r: seq<int>)
    ensures |r| == |slots| && forall j :: 0 <= j < |slots| ==> r[j] == Shift(slots[j], gone)
  {
    seq(|slots|, j requires 0 <= j < |slots| => Shift(slots[j], gone))
  }

  function ShiftCurrent(slots: seq<int>, curmac: int, gone: int): int {
    if 0 <= curmac < |slots| && slots[curmac] == gone then -1 else curmac
  }

  lemma ShiftLegal(slots: seq<int>, curmac: int, n: nat, gone: int)
    requires Legal(slots, curmac, n) && gone >= 0
    ensures Legal(ShiftAll(slots, gone), ShiftCurrent(slots, curmac, gone), if gone < n then n - 1 else n)
  {
  }

  // A slot that named another set names it still.
  lemma StillNames<T>(sets: seq<T>, gone: nat, s: nat)
    requires gone < |sets| && s < |sets| && s != gone
    ensures 0 <= Shift(s, gone) < |Deleted(sets, gone)| && Deleted(sets, gone)[Shift(s, gone)] == sets[s]
  {
  }

  // The slot now names the set it named before, or none if that was deleted.
  ghost predicate Follows<T>(was: seq<T>, now: seq<T>, gone: int, before: int, after: int) {
    if before < 0 || before == gone then after == -1
    else before < |was| && 0 <= after < |now| && now[after] == was[before]
  }

  lemma FollowsShift<T>(sets: seq<T>, gone: nat, s: int)
    requires gone < |sets| && -1 <= s < |sets|
    ensures Follows(sets, Deleted(sets, gone), gone, s, Shift(s, gone))
  {
    if s >= 0 && s != gone {
      StillNames(sets, gone, s);
    }
  }

  // The current slot stays the current one unless its own set goes.
  ghost predicate CurrentFollows(slots: seq<int>, gone: int, before: int, after: int) {
    if 0 <= before < |slots| && slots[before] == gone then after == -1 else after == before
  }

  lemma AllFollow<T>(sets: seq<T>, gone: nat, slots: seq<int>, now: seq<int>)
    requires gone < |sets| && now == ShiftAll(slots, gone)
    requires forall j :: 0 <= j < |slots| ==> -1 <= slots[j] < |sets|
    ensures forall j :: 0 <= j < |slots| ==> Follows(sets, Deleted(sets, gone), gone, slots[j], now[j])
  {
    forall j | 0 <= j < |slots| ensures Follows(sets, Deleted(sets, gone), gone, slots[j], now[j]) {
      FollowsShift(sets, gone, slots[j]);
    }
  }

  // The inner loop of clear_macro_set, on one player.
  method ShiftSlots(c: Commac, gone: int)
    requires c.macros.Length == SLOTS
    modifies c.macros, c`curmac
    ensures c.macros[..] == ShiftAll(old(c.macros[..]), gone)
    ensures c.curmac == ShiftCurrent(old(c.macros[..]), old(c.curmac), gone)
  {
    ghost var was, cur := c.macros[..], c.curmac;
    var j := 0;
    while j < SLOTS
      invariant 0 <= j <= SLOTS && c.macros == old(c.macros)
      invariant forall k :: 0 <= k < SLOTS ==> c.macros[k] == if k < j then Shift(was[k], gone) else was[k]
      invariant c.curmac == if 0 <= cur < j && was[cur] == gone then -1 else cur
    {
      if c.macros[j] == gone {
        c.macros[j] := -1;
        if c.curmac == j {
          c.curmac := -1;
        }
      } else if c.macros[j] > gone {
        c.macros[j] := c.macros[j] - 1;
      }
      j := j + 1;
    }
  }

  // A player's record after a set was deleted.
  twostate predicate Shifted(c: Commac, gone: int)
    reads c, c.macros
  {
    && c.macros == old(c.macros)
    && c.macros[..] == ShiftAll(old(c.macros[..]), gone)
    && c.curmac == ShiftCurrent(old(c.macros[..]), old(c.curmac), gone)
  }

  ghost predicate Apart(table: seq<Commac>)
    reads table
  {
    && (forall i :: 0 <= i < |table| ==> table[i].macros.Length == SLOTS)
    && (forall i, k :: 0 <= i < k < |table| ==> table[i] != table[k] && table[i].macros != table[k].macros)
  }

  // The records of all players are gone through.
  method ShiftTable(table: seq<Commac>, gone: int)
    requires Apart(table)
    modifies table`curmac, set c | c in table :: c.macros
    ensures Apart(table) && forall i :: 0 <= i < |table| ==> Shifted(table[i], gone)
  {
    var i := 0;
    while i < |table|
      invariant 0 <= i <= |table| && Apart(table)
      invariant forall k :: 0 <= k < i ==> Shifted(table[k], gone)
      invariant forall k :: i <= k < |table| ==>
                              table[k].macros[..] == old(table[k].macros[..]) && table[k].curmac == old(table[k].curmac)
    {
      assert forall k :: 0 <= k < |table| && k != i ==> table[k] != table[i] && table[k].macros != table[i].macros;
      ShiftSlots(table[i], gone);
      i := i + 1;
    }
  }

  class MacroSystem {
    var macros: array<MacroSet?>
    var nummacros: nat
    // Every player's record.
    var table: seq<Commac>

    ghost predicate Valid()
      reads this, macros, table
    {
      && nummacros <= macros.Length
      && (forall i :: 0 <= i < nummacros ==> macros[i] != null)
      && Apart(table)
    }

    ghost function Sets(): seq<MacroSet?>
      requires Valid()
      reads this, macros, table
    {
      macros[..nummacros]
    }

    // All references are legal.
    ghost predicate Refers()
      requires Valid()
      reads this, macros, table, set c | c in table :: c.macros
    {
      forall i :: 0 <= i < |table| ==> Legal(table[i].macros[..], table[i].curmac, nummacros)
    }

    // The table is closed up and all slots are renumbered.
    method CloseUp(gone: int)
      requires Valid()
      modifies `nummacros, macros, table`curmac, set c | c in table :: c.macros
      ensures Valid() && table == old(table) && macros == old(macros)
      ensures nummacros == old(nummacros) - if 0 <= gone < old(nummacros) then 1 else 0
      ensures Sets() == if 0 <= gone < old(nummacros) then Deleted(old(Sets()), gone) else old(Sets())
      ensures forall i :: 0 <= i < |table| ==> Shifted(table[i], gone)
    {
      if 0 <= gone < nummacros {
        ghost var was := macros[..nummacros];
        RemoveAt(macros, gone, nummacros);
        nummacros := nummacros - 1;
        assert forall i :: 0 <= i < nummacros ==> macros[i] == Deleted(was, gone)[i];
      }
      ShiftTable(table, gone);
    }

    // clear_macro_set, for any number.
    method ClearMacroSet(gone: int)
      requires Valid()
      modifies `nummacros, macros, table`curmac, set c | c in table :: c.macros
      ensures Valid() && table == old(table) && macros == old(macros)
      ensures nummacros == old(nummacros) - if 0 <= gone < old(nummacros) then 1 else 0
      ensures Sets() == if 0 <= gone < old(nummacros) then Deleted(old(Sets()), gone) else old(Sets())
      ensures forall i :: 0 <= i < |table| ==> Shifted(table[i], gone)
      ensures old(Refers()) && gone >= 0 ==> Refers()
      ensures old(Refers()) && 0 <= gone < old(nummacros) ==>
                forall i, j :: 0 <= i < |table| && 0 <= j < SLOTS ==>
                                 Follows(old(Sets()), Sets(), gone, old(table[i].macros[..])[j], table[i].macros[j])
      ensures forall i :: 0 <= i < |table| ==>
                            CurrentFollows(old(table[i].macros[..]), gone, old(table[i].curmac), table[i].curmac)
    {
      hide Apart;
      CloseUp(gone);
      if old(Refers()) && gone >= 0 {
        ghost var was := old(Sets());
        hide ShiftCurrent;
        forall i | 0 <= i < |table|
          ensures Legal(table[i].macros[..], table[i].curmac, nummacros)
          ensures gone < |was| ==>
                    forall j :: 0 <= j < SLOTS ==>
                                  Follows(was, Sets(), gone, old(table[i].macros[..])[j], table[i].macros[j])
        {
          assert Shifted(table[i], gone);
          ShiftLegal(old(table[i].macros[..]), old(table[i].curmac), old(nummacros), gone);
          if gone < |was| {
            AllFollow(was, gone, old(table[i].macros[..]), table[i].macros[..]);
          }
        }
      }
    }

    // The first free slot of a player, or -1.
    method FreeSlot(c: Commac) returns (first: int)
      requires c.macros.Length == SLOTS
      ensures first == -1 ==> forall j :: 0 <= j < SLOTS ==> c.macros[j] != -1
      ensures first != -1 ==> 0 <= first < SLOTS && c.macros[first] == -1
                              && forall j :: 0 <= j < first ==> c.macros[j] != -1
    {
      first := -1;
      var i := 0;
      while i < SLOTS && first < 0
        invariant 0 <= i <= SLOTS
        invariant first == -1 ==> forall j :: 0 <= j < i ==> c.macros[j] != -1
        invariant first != -1 ==> 0 <= first < SLOTS && c.macros[first] == -1
                                  && forall j :: 0 <= j < first ==> c.macros[j] != -1
      {
        if c.macros[i] == -1 {
          first := i;
        }
        i := i + 1;
      }
    }

    // A slot of one player is set; all other references are as they were.
    lemma OneChanged(k: nat, slots: seq<int>, curmac: int)
      requires Valid() && k < |table|
      requires forall i :: 0 <= i < |table| && i != k ==> Legal(table[i].macros[..], table[i].curmac, nummacros)
      requires table[k].macros[..] == slots && table[k].curmac == curmac && Legal(slots, curmac, nummacros)
      ensures Refers()
    {
    }

    // do_add_macro, of a set that may be read or not.
    method DoAddMacro(c: Commac, ghost k: nat, number: int, readable: bool) returns (slot: int)
      requires Valid() && Refers() && k < |table| && table[k] == c
      modifies c.macros
      ensures Valid() && Refers()
      ensures slot == -1 ==> c.macros[..] == old(c.macros[..])
      ensures slot != -1 ==> 0 <= slot < SLOTS && old(c.macros[..])[slot] == -1 && 0 <= number < nummacros
                             && c.macros[..] == old(c.macros[..])[slot := number]
      ensures slot != -1 ==> -1 !in old(c.macros[..])[..slot]
      ensures slot != -1 <==> -1 in old(c.macros[..]) && 0 <= number < nummacros && readable
    {
      ghost var was := c.macros[..];
      assert Legal(was, c.curmac, nummacros);
      slot := FreeSlot(c);
      assert slot != -1 ==> was[slot] == -1;
      assert slot == -1 ==> forall j :: 0 <= j < SLOTS ==> was[j] == c.macros[j];
      if slot < 0 || !(0 <= number < nummacros) || !readable {
        return -1;
      }
      c.macros[slot] := number;
      OthersLegal(k);
      OneChanged(k, was[slot := number], c.curmac);
    }

    twostate lemma OthersLegal(k: nat)
      requires old(Valid()) && old(Refers()) && k < |table| && table == old(table) && nummacros <= old(nummacros) + 1
      requires nummacros >= old(nummacros)
      requires forall i :: 0 <= i < |table| ==> table[i].macros == old(table[i].macros)
      requires forall i :: 0 <= i < |table| && i != k ==>
                             table[i].macros[..] == old(table[i].macros[..]) && table[i].curmac == old(table[i].curmac)
      ensures forall i :: 0 <= i < |table| && i != k ==> Legal(table[i].macros[..], table[i].curmac, nummacros)
    {
      forall i | 0 <= i < |table| && i != k ensures Legal(table[i].macros[..], table[i].curmac, nummacros) {
        assert Legal(old(table[i].macros[..]), old(table[i].curmac), old(nummacros));
      }
    }

    // do_del_macro
    method DoDelMacro(c: Commac, ghost k: nat, slot: int) returns (ok: bool)
      requires Valid() && Refers() && k < |table| && table[k] == c
      modifies c.macros, c`curmac
      ensures Valid() && Refers()
      ensures ok <==> 0 <= slot < SLOTS && old(c.macros[..])[slot] >= 0
      ensures c.macros[..] == if ok then old(c.macros[..])[slot := -1] else old(c.macros[..])
      ensures c.curmac == if ok && slot == old(c.curmac) then -1 else old(c.curmac)
    {
      ghost var was := c.macros[..];
      assert Legal(was, c.curmac, nummacros);
      ok := 0 <= slot < SLOTS && c.macros[slot] >= 0;
      if ok {
        c.macros[slot] := -1;
        if slot == c.curmac {
          c.curmac := -1;
        }
        OthersLegal(k);
        OneChanged(k, was[slot := -1], c.curmac);
      }
    }

    // do_edit_macro
    method DoEditMacro(c: Commac, ghost k: nat, slot: int) returns (ok: bool)
      requires Valid() && Refers() && k < |table| && table[k] == c
      modifies c`curmac
      ensures Valid() && Refers()
      ensures ok <==> 0 <= slot < SLOTS && 0 <= c.macros[slot] < nummacros
      ensures c.curmac == if ok then slot else old(c.curmac)
    {
      assert Legal(c.macros[..], c.curmac, nummacros);
      ok := 0 <= slot < SLOTS && 0 <= c.macros[slot] < nummacros;
      if ok {
        c.curmac := slot;
        OthersLegal(k);
        OneChanged(k, c.macros[..], slot);
      }
    }

    // do_create_macro
    method DoCreateMacro(c: Commac, ghost k: nat, player: int, desc: string) returns (m: MacroSet?)
      requires Valid() && Refers() && k < |table| && table[k] == c
      modifies this`macros, this`nummacros, macros, c.macros, c`curmac
      ensures Valid() && Refers() && table == old(table)
      ensures m == null <==> -1 !in old(c.macros[..])
      ensures m == null ==> Sets() == old(Sets())
      ensures m != null ==>
                && fresh(m) && Sets() == old(Sets()) + [m] && 0 <= c.curmac < SLOTS
                && c.macros[..] == old(c.macros[..])[c.curmac := old(nummacros)]
                && old(c.macros[..])[c.curmac] == -1 && -1 !in old(c.macros[..])[..c.curmac]
    {
      ghost var was := c.macros[..];
      assert Legal(was, c.curmac, nummacros);
      var first := FreeSlot(c);
      assert first == -1 ==> forall j :: 0 <= j < SLOTS ==> was[j] == c.macros[j];
      if first < 0 {
        return null;
      }
      m := new MacroSet(player, desc);
      Append(m);
      c.curmac := first;
      c.macros[first] := nummacros - 1;
      OthersLegal(k);
      OneChanged(k, was[first := nummacros - 1], first);
    }

    // Another set joins the table, which may have to grow by ten.
    method Append(m: MacroSet)
      requires Valid()
      modifies this`macros, this`nummacros, macros
      ensures Valid() && nummacros == old(nummacros) + 1 && Sets() == old(Sets()) + [m]
    {
      if nummacros >= macros.Length {
        macros := Realloc(macros, macros.Length + 10, null);
      }
      macros[nummacros] := m;
      nummacros := nummacros + 1;
    }

    // get_macro_set: the set in a slot or, for any other number, in the current
    // slot.
    method GetMacroSet(c: Commac, ghost k: nat, which: int) returns (m: MacroSet?)
      requires Valid() && Refers() && k < |table| && table[k] == c
      ensures
          var j := if 0 <= which < SLOTS then which else c.curmac;
        if j >= 0 && j < SLOTS && c.macros[j] >= 0 then m in Sets() && m == macros[c.macros[j]] else m == null
    {
      assert Legal(c.macros[..], c.curmac, nummacros);
      var number := -1;
      if 0 <= which < SLOTS {
        number := c.macros[which];
      } else if c.curmac >= 0 {
        number := c.macros[c.curmac];
      }
      if number == -1 {
        return null;
      }
      assert macros[..nummacros][number] == macros[number];
      return macros[number];
    }

    // Where a slot that named a set before the purge points now: to that set still, or,
    // if it belongs to no player, perhaps to none.
    static ghost predicate Survives(was: seq<MacroSet?>, now: seq<MacroSet?>, isPlayer: int -> bool,
                                    before: int, after: int)
      requires null !in was
    {
      if before < 0 then after == -1
      else before < |was| && if after == -1 then !isPlayer(was[before].player)
                             else 0 <= after < |now| && now[after] == was[before]
    }

    static ghost predicate CurrentSurvives(was: seq<MacroSet?>, isPlayer: int -> bool, slots: seq<int>,
                                           before: int, after: int)
      requires null !in was
    {
      after == before
      || (after == -1 && 0 <= before < |slots| && 0 <= slots[before] < |was| && !isPlayer(was[slots[before]].player))
    }

    static lemma SurvivesOn(was: seq<MacroSet?>, now: seq<MacroSet?>, now': seq<MacroSet?>, isPlayer: int -> bool,
                            gone: nat, before: int, after: int, after': int)
      requires null !in was && null !in now && gone < |now| && !isPlayer(now[gone].player)
      requires Survives(was, now, isPlayer, before, after) && Follows(now, now', gone, after, after')
      ensures Survives(was, now', isPlayer, before, after')
    {
    }

    static lemma CurrentOn(was: seq<MacroSet?>, now: seq<MacroSet?>, isPlayer: int -> bool, slots0: seq<int>,
                           slots: seq<int>, gone: nat, before: int, after: int, after': int)
      requires null !in was && null !in now && gone < |now| && !isPlayer(now[gone].player)
      requires |slots0| == |slots| && forall j :: 0 <= j < |slots| ==> Survives(was, now, isPlayer, slots0[j], slots[j])
      requires CurrentSurvives(was, isPlayer, slots0, before, after) && CurrentFollows(slots, gone, after, after')
      ensures CurrentSurvives(was, isPlayer, slots0, before, after')
    {
    }

    // The sets of players, in their order.
    static function OfPlayers(sets: seq<MacroSet?>, isPlayer: int -> bool): (r: seq<MacroSet?>)
      requires null !in sets
    {
      if sets == [] then []
      else (if isPlayer(sets[0].player) then [sets[0]] else []) + OfPlayers(sets[1..], isPlayer)
    }

    static lemma {:induction false} OfPlayersWithout(sets: seq<MacroSet?>, isPlayer: int -> bool, gone: nat)
      requires null !in sets && gone < |sets| && !isPlayer(sets[gone].player)
      ensures null !in Deleted(sets, gone) && OfPlayers(Deleted(sets, gone), isPlayer) == OfPlayers(sets, isPlayer)
    {
      if gone > 0 {
        OfPlayersWithout(sets[1..], isPlayer, gone - 1);
        assert Deleted(sets, gone)[1..] == Deleted(sets[1..], gone - 1);
        assert Deleted(sets, gone)[0] == sets[0];
      } else {
        assert Deleted(sets, gone) == sets[1..];
      }
    }

    static lemma {:induction false} AllOfPlayers(sets: seq<MacroSet?>, isPlayer: int -> bool)
      requires null !in sets && forall i :: 0 <= i < |sets| ==> isPlayer(sets[i].player)
      ensures OfPlayers(sets, isPlayer) == sets
    {
      if sets != [] {
        AllOfPlayers(sets[1..], isPlayer);
      }
    }

    // One set that is no player's is deleted, some way into the purge.
    method PurgeOne(isPlayer: int -> bool, gone: nat, ghost was: seq<MacroSet?>, ghost slots: seq<seq<int>>,
                    ghost curs: seq<int>)
      requires Valid() && Refers() && gone < nummacros && !isPlayer(macros[gone].player)
      requires AllInPurge(was, isPlayer, slots, curs)
      modifies `nummacros, macros, table`curmac, set c | c in table :: c.macros
      ensures Valid() && Refers() && table == old(table) && macros == old(macros) && nummacros == old(nummacros) - 1
      ensures forall i :: 0 <= i < |table| ==> table[i].macros == old(table[i].macros)
      ensures AllInPurge(was, isPlayer, slots, curs)
    {
      ghost var now := Sets();
      OfPlayersWithout(now, isPlayer, gone);
      hide OfPlayers, Survives, CurrentSurvives, Shifted, Follows, CurrentFollows;
      ClearMacroSet(gone);
      forall i | 0 <= i < |table| ensures InPurge(was, isPlayer, slots[i], curs[i], table[i]) {
        assert old(InPurge(was, isPlayer, slots[i], curs[i], table[i]));
        forall j | 0 <= j < SLOTS ensures Survives(was, Sets(), isPlayer, slots[i][j], table[i].macros[j]) {
          SurvivesOn(was, now, Sets(), isPlayer, gone, slots[i][j], old(table[i].macros[j]), table[i].macros[j]);
        }
        CurrentOn(was, now, isPlayer, slots[i], old(table[i].macros[..]), gone, curs[i], old(table[i].curmac),
                  table[i].curmac);
      }
    }

    ghost predicate InPurge(was: seq<MacroSet?>, isPlayer: int -> bool, slots: seq<int>, cur: int, c: Commac)
      requires Valid() && null !in was
      reads this, macros, table, c, c.macros
    {
      && |slots| == SLOTS == c.macros.Length
      && (forall j :: 0 <= j < SLOTS ==> Survives(was, Sets(), isPlayer, slots[j], c.macros[j]))
      && CurrentSurvives(was, isPlayer, slots, cur, c.curmac)
    }

    static ghost function SlotsOf(table: seq<Commac>): (r: seq<seq<int>>)
      reads table, set c | c in table :: c.macros
      ensures |r| == |table| && forall i :: 0 <= i < |table| ==> r[i] == table[i].macros[..]
    {
      if table == [] then [] else [table[0].macros[..]] + SlotsOf(table[1..])
    }

    static ghost function CurrentsOf(table: seq<Commac>): (r: seq<int>)
      reads table
      ensures |r| == |table| && forall i :: 0 <= i < |table| ==> r[i] == table[i].curmac
    {
      if table == [] then [] else [table[0].curmac] + CurrentsOf(table[1..])
    }

    lemma InPurgeStarts(isPlayer: int -> bool)
      requires Valid() && Refers()
      ensures null !in Sets() && forall i :: 0 <= i < |table| ==>
                InPurge(Sets(), isPlayer, table[i].macros[..], table[i].curmac, table[i])
    {
      forall i | 0 <= i < |table| ensures InPurge(Sets(), isPlayer, table[i].macros[..], table[i].curmac, table[i]) {
        assert Legal(table[i].macros[..], table[i].curmac, nummacros);
      }
    }

    // After loading, the sets whose owner is no player are deleted. Those of players
    // stay in their order; every slot that named one names it still, and the slots of
    // the others are empty; a current slot is given up only with its set.
    method Purge(isPlayer: int -> bool)
      requires Valid() && Refers()
      modifies `nummacros, macros, table`curmac, set c | c in table :: c.macros
      ensures Valid() && Refers() && table == old(table)
      ensures forall i :: 0 <= i < nummacros ==> isPlayer(macros[i].player)
      ensures null !in old(Sets()) && Sets() == OfPlayers(old(Sets()), isPlayer)
      ensures forall i :: 0 <= i < |table| ==>
                PurgedSlots(old(Sets()), isPlayer, old(table[i].macros[..]), old(table[i].curmac), table[i])
    {
      ghost var was, slots, curs := Sets(), SlotsOf(table), CurrentsOf(table);
      InPurgeStarts(isPlayer);
      PurgeLoop(isPlayer, was, slots, curs);
      AllOfPlayers(Sets(), isPlayer);
      hide OfPlayers, InPurge, PurgedSlots, Refers, Apart;
      forall k | 0 <= k < |table| ensures PurgedSlots(was, isPlayer, slots[k], curs[k], table[k]) {
        InPurgeEnds(isPlayer, was, slots[k], curs[k], table[k]);
      }
    }

    ghost predicate AllInPurge(was: seq<MacroSet?>, isPlayer: int -> bool, slots: seq<seq<int>>, curs: seq<int>)
      requires Valid()
      reads this, macros, table, set c | c in table :: c.macros
    {
      && null !in was && |slots| == |curs| == |table|
      && OfPlayers(Sets(), isPlayer) == OfPlayers(was, isPlayer)
      && forall i :: 0 <= i < |table| ==> InPurge(was, isPlayer, slots[i], curs[i], table[i])
    }

    method PurgeLoop(isPlayer: int -> bool, ghost was: seq<MacroSet?>, ghost slots: seq<seq<int>>,
                     ghost curs: seq<int>)
      requires Valid() && Refers() && AllInPurge(was, isPlayer, slots, curs)
      modifies `nummacros, macros, table`curmac, set c | c in table :: c.macros
      ensures Valid() && Refers() && table == old(table) && AllInPurge(was, isPlayer, slots, curs)
      ensures forall i :: 0 <= i < nummacros ==> isPlayer(macros[i].player)
    {
      hide AllInPurge, Refers, Apart;
      var i := FirstStray(isPlayer);
      while i < nummacros
        invariant Valid() && Refers() && table == old(table) && macros == old(macros)
        invariant 0 <= i <= nummacros && (i < nummacros ==> !isPlayer(macros[i].player))
        invariant forall k :: 0 <= k < i ==> isPlayer(macros[k].player)
        invariant forall k :: 0 <= k < |table| ==> table[k].macros == old(table[k].macros)
        invariant AllInPurge(was, isPlayer, slots, curs)
        decreases nummacros
      {
        PurgeOne(isPlayer, i, was, slots, curs);
        i := FirstStray(isPlayer);
      }
    }

    // The first set that is no player's, or the number of sets.
    method FirstStray(isPlayer: int -> bool) returns (i: nat)
      requires Valid()
      ensures i <= nummacros && (i < nummacros ==> !isPlayer(macros[i].player))
      ensures forall k :: 0 <= k < i ==> isPlayer(macros[k].player)
    {
      i := 0;
      while i < nummacros && isPlayer(macros[i].player)
        invariant 0 <= i <= nummacros && forall k :: 0 <= k < i ==> isPlayer(macros[k].player)
      {
        i := i + 1;
      }
    }

    // How the slots of one player are after the purge: what named the set of a player
    // names it still, what named another set or none is empty, and the current slot is
    // given up only with its set.
    ghost predicate PurgedSlots(was: seq<MacroSet?>, isPlayer: int -> bool, slots: seq<int>, cur: int, c: Commac)
      requires Valid() && null !in was
      reads this, macros, table, c, c.macros
    {
      && |slots| == SLOTS == c.macros.Length
      && (forall j :: 0 <= j < SLOTS ==>
            slots[j] < |was| &&
            if slots[j] >= 0 && isPlayer(was[slots[j]].player) then
              0 <= c.macros[j] < nummacros && macros[c.macros[j]] == was[slots[j]]
            else c.macros[j] == -1)
      && CurrentSurvives(was, isPlayer, slots, cur, c.curmac)
    }

    lemma InPurgeEnds(isPlayer: int -> bool, was: seq<MacroSet?>, slots: seq<int>, cur: int, c: Commac)
      requires Valid() && null !in was && forall i :: 0 <= i < nummacros ==> isPlayer(macros[i].player)
      requires InPurge(was, isPlayer, slots, cur, c)
      ensures PurgedSlots(was, isPlayer, slots, cur, c)
    {
    }
  }
}
