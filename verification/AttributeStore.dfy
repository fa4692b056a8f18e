// The attributes of one object: an array kept in order of attribute number and
// searched by halving, and flag bits that tell whether some are present.
module AttributeStore {
  import opened Memory
  import opened Options
  import opened StringIO

  const A_STARTUP := 19
  const A_LISTEN := 26
  const A_FORWARDLIST := 95
  const A_DAILY := 204
  const A_HOURLY := 246

  const HAS_STARTUP := 0x00400000
  const HAS_LISTEN := 0x00000040
  const HAS_FWDLIST := 0x00000080
  const HAS_DAILY := 0x00020000
  const HAS_HOURLY := 0x00400000

  datatype Attr = Attr(number: int, data: string)

  // ---------- the plain map ----------

  ghost predicate Ascending(l: seq<Attr>) {
    forall i, j :: 0 <= i < j < |l| ==> l[i].number < l[j].number
  }

  ghost function AsMap(l: seq<Attr>): (m: map<int, string>)
    requires Ascending(l)
    ensures forall i :: 0 <= i < |l| ==> l[i].number in m && m[l[i].number] == l[i].data
    ensures forall k :: k in m ==> exists i :: 0 <= i < |l| && l[i].number == k
  {
    map i | 0 <= i < |l| :: l[i].number := l[i].data
  }

  // The place where atr is, or where it belongs.
  ghost predicate PlaceOf(l: seq<Attr>, atr: int, at: int) {
    && 0 <= at <= |l|
    && (forall i :: 0 <= i < at ==> l[i].number < atr)
    && (forall i :: at <= i < |l| ==> l[i].number >= atr)
  }

  function Placed(l: seq<Attr>, at: int, a: Attr): seq<Attr>
    requires 0 <= at <= |l|
  {
    if at < |l| && l[at].number == a.number then l[at := a] else l[..at] + [a] + l[at..]
  }

  function Removed(l: seq<Attr>, at: int): seq<Attr>
    requires 0 <= at < |l|
  {
    l[..at] + l[at + 1..]
  }

  lemma MapIs(l: seq<Attr>, m: map<int, string>)
    requires Ascending(l)
    requires forall i :: 0 <= i < |l| ==> l[i].number in m && m[l[i].number] == l[i].data
    requires forall k :: k in m ==> exists i :: 0 <= i < |l| && l[i].number == k
    ensures AsMap(l) == m
  {
    assert forall k :: k in m ==> k in AsMap(l);
  }

  lemma PlacedAscends(l: seq<Attr>, at: int, a: Attr)
    requires Ascending(l) && PlaceOf(l, a.number, at)
    ensures Ascending(Placed(l, at, a))
  {
  }

  lemma PlacedKnown(l: seq<Attr>, at: int, a: Attr, j: nat)
    requires Ascending(l) && PlaceOf(l, a.number, at) && j < |Placed(l, at, a)|
    ensures
      var x, m := Placed(l, at, a)[j], AsMap(l)[a.number := a.data];
      x.number in m && m[x.number] == x.data
  {
    var x := Placed(l, at, a)[j];
    if j == at {
      assert x == a;
    } else {
      var i := if j < at || (at < |l| && l[at].number == a.number) then j else j - 1;
      assert x == l[i] && l[i].number != a.number;
    }
  }

  lemma PlacedKeeps(l: seq<Attr>, at: int, a: Attr, i: nat) returns (j: nat)
    requires 0 <= at <= |l| && i < |l| && l[i].number != a.number
    ensures j < |Placed(l, at, a)| && Placed(l, at, a)[j] == l[i]
  {
    j := if i < at || (at < |l| && l[at].number == a.number) then i else i + 1;
  }

  lemma PlacedFound(l: seq<Attr>, at: int, a: Attr, k: int)
    requires Ascending(l) && PlaceOf(l, a.number, at) && k in AsMap(l)[a.number := a.data]
    ensures exists j :: 0 <= j < |Placed(l, at, a)| && Placed(l, at, a)[j].number == k
  {
    if k == a.number {
      assert Placed(l, at, a)[at] == a;
    } else {
      var i :| 0 <= i < |l| && l[i].number == k;
      var j := PlacedKeeps(l, at, a, i);
      hide Placed;
    }
  }

  lemma PlacedMap(l: seq<Attr>, at: int, a: Attr)
    requires Ascending(l) && PlaceOf(l, a.number, at)
    ensures Ascending(Placed(l, at, a)) && AsMap(Placed(l, at, a)) == AsMap(l)[a.number := a.data]
  {
    PlacedAscends(l, at, a);
    var p, m := Placed(l, at, a), AsMap(l)[a.number := a.data];
    forall j: nat | j < |p| ensures p[j].number in m && m[p[j].number] == p[j].data {
      PlacedKnown(l, at, a, j);
    }
    forall k | k in m ensures exists j :: 0 <= j < |p| && p[j].number == k {
      PlacedFound(l, at, a, k);
    }
    hide Placed, PlaceOf, Ascending;
    MapIs(p, m);
  }

  lemma RemovedKnown(l: seq<Attr>, at: int, j: nat)
    requires Ascending(l) && 0 <= at < |l| && j < |l| - 1
    ensures
      var x, m := Removed(l, at)[j], AsMap(l) - {l[at].number};
      x.number in m && m[x.number] == x.data
  {
    var i := if j < at then j else j + 1;
    assert Removed(l, at)[j] == l[i] && l[i].number != l[at].number;
  }

  lemma RemovedFound(l: seq<Attr>, at: int, k: int)
    requires Ascending(l) && 0 <= at < |l| && k in AsMap(l) - {l[at].number}
    ensures exists j :: 0 <= j < |Removed(l, at)| && Removed(l, at)[j].number == k
  {
    var i :| 0 <= i < |l| && l[i].number == k;
    assert Removed(l, at)[if i < at then i else i - 1] == l[i];
  }

  lemma RemovedMap(l: seq<Attr>, at: int)
    requires Ascending(l) && 0 <= at < |l|
    ensures Ascending(Removed(l, at)) && AsMap(Removed(l, at)) == AsMap(l) - {l[at].number}
  {
    var p, m := Removed(l, at), AsMap(l) - {l[at].number};
    forall j: nat | j < |p| ensures p[j].number in m && m[p[j].number] == p[j].data {
      RemovedKnown(l, at, j);
    }
    forall k | k in m ensures exists j :: 0 <= j < |p| && p[j].number == k {
      RemovedFound(l, at, k);
    }
    assert Ascending(p);
    hide Removed, Ascending;
    MapIs(p, m);
  }

  // ---------- the flags ----------

  // A word of flags is the set of the masks whose bit is on.
  type Flags = set<int>

  // The masks that belong to an attribute, in the first word and in the second.
  function Mask(atr: int): Flags {
    if atr == A_STARTUP then {HAS_STARTUP} else {}
  }

  function Mask2(atr: int): Flags {
    if atr == A_DAILY then {HAS_DAILY}
    else if atr == A_HOURLY then {HAS_HOURLY}
    else if atr == A_FORWARDLIST then {HAS_FWDLIST}
    else if atr == A_LISTEN then {HAS_LISTEN}
    else {}
  }

  ghost predicate Mirrored(flags: Flags, flags2: Flags, m: map<int, string>) {
    && (HAS_STARTUP in flags <==> A_STARTUP in m)
    && (HAS_DAILY in flags2 <==> A_DAILY in m)
    && (HAS_HOURLY in flags2 <==> A_HOURLY in m)
    && (HAS_FWDLIST in flags2 <==> A_FORWARDLIST in m)
    && (HAS_LISTEN in flags2 <==> A_LISTEN in m)
  }

  lemma MarkMirrors(flags: Flags, flags2: Flags, m: map<int, string>, atr: int, data: string)
    requires Mirrored(flags, flags2, m)
    ensures Mirrored(flags + Mask(atr), flags2 + Mask2(atr), m[atr := data])
  {
  }

  lemma UnmarkMirrors(flags: Flags, flags2: Flags, m: map<int, string>, atr: int)
    requires Mirrored(flags, flags2, m)
    ensures Mirrored(flags - Mask(atr), flags2 - Mask2(atr), m - {atr})
    ensures atr !in m ==> m - {atr} == m && flags - Mask(atr) == flags && flags2 - Mask2(atr) == flags2
  {
  }

  // The texts in the store are C strings of the size of a buffer, not empty.
  ghost predicate Stored(m: map<int, string>) {
    forall k :: k in m ==> m[k] != "" && |m[k]| < LBUF_SIZE && Plain(m[k])
  }

  lemma StoredStays(m: map<int, string>, atr: int, text: string)
    requires Stored(m) && Plain(text) && text != ""
    ensures Stored(m - {atr}) && Stored(m[atr := Cut(text)])
  {
  }

  // ---------- the object ----------

  // The text that fits into a buffer.
  function Cut(text: string): string {
    if |text| >= LBUF_SIZE then text[..LBUF_SIZE - 1] else text
  }

  // The binary search of the three operations.
  method Search(list: array<Attr>, count: nat, atr: int) returns (found: bool, at: int)
    requires count <= list.Length && Ascending(list[..count])
    ensures PlaceOf(list[..count], atr, at)
    ensures found <==> at < count && list[at].number == atr
  {
    var lo, hi := 0, count - 1;
    while lo <= hi
      invariant 0 <= lo <= hi + 1 <= count
      invariant forall i :: 0 <= i < lo ==> list[i].number < atr
      invariant forall i :: hi < i < count ==> list[i].number > atr
    {
      var mid := (hi - lo) / 2 + lo;
      ghost var l := list[..count];
      assert forall i :: 0 <= i < count ==> l[i] == list[i];
      if list[mid].number == atr {
        return true, mid;
      } else if list[mid].number > atr {
        hi := mid - 1;
      } else {
        lo := mid + 1;
      }
    }
    return false, lo;
  }

  class Object {
    var ahead: array?<Attr>
    var count: nat
    var flags: Flags
    var flags2: Flags

    ghost function List(): seq<Attr>
      reads `ahead, `count, ahead
    {
      if ahead == null || count > ahead.Length then [] else ahead[..count]
    }

    ghost predicate Listed()
      reads `ahead, `count, ahead
    {
      (if ahead == null then count == 0 else count <= ahead.Length) && Ascending(List())
    }

    ghost predicate Valid()
      reads this, ahead
    {
      Listed() && Mirrored(flags, flags2, AsMap(List())) && Stored(AsMap(List()))
    }

    ghost function Contents(): map<int, string>
      requires Valid()
      reads this, ahead
    {
      AsMap(List())
    }

    constructor ()
      ensures Valid() && Contents() == map[]
    {
      ahead, count, flags, flags2 := null, 0, {}, {};
    }

    method AtrGetRaw(atr: int) returns (r: Option<string>)
      requires Valid()
      ensures r == if atr in Contents() then Some(Contents()[atr]) else None
    {
      if ahead == null {
        return None;
      }
      var found, at := Search(ahead, count, atr);
      assert List() == ahead[..count];
      if found {
        assert List()[at] == ahead[at];
        return Some(ahead[at].data);
      }
      assert forall i :: 0 <= i < count ==> List()[i].number != atr;
      return None;
    }

    // The bits of an attribute are set and cleared with it; the calls that
    // reload a player's settings leave the object alone.
    method Mark(atr: int)
      modifies `flags, `flags2
      ensures flags == old(flags) + Mask(atr) && flags2 == old(flags2) + Mask2(atr)
    {
      if atr == A_STARTUP {
        flags := flags + {HAS_STARTUP};
      } else if atr == A_DAILY {
        flags2 := flags2 + {HAS_DAILY};
      } else if atr == A_HOURLY {
        flags2 := flags2 + {HAS_HOURLY};
      } else if atr == A_FORWARDLIST {
        flags2 := flags2 + {HAS_FWDLIST};
      } else if atr == A_LISTEN {
        flags2 := flags2 + {HAS_LISTEN};
      }
    }

    method Unmark(atr: int)
      modifies `flags, `flags2
      ensures flags == old(flags) - Mask(atr) && flags2 == old(flags2) - Mask2(atr)
    {
      if atr == A_STARTUP {
        flags := flags - {HAS_STARTUP};
      } else if atr == A_DAILY {
        flags2 := flags2 - {HAS_DAILY};
      } else if atr == A_HOURLY {
        flags2 := flags2 - {HAS_HOURLY};
      } else if atr == A_FORWARDLIST {
        flags2 := flags2 - {HAS_FWDLIST};
      } else if atr == A_LISTEN {
        flags2 := flags2 - {HAS_LISTEN};
      }
    }

    // The entry at `at` is taken out and those behind it move down.
    method TakeOut(at: nat)
      requires ahead != null && at < count <= ahead.Length
      modifies `count, ahead
      ensures ahead == old(ahead) && count == old(count) - 1
      ensures List() == Removed(old(List()), at)
    {
      count := count - 1;
      if at != count {
        Bcopy(ahead, at + 1, at, count - at);
      }
    }

    // The array grows by one entry.
    method Realloc()
      requires ahead != null && count <= ahead.Length
      modifies `ahead
      ensures ahead != null && fresh(ahead) && ahead.Length == count + 1
      ensures List() == old(List())
    {
      var list := new Attr[count + 1](_ => Attr(0, ""));
      var i := 0;
      while i < count
        invariant i <= count && ahead == old(ahead) && list[..i] == old(ahead[..i])
        invariant ahead[..] == old(ahead[..])
      {
        list[i] := ahead[i];
        i := i + 1;
      }
      ahead := list;
    }

    // A new entry is put at `at` and those behind it move up.
    method PutIn(at: nat, a: Attr)
      requires ahead != null && at <= count < ahead.Length
      requires at < count ==> ahead[at].number != a.number
      modifies `count, ahead
      ensures ahead == old(ahead) && count == old(count) + 1
      ensures List() == Placed(old(List()), at, a)
    {
      ghost var l := List();
      if at < count {
        Bcopy(ahead, at, at + 1, count - at);
      }
      ahead[at] := a;
      count := count + 1;
      assert l == old(ahead[..count]);
    }

    // The array after the loop of atr_clr.
    method Drop(atr: int)
      requires Listed() && ahead != null
      modifies `count, ahead
      ensures Listed() && ahead == old(ahead)
      ensures AsMap(List()) == AsMap(old(List())) - {atr}
    {
      ghost var l := List();
      var found, at := Search(ahead, count, atr);
      assert l == ahead[..count];
      if found {
        RemovedMap(l, at);
        hide Ascending, Removed;
        TakeOut(at);
      } else {
        assert forall i :: 0 <= i < |l| ==> l[i].number != atr;
        assert atr !in AsMap(l);
      }
    }

    // The array after the search of atr_add_raw and what follows it.
    method Add(a: Attr)
      requires Listed()
      modifies `ahead, `count, ahead
      ensures Listed() && AsMap(List()) == AsMap(old(List()))[a.number := a.data]
      ensures ahead == old(ahead) || fresh(ahead)
    {
      ghost var l := List();
      if ahead == null {
        PlacedMap(l, 0, a);
        ahead := new Attr[1](_ => a);
        count := 1;
        assert List() == [a];
      } else {
        var found, at := Search(ahead, count, a.number);
        assert l == ahead[..count];
        PlacedMap(l, at, a);
        hide Ascending, PlaceOf;
        if found {
          ahead[at] := a;
          assert List() == Placed(l, at, a);
        } else {
          assert at < count ==> l[at] == ahead[at];
          Realloc();
          PutIn(at, a);
        }
      }
    }

    // No attribute is left under the number, and the flags say so.
    method AtrClr(atr: int)
      requires Valid()
      modifies this, ahead
      ensures Valid() && ahead == old(ahead) && Contents() == old(Contents()) - {atr}
      ensures flags == old(flags) - Mask(atr) && flags2 == old(flags2) - Mask2(atr)
    {
      UnmarkMirrors(flags, flags2, AsMap(List()), atr);
      StoredStays(AsMap(List()), atr, "x");
      hide Mirrored, Mask, Mask2, Ascending, Stored;
      if count == 0 || ahead == null {
        assert AsMap(List()) == map[];
        return;
      }
      Drop(atr);
      Unmark(atr);
    }

    // The text is there under the number, cut to the size of a buffer, and the
    // flags say so; the empty text clears.
    method AtrAddRaw(atr: int, buff: Option<string>)
      requires Valid() && (buff.Some? ==> Plain(buff.value))
      modifies this, ahead
      ensures Valid() && (ahead == old(ahead) || fresh(ahead))
      ensures buff.None? || buff.value == "" ==>
                && Contents() == old(Contents()) - {atr}
                && flags == old(flags) - Mask(atr) && flags2 == old(flags2) - Mask2(atr)
      ensures buff.Some? && buff.value != "" ==>
                && Contents() == old(Contents())[atr := Cut(buff.value)]
                && flags == old(flags) + Mask(atr) && flags2 == old(flags2) + Mask2(atr)
    {
      hide Mirrored, Mask, Mask2, Ascending, Stored, Cut;
      if buff.None? || buff.value == "" {
        AtrClr(atr);
        return;
      }
      MarkMirrors(flags, flags2, AsMap(List()), atr, Cut(buff.value));
      StoredStays(AsMap(List()), atr, buff.value);
      Add(Attr(atr, Cut(buff.value)));
      Mark(atr);
    }
  }

  // ---------- the walk over the attributes ----------

  class Cursor {
    const thing: Object
    var count: nat

    constructor (thing: Object)
      ensures this.thing == thing && count == 2
    {
      this.thing, count := thing, 2;
    }
  }

  method AtrHead(thing: Object) returns (attr: int, attrp: Cursor?)
    requires thing.Valid()
    ensures if thing.List() == [] then attr == 0 && attrp == null
            else
              && attr == thing.List()[0].number
              && attrp != null && fresh(attrp) && attrp.thing == thing && attrp.count == 2
  {
    if thing.count != 0 {
      attrp := new Cursor(thing);
      attr := thing.ahead[0].number;
    } else {
      attr, attrp := 0, null;
    }
  }

  method AtrNext(attrp: Cursor?) returns (attr: int)
    requires attrp != null ==> attrp.thing.Valid() && attrp.count >= 2
    modifies attrp
    ensures attrp == null ==> attr == 0
    ensures attrp != null ==>
              if old(attrp.count) > |attrp.thing.List()| then attr == 0 && attrp.count == old(attrp.count)
              else attr == attrp.thing.List()[old(attrp.count) - 1].number && attrp.count == old(attrp.count) + 1
  {
    if attrp == null || attrp.count > attrp.thing.count {
      return 0;
    }
    attrp.count := attrp.count + 1;
    attr := attrp.thing.ahead[attrp.count - 2].number;
  }

  ghost predicate Increasing(ns: seq<int>) {
    forall i, j :: 0 <= i < j < |ns| ==> ns[i] < ns[j]
  }

  lemma AllMet(l: seq<Attr>, ns: seq<int>)
    requires Ascending(l) && |ns| <= |l| && 0 !in ns && forall i :: 0 <= i < |ns| ==> ns[i] == l[i].number
    requires |ns| < |l| ==> l[|ns|].number == 0
    ensures Increasing(ns) && forall n :: n in ns ==> n in AsMap(l)
    ensures (forall k :: k in AsMap(l) ==> k in ns) <==> 0 !in AsMap(l)
  {
    forall k | k in AsMap(l) && 0 !in AsMap(l) ensures k in ns {
      var i :| 0 <= i < |l| && l[i].number == k;
      assert ns[i] == k;
    }
  }

  // The numbers as a loop over atr_head and atr_next meets them: in order, each
  // once, and all of them just when 0 is not among them, which ends the loop.
  method Numbers(thing: Object) returns (ns: seq<int>)
    requires thing.Valid()
    ensures Increasing(ns) && forall n :: n in ns ==> n in thing.Contents()
    ensures (forall k :: k in thing.Contents() ==> k in ns) <==> 0 !in thing.Contents()
  {
    hide Mirrored, Ascending, AsMap, Increasing, Stored;
    ghost var l := thing.List();
    ns := [];
    var attr, cursor := AtrHead(thing);
    while attr != 0
      invariant thing.Valid() && thing.List() == l && |ns| <= |l| && 0 !in ns
      invariant forall i :: 0 <= i < |ns| ==> ns[i] == l[i].number
      invariant if |ns| < |l| then attr == l[|ns|].number else attr == 0
      invariant l != [] ==> cursor != null && fresh(cursor) && cursor.thing == thing
      invariant |ns| < |l| ==> cursor.count == |ns| + 2
      decreases |l| - |ns|
    {
      ns := ns + [attr];
      attr := AtrNext(cursor);
    }
    AllMet(l, ns);
  }
}
