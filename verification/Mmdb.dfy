// The serialiser of the binary database: numbers and byte strings in the
// format of sections 4.2 and 4.10 of RFC 4506, in a buffer that grows.
module Mmdb {
  import opened Options

  type Byte = b: int | 0 <= b < 256

  const WORD := 0x1_0000_0000
  const BLOCK := 0x400

  // ---------- the format ----------

  function Bytes4(v: int): (s: seq<Byte>)
    requires 0 <= v < WORD
    ensures |s| == 4
  {
    var a: int := v / 0x100;
    var b: int := a / 0x100;
    var c: int := b / 0x100;
    var w: int, x: int, y: int := b % 0x100, a % 0x100, v % 0x100;
    [c, w, x, y]
  }

  function Value4(s: seq<Byte>): (v: int)
    requires |s| == 4
    ensures 0 <= v < WORD
  {
    (((s[0] as int) * 0x100 + s[1] as int) * 0x100 + s[2] as int) * 0x100 + s[3] as int
  }

  // Big-endian, and nothing is lost in either direction.
  lemma WordRoundTrip(v: int, s: seq<Byte>)
    requires 0 <= v < WORD && |s| == 4
    ensures Value4(Bytes4(v)) == v && Bytes4(Value4(s)) == s
    ensures Value4(s) == (s[0] as int) * 0x100_0000 + (s[1] as int) * 0x1_0000 + (s[2] as int) * 0x100 + s[3] as int
  {
  }

  // The bytes that fill up the last group of four.
  function Residue(n: nat): (r: nat)
    ensures r < 4 && (n + r) % 4 == 0
  {
    if n % 4 > 0 then 4 - n % 4 else 0
  }

  function Zeros(n: nat): (s: seq<Byte>)
    ensures |s| == n && forall i :: 0 <= i < n ==> s[i] == 0
  {
    seq(n, i => 0)
  }

  function Opaque(data: seq<Byte>): (s: seq<Byte>)
    requires |data| < WORD
    ensures |s| % 4 == 0
  {
    Bytes4(|data|) + data + Zeros(Residue(|data|))
  }

  // The length, most significant byte first, the data, and zeros up to the next
  // multiple of four.
  lemma OpaqueFormat(data: seq<Byte>)
    requires |data| < WORD
    ensures var s := Opaque(data);
            && (s[0] as int) * 0x100_0000 + (s[1] as int) * 0x1_0000 + (s[2] as int) * 0x100 + s[3] as int == |data|
            && |data| + 4 <= |s| < |data| + 8 && |s| % 4 == 0
            && s[4..4 + |data|] == data
            && forall i :: 4 + |data| <= i < |s| ==> s[i] == 0
  {
    var s := Opaque(data);
    WordRoundTrip(|data|, s[..4]);
    assert s[..4] == Bytes4(|data|);
    assert s == Bytes4(|data|) + (data + Zeros(Residue(|data|)));
  }

  // A C string, or the null pointer, is written with its terminator.
  datatype Item = Number(v: int) | Str(text: Option<seq<Byte>>)

  // Lengths are numbers of 31 bits.
  predicate Storable(item: Item) {
    match item
    case Number(v) => 0 <= v < WORD
    case Str(None) => true
    case Str(Some(text)) => 0 !in text && |text| + 1 < WORD / 2
  }

  function Encode(item: Item): (s: seq<Byte>)
    requires Storable(item)
    ensures |s| % 4 == 0 && |s| >= 4
  {
    match item
    case Number(v) => Bytes4(v)
    case Str(None) => Bytes4(0)
    case Str(Some(text)) => Opaque(text + [0])
  }

  predicate AllStorable(items: seq<Item>) {
    forall i :: 0 <= i < |items| ==> Storable(items[i])
  }

  function EncodeAll(items: seq<Item>): (s: seq<Byte>)
    requires AllStorable(items)
    ensures |s| % 4 == 0
  {
    if items == [] then []
    else
      assert AllStorable(items[1..]);
      var head, tail := Encode(items[0]), EncodeAll(items[1..]);
      AlignedSum(|head|, |tail|);
      head + tail
  }

  // ---------- reading ----------

  // What mmdb_read_string hands out: the null pointer, a block of memory with
  // the bytes of the file, or one that was not filled. `Wild` is a length that is
  // negative as an int: it passes the test for enough bytes and is copied.
  datatype Pointer = Null | Block(bytes: seq<Byte>) | Unfilled | Wild

  // The string that a block holds, up to its terminator.
  function CString(bytes: seq<Byte>): seq<Byte> {
    if bytes == [] || bytes[0] == 0 then [] else [bytes[0]] + CString(bytes[1..])
  }

  function Shown(p: Pointer): Option<Option<seq<Byte>>> {
    match p
    case Null => Some(None)
    case Block(bytes) => Some(Some(CString(bytes)))
    case Unfilled => None
    case Wild => None
  }

  lemma {:induction false} CStringBack(text: seq<Byte>, more: seq<Byte>)
    requires 0 !in text
    ensures CString(text + [0] + more) == text
  {
    var s := text + [0] + more;
    if text != [] {
      assert s[1..] == text[1..] + [0] + more;
      CStringBack(text[1..], more);
    }
  }

  // What mmdb_read_string finds and what it leaves.
  function Parse(s: seq<Byte>): (Pointer, seq<Byte>)
    requires |s| >= 4 && |s| % 4 == 0
  {
    var length, rest := Value4(s[..4]), s[4..];
    if length == 0 then (Null, rest)
    else if length >= WORD / 2 then (Wild, rest)
    else if length > |rest| then (Unfilled, rest)
    else (Block(rest[..length]), rest[length + Residue(length)..])
  }

  lemma ParseBack(text: Option<seq<Byte>>, more: seq<Byte>)
    requires Storable(Str(text)) && |more| % 4 == 0
    ensures |Encode(Str(text)) + more| >= 4 && |Encode(Str(text)) + more| % 4 == 0
    ensures
      var (p, rest) := Parse(Encode(Str(text)) + more);
      Shown(p) == Some(text) && rest == more
  {
    var s := Encode(Str(text)) + more;
    match text {
      case None =>
        WordRoundTrip(0, s[..4]);
        assert s[..4] == Bytes4(0);
      case Some(t) =>
        var data := t + [0];
        WordRoundTrip(|data|, s[..4]);
        assert s == Bytes4(|data|) + (data + Zeros(Residue(|data|)) + more);
        assert s[..4] == Bytes4(|data|);
        assert s[4..] == data + Zeros(Residue(|data|)) + more;
        assert s[4..][..|data|] == data;
        assert s[4..][|data| + Residue(|data|)..] == more;
        CStringBack(t, []);
        assert data + [] == data;
    }
  }

  // Data of half the words or more is written with a length that is read as
  // negative.
  lemma LongDataIsWild(data: seq<Byte>, more: seq<Byte>)
    requires WORD / 2 <= |data| < WORD && |Opaque(data) + more| >= 4 && |Opaque(data) + more| % 4 == 0
    ensures Parse(Opaque(data) + more).0 == Wild
  {
    var s := Opaque(data) + more;
    WordRoundTrip(|data|, s[..4]);
    assert s == Bytes4(|data|) + (data + Zeros(Residue(|data|)) + more);
    assert s[..4] == Bytes4(|data|);
  }

  // ---------- the buffer ----------

  lemma Aligned4(ppos: nat, length: nat)
    requires ppos % 4 == 0
    ensures (ppos + length + Residue(length)) % 4 == 0
    ensures Residue(length) == if length % 4 > 0 then 4 - length % 4 else 0
  {
  }

  // In whole blocks there is room for the residue as well.
  lemma Room(size: nat, ppos: nat, length: nat)
    requires size % BLOCK == 0 && ppos % 4 == 0 && ppos + length <= size
    ensures ppos + length + Residue(length) <= size
  {
  }

  class Mmdb {
    var base: array<Byte>
    var ppos: nat

    ghost predicate Valid()
      reads this
    {
      ppos <= base.Length && base.Length % BLOCK == 0
    }

    ghost function Written(): seq<Byte>
      requires Valid()
      reads this, base
    {
      base[..ppos]
    }

    // What is there to be read.
    ghost function Ahead(): seq<Byte>
      requires Valid()
      reads this, base
    {
      base[ppos..]
    }

    // mmdb_open_write, on a file of any content.
    constructor OpenWrite(content: seq<Byte>)
      ensures Valid() && fresh(base) && base.Length == 16 * BLOCK && Written() == []
    {
      base := new Byte[16 * BLOCK](i requires 0 <= i => if i < |content| then content[i] else 0);
      ppos := 0;
    }

    // mmdb_open_read: the file is mapped in whole blocks.
    constructor OpenRead(content: seq<Byte>)
      ensures Valid() && fresh(base) && content <= Ahead() && ppos == 0
      ensures forall i :: |content| <= i < |Ahead()| ==> Ahead()[i] == 0
    {
      base := new Byte[RoundUp(|content|)](i requires 0 <= i => if i < |content| then content[i] else 0);
      ppos := 0;
    }

    // The bytes written stay, there is room for more, in whole blocks.
    method Resize(length: nat)
      requires Valid() && length >= base.Length
      modifies this
      ensures Valid() && fresh(base) && length <= base.Length < length + BLOCK && ppos == old(ppos)
      ensures base[..old(base.Length)] == old(base[..])
    {
      var was := base;
      base := new Byte[RoundUp(length)](_ => 0);
      var i := 0;
      while i < was.Length
        invariant i <= was.Length <= base.Length && fresh(base) && base != was && ppos == old(ppos)
        invariant was[..] == old(base[..]) && base[..i] == was[..i]
        invariant base.Length == RoundUp(length)
        modifies base
      {
        base[i] := was[i];
        i := i + 1;
      }
    }

    method Write(data: seq<Byte>)
      requires Valid()
      modifies this, base
      ensures Valid() && Written() == old(Written()) + data && (base == old(base) || fresh(base))
    {
      ghost var was := Written();
      if base.Length - ppos < |data| {
        Resize(base.Length + |data|);
        assert base[..ppos] == base[..old(base.Length)][..ppos];
      }
      var i := 0;
      while i < |data|
        invariant i <= |data| && ppos + |data| <= base.Length && ppos == old(ppos) && base.Length % BLOCK == 0
        invariant base == old(base) || fresh(base)
        invariant base[..ppos + i] == was + data[..i]
        modifies base
      {
        base[ppos + i] := data[i];
        i := i + 1;
      }
      ppos := ppos + |data|;
    }

    method WriteUint32(v: int)
      requires Valid() && 0 <= v < WORD
      modifies this, base
      ensures Valid() && Written() == old(Written()) + Bytes4(v) && (base == old(base) || fresh(base))
    {
      Write(Bytes4(v));
    }

    method WriteOpaque(data: seq<Byte>)
      requires Valid() && |data| < WORD
      modifies this, base
      ensures Valid() && Written() == old(Written()) + Opaque(data) && (base == old(base) || fresh(base))
    {
      ghost var was := Written();
      WriteUint32(|data|);
      Write(data);
      if |data| % 4 > 0 {
        Write(Zeros(4 - |data| % 4));
      }
      assert Written() == was + Opaque(data);
    }

    method WriteString(s: Option<seq<Byte>>)
      requires Valid() && Storable(Str(s))
      modifies this, base
      ensures Valid() && Written() == old(Written()) + Encode(Str(s)) && (base == old(base) || fresh(base))
    {
      match s {
        case None => WriteUint32(0);
        case Some(text) => WriteOpaque(text + [0]);
      }
    }

    // The pointer is not compared with the end of the buffer.
    method ReadUint32() returns (v: int)
      requires Valid() && |Ahead()| >= 4
      modifies `ppos
      ensures Valid() && v == Value4(old(Ahead())[..4]) && Ahead() == old(Ahead())[4..] && ppos == old(ppos) + 4
    {
      ghost var ahead := Ahead();
      var word := base[ppos..ppos + 4];
      assert word == ahead[..4];
      v := Value4(word);
      ppos := ppos + 4;
    }

    // mmdb_read: the bytes, if there are so many, and on to the next group of
    // four. A negative length passes the test; what is copied then is not modelled.
    method Read(length: int) returns (dest: Pointer)
      requires Valid() && ppos % 4 == 0
      modifies `ppos
      ensures Valid() && base == old(base) && ppos % 4 == 0
      ensures dest == Wild <==> length < 0
      ensures dest == Unfilled <==> length > |old(Ahead())|
      ensures length < 0 || length > |old(Ahead())| ==> ppos == old(ppos)
      ensures 0 <= length <= |old(Ahead())| ==>
                && dest == Block(old(Ahead())[..length]) && ppos == old(ppos) + length + Residue(length)
                && Ahead() == old(Ahead())[length + Residue(length)..]
    {
      if base.Length - ppos < length {
        return Unfilled;
      }
      if length < 0 {
        return Wild;
      }
      Aligned4(ppos, length);
      Room(base.Length, ppos, length);
      ghost var ahead := Ahead();
      assert ahead[..length] == base[ppos..ppos + length];
      dest := Block(base[ppos..ppos + length]);
      ghost var residue := Residue(length);
      hide Residue;
      var pad := if length % 4 > 0 then 4 - length % 4 else 0;
      ppos := ppos + length + pad;
      assert base[ppos..] == ahead[length + residue..];
    }

    method ReadString() returns (p: Pointer)
      requires Valid() && ppos % 4 == 0 && |Ahead()| >= 4
      modifies `ppos
      ensures Valid() && ppos % 4 == 0
      ensures (p, Ahead()) == Parse(old(Ahead()))
    {
      var length := ReadUint32();
      if length == 0 {
        return Null;
      }
      p := Read(if length < WORD / 2 then length else length - WORD);
    }
  }

  // (n + 0x3FF) & ~0x3FF
  function RoundUp(n: nat): (r: nat)
    ensures n <= r < n + BLOCK && r % BLOCK == 0
  {
    (n + BLOCK - 1) / BLOCK * BLOCK
  }

  // ---------- round trip ----------

  method WriteItem(db: Mmdb, item: Item)
    requires db.Valid() && Storable(item)
    modifies db, db.base
    ensures db.Valid() && db.Written() == old(db.Written()) + Encode(item)
    ensures db.base == old(db.base) || fresh(db.base)
  {
    match item {
      case Number(v) => db.WriteUint32(v);
      case Str(text) => db.WriteString(text);
    }
  }

  method WriteAll(db: Mmdb, items: seq<Item>)
    requires db.Valid() && AllStorable(items)
    modifies db, db.base
    ensures db.Valid() && db.Written() == old(db.Written()) + EncodeAll(items)
  {
    var i := 0;
    ghost var goal := db.Written() + EncodeAll(items);
    assert items[0..] == items;
    hide Mmdb.Valid, Encode, EncodeAll, Storable;
    while i < |items|
      invariant i <= |items| && db.Valid() && (db.base == old(db.base) || fresh(db.base))
      invariant db.Written() + EncodeAll(items[i..]) == goal
    {
      EncodeFrom(items, i, db.Written());
      WriteItem(db, items[i]);
      i := i + 1;
    }
    EncodeNone(items, i, db.Written());
  }

  lemma EncodeFrom(items: seq<Item>, i: nat, before: seq<Byte>)
    requires AllStorable(items) && i < |items|
    ensures before + EncodeAll(items[i..]) == before + Encode(items[i]) + EncodeAll(items[i + 1..])
  {
    assert items[i..][1..] == items[i + 1..];
    var a, b := Encode(items[i]), EncodeAll(items[i + 1..]);
    assert EncodeAll(items[i..]) == a + b;
    hide EncodeAll, Encode;
    assert before + (a + b) == before + a + b;
  }

  lemma EncodeNone(items: seq<Item>, i: nat, before: seq<Byte>)
    requires AllStorable(items) && i == |items|
    ensures before + EncodeAll(items[i..]) == before
  {
  }

  method ReadItem(db: Mmdb, item: Item, ghost rest: seq<Byte>) returns (back: Item)
    requires db.Valid() && Storable(item) && db.ppos % 4 == 0 && |rest| % 4 == 0
    requires db.Ahead() == Encode(item) + rest
    modifies db`ppos
    ensures db.Valid() && back == item && db.Ahead() == rest && db.ppos % 4 == 0
  {
    match item {
      case Number(v) =>
        WordRoundTrip(v, Bytes4(v));
        assert db.Ahead()[..4] == Bytes4(v) && db.Ahead()[4..] == rest;
        hide Bytes4, Value4;
        var w := db.ReadUint32();
        back := Number(w);
      case Str(text) =>
        ParseBack(text, rest);
        hide Parse, Shown, Encode;
        var p := db.ReadString();
        back := Str(Shown(p).value);
    }
  }

  lemma AlignedSum(m: nat, n: nat)
    requires m % 4 == 0 && n % 4 == 0
    ensures (m + n) % 4 == 0
  {
  }

  lemma EncodeNext(items: seq<Item>, i: nat, more: seq<Byte>)
    requires AllStorable(items) && i < |items| && |more| % 4 == 0
    ensures |EncodeAll(items[i + 1..]) + more| % 4 == 0
    ensures EncodeAll(items[i..]) + more == Encode(items[i]) + (EncodeAll(items[i + 1..]) + more)
  {
    assert items[i..][1..] == items[i + 1..];
    var a, b := Encode(items[i]), EncodeAll(items[i + 1..]);
    assert EncodeAll(items[i..]) == a + b;
    hide EncodeAll, Encode;
    AlignedSum(|b|, |more|);
    assert a + b + more == a + (b + more);
  }

  lemma Aligned(ahead: seq<Byte>, file: seq<Byte>)
    requires file <= ahead && |file| % 4 == 0 && |ahead| % BLOCK == 0
    ensures ahead == file + ahead[|file|..] && |ahead[|file|..]| % 4 == 0
  {
  }

  // The items are read with the calls that match those that wrote them.
  method ReadAll(db: Mmdb, items: seq<Item>, ghost more: seq<Byte>) returns (back: seq<Item>)
    requires db.Valid() && AllStorable(items) && db.ppos % 4 == 0 && |more| % 4 == 0
    requires db.Ahead() == EncodeAll(items) + more
    modifies db`ppos
    ensures db.Valid() && back == items && db.Ahead() == more && db.ppos % 4 == 0
  {
    back := [];
    var i := 0;
    assert items[0..] == items;
    assert EncodeAll([]) + more == more;
    hide Mmdb.Valid, Encode, EncodeAll, Storable;
    while i < |items|
      invariant i <= |items| && db.Valid() && db.ppos % 4 == 0
      invariant back == items[..i] && db.Ahead() == EncodeAll(items[i..]) + more
    {
      ghost var rest := EncodeAll(items[i + 1..]) + more;
      EncodeNext(items, i, more);
      var item := ReadItem(db, items[i], rest);
      back := back + [item];
      i := i + 1;
    }
    assert items[i..] == [];
  }

  // What is written to a file, over any old content and however the buffer has
  // to grow, is read from it again: numbers, null pointers and strings, even
  // empty ones.
  method SaveAndLoad(items: seq<Item>, content: seq<Byte>) returns (back: seq<Item>)
    requires AllStorable(items)
    ensures back == items
  {
    var out := new Mmdb.OpenWrite(content);
    WriteAll(out, items);
    var file := out.base[..out.ppos];
    assert file == EncodeAll(items);
    hide EncodeAll, Encode;
    var db := new Mmdb.OpenRead(file);
    Aligned(db.Ahead(), file);
    back := ReadAll(db, items, db.Ahead()[|file|..]);
  }
}
