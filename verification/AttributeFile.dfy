// The attributes of an object in the database file: how they are written and
// how the list is read back.
module AttributeFile {
  import opened AttributeStore
  import opened Options
  import opened StringIO
  import opened Text

  const SBUF_SIZE := 256

  const A_MONEY := 25
  const A_LOCK := 42
  const A_NAME := 43
  const A_LIST := 253

  // The output flags: names and locks may be attributes.
  datatype Output = Output(atrName: bool, atrKey: bool)

  predicate Saved(j: int, o: Output) {
    && j > 0 && j != A_LIST && j != A_MONEY
    && (j == A_NAME ==> o.atrName) && (j == A_LOCK ==> o.atrKey)
  }

  function Record(a: Attr): string {
    ">" + Integer(a.number) + "\n" + PutString(a.data)
  }

  // The attribute part of db_write_object; `known` tells which numbers
  // atr_num knows.
  function Listing(l: seq<Attr>, known: int -> bool, o: Output): string {
    if l == [] then "<\n"
    else (if known(l[0].number) && Saved(l[0].number, o) then Record(l[0]) else "") + Listing(l[1..], known, o)
  }

  // fgets: the length of the line that is read into a buffer of n characters.
  function LineLength(s: string, n: nat): (k: nat)
    ensures k <= |s|
  {
    if s == "" || n <= 1 then 0
    else if s[0] == '\n' then 1
    else 1 + LineLength(s[1..], n - 1)
  }

  function GetRef(s: string): (r: (int, string))
    ensures |r.1| <= |s|
  {
    var k := LineLength(s, SBUF_SIZE);
    (Atoi(s[..k]), s[k..])
  }

  function AddedRaw(m: map<int, string>, atr: int, text: string): map<int, string> {
    if text == "" then m - {atr} else m[atr := Cut(text)]
  }

  // get_list does not return on a file that ends inside the list.
  datatype Loaded = Loaded(contents: map<int, string>, rest: string) | Stuck

  function GetList(s: string, newStrings: bool, m: map<int, string>): Loaded
    decreases |s|
  {
    if s == "" then Stuck
    else if s[0] == '>' then
      if s[1..] == "" then Stuck
      else
        var (atr, more) := GetRef(s[1..]);
        var (text, rest) := GetString(more, newStrings);
        GetList(rest, newStrings, if atr > 0 then AddedRaw(m, atr, text) else m)
    else if s[0] == '\n' then GetList(s[1..], newStrings, m)
    else if s[0] == '<' then Loaded(m, SkipNewline(s[1..]))
    else GetList(GetString(s[1..], newStrings).1, newStrings, m)
  }

  // ---------- what is written is read back ----------

  lemma {:induction false} LineOf(d: string, rest: string, n: nat)
    requires |d| + 1 < n && forall i :: 0 <= i < |d| ==> d[i] != '\n'
    ensures LineLength(d + "\n" + rest, n) == |d| + 1
  {
    var s := d + "\n" + rest;
    if d == "" {
      assert s[0] == '\n';
    } else {
      assert s[0] == d[0];
      assert s[1..] == d[1..] + "\n" + rest;
      LineOf(d[1..], rest, n - 1);
    }
  }

  lemma DecimalFits(n: nat)
    requires n < 0x8000_0000
    ensures |Decimal(n)| <= 10
  {
    assert Power(5) == 100_000;
    assert Power(10) == 10_000_000_000;
    DecimalLength(n, 10);
  }

  lemma NumberBack(n: nat, rest: string)
    requires n < 0x8000_0000
    ensures GetRef(Integer(n) + "\n" + rest) == (n, rest)
  {
    var d := Decimal(n);
    DecimalFits(n);
    LineOf(d, rest, SBUF_SIZE);
    ReadDecimal(n, "\n");
    assert (d + "\n" + rest)[..|d| + 1] == d + "\n";
    assert (d + "\n")[0] == d[0];
  }

  lemma RecordBack(a: Attr, rest: string, m: map<int, string>)
    requires 0 < a.number < 0x8000_0000 && Plain(a.data)
    ensures GetList(Record(a) + rest, true, m)
         == GetList(rest, true, AddedRaw(m, a.number, if |a.data| < LBUF_SIZE then a.data else a.data[..LBUF_SIZE - 1]))
  {
    var s := Record(a) + rest;
    var more := PutString(a.data) + rest;
    assert s[1..] == Integer(a.number) + "\n" + more;
    NumberBack(a.number, more);
    StringRoundTrip(a.data, rest);
    hide GetRef, GetString, PutString, AddedRaw, Integer;
  }

  // The attributes as the file can hold them.
  ghost predicate Fileable(l: seq<Attr>) {
    Ascending(l) && Stored(AsMap(l)) && forall i :: 0 <= i < |l| ==> l[i].number < 0x8000_0000
  }

  ghost function Selected(m: map<int, string>, known: int -> bool, o: Output): map<int, string> {
    map k | k in m && known(k) && Saved(k, o) :: m[k]
  }

  lemma TailMap(l: seq<Attr>)
    requires Ascending(l) && l != []
    ensures Ascending(l[1..]) && l[0].number !in AsMap(l[1..])
    ensures AsMap(l) == AsMap(l[1..])[l[0].number := l[0].data]
  {
    var m := AsMap(l[1..])[l[0].number := l[0].data];
    forall k | k in m ensures exists i :: 0 <= i < |l| && l[i].number == k {
      if k in AsMap(l[1..]) {
        var i :| 0 <= i < |l| - 1 && l[1..][i].number == k;
        assert l[i + 1].number == k;
      } else {
        assert l[0].number == k;
      }
    }
    assert forall i :: 0 < i < |l| ==> l[i] == l[1..][i - 1];
    MapIs(l, m);
  }

  lemma FrontFits(l: seq<Attr>)
    requires Fileable(l) && l != []
    ensures l[0].number < 0x8000_0000 && l[0].data != "" && |l[0].data| < LBUF_SIZE && Plain(l[0].data)
  {
    assert l[0].number in AsMap(l) && AsMap(l)[l[0].number] == l[0].data;
  }

  // The first attribute of a list, written or passed over, and read again.
  lemma FrontBack(l: seq<Attr>, known: int -> bool, o: Output, rest: string, m: map<int, string>)
    requires Fileable(l) && l != []
    ensures
      var m' := if known(l[0].number) && Saved(l[0].number, o) then m[l[0].number := l[0].data] else m;
      GetList(Listing(l, known, o) + rest, true, m) == GetList(Listing(l[1..], known, o) + rest, true, m')
  {
    FrontFits(l);
    var a, tail := l[0], Listing(l[1..], known, o);
    var saved := known(a.number) && Saved(a.number, o);
    var head := if saved then Record(a) else "";
    assert Listing(l, known, o) == head + tail;
    assert saved ==> a.number > 0;
    hide Fileable, GetList, Record, Plain, Listing, Saved, Cut;
    Regroup(head, tail, rest);
    if saved {
      RecordBack(a, tail + rest, m);
    } else {
      assert head + (tail + rest) == tail + rest;
    }
  }

  lemma {:induction false} ListBack(l: seq<Attr>, known: int -> bool, o: Output, rest: string, m: map<int, string>)
    requires Fileable(l)
    ensures GetList(Listing(l, known, o) + rest, true, m) == Loaded(m + Selected(AsMap(l), known, o), rest)
  {
    if l == [] {
      assert ("<\n" + rest)[1..] == "\n" + rest;
      assert ("\n" + rest)[1..] == rest;
      assert m + Selected(AsMap(l), known, o) == m;
    } else {
      TailMap(l);
      FrontBack(l, known, o, rest, m);
      SelectedFront(AsMap(l[1..]), l[0], known, o, m);
      assert Fileable(l[1..]);
      hide GetList, Selected, Saved, Fileable;
      var m' := if known(l[0].number) && Saved(l[0].number, o) then m[l[0].number := l[0].data] else m;
      ListBack(l[1..], known, o, rest, m');
    }
  }

  lemma SelectedFront(tail: map<int, string>, a: Attr, known: int -> bool, o: Output, m: map<int, string>)
    requires a.number !in tail
    ensures
      var m' := if known(a.number) && Saved(a.number, o) then m[a.number := a.data] else m;
      m' + Selected(tail, known, o) == m + Selected(tail[a.number := a.data], known, o)
  {
  }

  // An empty object gets back exactly the attributes that are known and saved,
  // each with its text, and the file stands behind the list.
  lemma AttributesRoundTrip(l: seq<Attr>, known: int -> bool, o: Output, rest: string)
    requires Fileable(l)
    ensures GetList(Listing(l, known, o) + rest, true, map[]) == Loaded(Selected(AsMap(l), known, o), rest)
  {
    ListBack(l, known, o, rest, map[]);
    assert map[] + Selected(AsMap(l), known, o) == Selected(AsMap(l), known, o);
  }

  // ---------- the reader and the writer ----------

  lemma {:induction false} QuotedPlain(s: string, buf: string)
    requires Plain(buf)
    ensures Plain(GetQuoted(s, buf).0)
    decreases |s|
  {
    if s != "" && s[0] != '"' && s[0] != '\0' {
      if s[0] != '\\' {
        QuotedPlain(s[1..], SafeChr(buf, s[0]));
      } else if s[1..] != "" && s[1] != '\0' {
        QuotedPlain(s[2..], SafeChr(buf, s[1]));
      }
    }
  }

  lemma {:induction false} LinePlain(s: string, buf: string, last: char)
    requires Plain(buf)
    ensures Plain(GetLine(s, buf, last).0)
    decreases |s|
  {
    if s != "" && s[0] != '\0' && !(s[0] == '\n' && last != '\r') {
      LinePlain(s[1..], SafeChr(buf, s[0]), s[0]);
    }
  }

  // What is read is a C string.
  lemma StringPlain(s: string, newStrings: bool)
    ensures Plain(GetString(s, newStrings).0)
  {
    if newStrings && StartsWith(s, '"') {
      QuotedPlain(s[1..], "");
    } else {
      LinePlain(s, "", '\0');
    }
  }

  method Fgets(f: InFile, n: nat) returns (line: string)
    modifies f
    ensures line == old(f.rest)[..LineLength(old(f.rest), n)] && f.rest == old(f.rest)[LineLength(old(f.rest), n)..]
  {
    line := "";
    var left := n;
    ghost var s := f.rest;
    while left > 1
      invariant 0 <= left <= n && line + f.rest == s
      invariant |line| + LineLength(f.rest, left) == LineLength(s, n)
    {
      var c := f.Getc();
      if c == End {
        break;
      }
      line := line + [c.c];
      left := left - 1;
      if c == Char('\n') {
        break;
      }
    }
  }

  method ReadRef(f: InFile) returns (n: int)
    modifies f
    ensures (n, f.rest) == GetRef(old(f.rest))
  {
    var line := Fgets(f, SBUF_SIZE);
    n := Atoi(line);
  }

  // One attribute, behind its '>'.
  method ReadAttribute(f: InFile, thing: Object, newStrings: bool)
    requires thing.Valid()
    modifies f, thing, thing.ahead
    ensures thing.Valid() && (thing.ahead == old(thing.ahead) || fresh(thing.ahead))
    ensures
      var (atr, more) := GetRef(old(f.rest));
      var (text, rest) := GetString(more, newStrings);
      && f.rest == rest
      && thing.Contents() == if atr > 0 then AddedRaw(old(thing.Contents()), atr, text) else old(thing.Contents())
  {
    hide Object.Valid, GetRef, GetString;
    var atr := ReadRef(f);
    StringPlain(f.rest, newStrings);
    var text := GetStringNoalloc(f, newStrings);
    if atr > 0 {
      thing.AtrAddRaw(atr, Some(text));
    }
  }

  // get_list, until the end of the list or of the file.
  method ReadList(f: InFile, thing: Object, newStrings: bool) returns (ok: bool)
    requires thing.Valid()
    modifies f, thing, thing.ahead
    ensures thing.Valid()
    ensures GetList(old(f.rest), newStrings, old(thing.Contents()))
            == if ok then Loaded(thing.Contents(), f.rest) else Stuck
  {
    hide Object.Valid, GetString, GetRef, AddedRaw;
    ghost var goal := GetList(f.rest, newStrings, thing.Contents());
    while true
      invariant thing.Valid() && (thing.ahead == old(thing.ahead) || fresh(thing.ahead))
      invariant GetList(f.rest, newStrings, thing.Contents()) == goal
      decreases |f.rest|
    {
      var c := f.Getc();
      if c == End {
        return false;
      }
      if c == Char('>') {
        if f.rest == "" {
          return false;
        }
        ReadAttribute(f, thing, newStrings);
      } else if c == Char('<') {
        c := f.Getc();
        if c != Char('\n') {
          f.Ungetc(c);
        }
        return true;
      } else if c != Char('\n') {
        var _ := GetStringNoalloc(f, newStrings);
      }
    }
  }

  // One attribute, if it is to be saved.
  method WriteAttribute(f: OutFile, thing: Object, ca: int, known: int -> bool, o: Output)
    requires thing.Valid() && ca in thing.Contents()
    modifies f
    ensures f.text == old(f.text) + if known(ca) && Saved(ca, o) then Record(Attr(ca, thing.Contents()[ca])) else ""
  {
    hide Object.Valid, Saved;
    if known(ca) && Saved(ca, o) {
      var got := thing.AtrGetRaw(ca);
      var line := ">" + Integer(ca) + "\n";
      ghost var was := f.text;
      WriteText(f, line);
      WriteString(f, got.value);
      Regroup(was, line, PutString(got.value));
    } else {
      assert f.text == f.text + "";
    }
  }

  function Written(a: Attr, known: int -> bool, o: Output): string {
    if known(a.number) && Saved(a.number, o) then Record(a) else ""
  }

  lemma ListingFrom(l: seq<Attr>, i: nat, known: int -> bool, o: Output, before: string)
    requires i < |l|
    ensures before + Listing(l[i..], known, o) == before + Written(l[i], known, o) + Listing(l[i + 1..], known, o)
  {
    assert l[i..][1..] == l[i + 1..];
    hide Record, Saved;
    Regroup(before, Written(l[i], known, o), Listing(l[i + 1..], known, o));
  }

  // The walk over the numbers ends at number 0.
  function UpToZero(l: seq<Attr>): (p: seq<Attr>)
    ensures p <= l && (|p| < |l| ==> l[|p|].number == 0)
    ensures forall i :: 0 <= i < |p| ==> p[i].number != 0
  {
    if l == [] || l[0].number == 0 then [] else [l[0]] + UpToZero(l[1..])
  }

  // The walk stands at the i-th attribute, of number ca, or behind the last.
  ghost predicate StandsAt(thing: Object, cursor: Cursor?, ca: int, i: nat)
    requires thing.Valid()
    reads thing, thing.ahead, cursor
  {
    var l := thing.List();
    && i <= |l| && ca == (if i < |l| then l[i].number else 0)
    && (l != [] ==> cursor != null && cursor.thing == thing)
    && (i < |l| ==> cursor.count == i + 2)
  }

  method WriteNext(f: OutFile, thing: Object, cursor: Cursor?, ca: int, known: int -> bool, o: Output,
                   ghost l: seq<Attr>, ghost i: nat)
      returns (ca': int)
    requires thing.Valid() && StandsAt(thing, cursor, ca, i) && l <= thing.List() && i < |l|
    modifies f, cursor
    ensures thing.Valid() && StandsAt(thing, cursor, ca', i + 1)
    ensures f.text + Listing(l[i + 1..], known, o) == old(f.text) + Listing(l[i..], known, o)
  {
    hide Listing, Saved, Record, Object.Valid;
    ListingFrom(l, i, known, o, f.text);
    ContentsAt(thing, i);
    WriteAttribute(f, thing, ca, known, o);
    ca' := AtrNext(cursor);
  }

  // The walk goes on just until it has met all numbers before 0.
  lemma StandsInside(thing: Object, cursor: Cursor?, ca: int, i: nat)
    requires thing.Valid() && StandsAt(thing, cursor, ca, i) && i <= |UpToZero(thing.List())|
    ensures ca != 0 <==> i < |UpToZero(thing.List())|
    ensures ca != 0 ==> cursor != null
  {
  }

  method Head(thing: Object) returns (ca: int, cursor: Cursor?)
    requires thing.Valid()
    ensures StandsAt(thing, cursor, ca, 0) && (cursor != null ==> fresh(cursor))
  {
    ca, cursor := AtrHead(thing);
  }

  // The attribute part of db_write_object.
  method WriteList(f: OutFile, thing: Object, known: int -> bool, o: Output)
    requires thing.Valid()
    modifies f
    ensures f.text == old(f.text) + Listing(UpToZero(thing.List()), known, o)
    ensures 0 !in thing.Contents() ==> UpToZero(thing.List()) == thing.List()
  {
    hide Listing, Object.Valid, Object.List, StandsAt, UpToZero;
    ghost var i, l := 0, UpToZero(thing.List());
    ghost var whole := f.text + Listing(l, known, o);
    AllWritten(thing);
    assert l[0..] == l;
    var ca, cursor := Head(thing);
    while ca != 0
      invariant thing.Valid() && StandsAt(thing, cursor, ca, i) && (cursor != null ==> fresh(cursor))
      invariant l == UpToZero(thing.List()) && i <= |l| && f.text + Listing(l[i..], known, o) == whole
      decreases |l| - i
    {
      StandsInside(thing, cursor, ca, i);
      ca := WriteNext(f, thing, cursor, ca, known, o, l, i);
      i := i + 1;
    }
    StandsInside(thing, cursor, ca, i);
    EndOfList(l, i, known, o);
    WriteText(f, "<\n");
  }

  lemma AllWritten(thing: Object)
    requires thing.Valid()
    ensures 0 !in thing.Contents() ==> UpToZero(thing.List()) == thing.List()
  {
    var p := UpToZero(thing.List());
    if |p| < |thing.List()| {
      ContentsAt(thing, |p|);
    }
  }

  lemma ContentsAt(thing: Object, i: nat)
    requires thing.Valid() && i < |thing.List()|
    ensures
      var a := thing.List()[i];
      a.number in thing.Contents() && a == Attr(a.number, thing.Contents()[a.number])
  {
  }

  lemma EndOfList(l: seq<Attr>, i: nat, known: int -> bool, o: Output)
    requires i == |l|
    ensures Listing(l[i..], known, o) == "<\n"
  {
  }
}
