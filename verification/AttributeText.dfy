// The text of an attribute in the store: a control character, the owner and the
// flags in front of it, unless they are the default ones.
module AttributeText {
  import A = AttributeStore
  import opened Options
  import opened StringIO
  import opened Text

  const ATR_INFO_CHAR := '\U{1}'
  const NOTHING := -1

  // What atr_decode hands out. It may also read on behind the end of a text that
  // breaks off after the flags.
  datatype Decoded = Decoded(text: string, owner: int, flags: int) | Overrun

  function Header(owner: int, flags: int): string {
    [ATR_INFO_CHAR] + Integer(owner) + ":" + Integer(flags) + ":"
  }

  predicate Default(thingOwner: int, owner: int, flags: int) {
    (owner == thingOwner || owner == NOTHING) && flags == 0
  }

  function OwnerOf(thingOwner: int, owner: int): int {
    if owner == NOTHING then thingOwner else owner
  }

  function Encode(text: string, thingOwner: int, owner: int, flags: int): (s: string)
    ensures |s| < LBUF_SIZE
  {
    if Default(thingOwner, owner, flags) then Clip(text, LBUF_SIZE - 1)
    else Clip(Header(OwnerOf(thingOwner, owner), flags) + text, LBUF_SIZE - 2)
  }

  // The digits at the front of s, accumulated in 32 bits.
  function ReadOwner(s: string, acc: int): (r: (int, string))
    ensures |r.1| <= |s|
  {
    if s != "" && IsDigit(s[0]) then ReadOwner(s[1..], Wrap(acc * 10 + DigitValue(s[0]))) else (acc, s)
  }

  function ReadSigned(s: string): (r: (int, string))
    ensures |r.1| <= |s|
  {
    if StartsWith(s, '-') then
      var r := ReadOwner(s[1..], 0);
      (Wrap(-r.0), r.1)
    else
      ReadOwner(s, 0)
  }

  function Decode(s: string, thingOwner: int): Decoded {
    if !StartsWith(s, ATR_INFO_CHAR) then Decoded(s, thingOwner, 0)
    else
      var (owner, rest) := ReadSigned(s[1..]);
      if !StartsWith(rest, ':') then Decoded(s, thingOwner, 0)
      else
        var (flags, more) := ReadDigits(rest[1..], 0);
        if more == "" then Overrun
        else if more[0] != ':' then Decoded(more[1..], thingOwner, 0)
        else Decoded(more[1..], OwnerOf(thingOwner, owner), flags)
  }

  // The text begins like an encoded one.
  predicate Marked(s: string) {
    StartsWith(s, ATR_INFO_CHAR) && StartsWith(ReadSigned(s[1..]).1, ':')
  }

  // ---------- what is encoded is decoded ----------

  lemma WrapStep(n: int, d: int)
    ensures Wrap(Wrap(n) * 10 + d) == Wrap(n * 10 + d)
    ensures Wrap(-Wrap(n)) == Wrap(-n)
  {
    var k := (n + 0x8000_0000) / 0x1_0000_0000;
    assert Wrap(n) == n - 0x1_0000_0000 * k;
    WrapShifted(n * 10 + d, 10 * k);
    WrapShifted(-n, -k);
  }

  lemma WrapShifted(n: int, k: int)
    ensures Wrap(n - 0x1_0000_0000 * k) == Wrap(n)
  {
  }

  // Accumulating in 32 bits wraps the number that was written.
  lemma {:induction false} OwnerWraps(s: string, acc: nat)
    ensures ReadOwner(s, Wrap(acc)) == (Wrap(ReadDigits(s, acc).0), ReadDigits(s, acc).1)
  {
    if s != "" && IsDigit(s[0]) {
      WrapStep(acc, DigitValue(s[0]));
      OwnerWraps(s[1..], acc * 10 + DigitValue(s[0]));
    }
  }

  lemma SignedValue(n: int, rest: string)
    requires rest == "" || !IsDigit(rest[0])
    ensures ReadSigned(Integer(n) + rest) == (Wrap(n), rest)
  {
    hide Decimal, ReadDigits, ReadOwner, Wrap;
    var s := Integer(n) + rest;
    Zero();
    if n < 0 {
      assert s[1..] == Decimal(-n) + rest;
      ReadDecimal(-n, rest);
      OwnerWraps(s[1..], 0);
      WrapStep(-n, 0);
    } else {
      ReadDecimal(n, rest);
      OwnerWraps(s, 0);
      assert s[0] == Decimal(n)[0];
    }
  }

  lemma Zero()
    ensures Wrap(0) == 0
  {
  }

  // The parts of an encoded text.
  lemma Parts(o: string, g: string, t: string)
    ensures
      var s, rest, more := [ATR_INFO_CHAR] + o + ":" + g + ":" + t, ":" + g + ":" + t, ":" + t;
      s[0] == ATR_INFO_CHAR && s[1..] == o + rest && rest[1..] == g + more && more[1..] == t
  {
  }

  lemma DecodeHeader(owner: int, flags: nat, text: string, thingOwner: int)
    ensures Decode(Header(owner, flags) + text, thingOwner)
         == Decoded(text, OwnerOf(thingOwner, Wrap(owner)), flags)
  {
    Parts(Integer(owner), Integer(flags), text);
    SignedValue(owner, ":" + Integer(flags) + ":" + text);
    ReadDecimal(flags, ":" + text);
    hide ReadSigned, ReadDigits, Decimal, Wrap;
  }

  lemma DecodeNegative(owner: int, flags: int, text: string, thingOwner: int)
    requires flags < 0
    ensures Decode(Header(owner, flags) + text, thingOwner) == Decoded(Decimal(-flags) + ":" + text, thingOwner, 0)
  {
    Parts(Integer(owner), Integer(flags), text);
    SignedValue(owner, ":" + Integer(flags) + ":" + text);
    var g := Integer(flags) + (":" + text);
    assert g[1..] == Decimal(-flags) + ":" + text;
    assert ReadDigits(g, 0) == (0, g);
    hide ReadSigned, ReadDigits, Decimal, Integer, Wrap;
  }

  // Any number of a 64-bit machine.
  ghost predicate Long(n: int) {
    -0x8000_0000_0000_0000 <= n < 0x8000_0000_0000_0000
  }

  lemma LongLength(n: int)
    requires Long(n)
    ensures |Integer(n)| <= 20
  {
    assert Power(4) == 10_000;
    assert Power(8) == 100_000_000;
    assert Power(12) == 1_000_000_000_000;
    assert Power(16) == 10_000_000_000_000_000;
    assert Power(19) == 10_000_000_000_000_000_000;
    DecimalLength(if n < 0 then -n else n, 19);
  }

  // The attribute comes back just when the text does not look encoded, or, if
  // it is encoded, when it fits, the flags have no sign and the owner is a number
  // of 32 bits, or one that wraps to NOTHING and owns the object anyway.
  ghost predicate Survives(text: string, thingOwner: int, owner: int, flags: int) {
    if Default(thingOwner, owner, flags) then !Marked(text)
    else
      var o := OwnerOf(thingOwner, owner);
      && flags >= 0 && |Header(o, flags)| + |text| <= LBUF_SIZE - 2
      && (Int(o) || (Wrap(o) == NOTHING && o == thingOwner))
  }

  lemma MarkedShrinks(text: string, thingOwner: int)
    ensures !Marked(text) ==> Decode(text, thingOwner) == Decoded(text, thingOwner, 0)
    ensures Marked(text) ==> Decode(text, thingOwner).Overrun? || |Decode(text, thingOwner).text| < |text|
  {
  }

  // What is stored with a header: as much of the text as goes in behind it.
  lemma EncodedText(text: string, o: int, flags: int)
    requires Long(o) && Long(flags)
    ensures |Header(o, flags)| <= LBUF_SIZE - 2
    ensures Clip(Header(o, flags) + text, LBUF_SIZE - 2)
         == Header(o, flags) + Clip(text, LBUF_SIZE - 2 - |Header(o, flags)|)
  {
    LongLength(o);
    LongLength(flags);
    hide Integer, Long;
  }

  lemma AttributeRoundTrip(text: string, thingOwner: int, owner: int, flags: int)
    requires |text| < LBUF_SIZE && Long(OwnerOf(thingOwner, owner)) && Long(flags)
    ensures Decode(Encode(text, thingOwner, owner, flags), thingOwner)
            == Decoded(text, OwnerOf(thingOwner, owner), flags)
            <==> Survives(text, thingOwner, owner, flags)
  {
    hide Decode, Marked, Header, Long;
    if Default(thingOwner, owner, flags) {
      MarkedShrinks(text, thingOwner);
    } else {
      var o := OwnerOf(thingOwner, owner);
      EncodedText(text, o, flags);
      var cut := Clip(text, LBUF_SIZE - 2 - |Header(o, flags)|);
      if flags >= 0 {
        DecodeHeader(o, flags, cut, thingOwner);
      } else {
        DecodeNegative(o, flags, cut, thingOwner);
      }
    }
  }

  // A long text with a flag of its own loses its end to the header.
  lemma LongTextIsCut(text: string)
    requires |text| == LBUF_SIZE - 1
    ensures Decode(Encode(text, 1, 1, 2048), 1) == Decoded(text[..LBUF_SIZE - 10], 1, 2048)
  {
    hide Decode;
    assert Decimal(20) == "20";
    assert Decimal(204) == "204";
    assert Header(1, 2048) == [ATR_INFO_CHAR] + "1:2048:";
    var cut := text[..LBUF_SIZE - 10];
    assert Clip(Header(1, 2048) + text, LBUF_SIZE - 2) == Header(1, 2048) + cut;
    DecodeHeader(1, 2048, cut, 1);
    assert Wrap(1) == 1;
  }

  // A text that looks encoded is taken apart, and gives itself another owner.
  lemma LooksEncoded()
    ensures Decode(Encode([ATR_INFO_CHAR] + "5:0:x", 1, 1, 0), 1) == Decoded("x", 5, 0)
  {
    hide Decode;
    assert Header(5, 0) + "x" == [ATR_INFO_CHAR] + "5:0:x";
    DecodeHeader(5, 0, "x", 1);
    assert Wrap(5) == 5;
  }

  // ---------- attributes of an object ----------

  type Attributes = map<int, string>

  function Get(m: Attributes, atr: int, thingOwner: int): Decoded {
    if atr in m then Decode(m[atr], thingOwner) else Decoded("", thingOwner, 0)
  }

  function Added(m: Attributes, atr: int, text: string, thingOwner: int, owner: int, flags: int): Attributes {
    if text == "" then m - {atr} else m[atr := Encode(text, thingOwner, owner, flags)]
  }

  // What was added is got, unless it was the empty text, which clears; other
  // attributes stay as they were.
  lemma GetAdded(m: Attributes, atr: int, text: string, thingOwner: int, owner: int, flags: int, other: int)
    requires |text| < LBUF_SIZE && Long(OwnerOf(thingOwner, owner)) && Long(flags)
    ensures text != "" ==>
              (Get(Added(m, atr, text, thingOwner, owner, flags), atr, thingOwner)
               == Decoded(text, OwnerOf(thingOwner, owner), flags)
               <==> Survives(text, thingOwner, owner, flags))
    ensures text == "" ==>
              Get(Added(m, atr, text, thingOwner, owner, flags), atr, thingOwner) == Decoded("", thingOwner, 0)
    ensures other != atr ==>
              Get(Added(m, atr, text, thingOwner, owner, flags), other, thingOwner) == Get(m, other, thingOwner)
  {
    AttributeRoundTrip(text, thingOwner, owner, flags);
    hide Decode, Encode, Survives;
  }

  lemma EncodePlain(text: string, thingOwner: int, owner: int, flags: int)
    requires Plain(text)
    ensures Plain(Encode(text, thingOwner, owner, flags))
    ensures text != "" ==> Encode(text, thingOwner, owner, flags) != ""
  {
  }

  method AtrAdd(thing: A.Object, atr: int, text: string, thingOwner: int, owner: int, flags: int)
    requires thing.Valid() && Plain(text)
    modifies thing, thing.ahead
    ensures thing.Valid() && thing.Contents() == Added(old(thing.Contents()), atr, text, thingOwner, owner, flags)
  {
    EncodePlain(text, thingOwner, owner, flags);
    hide Encode;
    if text == "" {
      thing.AtrClr(atr);
    } else {
      thing.AtrAddRaw(atr, Some(Encode(text, thingOwner, owner, flags)));
    }
  }

  method AtrGet(thing: A.Object, atr: int, thingOwner: int) returns (r: Decoded)
    requires thing.Valid()
    ensures r == Get(thing.Contents(), atr, thingOwner)
  {
    var buff := thing.AtrGetRaw(atr);
    if buff.None? {
      return Decoded("", thingOwner, 0);
    }
    return Decode(buff.value, thingOwner);
  }
}
