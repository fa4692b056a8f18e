// The lock parser as the server runs it, with a cursor that moves over the text.
module LockParser {
  import opened BoolExps
  import opened LockText
  import opened Text

  class Parser {
    const ctx: Context
    var parsebuf: string  // what is left of the text

    constructor (ctx: Context, text: string)
      ensures this.ctx == ctx && parsebuf == text
    {
      this.ctx, parsebuf := ctx, text;
    }

    method SkipWhitespace()
      modifies this
      ensures parsebuf == SkipSpace(old(parsebuf))
    {
      while parsebuf != "" && IsSpace(parsebuf[0])
        invariant SkipSpace(parsebuf) == SkipSpace(old(parsebuf))
        decreases |parsebuf|
      {
        parsebuf := parsebuf[1..];
      }
    }

    method TakeWord() returns (buf: string)
      modifies this
      ensures Word(old(parsebuf)) == (buf, parsebuf)
    {
      buf := "";
      assert "" + Word(parsebuf).0 == Word(parsebuf).0;
      while parsebuf != "" && !EndsKey(parsebuf[0])
        invariant Word(old(parsebuf)) == (buf + Word(parsebuf).0, Word(parsebuf).1)
        decreases |parsebuf|
      {
        assert buf + ([parsebuf[0]] + Word(parsebuf[1..]).0) == buf + [parsebuf[0]] + Word(parsebuf[1..]).0;
        buf, parsebuf := buf + [parsebuf[0]], parsebuf[1..];
      }
      assert buf + "" == buf;
    }

    method StripTrailing(s: string) returns (buf: string)
      ensures buf == TrimEnd(s)
    {
      buf := s;
      while buf != "" && IsSpace(buf[|buf| - 1])
        invariant TrimEnd(buf) == TrimEnd(s)
        decreases |buf|
      {
        buf := buf[..|buf| - 1];
      }
    }

    // L -> (E); L -> object identifier
    method ParseL() returns (b: BoolExp)
      modifies this
      ensures LockText.ParseL(ctx, old(parsebuf)) == Parse(b, parsebuf)
      decreases |parsebuf|, 0
    {
      SkipWhitespace();
      if StartsWith(parsebuf, '(') {
        parsebuf := parsebuf[1..];
        b := ParseE();
        SkipWhitespace();
        if b != True {
          var closed := StartsWith(parsebuf, ')');
          parsebuf := if parsebuf == "" then "" else parsebuf[1..];
          if !closed {
            b := True;
          }
        }
      } else {
        var buf := TakeWord();
        buf := StripTrailing(buf);
        b := ObjectLock(ctx, buf);
      }
    }

    // F -> !F; F -> @L; F -> =L; F -> +L; F -> $L
    method ParseF() returns (b: BoolExp)
      modifies this
      ensures LockText.ParseF(ctx, old(parsebuf)) == Parse(b, parsebuf)
      decreases |parsebuf|, 1
    {
      SkipWhitespace();
      if StartsWith(parsebuf, NOT_TOKEN) {
        parsebuf := parsebuf[1..];
        b := ParseF();
        b := if b == True then True else Not(b);
      } else if StartsWith(parsebuf, INDIR_TOKEN) {
        parsebuf := parsebuf[1..];
        b := ParseL();
        b := if b.Const? then Indir(b) else True;
      } else if StartsWith(parsebuf, IS_TOKEN) {
        parsebuf := parsebuf[1..];
        b := ParseL();
        b := if b.Const? || b.Atr? then Is(b) else True;
      } else if StartsWith(parsebuf, CARRY_TOKEN) {
        parsebuf := parsebuf[1..];
        b := ParseL();
        b := if b.Const? || b.Atr? then Carry(b) else True;
      } else if StartsWith(parsebuf, OWNER_TOKEN) {
        parsebuf := parsebuf[1..];
        b := ParseL();
        b := if b.Const? then Owner(b) else True;
      } else {
        b := ParseL();
      }
    }

    // T -> F; T -> F & T
    method ParseT() returns (b: BoolExp)
      modifies this
      ensures LockText.ParseT(ctx, old(parsebuf)) == Parse(b, parsebuf)
      decreases |parsebuf|, 2
    {
      b := ParseF();
      if b != True {
        SkipWhitespace();
        if StartsWith(parsebuf, AND_TOKEN) {
          parsebuf := parsebuf[1..];
          var b2 := ParseT();
          b := if b2 == True then True else And(b, b2);
        }
      }
    }

    // E -> T; E -> T | E
    method ParseE() returns (b: BoolExp)
      modifies this
      ensures LockText.ParseE(ctx, old(parsebuf)) == Parse(b, parsebuf)
      decreases |parsebuf|, 3
    {
      b := ParseT();
      if b != True {
        SkipWhitespace();
        if StartsWith(parsebuf, OR_TOKEN) {
          parsebuf := parsebuf[1..];
          var b2 := ParseE();
          b := if b2 == True then True else Or(b, b2);
        }
      }
    }
  }

  method ParseText(ctx: Context, buf: string) returns (b: BoolExp)
    ensures b == ParseBoolExp(ctx, buf)
    ensures b == True || Lockable(b)
  {
    ParserBuilds(ctx, buf);
    if buf == "" {
      return True;
    }
    var p := new Parser(ctx, buf);
    b := p.ParseE();
  }
}
