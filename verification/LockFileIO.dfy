// The reader and the writer of locks as the server runs them, on files.
module LockFileIO {
  import opened BoolExps
  import opened LockFile
  import opened Options
  import opened StringIO
  import opened Text

  // putbool_subexp
  method WriteSub(f: OutFile, t: Attributes, b: BoolExp)
    modifies f
    ensures f.text == old(f.text) + PutSub(t, b)
    decreases b, 1
  {
    match b
    case True =>
    case And(l, r) => WriteInfix(f, t, b, l, AND_TOKEN, r);
    case Or(l, r) => WriteInfix(f, t, b, l, OR_TOKEN, r);
    case Not(s) => WritePrefix(f, t, b, NOT_TOKEN, s);
    case Indir(s) => WritePrefix(f, t, b, INDIR_TOKEN, s);
    case Owner(s) => WritePrefix(f, t, b, OWNER_TOKEN, s);
    case Is(s) => WritePrefix(f, t, b, IS_TOKEN, s);
    case Carry(s) => WritePrefix(f, t, b, CARRY_TOKEN, s);
    case Const(thing) => WriteText(f, Integer(thing));
    case Atr(_, _) => WriteText(f, AtrText(t, b));
    case Eval(_, _) => WriteText(f, AtrText(t, b));
  }

  method WritePrefix(f: OutFile, t: Attributes, ghost b: BoolExp, token: char, s: BoolExp)
    requires s < b
    modifies f
    ensures f.text == old(f.text) + ("(" + [token] + PutSub(t, s) + ")")
    decreases b, 0
  {
    f.Putc('(');
    f.Putc(token);
    WriteSub(f, t, s);
    f.Putc(')');
  }

  method WriteInfix(f: OutFile, t: Attributes, ghost b: BoolExp, l: BoolExp, token: char, r: BoolExp)
    requires l < b && r < b
    modifies f
    ensures f.text == old(f.text) + ("(" + PutSub(t, l) + [token] + PutSub(t, r) + ")")
    decreases b, 0
  {
    f.Putc('(');
    WriteSub(f, t, l);
    f.Putc(token);
    WriteSub(f, t, r);
    f.Putc(')');
  }

  method WriteBoolExp(f: OutFile, t: Attributes, b: BoolExp)
    modifies f
    ensures f.text == old(f.text) + PutBoolExp(t, b)
  {
    if b != True {
      WriteSub(f, t, b);
    }
    f.Putc('\n');
  }

  datatype Outcome = Got(lock: BoolExp) | Aborted | NoType

  ghost predicate Agrees(out: Outcome, left: string, read: Read) {
    match read
    case Read(b, rest) => out == Got(b) && left == rest
    case Abort => out == Aborted
    case Untyped(_) => out == NoType
  }

  method ReadUntil(f: InFile, stop: char -> bool) returns (text: Option<string>)
    modifies f
    ensures match Until(old(f.rest), stop)
            case Some((s, rest)) => text == Some(s) && f.rest == rest
            case None => text == None
    ensures |f.rest| <= |old(f.rest)|
  {
    var s := "";
    ghost var all := Until(f.rest, stop);
    assert all.Some? ==> "" + all.value.0 == all.value.0;
    while true
      invariant match Until(f.rest, stop)
                case Some((more, rest)) => all == Some((s + more, rest))
                case None => all == None
      invariant |f.rest| <= |old(f.rest)|
      decreases |f.rest|
    {
      var c := f.Getc();
      if c == End {
        return None;
      }
      if stop(c.c) {
        f.Ungetc(c);
        assert s + "" == s;
        return Some(s);
      }
      ghost var more := Until(f.rest, stop);
      assert more.Some? ==> s + ([c.c] + more.value.0) == s + [c.c] + more.value.0;
      s := s + [c.c];
    }
  }

  method ReadNumber(f: InFile) returns (n: nat)
    modifies f
    ensures (n, f.rest) == ReadDigits(old(f.rest), 0)
  {
    n := 0;
    while true
      invariant ReadDigits(f.rest, n) == ReadDigits(old(f.rest), 0)
      decreases |f.rest|
    {
      var c := f.Getc();
      if c == End || !IsDigit(c.c) {
        f.Ungetc(c);
        return;
      }
      n := n * 10 + DigitValue(c.c);
    }
  }

  method ReadText(f: InFile, thing: int) returns (out: Outcome)
    modifies f
    ensures Agrees(out, f.rest, GetText(thing, old(f.rest)))
  {
    var c := f.Getc();
    if c == Char(':') || c == Char('/') {
      var key := ReadUntil(f, EndsText);
      if key == None {
        return Aborted;
      }
      return Got(if c == Char('/') then Eval(thing, key.value) else Atr(thing, key.value));
    }
    f.Ungetc(c);
    return Got(Const(thing));
  }

  method ReadQuotedAtr(f: InFile, t: Attributes) returns (out: Outcome)
    modifies f
    ensures Agrees(out, f.rest, GetQuotedAtr(t, old(f.rest)))
  {
    var name := GetStringNoalloc(f, true);
    var c := f.Getc();
    if c == End {
      return Got(True);
    }
    var anum := t.mkattr(name);
    if anum <= 0 {
      return Aborted;
    }
    if c == Char(':') || c == Char('/') {
      var key := GetStringNoalloc(f, true);
      return Got(if c == Char('/') then Eval(anum, key) else Atr(anum, key));
    }
    return NoType;
  }

  method SkipOneNewline(f: InFile) returns (d: MaybeChar)
    modifies f
    ensures var s := SkipNewline(old(f.rest));
            if s == "" then d == End && f.rest == "" else d == Char(s[0]) && f.rest == s[1..]
  {
    d := f.Getc();
    if d == Char('\n') {
      d := f.Getc();
    }
  }

  // getboolexp1
  method ReadSub(f: InFile, t: Attributes) returns (out: Outcome)
    modifies f
    ensures Agrees(out, f.rest, Get1(t, old(f.rest)))
    ensures |f.rest| <= |old(f.rest)| || !out.Got?
    decreases |f.rest|, 0
  {
    var c := f.Getc();
    if c == Char('\n') {
      f.Ungetc(c);
      return Got(True);
    } else if c == End {
      return Aborted;
    } else if c == Char('(') {
      c := f.Getc();
      if c == End {
        return Aborted;
      } else if c.c in {NOT_TOKEN, INDIR_TOKEN, IS_TOKEN, CARRY_TOKEN, OWNER_TOKEN} {
        out := ReadSub(f, t);
        if out.Got? {
          var d := SkipOneNewline(f);
          out := if d == Char(')') then Got(Unary(c.c, out.lock)) else Aborted;
        }
      } else {
        f.Ungetc(c);
        out := ReadInfix(f, t);
      }
    } else if c == Char('-') {
      var gone := ReadUntil(f, c => c == '\n');
      return if gone == None then Aborted else Got(True);
    } else if c == Char('"') {
      f.Ungetc(c);
      out := ReadQuotedAtr(f, t);
    } else if IsDigit(c.c) {
      f.Ungetc(c);
      var n := ReadNumber(f);
      out := ReadText(f, n);
    } else if IsAlpha(c.c) {
      f.Ungetc(c);
      var name := ReadUntil(f, EndsName);
      if name == None || t.mkattr(name.value) <= 0 {
        return Aborted;
      }
      out := ReadText(f, t.mkattr(name.value));
    } else {
      return Aborted;
    }
  }

  // Two operands with an operator between them, after the parenthesis.
  method ReadInfix(f: InFile, t: Attributes) returns (out: Outcome)
    requires f.rest != "" && f.rest[0] !in {NOT_TOKEN, INDIR_TOKEN, IS_TOKEN, CARRY_TOKEN, OWNER_TOKEN}
    modifies f
    ensures Agrees(out, f.rest, Get1(t, "(" + old(f.rest)))
    ensures |f.rest| <= |old(f.rest)| || !out.Got?
    decreases |f.rest|, 1
  {
    out := ReadSub(f, t);
    if out.Got? {
      var sub1 := out.lock;
      var c := SkipOneNewline(f);
      if c != Char(AND_TOKEN) && c != Char(OR_TOKEN) {
        return Aborted;
      }
      out := ReadSub(f, t);
      if out.Got? {
        var d := SkipOneNewline(f);
        out := if d != Char(')') then Aborted
               else if c == Char(AND_TOKEN) then Got(And(sub1, out.lock))
               else Got(Or(sub1, out.lock));
      }
    }
  }

  method ReadBoolExp(f: InFile, t: Attributes, extraNewline: bool) returns (out: Outcome)
    modifies f
    ensures Agrees(out, f.rest, GetBoolExp(t, old(f.rest), extraNewline))
  {
    out := ReadSub(f, t);
    if out.Got? {
      var c := f.Getc();
      if c != Char('\n') {
        return Aborted;
      }
      if extraNewline {
        c := f.Getc();
        if c != Char('\n') {
          f.Ungetc(c);
        }
      }
    }
  }
}
