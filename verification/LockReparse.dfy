// The printer's text in the hands of the parser: what a stored lock is read as
// when somebody tests it, and when that is the lock that was stored.
module LockReparse {
  import opened BoolExps
  import opened LockText
  import opened Options
  import opened StringIO
  import opened Text

  // ---------- what a stored lock is read as ----------

  // The printer leaves out the parentheses of & under & and of | under |, and
  // the parser groups such chains to the right.
  function AndThen(l: BoolExp, r: BoolExp): BoolExp {
    if l.And? then And(l.sub1, AndThen(l.sub2, r)) else And(l, r)
  }

  function OrElse(l: BoolExp, r: BoolExp): BoolExp {
    if l.Or? then Or(l.sub1, OrElse(l.sub2, r)) else Or(l, r)
  }

  function Normal(b: BoolExp): BoolExp {
    match b
    case And(l, r) => AndThen(Normal(l), Normal(r))
    case Or(l, r) => OrElse(Normal(l), Normal(r))
    case Not(s) => Not(Normal(s))
    case _ => b
  }

  // The lock with each part as the parser finds it in the printed text: an object
  // that is gone, or an attribute that is not found under its printed name or has
  // an operator in it, takes the whole lock with it.
  function Reread(ctx: Context, b: BoolExp): BoolExp {
    match b
    case True => True
    case And(l, r) =>
      if Reread(ctx, l) == True || Reread(ctx, r) == True then True else And(Reread(ctx, l), Reread(ctx, r))
    case Or(l, r) =>
      if Reread(ctx, l) == True || Reread(ctx, r) == True then True else Or(Reread(ctx, l), Reread(ctx, r))
    case Not(s) => if Reread(ctx, s) == True then True else Not(Reread(ctx, s))
    case Const(thing) => if ctx.good(thing) then b else True
    case Atr(n, _) => if NoOperator(PrintedName(ctx.t, n)) then ObjectLock(ctx, UnparseAtr(ctx.t, b)) else True
    case Eval(n, _) => if NoOperator(PrintedName(ctx.t, n)) then ObjectLock(ctx, UnparseAtr(ctx.t, b)) else True
    case Indir(s) => if Reread(ctx, s).Const? then Indir(Reread(ctx, s)) else True
    case Owner(s) => if Reread(ctx, s).Const? then Owner(Reread(ctx, s)) else True
    case Is(s) => if Reread(ctx, s).Const? || Reread(ctx, s).Atr? then Is(Reread(ctx, s)) else True
    case Carry(s) => if Reread(ctx, s).Const? || Reread(ctx, s).Atr? then Carry(Reread(ctx, s)) else True
  }

  // Attribute names begin with a letter or a star; no object has a negative number.
  ghost predicate Sound(ctx: Context) {
    && (forall n :: ctx.t.name(n).Some? ==> WellNamed(ctx.t.name(n).value))
    && (forall n :: ctx.good(n) ==> n >= 0)
  }

  predicate WellNamed(name: string) {
    name != "" && (IsAlpha(name[0]) || name[0] == '*')
  }

  predicate NoOperator(name: string)
    ensures NoOperator(name) <==> CleanKey(name)
  {
    forall i :: 0 <= i < |name| ==> !EndsKey(name[i])
  }

  // What can come after a printed lock.
  predicate Ends(rest: string) {
    rest == "" || EndsKey(rest[0])
  }

  predicate Begins(s: string) {
    s != "" && !IsSpace(s[0])
  }

  // The parser finds x and stops before `rest`, or does not understand the text.
  predicate Gives(p: Parse, x: BoolExp, rest: string) {
    if x == True then p.lock == True else p == Parse(x, rest)
  }

  // ---------- words ----------

  lemma {:induction false} WordBack(word: string, rest: string)
    requires CleanKey(word) && Ends(rest)
    ensures Word(word + rest) == (word, rest)
  {
    if word == "" {
      assert word + rest == rest;
    } else {
      assert (word + rest)[1..] == word[1..] + rest;
      WordBack(word[1..], rest);
      assert [word[0]] + word[1..] == word;
    }
  }

  predicate NoSeparator(s: string) {
    forall i :: 0 <= i < |s| ==> s[i] != ':' && s[i] != '/'
  }

  lemma {:induction false} SeparatorBack(name: string, more: string)
    requires NoSeparator(name) && (more == "" || more[0] == ':' || more[0] == '/')
    ensures Separator(name + more) == |name|
  {
    if name == "" {
      assert name + more == more;
    } else {
      assert (name + more)[1..] == name[1..] + more;
      SeparatorBack(name[1..], more);
    }
  }

  // No name that is printed for an attribute in the lock holds the sign that ends a
  // name before an operator.
  ghost predicate Readable(t: Attributes, b: BoolExp) {
    Leaves(b, LegibleName(t))
  }

  function LegibleName(t: Attributes): BoolExp -> bool {
    (b: BoolExp) => b.Atr? || b.Eval? ==> Legible(PrintedName(t, b.thing))
  }

  predicate Legible(name: string) {
    NoOperator(name) || NoSeparator(Word(name).0)
  }

  // ---------- one step of each parsing function ----------

  lemma LWord(ctx: Context, word: string, rest: string)
    requires Begins(word) && word[0] != '(' && CleanKey(word) && TrimEnd(word) == word && Ends(rest)
    ensures ParseL(ctx, word + rest) == Parse(ObjectLock(ctx, word), rest)
  {
    WordBack(word, rest);
  }

  lemma LGroup(ctx: Context, inner: string, b: BoolExp, rest: string)
    requires Gives(ParseE(ctx, inner + (")" + rest)), b, ")" + rest)
    ensures Gives(ParseL(ctx, "(" + (inner + (")" + rest))), b, rest)
  {
    var s := "(" + (inner + (")" + rest));
    assert s[1..] == inner + (")" + rest);
    assert (")" + rest)[1..] == rest;
  }

  lemma FIsL(ctx: Context, s: string)
    requires Begins(s) && s[0] !in {NOT_TOKEN, INDIR_TOKEN, IS_TOKEN, CARRY_TOKEN, OWNER_TOKEN}
    ensures ParseF(ctx, s) == ParseL(ctx, s)
  {
  }

  lemma FNot(ctx: Context, s: string, b: BoolExp, rest: string)
    requires Gives(ParseF(ctx, s), b, rest)
    ensures Gives(ParseF(ctx, [NOT_TOKEN] + s), if b == True then True else Not(b), rest)
  {
    assert ([NOT_TOKEN] + s)[1..] == s;
  }

  function Prefixed(token: char, s: BoolExp): BoolExp {
    if s.Const? || (s.Atr? && (token == IS_TOKEN || token == CARRY_TOKEN)) then
      if token == INDIR_TOKEN then Indir(s)
      else if token == IS_TOKEN then Is(s)
      else if token == CARRY_TOKEN then Carry(s)
      else Owner(s)
    else True
  }

  lemma FPrefix(ctx: Context, token: char, s: string, b: BoolExp, rest: string)
    requires token in {INDIR_TOKEN, IS_TOKEN, CARRY_TOKEN, OWNER_TOKEN}
    requires Gives(ParseL(ctx, s), b, rest)
    ensures Gives(ParseF(ctx, [token] + s), Prefixed(token, b), rest)
  {
    assert ([token] + s)[1..] == s;
  }

  lemma TStops(ctx: Context, s: string, b: BoolExp, rest: string)
    requires Gives(ParseF(ctx, s), b, rest) && Ends(rest) && !StartsWith(rest, AND_TOKEN)
    ensures Gives(ParseT(ctx, s), b, rest)
  {
  }

  lemma TGoesOn(ctx: Context, s: string, b: BoolExp, tail: string, x: BoolExp, rest: string)
    requires Gives(ParseF(ctx, s), b, [AND_TOKEN] + tail) && Gives(ParseT(ctx, tail), x, rest)
    ensures Gives(ParseT(ctx, s), if b == True || x == True then True else And(b, x), rest)
  {
    assert ([AND_TOKEN] + tail)[1..] == tail;
  }

  lemma EStops(ctx: Context, s: string, b: BoolExp, rest: string)
    requires Gives(ParseT(ctx, s), b, rest) && (rest == "" || rest[0] == ')')
    ensures Gives(ParseE(ctx, s), b, rest)
  {
  }

  lemma EGoesOn(ctx: Context, s: string, b: BoolExp, tail: string, x: BoolExp, rest: string)
    requires Gives(ParseT(ctx, s), b, [OR_TOKEN] + tail) && Gives(ParseE(ctx, tail), x, rest)
    ensures Gives(ParseE(ctx, s), if b == True || x == True then True else Or(b, x), rest)
  {
    assert ([OR_TOKEN] + tail)[1..] == tail;
  }

  // ---------- objects ----------

  lemma NumberWord(n: int)
    requires Int(n)
    ensures var text := Integer(n);
            && NoSeparator(text) && CleanKey(text) && text != "" && !IsSpace(text[0]) && !IsSpace(text[|text| - 1])
            && AtoInt(text) == n
  {
    IntegerAtoInt(n);
  }

  lemma ConstObject(ctx: Context, thing: int)
    requires ctx.internal && Int(thing)
    ensures var word := "#" + Integer(thing);
            && ObjectLock(ctx, word) == (if ctx.good(thing) then Const(thing) else True)
            && CleanKey(word) && TrimEnd(word) == word
  {
    var word := "#" + Integer(thing);
    NumberWord(thing);
    assert word[1..] == Integer(thing);
    SeparatorBack(word, "");
    assert word + "" == word;
  }

  lemma ConstInside(ctx: Context, thing: int, rest: string)
    requires ctx.internal && Int(thing) && StartsWith(rest, ')')
    ensures Gives(ParseE(ctx, "#" + Integer(thing) + rest), if ctx.good(thing) then Const(thing) else True, rest)
  {
    var word := "#" + Integer(thing);
    ConstObject(ctx, thing);
    LWord(ctx, word, rest);
    FIsL(ctx, word + rest);
    hide ParseL, ParseF, ParseT, ParseE, ObjectLock, Word, TrimEnd;
    TStops(ctx, word + rest, ObjectLock(ctx, word), rest);
    EStops(ctx, word + rest, ObjectLock(ctx, word), rest);
  }

  // The printer writes two numbers without parentheses and #; the parser knows
  // neither, whatever objects there are.
  lemma NoObject(ctx: Context, word: string, rest: string)
    requires ctx.internal && (word == "-1" || word == "-3") && Ends(rest)
    ensures ParseL(ctx, word + rest).lock == True
  {
    SeparatorBack(word, "");
    assert word + "" == word;
    LWord(ctx, word, rest);
  }

  lemma ConstBack(ctx: Context, thing: int, rest: string)
    requires ctx.internal && Sound(ctx) && Int(thing) && Ends(rest)
    ensures Gives(ParseL(ctx, UnparseConst(thing) + rest), Reread(ctx, Const(thing)), rest)
    ensures Gives(ParseF(ctx, UnparseConst(thing) + rest), Reread(ctx, Const(thing)), rest)
  {
    hide ParseL, ParseE, ParseF;
    var text := UnparseConst(thing) + rest;
    assert Begins(text);
    FIsL(ctx, text);
    if thing == NOTHING || thing == HOME {
      NoObject(ctx, UnparseConst(thing), rest);
    } else {
      InParentheses(ctx, thing, rest);
    }
  }

  lemma InParentheses(ctx: Context, thing: int, rest: string)
    requires ctx.internal && Int(thing) && Ends(rest)
    ensures Gives(ParseL(ctx, "(#" + Integer(thing) + ")" + rest), Reread(ctx, Const(thing)), rest)
  {
    hide ParseL, ParseE, Integer;
    var word := "#" + Integer(thing);
    ConstInside(ctx, thing, ")" + rest);
    LGroup(ctx, word, Reread(ctx, Const(thing)), rest);
    assert "(#" + Integer(thing) + ")" + rest == "(" + (word + (")" + rest));
  }

  // ---------- attributes ----------

  // Trimming stops before the text of the attribute is gone.
  lemma {:induction false} TrimLonger(front: string, key: string)
    requires front != "" && !IsSpace(front[|front| - 1]) && Trimmed(key)
    ensures TrimEnd(front + key) == front + key
  {
    if key != "" {
      assert (front + key)[|front + key| - 1] == key[|key| - 1];
    }
  }

  lemma AtrStart(ctx: Context, b: BoolExp)
    requires Sound(ctx) && (b.Atr? || b.Eval?) && Lockable(b)
    ensures var word := UnparseAtr(ctx.t, b);
            && Begins(word) && word[0] !in {'(', NOT_TOKEN, INDIR_TOKEN, IS_TOKEN, CARRY_TOKEN, OWNER_TOKEN, '#'}
  {
    if ctx.t.name(b.thing).None? && b.thing > 0 {
      NumberWord(b.thing);
    }
  }

  lemma AtrWord(ctx: Context, b: BoolExp)
    requires Sound(ctx) && (b.Atr? || b.Eval?) && Lockable(b) && NoOperator(PrintedName(ctx.t, b.thing))
    ensures var word := UnparseAtr(ctx.t, b);
            && Begins(word) && word[0] !in {'(', NOT_TOKEN, INDIR_TOKEN, IS_TOKEN, CARRY_TOKEN, OWNER_TOKEN, '#'}
            && CleanKey(word) && TrimEnd(word) == word
  {
    AtrStart(ctx, b);
    TrimLonger(PrintedName(ctx.t, b.thing) + (if b.Atr? then ":" else "/"), b.key);
  }

  // A text without the sign that ends a name is no attribute.
  lemma {:induction false} TrimKeeps(s: string)
    requires NoSeparator(s)
    ensures NoSeparator(TrimEnd(s)) && !(StartsWith(TrimEnd(s), '#') && !StartsWith(s, '#'))
  {
    if s != "" && IsSpace(s[|s| - 1]) {
      TrimKeeps(s[..|s| - 1]);
    }
  }

  lemma NoAttribute(ctx: Context, s: string)
    requires ctx.internal && NoSeparator(s) && !StartsWith(s, '#')
    ensures ObjectLock(ctx, TrimEnd(s)) == True
  {
    TrimKeeps(s);
    SeparatorBack(TrimEnd(s), "");
    assert TrimEnd(s) + "" == TrimEnd(s);
  }

  // The first word of a text whose front holds no separator and, unless it is the
  // whole text, an operator.
  lemma FirstWord(ctx: Context, front: string, more: string)
    requires ctx.internal && NoSeparator(front) && (more == "" || !NoOperator(front))
    requires front + more == "" || (Begins(front + more) && (front + more)[0] !in {'(', '#'})
    ensures ParseL(ctx, front + more).lock == True
  {
    var s := front + more;
    var word := Word(s).0;
    if more == "" {
      assert s == front;
      assert forall i :: 0 <= i < |word| ==> word[i] == s[i];
    } else {
      StopsInFront(front, more);
    }
    NoAttribute(ctx, word);
    assert SkipSpace(s) == s;
  }

  lemma {:induction false} StopsInFront(front: string, more: string)
    requires !NoOperator(front)
    ensures Word(front + more).0 <= front
  {
    if !EndsKey(front[0]) {
      assert (front + more)[1..] == front[1..] + more;
      assert !NoOperator(front[1..]) by {
        var i :| 0 <= i < |front| && EndsKey(front[i]);
        assert front[1..][i - 1] == front[i];
      }
      StopsInFront(front[1..], more);
    }
  }

  // A name with an operator before any sign that ends a name.
  lemma OperatorInName(ctx: Context, name: string, more: string)
    requires ctx.internal && Legible(name) && !NoOperator(name)
    requires Begins(name + more) && (name + more)[0] !in {'(', '#'}
    ensures ParseL(ctx, name + more).lock == True
  {
    hide ParseL, Word;
    var (word, rest) := Word(name);
    assert word + "" == word;
    var front := word + [rest[0]];
    assert EndsKey(front[|word|]);
    Regrouped(word, [rest[0]], rest[1..], more);
    assert [rest[0]] + rest[1..] == rest;
    assert name + more == front + (rest[1..] + more);
    FirstWord(ctx, front, rest[1..] + more);
  }

  lemma AtrBack(ctx: Context, b: BoolExp, rest: string)
    requires ctx.internal && Sound(ctx) && (b.Atr? || b.Eval?) && Lockable(b) && Ends(rest)
    requires Legible(PrintedName(ctx.t, b.thing))
    ensures Gives(ParseL(ctx, UnparseAtr(ctx.t, b) + rest), Reread(ctx, b), rest)
    ensures Gives(ParseF(ctx, UnparseAtr(ctx.t, b) + rest), Reread(ctx, b), rest)
  {
    AtrStart(ctx, b);
    FIsL(ctx, UnparseAtr(ctx.t, b) + rest);
    var name := PrintedName(ctx.t, b.thing);
    if NoOperator(name) {
      AtrWord(ctx, b);
      LWord(ctx, UnparseAtr(ctx.t, b), rest);
    } else {
      var more := (if b.Atr? then ":" else "/") + b.key + rest;
      Regrouped(name, if b.Atr? then ":" else "/", b.key, rest);
      OperatorInName(ctx, name, more);
    }
    hide ParseL, ParseF, ObjectLock;
  }

  lemma Regrouped(a: string, b: string, c: string, d: string)
    ensures a + b + c + d == a + (b + c + d)
  {
  }

  // ---------- normal forms ----------

  lemma {:induction false} AndThenAssociates(a: BoolExp, b: BoolExp, c: BoolExp)
    ensures AndThen(AndThen(a, b), c) == AndThen(a, AndThen(b, c))
  {
    if a.And? {
      AndThenAssociates(a.sub2, b, c);
    }
  }

  lemma {:induction false} OrElseAssociates(a: BoolExp, b: BoolExp, c: BoolExp)
    ensures OrElse(OrElse(a, b), c) == OrElse(a, OrElse(b, c))
  {
    if a.Or? {
      OrElseAssociates(a.sub2, b, c);
    }
  }

  // What the parser makes of two operands, either of which it may not understand.
  function BothThen(l: BoolExp, r: BoolExp): BoolExp {
    if l == True || r == True then True else AndThen(l, r)
  }

  function EitherThen(l: BoolExp, r: BoolExp): BoolExp {
    if l == True || r == True then True else OrElse(l, r)
  }

  // The normal form of the reread lock.
  function Reparsed(ctx: Context, b: BoolExp): BoolExp {
    Normal(Reread(ctx, b))
  }

  lemma {:induction false} TrueIsNormal(b: BoolExp)
    ensures Normal(b) == True <==> b == True
  {
  }

  lemma LeafReread(ctx: Context, b: BoolExp)
    requires !b.And? && !b.Or? && !b.Not?
    ensures var x := Reread(ctx, b); !x.And? && !x.Or? && !x.Not? && Reparsed(ctx, b) == x
  {
    hide UnparseAtr, Separator, ReadDigits, Atoi;
  }

  lemma ReparsedParts(ctx: Context, b: BoolExp)
    ensures b.And? ==> Reparsed(ctx, b) == BothThen(Reparsed(ctx, b.sub1), Reparsed(ctx, b.sub2))
    ensures b.Or? ==> Reparsed(ctx, b) == EitherThen(Reparsed(ctx, b.sub1), Reparsed(ctx, b.sub2))
    ensures b.Not? ==> Reparsed(ctx, b) == if Reparsed(ctx, b.sub1) == True then True else Not(Reparsed(ctx, b.sub1))
    ensures !b.And? && !b.Or? && !b.Not? ==> Reparsed(ctx, b) == Reread(ctx, b)
  {
    match b
    case And(l, r) =>
      TrueIsNormal(Reread(ctx, l));
      TrueIsNormal(Reread(ctx, r));
      assert Reread(ctx, b) == True || Reread(ctx, b) == And(Reread(ctx, l), Reread(ctx, r));
    case Or(l, r) =>
      TrueIsNormal(Reread(ctx, l));
      TrueIsNormal(Reread(ctx, r));
      assert Reread(ctx, b) == True || Reread(ctx, b) == Or(Reread(ctx, l), Reread(ctx, r));
    case Not(s) =>
      TrueIsNormal(Reread(ctx, s));
      assert Reread(ctx, b) == True || Reread(ctx, b) == Not(Reread(ctx, s));
    case _ => LeafReread(ctx, b);
  }

  // ---------- the text of a lock as an operand of &, of |, and after ! ----------

  lemma {:induction false} AtomBack(ctx: Context, b: BoolExp, rest: string)
    requires ctx.internal && Sound(ctx) && Lockable(b) && Readable(ctx.t, b) && !b.And? && !b.Or? && Ends(rest)
    ensures Gives(ParseF(ctx, Unparse(ctx.t, b, Elsewhere) + rest), Reparsed(ctx, b), rest)
    decreases b, 0
  {
    hide ParseL, ParseF, UnparseConst, UnparseAtr, Reparsed, Sound;
    ReparsedParts(ctx, b);
    match b
    case Const(thing) => ConstBack(ctx, thing, rest);
    case Atr(_, _) => AtrBack(ctx, b, rest);
    case Eval(_, _) => AtrBack(ctx, b, rest);
    case Not(s) =>
      NegatedBack(ctx, s, rest);
      FNot(ctx, Unparse(ctx.t, s, UnderNot) + rest, Reparsed(ctx, s), rest);
      assert [NOT_TOKEN] + Unparse(ctx.t, s, UnderNot) + rest == [NOT_TOKEN] + (Unparse(ctx.t, s, UnderNot) + rest);
    case Indir(s) => PrefixBack(ctx, INDIR_TOKEN, s, rest);
    case Owner(s) => PrefixBack(ctx, OWNER_TOKEN, s, rest);
    case Is(s) => PrefixBack(ctx, IS_TOKEN, s, rest);
    case Carry(s) => PrefixBack(ctx, CARRY_TOKEN, s, rest);
  }

  lemma PrefixBack(ctx: Context, token: char, s: BoolExp, rest: string)
    requires ctx.internal && Sound(ctx) && Lockable(s) && Readable(ctx.t, s) && (s.Const? || s.Atr?) && Ends(rest)
    requires token in {INDIR_TOKEN, IS_TOKEN, CARRY_TOKEN, OWNER_TOKEN}
    ensures Gives(ParseF(ctx, [token] + Unparse(ctx.t, s, Elsewhere) + rest),
                  Prefixed(token, Reread(ctx, s)), rest)
  {
    if s.Const? {
      ConstBack(ctx, s.thing, rest);
    } else {
      AtrBack(ctx, s, rest);
    }
    hide ParseL, ParseF, Reread;
    FPrefix(ctx, token, Unparse(ctx.t, s, Elsewhere) + rest, Reread(ctx, s), rest);
    assert [token] + Unparse(ctx.t, s, Elsewhere) + rest == [token] + (Unparse(ctx.t, s, Elsewhere) + rest);
  }

  lemma {:induction false} NegatedBack(ctx: Context, b: BoolExp, rest: string)
    requires ctx.internal && Sound(ctx) && Lockable(b) && Readable(ctx.t, b) && Ends(rest)
    ensures Gives(ParseF(ctx, Unparse(ctx.t, b, UnderNot) + rest), Reparsed(ctx, b), rest)
    decreases b, 4
  {
    hide ParseF, Reparsed, Sound;
    if b.And? || b.Or? {
      GroupBack(ctx, b, rest);
    } else {
      AtomBack(ctx, b, rest);
    }
  }

  // In parentheses.
  lemma {:induction false} GroupBack(ctx: Context, b: BoolExp, rest: string)
    requires ctx.internal && Sound(ctx) && Lockable(b) && Readable(ctx.t, b) && (b.And? || b.Or?) && Ends(rest)
    ensures Gives(ParseF(ctx, "(" + Unparse(ctx.t, b, Elsewhere) + ")" + rest), Reparsed(ctx, b), rest)
    decreases b, 3
  {
    hide ParseL, ParseF, ParseE, Unparse, Reparsed, Sound;
    WholeBack(ctx, b, ")" + rest);
    LGroup(ctx, Unparse(ctx.t, b, Elsewhere), Reparsed(ctx, b), rest);
    var all := "(" + (Unparse(ctx.t, b, Elsewhere) + (")" + rest));
    assert "(" + Unparse(ctx.t, b, Elsewhere) + ")" + rest == all;
    FIsL(ctx, all);
  }

  // On its own.
  lemma {:induction false} WholeBack(ctx: Context, b: BoolExp, rest: string)
    requires ctx.internal && Sound(ctx) && Lockable(b) && Readable(ctx.t, b) && (rest == "" || rest[0] == ')')
    ensures Gives(ParseE(ctx, Unparse(ctx.t, b, Elsewhere) + rest), Reparsed(ctx, b), rest)
    decreases b, 2
  {
    hide ParseF, ParseT, ParseE, Reparsed, Sound;
    if b.Or? {
      var right := Unparse(ctx.t, b.sub2, Elsewhere) + rest;
      WholeBack(ctx, b.sub2, rest);
      OrChain(ctx, b.sub1, right, Reparsed(ctx, b.sub2), rest);
      ReparsedParts(ctx, b);
      assert Unparse(ctx.t, b, Elsewhere) + rest == Unparse(ctx.t, b.sub1, Elsewhere) + ([OR_TOKEN] + right);
    } else {
      TermBack(ctx, b, rest);
      EStops(ctx, Unparse(ctx.t, b, Elsewhere) + rest, Reparsed(ctx, b), rest);
    }
  }

  // As an operand of |, when it is no | itself.
  lemma {:induction false} TermBack(ctx: Context, b: BoolExp, rest: string)
    requires ctx.internal && Sound(ctx) && Lockable(b) && Readable(ctx.t, b) && !b.Or?
    requires Ends(rest) && !StartsWith(rest, AND_TOKEN)
    ensures Gives(ParseT(ctx, Unparse(ctx.t, b, Elsewhere) + rest), Reparsed(ctx, b), rest)
    decreases b, 1
  {
    hide ParseF, ParseT, Reparsed, Sound;
    if b.And? {
      var right := Unparse(ctx.t, b.sub2, UnderAnd) + rest;
      FactorsBack(ctx, b.sub2, rest);
      AndChain(ctx, b.sub1, right, Reparsed(ctx, b.sub2), rest);
      ReparsedParts(ctx, b);
      assert Unparse(ctx.t, b, Elsewhere) + rest == Unparse(ctx.t, b.sub1, UnderAnd) + ([AND_TOKEN] + right);
    } else {
      AtomBack(ctx, b, rest);
      TStops(ctx, Unparse(ctx.t, b, Elsewhere) + rest, Reparsed(ctx, b), rest);
    }
  }

  // As the last operand of &.
  lemma {:induction false} FactorsBack(ctx: Context, b: BoolExp, rest: string)
    requires ctx.internal && Sound(ctx) && Lockable(b) && Readable(ctx.t, b)
    requires Ends(rest) && !StartsWith(rest, AND_TOKEN)
    ensures Gives(ParseT(ctx, Unparse(ctx.t, b, UnderAnd) + rest), Reparsed(ctx, b), rest)
    decreases b, 5
  {
    hide ParseF, ParseT, Reparsed, Sound;
    if b.Or? {
      GroupBack(ctx, b, rest);
      TStops(ctx, Unparse(ctx.t, b, UnderAnd) + rest, Reparsed(ctx, b), rest);
    } else {
      TermBack(ctx, b, rest);
    }
  }

  // As an operand of & before others.
  lemma {:induction false} AndChain(ctx: Context, b: BoolExp, tail: string, x: BoolExp, rest: string)
    requires ctx.internal && Sound(ctx) && Lockable(b) && Readable(ctx.t, b) && Gives(ParseT(ctx, tail), x, rest)
    ensures Gives(ParseT(ctx, Unparse(ctx.t, b, UnderAnd) + ([AND_TOKEN] + tail)),
                  BothThen(Reparsed(ctx, b), x), rest)
    decreases b, 5
  {
    hide ParseF, ParseT, Reparsed, Sound;
    var after := [AND_TOKEN] + tail;
    ReparsedParts(ctx, b);
    if b.And? {
      AndChain(ctx, b.sub2, tail, x, rest);
      AndChain(ctx, b.sub1, Unparse(ctx.t, b.sub2, UnderAnd) + after, BothThen(Reparsed(ctx, b.sub2), x), rest);
      AndThenAssociates(Reparsed(ctx, b.sub1), Reparsed(ctx, b.sub2), x);
      assert Unparse(ctx.t, b, UnderAnd) + after
          == Unparse(ctx.t, b.sub1, UnderAnd) + ([AND_TOKEN] + (Unparse(ctx.t, b.sub2, UnderAnd) + after));
    } else {
      if b.Or? {
        GroupBack(ctx, b, after);
      } else {
        AtomBack(ctx, b, after);
      }
      NoAnd(ctx, b);
      TGoesOn(ctx, Unparse(ctx.t, b, UnderAnd) + after, Reparsed(ctx, b), tail, x, rest);
    }
  }

  lemma NoAnd(ctx: Context, b: BoolExp)
    ensures !b.And? ==> !Reparsed(ctx, b).And?
    ensures !b.Or? ==> !Reparsed(ctx, b).Or?
  {
    hide Reparsed;
    ReparsedParts(ctx, b);
    if !b.And? && !b.Or? && !b.Not? {
      LeafReread(ctx, b);
    }
  }

  lemma OrText(t: Attributes, b: BoolExp, after: string)
    requires b.Or?
    ensures Unparse(t, b, Elsewhere) + after
         == Unparse(t, b.sub1, Elsewhere) + ([OR_TOKEN] + (Unparse(t, b.sub2, Elsewhere) + after))
  {
  }

  // As an operand of | before others.
  lemma {:induction false} OrChain(ctx: Context, b: BoolExp, tail: string, x: BoolExp, rest: string)
    requires ctx.internal && Sound(ctx) && Lockable(b) && Readable(ctx.t, b) && Gives(ParseE(ctx, tail), x, rest)
    ensures Gives(ParseE(ctx, Unparse(ctx.t, b, Elsewhere) + ([OR_TOKEN] + tail)),
                  EitherThen(Reparsed(ctx, b), x), rest)
    decreases b, 5
  {
    hide ParseF, ParseT, ParseE, Reparsed, Sound, Unparse;
    var after := [OR_TOKEN] + tail;
    ReparsedParts(ctx, b);
    if b.Or? {
      OrChain(ctx, b.sub2, tail, x, rest);
      OrChain(ctx, b.sub1, Unparse(ctx.t, b.sub2, Elsewhere) + after, EitherThen(Reparsed(ctx, b.sub2), x), rest);
      OrElseAssociates(Reparsed(ctx, b.sub1), Reparsed(ctx, b.sub2), x);
      OrText(ctx.t, b, after);
    } else {
      TermBack(ctx, b, after);
      NoAnd(ctx, b);
      EGoesOn(ctx, Unparse(ctx.t, b, Elsewhere) + after, Reparsed(ctx, b), tail, x, rest);
    }
  }

  // The printed text goes into the buffer.
  predicate InBuffer(t: Attributes, b: BoolExp) {
    |Unparse(t, b, Elsewhere)| < LBUF_SIZE
  }

  // A stored lock is read part by part, and chains of & and of | come back
  // grouped to the right; if one part is not understood the whole lock is gone.
  lemma StoredLockIsReread(ctx: Context, b: BoolExp)
    requires ctx.internal && Sound(ctx) && Lockable(b) && Readable(ctx.t, b) && InBuffer(ctx.t, b)
    ensures ParseBoolExp(ctx, UnparseQuiet(ctx.t, b)) == Normal(Reread(ctx, b))
  {
    var text := UnparseQuiet(ctx.t, b);
    hide ParseE, Unparse, Sound, Lockable;
    WholeBack(ctx, b, "");
    assert text + "" == text;
    if text == "" {
      EmptyGives(ctx);
    }
  }

  lemma EmptyGives(ctx: Context)
    requires ctx.internal
    ensures ParseE(ctx, "").lock == True
  {
  }
}
