// Stored locks that do not go into the printer's buffer: the text that is left is
// never read as the lock that was printed.
module LockCut {
  import opened BoolExps
  import opened LockReparse
  import opened LockText
  import opened Options
  import opened Text

  // The operators & and | in a lock.
  function Operators(b: BoolExp): nat {
    match b
    case And(l, r) => 1 + Operators(l) + Operators(r)
    case Or(l, r) => 1 + Operators(l) + Operators(r)
    case Not(s) => Operators(s)
    case _ => 0
  }

  // No attribute in the lock is printed with the sign that ends a name.
  ghost predicate Unseparated(t: Attributes, b: BoolExp) {
    Leaves(b, PlainName(t))
  }

  function PlainName(t: Attributes): BoolExp -> bool {
    (b: BoolExp) => b.Atr? || b.Eval? ==> NoSeparator(PrintedName(t, b.thing))
  }

  // What stands before that sign is no name of the same attribute.
  ghost predicate Unshadowed(ctx: Context, b: BoolExp) {
    Leaves(b, UnshadowedName(ctx))
  }

  function UnshadowedName(ctx: Context): BoolExp -> bool {
    (b: BoolExp) => b.Atr? || b.Eval? ==> Unambiguous(ctx, b.thing)
  }

  predicate Unambiguous(ctx: Context, n: int) {
    var name := PrintedName(ctx.t, n);
    && Legible(name)
    && (NoSeparator(name) || ctx.atrStr(name[..Separator(name)]) != Some(n))
  }

  lemma UnshadowedReadable(ctx: Context, b: BoolExp)
    requires Unshadowed(ctx, b)
    ensures Readable(ctx.t, b)
  {
    LeavesWeaker(b, UnshadowedName(ctx), LegibleName(ctx.t));
  }

  lemma UnseparatedUnshadowed(ctx: Context, b: BoolExp)
    requires Unseparated(ctx.t, b)
    ensures Unshadowed(ctx, b) && Readable(ctx.t, b)
  {
    forall x | PlainName(ctx.t)(x) ensures UnshadowedName(ctx)(x) {
      if x.Atr? || x.Eval? {
        PlainLegible(PrintedName(ctx.t, x.thing));
      }
    }
    LeavesWeaker(b, PlainName(ctx.t), UnshadowedName(ctx));
    UnshadowedReadable(ctx, b);
  }

  lemma PlainLegible(name: string)
    requires NoSeparator(name)
    ensures Legible(name)
  {
    var word := Word(name).0;
    assert forall i :: 0 <= i < |word| ==> word[i] == name[i];
  }

  // ---------- locks of the same shape ----------

  ghost predicate Alike(x: BoolExp, b: BoolExp) {
    if b.And? then x.And? && Alike(x.sub1, b.sub1) && Alike(x.sub2, b.sub2)
    else if b.Or? then x.Or? && Alike(x.sub1, b.sub1) && Alike(x.sub2, b.sub2)
    else if b.Not? then x.Not? && Alike(x.sub1, b.sub1)
    else !x.And? && !x.Or? && !x.Not?
  }

  // Rereading keeps the operators, unless it loses the lock.
  lemma {:induction false} RereadAlike(ctx: Context, b: BoolExp)
    ensures Reread(ctx, b) == True || Alike(Reread(ctx, b), b)
  {
    hide ObjectLock, UnparseAtr;
    match b
    case And(l, r) =>
      RereadAlike(ctx, l);
      RereadAlike(ctx, r);
    case Or(l, r) =>
      RereadAlike(ctx, l);
      RereadAlike(ctx, r);
    case Not(s) => RereadAlike(ctx, s);
    case _ => LeafReread(ctx, b);
  }

  // Grouping to the right hides no difference in the last operand, nor in the
  // others if those are alike.

  lemma {:induction false} AndThenTellsApart(a: BoolExp, b: BoolExp, c: BoolExp, d: BoolExp)
    requires Alike(a, c)
    ensures AndThen(a, b) == AndThen(c, d) ==> a == c && b == d
    ensures Alike(b, d) ==> Alike(AndThen(a, b), AndThen(c, d))
  {
    if c.And? {
      AndThenTellsApart(a.sub2, b, c.sub2, d);
    }
  }

  lemma {:induction false} OrElseTellsApart(a: BoolExp, b: BoolExp, c: BoolExp, d: BoolExp)
    requires Alike(a, c)
    ensures OrElse(a, b) == OrElse(c, d) ==> a == c && b == d
    ensures Alike(b, d) ==> Alike(OrElse(a, b), OrElse(c, d))
  {
    if c.Or? {
      OrElseTellsApart(a.sub2, b, c.sub2, d);
    }
  }

  lemma {:induction false} NormalTellsApart(x: BoolExp, b: BoolExp)
    requires Alike(x, b)
    ensures Alike(Normal(x), Normal(b))
    ensures Normal(x) == Normal(b) ==> x == b
  {
    if b.And? {
      NormalTellsApart(x.sub1, b.sub1);
      NormalTellsApart(x.sub2, b.sub2);
      AndThenTellsApart(Normal(x.sub1), Normal(x.sub2), Normal(b.sub1), Normal(b.sub2));
    } else if b.Or? {
      NormalTellsApart(x.sub1, b.sub1);
      NormalTellsApart(x.sub2, b.sub2);
      OrElseTellsApart(Normal(x.sub1), Normal(x.sub2), Normal(b.sub1), Normal(b.sub2));
    } else if b.Not? {
      NormalTellsApart(x.sub1, b.sub1);
    }
  }

  lemma {:induction false} AndThenOperators(l: BoolExp, r: BoolExp)
    ensures Operators(AndThen(l, r)) == 1 + Operators(l) + Operators(r)
  {
    if l.And? {
      AndThenOperators(l.sub2, r);
    }
  }

  lemma {:induction false} OrElseOperators(l: BoolExp, r: BoolExp)
    ensures Operators(OrElse(l, r)) == 1 + Operators(l) + Operators(r)
  {
    if l.Or? {
      OrElseOperators(l.sub2, r);
    }
  }

  lemma {:induction false} NormalOperators(b: BoolExp)
    ensures Operators(Normal(b)) == Operators(b)
  {
    match b
    case And(l, r) =>
      NormalOperators(l);
      NormalOperators(r);
      AndThenOperators(Normal(l), Normal(r));
    case Or(l, r) =>
      NormalOperators(l);
      NormalOperators(r);
      OrElseOperators(Normal(l), Normal(r));
    case Not(s) => NormalOperators(s);
    case _ =>
  }

  lemma {:induction false} AlikeOperators(x: BoolExp, b: BoolExp)
    requires Alike(x, b)
    ensures Operators(x) == Operators(b)
  {
    if b.And? || b.Or? {
      AlikeOperators(x.sub1, b.sub1);
      AlikeOperators(x.sub2, b.sub2);
    } else if b.Not? {
      AlikeOperators(x.sub1, b.sub1);
    }
  }

  // What Reparsed knows of the lock.
  lemma ReparsedAlike(ctx: Context, b: BoolExp)
    ensures var x := Reparsed(ctx, b);
            x == True || (Alike(x, Normal(b)) && Operators(x) == Operators(b))
    ensures Operators(Normal(b)) == Operators(b)
    ensures b != True ==> Normal(b) != True
  {
    RereadAlike(ctx, b);
    NormalOperators(b);
    TrueIsNormal(b);
    if Reread(ctx, b) != True {
      NormalTellsApart(Reread(ctx, b), b);
      AlikeOperators(Reparsed(ctx, b), Normal(b));
    }
  }

  // ---------- a text that breaks off ----------

  // What is left of a lock whose text lost its end: operands are gone from the right,
  // and the text of the last attribute may be short.
  ghost predicate Front(c: BoolExp, b: BoolExp) {
    match b
    case And(l, r) => Front(c, l) || (c.And? && c.sub1 == l && Front(c.sub2, r))
    case Or(l, r) => Front(c, l) || (c.Or? && c.sub1 == l && Front(c.sub2, r))
    case Not(s) => c.Not? && Front(c.sub1, s)
    case Is(s) => c.Is? && Front(c.sub1, s)
    case Carry(s) => c.Carry? && Front(c.sub1, s)
    case Atr(n, key) => c.Atr? && c.thing == n && c.key <= key
    case Eval(n, key) => c.Eval? && c.thing == n && c.key <= key
    case _ => c == b
  }

  lemma {:induction false} WholeIsFront(b: BoolExp)
    ensures Front(b, b)
  {
    match b
    case And(l, r) => WholeIsFront(r);
    case Or(l, r) => WholeIsFront(r);
    case Not(s) => WholeIsFront(s);
    case Is(s) => WholeIsFront(s);
    case Carry(s) => WholeIsFront(s);
    case _ =>
  }

  // Such a part of b is what the parser finds.
  ghost predicate ReadsFront(ctx: Context, x: BoolExp, b: BoolExp) {
    exists c :: Front(c, b) && Lockable(c) && x == Reparsed(ctx, c)
  }

  lemma FrontBehind(ctx: Context, b: BoolExp, x: BoolExp)
    requires Lockable(b) && (b.And? || b.Or?) && ReadsFront(ctx, x, b.sub2)
    ensures b.And? ==> ReadsFront(ctx, BothThen(Reparsed(ctx, b.sub1), x), b)
    ensures b.Or? ==> ReadsFront(ctx, EitherThen(Reparsed(ctx, b.sub1), x), b)
  {
    hide Reparsed, BothThen, EitherThen;
    var c :| Front(c, b.sub2) && Lockable(c) && x == Reparsed(ctx, c);
    var d := if b.And? then And(b.sub1, c) else Or(b.sub1, c);
    ReparsedParts(ctx, d);
    assert Front(d, b) && Lockable(d);
  }

  lemma FrontNegated(ctx: Context, s: BoolExp, x: BoolExp)
    requires x != True && ReadsFront(ctx, x, s)
    ensures ReadsFront(ctx, Not(x), Not(s))
  {
    hide Reparsed;
    var c :| Front(c, s) && Lockable(c) && x == Reparsed(ctx, c);
    ReparsedParts(ctx, Not(c));
    assert Front(Not(c), Not(s)) && Lockable(Not(c));
  }

  lemma FrontPrefixed(ctx: Context, token: char, s: BoolExp, x: BoolExp)
    requires token == IS_TOKEN || token == CARRY_TOKEN
    requires s.Atr? && ReadsFront(ctx, x, s) && Prefixed(token, x) != True
    ensures ReadsFront(ctx, Prefixed(token, x), Prefixed(token, s))
  {
    hide Reparsed, UnparseAtr, ObjectLock;
    var c :| Front(c, s) && Lockable(c) && x == Reparsed(ctx, c);
    var d := if token == IS_TOKEN then Is(c) else Carry(c);
    ReparsedParts(ctx, c);
    ReparsedParts(ctx, d);
    assert Front(d, Prefixed(token, s)) && Lockable(d);
  }

  // Of a text that breaks off somewhere inside b, or behind it, the parser
  // understands nothing, or all of it, and then it is another lock than b unless
  // the text is whole.
  ghost predicate Breaks(ctx: Context, p: Parse, b: BoolExp, whole: bool) {
    p.lock == True
    || (&& p.rest == "" && Operators(p.lock) <= Operators(b)
        && (!whole ==> p.lock != Normal(b))
        && (Unseparated(ctx.t, b) ==> ReadsFront(ctx, p.lock, b)))
  }

  lemma NothingLeft(ctx: Context)
    requires ctx.internal
    ensures ParseL(ctx, "").lock == True && ParseF(ctx, "").lock == True
    ensures ParseT(ctx, "").lock == True && ParseE(ctx, "").lock == True
  {
  }

  // A parenthesis that is not closed.
  lemma NotClosed(ctx: Context, inner: string)
    requires var p := ParseE(ctx, inner); p.lock == True || ')' !in p.rest
    ensures ParseL(ctx, "(" + inner).lock == True && ParseF(ctx, "(" + inner).lock == True
  {
    var s := "(" + inner;
    assert s[1..] == inner;
    FIsL(ctx, s);
    var p := ParseE(ctx, inner);
    SkipSpacePiece(p.rest);
    assert ')' !in p.rest ==> ')' !in SkipSpace(p.rest);
    hide ParseF, ParseE;
  }

  // ---------- objects ----------

  lemma WordsBreak(ctx: Context, text: string)
    requires ctx.internal && NoSeparator(text) && Begins(text) && text[0] !in {'(', '#'}
    ensures ParseL(ctx, text).lock == True
  {
    assert text + "" == text;
    FirstWord(ctx, text, "");
  }

  lemma ConstBreaks(ctx: Context, thing: int, p: string)
    requires ctx.internal && Int(thing) && p <= UnparseConst(thing) && p != UnparseConst(thing)
    ensures ParseL(ctx, p).lock == True && ParseF(ctx, p).lock == True
  {
    hide ParseF, ParseL, ParseE, Integer;
    var text := UnparseConst(thing);
    assert forall i :: 0 <= i < |p| ==> p[i] == text[i];
    if p == "" {
      NothingLeft(ctx);
    } else {
      FIsL(ctx, p);
      if thing == NOTHING || thing == HOME {
        WordsBreak(ctx, p);
      } else {
        assert p == "(" + p[1..];
        NumberWord(thing);
        assert forall i :: 0 < i < |p| ==> p[i] == ("#" + Integer(thing))[i - 1] && p[i] != ')';
        ParsedFromText(ctx, p[1..], ')');
        NotClosed(ctx, p[1..]);
      }
    }
  }

  // ---------- attributes ----------

  lemma {:induction false} TrimBehind(front: string, key: string)
    requires front != "" && !IsSpace(front[|front| - 1])
    ensures TrimEnd(front + key) == front + TrimEnd(key)
  {
    var s := front + key;
    if key == "" {
      assert s == front;
    } else {
      assert s[|s| - 1] == key[|key| - 1];
      if IsSpace(key[|key| - 1]) {
        assert s[..|s| - 1] == front + key[..|key| - 1];
        TrimBehind(front, key[..|key| - 1]);
      }
    }
  }

  // The text breaks off inside the text of the attribute.
  lemma KeyBreaks(ctx: Context, b: BoolExp, key: string)
    requires ctx.internal && Sound(ctx) && (b.Atr? || b.Eval?) && Lockable(b)
    requires NoSeparator(PrintedName(ctx.t, b.thing)) && NoOperator(PrintedName(ctx.t, b.thing))
    requires key <= b.key && key != b.key
    ensures var p := ParseL(ctx, PrintedName(ctx.t, b.thing) + (if b.Atr? then ":" else "/") + key);
            p.rest == "" && p.lock != b && Operators(p.lock) == 0 && ReadsFront(ctx, p.lock, b)
  {
    hide ParseL, Sound, PrintedName, TestAtr, TrimEnd, Separator;
    var name, sep := PrintedName(ctx.t, b.thing), if b.Atr? then ':' else '/';
    var front := name + [sep];
    var text := front + key;
    var short := if b.Atr? then Atr(b.thing, TrimEnd(key)) else Eval(b.thing, TrimEnd(key));
    TrimBehind(front, key);
    CleanFront(name, sep, key, b.key);
    AtrStart(ctx, b);
    assert text[0] == UnparseAtr(ctx.t, b)[0];
    WholeWords(ctx, text);
    KeyIsShort(ctx, b, name, sep, TrimEnd(key));
    TrimEnds(key);
    ShortKey(ctx, b, short);
  }

  lemma ShortKey(ctx: Context, b: BoolExp, c: BoolExp)
    requires (b.Atr? || b.Eval?) && Lockable(b) && NoOperator(PrintedName(ctx.t, b.thing))
    requires b.Atr? ==> c.Atr?
    requires b.Eval? ==> c.Eval?
    requires c.thing == b.thing && c.key <= b.key && Trimmed(c.key)
    ensures ReadsFront(ctx, ObjectLock(ctx, UnparseAtr(ctx.t, c)), b)
  {
    hide ObjectLock, UnparseAtr, PrintedName, NoOperator;
    assert CleanKey(c.key);
    LeafReread(ctx, c);
    assert Front(c, b) && Lockable(c) && Reparsed(ctx, c) == ObjectLock(ctx, UnparseAtr(ctx.t, c));
  }

  lemma CleanFront(name: string, sep: char, key: string, whole: string)
    requires CleanKey(name) && CleanKey(whole) && key <= whole && (sep == ':' || sep == '/')
    ensures CleanKey(name + [sep] + key)
  {
  }

  lemma WholeWords(ctx: Context, text: string)
    requires Begins(text) && text[0] != '(' && CleanKey(text)
    ensures ParseL(ctx, text) == Parse(ObjectLock(ctx, TrimEnd(text)), "")
  {
    WordBack(text, "");
    assert text + "" == text;
  }

  lemma KeyIsShort(ctx: Context, b: BoolExp, name: string, sep: char, key: string)
    requires ctx.internal && (b.Atr? || b.Eval?) && |key| < |b.key| && NoSeparator(name) && (sep == ':' || sep == '/')
    requires !StartsWith(name + [sep] + key, '#')
    ensures var x := ObjectLock(ctx, name + [sep] + key); x != b && Operators(x) == 0
  {
    hide ReadDigits, AtoInt, Separator;
    WordParts(name, sep, key);
  }

  lemma WordParts(name: string, sep: char, key: string)
    requires sep == ':' || sep == '/'
    ensures var word := name + [sep] + key; var k := Separator(word);
            && k < |word|
            && (NoSeparator(name) ==> k == |name| && word[..k] == name && word[k] == sep && word[k + 1..] == key)
            && (!NoSeparator(name) ==> |word[k + 1..]| > |key|)
  {
    var word := name + [sep] + key;
    assert word[|name|] == sep;
    if NoSeparator(name) {
      SeparatorBack(name, [sep] + key);
      assert word == name + ([sep] + key);
    } else {
      assert forall i :: 0 <= i < |name| ==> word[i] == name[i];
    }
  }

  // The text breaks off in or behind a name that holds an operator.
  lemma OperatorBreaks(ctx: Context, name: string, p: string, text: string)
    requires ctx.internal && Legible(name) && !NoOperator(name) && name <= text && p <= text
    requires Begins(p) && p[0] !in {'(', '#'}
    ensures ParseL(ctx, p).lock == True
  {
    hide ParseL, Word;
    var (word, rest) := Word(name);
    assert word + "" == word;
    assert forall i :: 0 <= i < |word| ==> name[i] == word[i];
    assert forall i :: 0 <= i < |p| && i < |word| ==> p[i] == text[i] == name[i] == word[i];
    if |p| <= |word| {
      WordsBreak(ctx, p);
    } else {
      var front := word + [rest[0]];
      assert name[|word|] == rest[0];
      assert EndsKey(front[|word|]);
      assert p == front + p[|front|..];
      FirstWord(ctx, front, p[|front|..]);
    }
  }

  // The text breaks off behind the sign that ends a name, which stands in the name.
  lemma ShadowBreaks(ctx: Context, n: int, k: nat, p: string)
    requires ctx.internal && Begins(p) && p[0] !in {'(', '#'} && !IsDigit(p[0]) && CleanKey(p)
    requires k == Separator(p) && 0 < k < |p| && ctx.atrStr(p[..k]) != Some(n)
    ensures var x := ParseL(ctx, p);
            x.rest == "" && Operators(x.lock) == 0 && (x.lock.Atr? || x.lock.Eval? ==> x.lock.thing != n)
  {
    hide ParseL, TrimEnd, Separator, ReadDigits, AtoInt;
    WholeWords(ctx, p);
    var key := TrimEnd(p[k + 1..]);
    var front := p[..k + 1];
    assert front + p[k + 1..] == p;
    TrimBehind(front, p[k + 1..]);
    assert front + key == p[..k] + [p[k]] + key;
    WordParts(p[..k], p[k], key);
    StartsNoNumber(p[..k]);
  }

  lemma StartsNoNumber(s: string)
    requires s != "" && !IsDigit(s[0])
    ensures ReadDigits(s, 0).1 != ""
  {
  }

  lemma SeparatedBreaks(ctx: Context, b: BoolExp, p: string)
    requires ctx.internal && Sound(ctx) && (b.Atr? || b.Eval?) && Lockable(b) && Unambiguous(ctx, b.thing)
    requires !NoSeparator(PrintedName(ctx.t, b.thing)) && NoOperator(PrintedName(ctx.t, b.thing))
    requires p != "" && p <= UnparseAtr(ctx.t, b)
    ensures Breaks(ctx, ParseL(ctx, p), b, false)
  {
    hide ParseL, Sound, Separator;
    var name, text := PrintedName(ctx.t, b.thing), UnparseAtr(ctx.t, b);
    AtrStart(ctx, b);
    AtrWord(ctx, b);
    NamedSeparated(ctx, b.thing);
    assert name <= text;
    var k := Separator(name);
    assert k < |name|;
    assert forall i :: 0 <= i < |p| ==> p[i] == text[i];
    assert text[0] == name[0];
    if |p| <= k {
      assert forall i :: 0 <= i < |p| ==> p[i] == name[i];
      WordsBreak(ctx, p);
    } else {
      assert forall i :: 0 <= i <= k ==> p[i] == text[i] == name[i];
      assert Separator(p) == k;
      assert p[..k] == name[..k];
      ShadowBreaks(ctx, b.thing, k, p);
    }
  }

  lemma NamedSeparated(ctx: Context, n: int)
    requires Sound(ctx) && Int(n) && !NoSeparator(PrintedName(ctx.t, n))
    ensures var name := PrintedName(ctx.t, n); !IsDigit(name[0]) && 0 < Separator(name) < |name|
  {
    if ctx.t.name(n).None? && n > 0 {
      NumberWord(n);
    }
  }

  lemma AtrBreaks(ctx: Context, b: BoolExp, p: string)
    requires ctx.internal && Sound(ctx) && (b.Atr? || b.Eval?) && Lockable(b)
    requires Unambiguous(ctx, b.thing) && p <= UnparseAtr(ctx.t, b) && p != UnparseAtr(ctx.t, b)
    ensures Breaks(ctx, ParseL(ctx, p), b, false) && Breaks(ctx, ParseF(ctx, p), b, false)
  {
    hide ParseL, ParseF, Sound, PrintedName;
    var name, sep := PrintedName(ctx.t, b.thing), if b.Atr? then ":" else "/";
    var text := name + sep + b.key;
    AtrStart(ctx, b);
    assert forall i :: 0 <= i < |p| ==> p[i] == text[i];
    if p == "" {
      NothingLeft(ctx);
    } else {
      FIsL(ctx, p);
      if !NoOperator(name) {
        OperatorBreaks(ctx, name, p, text);
      } else if !NoSeparator(name) {
        SeparatedBreaks(ctx, b, p);
      } else if |p| <= |name| {
        assert forall i :: 0 <= i < |p| ==> p[i] == name[i];
        WordsBreak(ctx, p);
      } else {
        var key := p[|name| + 1..];
        assert key == b.key[..|key|];
        assert p == name + sep + key;
        KeyBreaks(ctx, b, key);
      }
    }
  }

  // ---------- all the forms of text, broken off ----------

  // A whole text behind which nothing comes.
  lemma WholeBreaks(ctx: Context, b: BoolExp, p: Parse)
    requires Lockable(b) && Gives(p, Reparsed(ctx, b), "")
    ensures Breaks(ctx, p, b, true)
  {
    ReparsedAlike(ctx, b);
    WholeIsFront(b);
    hide Reparsed;
  }

  lemma PrefixBreaks(ctx: Context, token: char, b: BoolExp, s: BoolExp, q: string)
    requires ctx.internal && Sound(ctx) && Lockable(s) && (s.Const? || s.Atr?) && Unshadowed(ctx, s)
    requires token in {INDIR_TOKEN, IS_TOKEN, CARRY_TOKEN, OWNER_TOKEN} && b == Prefixed(token, s) && b != True
    requires q <= Unparse(ctx.t, s, Elsewhere) && q != Unparse(ctx.t, s, Elsewhere)
    ensures Breaks(ctx, ParseF(ctx, [token] + q), b, false)
  {
    hide ParseL, ParseF, Breaks, Sound, UnparseConst, UnparseAtr;
    if s.Const? {
      ConstBreaks(ctx, s.thing, q);
      LostBreaks(ctx, ParseL(ctx, q), s, false);
    } else {
      AtrBreaks(ctx, s, q);
    }
    TokenBreaks(ctx, token, s, q);
  }

  lemma TokenBreaks(ctx: Context, token: char, s: BoolExp, q: string)
    requires token in {INDIR_TOKEN, IS_TOKEN, CARRY_TOKEN, OWNER_TOKEN} && Prefixed(token, s) != True
    requires Breaks(ctx, ParseL(ctx, q), s, false)
    requires s.Const? ==> ParseL(ctx, q).lock == True
    ensures Breaks(ctx, ParseF(ctx, [token] + q), Prefixed(token, s), false)
  {
    hide ParseL, ParseF, ReadsFront, PlainName;
    var y := ParseL(ctx, q);
    FPrefix(ctx, token, q, y.lock, y.rest);
    if Prefixed(token, y.lock) != True && Unseparated(ctx.t, s) {
      FrontPrefixed(ctx, token, s, y.lock);
    }
  }

  lemma GroupBreaks(ctx: Context, b: BoolExp, q: string, p: string)
    requires Breaks(ctx, ParseE(ctx, q), b, q == Unparse(ctx.t, b, Elsewhere)) && p == "(" + q
    ensures ParseF(ctx, p).lock == True
  {
    hide ParseE, ParseF, ParseL;
    NotClosed(ctx, q);
  }

  lemma {:induction false} AtomCut(ctx: Context, b: BoolExp, p: string)
    requires ctx.internal && Sound(ctx) && Lockable(b) && Unshadowed(ctx, b) && !b.And? && !b.Or?
    requires p <= Unparse(ctx.t, b, Elsewhere)
    ensures Breaks(ctx, ParseF(ctx, p), b, p == Unparse(ctx.t, b, Elsewhere))
    decreases b, 0
  {
    hide ParseL, ParseF, UnparseConst, UnparseAtr, Sound, Breaks;
    var text := Unparse(ctx.t, b, Elsewhere);
    if p == text {
      UnshadowedReadable(ctx, b);
      AtomBack(ctx, b, "");
      assert text + "" == text;
      WholeBreaks(ctx, b, ParseF(ctx, p));
    } else if p == "" {
      NothingLeft(ctx);
      LostBreaks(ctx, ParseF(ctx, p), b, false);
    } else {
      match b
      case Const(thing) =>
        ConstBreaks(ctx, thing, p);
        LostBreaks(ctx, ParseF(ctx, p), b, false);
      case Atr(_, _) => AtrBreaks(ctx, b, p);
      case Eval(_, _) => AtrBreaks(ctx, b, p);
      case Not(s) =>
        TailOf(p, NOT_TOKEN, Unparse(ctx.t, s, UnderNot));
        NegatedCut(ctx, s, p[1..]);
        NotBreaks(ctx, s, p[1..]);
      case Indir(s) =>
        TailOf(p, INDIR_TOKEN, Unparse(ctx.t, s, Elsewhere));
        PrefixBreaks(ctx, INDIR_TOKEN, b, s, p[1..]);
      case Owner(s) =>
        TailOf(p, OWNER_TOKEN, Unparse(ctx.t, s, Elsewhere));
        PrefixBreaks(ctx, OWNER_TOKEN, b, s, p[1..]);
      case Is(s) =>
        TailOf(p, IS_TOKEN, Unparse(ctx.t, s, Elsewhere));
        PrefixBreaks(ctx, IS_TOKEN, b, s, p[1..]);
      case Carry(s) =>
        TailOf(p, CARRY_TOKEN, Unparse(ctx.t, s, Elsewhere));
        PrefixBreaks(ctx, CARRY_TOKEN, b, s, p[1..]);
    }
  }

  lemma LostBreaks(ctx: Context, p: Parse, b: BoolExp, whole: bool)
    requires p.lock == True
    ensures Breaks(ctx, p, b, whole)
  {
  }

  lemma TailOf(p: string, token: char, rest: string)
    requires p != "" && p <= [token] + rest && p != [token] + rest
    ensures p == [token] + p[1..] && p[1..] <= rest && p[1..] != rest
  {
    assert p[1..] == ([token] + rest)[1..|p|];
  }

  lemma NotBreaks(ctx: Context, s: BoolExp, q: string)
    requires s != True && Breaks(ctx, ParseF(ctx, q), s, false)
    ensures Breaks(ctx, ParseF(ctx, [NOT_TOKEN] + q), Not(s), false)
  {
    hide ParseF, ReadsFront, PlainName;
    var y := ParseF(ctx, q);
    FNot(ctx, q, y.lock, y.rest);
    if y.lock != True && Unseparated(ctx.t, s) {
      FrontNegated(ctx, s, y.lock);
    }
  }

  lemma {:induction false} NegatedCut(ctx: Context, b: BoolExp, p: string)
    requires ctx.internal && Sound(ctx) && Lockable(b) && Unshadowed(ctx, b)
    requires p <= Unparse(ctx.t, b, UnderNot) && p != Unparse(ctx.t, b, UnderNot)
    ensures Breaks(ctx, ParseF(ctx, p), b, false)
    decreases b, 4
  {
    hide ParseF, Sound, Breaks;
    if b.And? || b.Or? {
      GroupCut(ctx, b, p);
    } else {
      AtomCut(ctx, b, p);
    }
  }

  // In parentheses, the last of which is missing at least.
  lemma {:induction false} GroupCut(ctx: Context, b: BoolExp, p: string)
    requires ctx.internal && Sound(ctx) && Lockable(b) && Unshadowed(ctx, b) && (b.And? || b.Or?)
    requires var text := "(" + Unparse(ctx.t, b, Elsewhere) + ")"; p <= text && p != text
    ensures ParseF(ctx, p).lock == True && Breaks(ctx, ParseF(ctx, p), b, false)
    decreases b, 3
  {
    hide ParseF, ParseE, Sound, Unparse, Breaks;
    if p == "" {
      NothingLeft(ctx);
    } else {
      var inner := Unparse(ctx.t, b, Elsewhere);
      var q := p[1..];
      assert q <= inner && p == "(" + q by {
        assert ("(" + inner + ")")[1..|p|] == q;
        assert (inner + ")")[..|q|] == q;
      }
      WholeCut(ctx, b, q);
      GroupBreaks(ctx, b, q, p);
    }
    LostBreaks(ctx, ParseF(ctx, p), b, false);
  }

  // On its own.
  lemma {:induction false} WholeCut(ctx: Context, b: BoolExp, p: string)
    requires ctx.internal && Sound(ctx) && Lockable(b) && Unshadowed(ctx, b) && p <= Unparse(ctx.t, b, Elsewhere)
    ensures Breaks(ctx, ParseE(ctx, p), b, p == Unparse(ctx.t, b, Elsewhere))
    decreases b, 2
  {
    hide ParseF, ParseT, ParseE, Sound, Breaks;
    if b.Or? {
      var left := Unparse(ctx.t, b.sub1, Elsewhere);
      var q := Behind(p, left, OR_TOKEN, Unparse(ctx.t, b.sub2, Elsewhere));
      if |p| <= |left| {
        WholeCut(ctx, b.sub1, p);
        FewerBreaks(ctx, ParseE(ctx, p), b, p == left, p == Unparse(ctx.t, b, Elsewhere));
      } else {
        WholeCut(ctx, b.sub2, q);
        OrBreaks(ctx, b, q, p);
      }
    } else {
      TermCut(ctx, b, p);
      EndsThere(ctx, b, p);
    }
  }

  // The part of the text behind the first operand.
  function Behind(p: string, left: string, token: char, right: string): (q: string)
    requires p <= left + [token] + right
    ensures |p| <= |left| ==> p <= left
    ensures |p| > |left| ==> p == left + ([token] + q) && q <= right
    ensures |p| > |left| ==> (p == left + [token] + right <==> q == right)
  {
    var text := left + [token] + right;
    assert text == left + ([token] + right);
    assert p == text[..|p|];
    if |p| <= |left| then
      assert p == left[..|p|];
      ""
    else
      var q := p[|left| + 1..];
      assert q == right[..|q|];
      q
  }

  // With the first operand alone there are too few operators.
  lemma FewerBreaks(ctx: Context, p: Parse, b: BoolExp, wholeLeft: bool, whole: bool)
    requires (b.And? || b.Or?) && Breaks(ctx, p, b.sub1, wholeLeft)
    ensures Breaks(ctx, p, b, whole)
  {
    hide Reparsed, Lockable;
    NormalOperators(b);
    assert forall c :: Front(c, b.sub1) ==> Front(c, b);
  }

  lemma OrBreaks(ctx: Context, b: BoolExp, q: string, p: string)
    requires ctx.internal && Sound(ctx) && b.Or? && Lockable(b)
    requires p == Unparse(ctx.t, b.sub1, Elsewhere) + ([OR_TOKEN] + q)
    requires Unshadowed(ctx, b) && Breaks(ctx, ParseE(ctx, q), b.sub2, q == Unparse(ctx.t, b.sub2, Elsewhere))
    ensures Breaks(ctx, ParseE(ctx, p), b, q == Unparse(ctx.t, b.sub2, Elsewhere))
  {
    hide ParseE, Sound, Reparsed, ReadsFront, PlainName;
    var x := ParseE(ctx, q);
    if x.lock != True && Unseparated(ctx.t, b) {
      FrontBehind(ctx, b, x.lock);
    }
    UnshadowedReadable(ctx, b.sub1);
    OrChain(ctx, b.sub1, q, x.lock, x.rest);
    ReparsedAlike(ctx, b.sub1);
    OrElseOperators(Reparsed(ctx, b.sub1), x.lock);
    if Reparsed(ctx, b.sub1) != True {
      OrElseTellsApart(Reparsed(ctx, b.sub1), x.lock, Normal(b.sub1), Normal(b.sub2));
    }
  }

  lemma EndsThere(ctx: Context, b: BoolExp, p: string)
    requires Breaks(ctx, ParseT(ctx, p), b, p == Unparse(ctx.t, b, Elsewhere))
    ensures Breaks(ctx, ParseE(ctx, p), b, p == Unparse(ctx.t, b, Elsewhere))
  {
    hide ParseT, Unparse;
    var x := ParseT(ctx, p);
    EStops(ctx, p, x.lock, "");
  }

  // As an operand of |, when it is no | itself.
  lemma {:induction false} TermCut(ctx: Context, b: BoolExp, p: string)
    requires ctx.internal && Sound(ctx) && Lockable(b) && Unshadowed(ctx, b) && !b.Or?
    requires p <= Unparse(ctx.t, b, Elsewhere)
    ensures Breaks(ctx, ParseT(ctx, p), b, p == Unparse(ctx.t, b, Elsewhere))
    decreases b, 1
  {
    hide ParseF, ParseT, Sound, Breaks;
    if b.And? {
      var left := Unparse(ctx.t, b.sub1, UnderAnd);
      var q := Behind(p, left, AND_TOKEN, Unparse(ctx.t, b.sub2, UnderAnd));
      if |p| <= |left| {
        FactorsCut(ctx, b.sub1, p);
        FewerBreaks(ctx, ParseT(ctx, p), b, p == left, p == Unparse(ctx.t, b, Elsewhere));
      } else {
        FactorsCut(ctx, b.sub2, q);
        AndBreaks(ctx, b, q, p);
      }
    } else {
      AtomCut(ctx, b, p);
      FactorEnds(ctx, b, p, p == Unparse(ctx.t, b, Elsewhere));
    }
  }

  lemma AndBreaks(ctx: Context, b: BoolExp, q: string, p: string)
    requires ctx.internal && Sound(ctx) && b.And? && Lockable(b)
    requires p == Unparse(ctx.t, b.sub1, UnderAnd) + ([AND_TOKEN] + q)
    requires Unshadowed(ctx, b) && Breaks(ctx, ParseT(ctx, q), b.sub2, q == Unparse(ctx.t, b.sub2, UnderAnd))
    ensures Breaks(ctx, ParseT(ctx, p), b, q == Unparse(ctx.t, b.sub2, UnderAnd))
  {
    hide ParseT, Sound, Reparsed, ReadsFront, PlainName;
    var x := ParseT(ctx, q);
    if x.lock != True && Unseparated(ctx.t, b) {
      FrontBehind(ctx, b, x.lock);
    }
    UnshadowedReadable(ctx, b.sub1);
    AndChain(ctx, b.sub1, q, x.lock, x.rest);
    ReparsedAlike(ctx, b.sub1);
    AndThenOperators(Reparsed(ctx, b.sub1), x.lock);
    if Reparsed(ctx, b.sub1) != True {
      AndThenTellsApart(Reparsed(ctx, b.sub1), x.lock, Normal(b.sub1), Normal(b.sub2));
    }
  }

  lemma FactorEnds(ctx: Context, b: BoolExp, p: string, whole: bool)
    requires Breaks(ctx, ParseF(ctx, p), b, whole)
    ensures Breaks(ctx, ParseT(ctx, p), b, whole)
  {
    hide ParseF;
    var x := ParseF(ctx, p);
    TStops(ctx, p, x.lock, "");
  }

  // As an operand of &.
  lemma {:induction false} FactorsCut(ctx: Context, b: BoolExp, p: string)
    requires ctx.internal && Sound(ctx) && Lockable(b) && Unshadowed(ctx, b) && p <= Unparse(ctx.t, b, UnderAnd)
    ensures Breaks(ctx, ParseT(ctx, p), b, p == Unparse(ctx.t, b, UnderAnd))
    decreases b, 5
  {
    hide ParseF, ParseT, Sound, Breaks;
    var text := Unparse(ctx.t, b, UnderAnd);
    if !b.Or? {
      TermCut(ctx, b, p);
    } else if p == text {
      UnshadowedReadable(ctx, b);
      FactorsBack(ctx, b, "");
      assert text + "" == text;
      WholeBreaks(ctx, b, ParseT(ctx, p));
    } else {
      GroupCut(ctx, b, p);
      FactorEnds(ctx, b, p, false);
    }
  }

  // A stored text that was cut is never read as the lock that was printed. If it is
  // understood it has no more operators, and is read as what is left of that lock.
  lemma CutLockIsAnother(ctx: Context, b: BoolExp)
    requires ctx.internal && Sound(ctx) && Lockable(b) && Unshadowed(ctx, b) && !InBuffer(ctx.t, b)
    ensures var x := ParseBoolExp(ctx, UnparseQuiet(ctx.t, b));
            && x != Normal(b)
            && (x == True || Operators(x) <= Operators(b))
            && (Unseparated(ctx.t, b) ==> x == True || ReadsFront(ctx, x, b))
  {
    hide ParseE, Unparse, Sound, Lockable, Unshadowed, ReadsFront;
    WholeCut(ctx, b, UnparseQuiet(ctx.t, b));
    TrueIsNormal(b);
    NotTrue(b);
  }

  lemma NotTrue(b: BoolExp)
    requires Lockable(b)
    ensures b != True
  {
  }
}
