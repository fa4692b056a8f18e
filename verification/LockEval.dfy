// What a lock decides: evaluation with a bound on indirection, and the ways a
// lock is stored without changing its meaning.
module LockEval {
  import opened BoolExps
  import LockFile
  import opened LockCut
  import opened LockReparse
  import opened LockText
  import opened LockUnderstood
  import opened Options
  import opened StringIO
  import opened Text

  // `lockText` is the text of the lock attribute of an object ("" when there is
  // none) and `leaf` decides the tests that look at objects and attributes.
  datatype Database = Database(
    ctx: Context,
    lockText: int -> string,
    leaf: (BoolExp, int) -> bool,
    limit: int)

  function LockOf(db: Database, thing: int): BoolExp {
    ParseBoolExp(db.ctx, db.lockText(thing))
  }

  function Room(db: Database, lev: int): nat {
    if lev < db.limit then db.limit - lev else 0
  }

  // eval_boolexp at nesting level `lev`
  function EvalLock(db: Database, lev: int, thing: int, b: BoolExp): bool
    decreases Room(db, lev), b
  {
    match b
    case True => true
    case And(l, r) => EvalLock(db, lev, thing, l) && EvalLock(db, lev, thing, r)
    case Or(l, r) => EvalLock(db, lev, thing, l) || EvalLock(db, lev, thing, r)
    case Not(s) => !EvalLock(db, lev, thing, s)
    case Indir(s) =>
      lev + 1 < db.limit && s.Const? && s.thing >= 0 && EvalLock(db, lev + 1, s.thing, LockOf(db, s.thing))
    case _ => db.leaf(b, thing)
  }

  // eval_boolexp_atr
  function EvalText(db: Database, lev: int, thing: int, key: string): bool {
    EvalLock(db, lev, thing, ParseBoolExp(db.ctx, key))
  }

  // The evaluator with its nesting counter.
  class Evaluator {
    const db: Database
    var lockNestLev: int

    constructor (db: Database)
      ensures this.db == db && lockNestLev == 0
    {
      this.db, lockNestLev := db, 0;
    }

    method EvalBoolexp(thing: int, b: BoolExp) returns (passes: bool)
      modifies this
      ensures lockNestLev == old(lockNestLev)
      ensures passes == EvalLock(db, lockNestLev, thing, b)
      decreases Room(db, lockNestLev), b, 1
    {
      match b
      case True => passes := true;
      case And(l, r) =>
        passes := EvalBoolexp(thing, l);
        if passes {
          passes := EvalBoolexp(thing, r);
        }
      case Or(l, r) =>
        passes := EvalBoolexp(thing, l);
        if !passes {
          passes := EvalBoolexp(thing, r);
        }
      case Not(s) =>
        passes := EvalBoolexp(thing, s);
        passes := !passes;
      case Indir(s) =>
        lockNestLev := lockNestLev + 1;
        if lockNestLev >= db.limit {
          lockNestLev := lockNestLev - 1;
          return false;
        }
        if !s.Const? || s.thing < 0 {
          lockNestLev := lockNestLev - 1;
          return false;
        }
        passes := EvalBoolexpAtr(s.thing, db.lockText(s.thing));
        lockNestLev := lockNestLev - 1;
      case Const(_) => passes := db.leaf(b, thing);
      case Atr(_, _) => passes := db.leaf(b, thing);
      case Eval(_, _) => passes := db.leaf(b, thing);
      case Is(_) => passes := db.leaf(b, thing);
      case Carry(_) => passes := db.leaf(b, thing);
      case Owner(_) => passes := db.leaf(b, thing);
    }

    method EvalBoolexpAtr(thing: int, key: string) returns (passes: bool)
      modifies this
      ensures lockNestLev == old(lockNestLev)
      ensures passes == EvalText(db, lockNestLev, thing, key)
      decreases Room(db, lockNestLev), ParseBoolExp(db.ctx, key), 2
    {
      var b := ParseBoolExp(db.ctx, key);
      if b == True {
        passes := true;
      } else {
        passes := EvalBoolexp(thing, b);
      }
    }
  }

  // ---------- the bound does not show where chains are short ----------

  // No chain of @ from this lock is longer than d.
  ghost predicate Grounded(db: Database, b: BoolExp, d: nat)
    decreases d, b
  {
    match b
    case And(l, r) => Grounded(db, l, d) && Grounded(db, r, d)
    case Or(l, r) => Grounded(db, l, d) && Grounded(db, r, d)
    case Not(s) => Grounded(db, s, d)
    case Indir(s) => s.Const? && s.thing >= 0 ==> d > 0 && Grounded(db, LockOf(db, s.thing), d - 1)
    case _ => true
  }

  // Evaluation without any bound, where it is well defined.
  ghost function EvalFree(db: Database, thing: int, b: BoolExp, d: nat): bool
    requires Grounded(db, b, d)
    decreases d, b
  {
    match b
    case True => true
    case And(l, r) => EvalFree(db, thing, l, d) && EvalFree(db, thing, r, d)
    case Or(l, r) => EvalFree(db, thing, l, d) || EvalFree(db, thing, r, d)
    case Not(s) => !EvalFree(db, thing, s, d)
    case Indir(s) => s.Const? && s.thing >= 0 && EvalFree(db, s.thing, LockOf(db, s.thing), d - 1)
    case _ => db.leaf(b, thing)
  }

  // It does not depend on the chain length that shows it is well defined.
  lemma {:induction false} EvalFreeIsOne(db: Database, thing: int, b: BoolExp, d: nat, e: nat)
    requires Grounded(db, b, d) && Grounded(db, b, e)
    ensures EvalFree(db, thing, b, d) == EvalFree(db, thing, b, e)
    decreases d, b
  {
    match b
    case And(l, r) =>
      EvalFreeIsOne(db, thing, l, d, e);
      EvalFreeIsOne(db, thing, r, d, e);
    case Or(l, r) =>
      EvalFreeIsOne(db, thing, l, d, e);
      EvalFreeIsOne(db, thing, r, d, e);
    case Not(s) => EvalFreeIsOne(db, thing, s, d, e);
    case Indir(s) =>
      if s.Const? && s.thing >= 0 {
        EvalFreeIsOne(db, s.thing, LockOf(db, s.thing), d - 1, e - 1);
      }
    case _ =>
  }

  lemma {:induction false} BoundDoesNotShow(db: Database, lev: int, thing: int, b: BoolExp, d: nat)
    requires Grounded(db, b, d) && lev + d < db.limit
    ensures EvalLock(db, lev, thing, b) == EvalFree(db, thing, b, d)
    decreases d, b
  {
    match b
    case And(l, r) =>
      BoundDoesNotShow(db, lev, thing, l, d);
      BoundDoesNotShow(db, lev, thing, r, d);
    case Or(l, r) =>
      BoundDoesNotShow(db, lev, thing, l, d);
      BoundDoesNotShow(db, lev, thing, r, d);
    case Not(s) => BoundDoesNotShow(db, lev, thing, s, d);
    case Indir(s) =>
      if s.Const? && s.thing >= 0 {
        BoundDoesNotShow(db, lev + 1, s.thing, LockOf(db, s.thing), d - 1);
      }
    case _ =>
  }

  // A plain chain of d indirections that ends at an object without a lock.
  ghost predicate Chain(db: Database, b: BoolExp, d: nat)
    decreases d
  {
    if d == 0 then b == True
    else b.Indir? && b.sub1.Const? && b.sub1.thing >= 0 && Chain(db, LockOf(db, b.sub1.thing), d - 1)
  }

  // On such a chain the condition of BoundDoesNotShow is exact.
  lemma {:induction false} ChainPasses(db: Database, lev: int, thing: int, b: BoolExp, d: nat)
    requires Chain(db, b, d) && lev < db.limit
    ensures Grounded(db, b, d) && EvalFree(db, thing, b, d)
    ensures EvalLock(db, lev, thing, b) <==> lev + d < db.limit
    decreases d
  {
    if d > 0 {
      if lev + 1 < db.limit {
        ChainPasses(db, lev + 1, b.sub1.thing, LockOf(db, b.sub1.thing), d - 1);
      } else {
        ChainPasses(db, lev, b.sub1.thing, LockOf(db, b.sub1.thing), d - 1);
      }
    }
  }

  // A lock that refers to itself is answered no at every level.
  lemma {:induction false} CycleFails(db: Database, lev: int, thing: int, o: int)
    requires LockOf(db, o) == Indir(Const(o))
    ensures !EvalLock(db, lev, thing, Indir(Const(o)))
    decreases Room(db, lev)
  {
    if lev + 1 < db.limit {
      CycleFails(db, lev + 1, o, o);
    }
  }

  // ---------- storing a lock keeps its meaning ----------

  lemma {:induction false} AndThenMeans(db: Database, lev: int, thing: int, l: BoolExp, r: BoolExp)
    ensures EvalLock(db, lev, thing, AndThen(l, r)) == (EvalLock(db, lev, thing, l) && EvalLock(db, lev, thing, r))
  {
    if l.And? {
      AndThenMeans(db, lev, thing, l.sub2, r);
    }
  }

  lemma {:induction false} OrElseMeans(db: Database, lev: int, thing: int, l: BoolExp, r: BoolExp)
    ensures EvalLock(db, lev, thing, OrElse(l, r)) == (EvalLock(db, lev, thing, l) || EvalLock(db, lev, thing, r))
  {
    if l.Or? {
      OrElseMeans(db, lev, thing, l.sub2, r);
    }
  }

  lemma {:induction false} NormalMeans(db: Database, lev: int, thing: int, b: BoolExp)
    ensures EvalLock(db, lev, thing, Normal(b)) == EvalLock(db, lev, thing, b)
  {
    match b
    case And(l, r) =>
      NormalMeans(db, lev, thing, l);
      NormalMeans(db, lev, thing, r);
      AndThenMeans(db, lev, thing, Normal(l), Normal(r));
    case Or(l, r) =>
      NormalMeans(db, lev, thing, l);
      NormalMeans(db, lev, thing, r);
      OrElseMeans(db, lev, thing, Normal(l), Normal(r));
    case Not(s) => NormalMeans(db, lev, thing, s);
    case _ =>
  }

  // The text that @lock stores decides what its parts decide as the player who is
  // tested finds them. So it decides what the lock that was typed decides if he
  // understands every part of it; if he does not, it lets him pass.
  lemma StoredLockMeans(db: Database, typed: Context, text: string, lev: int, thing: int)
    requires db.ctx.internal && Sound(db.ctx) && Agree(db.ctx)
    ensures var b := ParseBoolExp(typed, text);
            var stored := UnparseQuiet(db.ctx.t, b);
            InBuffer(db.ctx.t, b) && Readable(db.ctx.t, b) ==>
              EvalText(db, lev, thing, stored) == EvalLock(db, lev, thing, Reread(db.ctx, b))
    ensures var b := ParseBoolExp(typed, text);
            var stored := UnparseQuiet(db.ctx.t, b);
            InBuffer(db.ctx.t, b) && Unseparated(db.ctx.t, b) && (db.ctx.god ==> Numbered(b)) ==>
              EvalText(db, lev, thing, stored) == (Understood(db.ctx, b) ==> EvalLock(db, lev, thing, b))
  {
    var b := ParseBoolExp(typed, text);
    ParserBuilds(typed, text);
    EmptyOpens(db, lev, thing);
    hide ParseBoolExp, UnparseQuiet, Sound, Agree, InBuffer, Readable, Unshadowed, Unseparated;
    if b != True && InBuffer(db.ctx.t, b) && Readable(db.ctx.t, b) {
      StoredLockIsReread(db.ctx, b);
      NormalMeans(db, lev, thing, Reread(db.ctx, b));
    }
    if b != True && InBuffer(db.ctx.t, b) && Unseparated(db.ctx.t, b) && (db.ctx.god ==> Numbered(b)) {
      UnseparatedUnshadowed(db.ctx, b);
      if Understood(db.ctx, b) {
        RereadSame(db.ctx, b);
      } else {
        LostOpens(db.ctx, b);
      }
    }
  }

  lemma {:induction false} FrontUnderstood(ctx: Context, c: BoolExp, b: BoolExp)
    requires Front(c, b) && Understood(ctx, b)
    ensures Understood(ctx, c)
  {
    hide Found;
    match b
    case And(l, r) => if Front(c, l) { FrontUnderstood(ctx, c, l); } else { FrontUnderstood(ctx, c.sub2, r); }
    case Or(l, r) => if Front(c, l) { FrontUnderstood(ctx, c, l); } else { FrontUnderstood(ctx, c.sub2, r); }
    case Not(s) => FrontUnderstood(ctx, c.sub1, s);
    case Is(s) => FrontUnderstood(ctx, c.sub1, s);
    case Carry(s) => FrontUnderstood(ctx, c.sub1, s);
    case _ =>
  }

  // A lock that does not go into the buffer, of which every part is understood: it is
  // stored as another lock, which lets everybody pass or decides what is left of the
  // lock that was typed without some operands at its end, the text of the last
  // attribute perhaps being short.
  lemma CutLockMeans(db: Database, typed: Context, text: string, lev: int, thing: int)
    requires db.ctx.internal && Sound(db.ctx) && Agree(db.ctx)
    requires var b := ParseBoolExp(typed, text);
             !InBuffer(db.ctx.t, b) && Unseparated(db.ctx.t, b) && Understood(db.ctx, b)
    ensures var b := ParseBoolExp(typed, text);
            var stored := UnparseQuiet(db.ctx.t, b);
            var x := ParseBoolExp(db.ctx, stored);
            || (x == True && EvalText(db, lev, thing, stored))
            || exists c :: Front(c, b) && c != b && x == Normal(c)
                           && EvalText(db, lev, thing, stored) == EvalLock(db, lev, thing, c)
  {
    hide ParseBoolExp, UnparseQuiet, Sound, Agree, InBuffer, Unshadowed, Unseparated, Front, Understood, Reread;
    var b := ParseBoolExp(typed, text);
    var stored := UnparseQuiet(db.ctx.t, b);
    ParserBuilds(typed, text);
    EmptyFits(db.ctx.t);
    UnseparatedUnshadowed(db.ctx, b);
    CutLockIsAnother(db.ctx, b);
    var x := ParseBoolExp(db.ctx, stored);
    if x != True {
      var c :| Front(c, b) && Lockable(c) && x == Reparsed(db.ctx, c);
      FrontUnderstood(db.ctx, c, b);
      RereadSame(db.ctx, c);
      NormalMeans(db, lev, thing, c);
      assert EvalText(db, lev, thing, stored) == EvalLock(db, lev, thing, c);
    }
  }

  lemma EmptyFits(t: Attributes)
    ensures InBuffer(t, True)
  {
  }

  // #1 locks with the number of an attribute that has no name: the lock refuses
  // who does not have it, and its text lets everybody but #1 pass.
  lemma NamelessOpens(db: Database, typed: Context, lev: int, thing: int)
    requires db.ctx.internal && Sound(db.ctx) && Agree(db.ctx) && !db.ctx.god && db.ctx.t.name(300) == None
    requires typed.god && typed.atrStr("300") == None && !db.leaf(Atr(300, "foo"), thing)
    ensures var b := ParseBoolExp(typed, "300:foo");
            && b == Atr(300, "foo") && UnparseQuiet(db.ctx.t, b) == "300:foo"
            && !EvalLock(db, lev, thing, b)
            && EvalText(db, lev, thing, "300:foo")
  {
    hide ParseBoolExp, EvalText, Sound, Agree, Found, InBuffer, Unseparated, Readable, UnparseQuiet, Numbered, Reread;
    Nameless300(db.ctx.t);
    NumberedText(typed);
    StoredLockMeans(db, typed, "300:foo", lev, thing);
    FoundByName(db.ctx, 300);
  }

  lemma Nameless300(t: Attributes)
    requires t.name(300) == None
    ensures var b := Atr(300, "foo"); UnparseQuiet(t, b) == "300:foo" && InBuffer(t, b) && Unseparated(t, b)
  {
    hide Integer;
    Number300();
    assert PrintedName(t, 300) + ":" + "foo" == "300:foo";
  }

  // #1 locks, by its number, with an attribute whose name holds a slash: the text is
  // read by everybody as a lock on the attribute that the part before the slash names.
  lemma SlashNameMisread(ctx: Context, typed: Context)
    requires ctx.internal && typed.god && typed.atrStr("300") == None
    requires ctx.t.name(300) == Some("A/B") && ctx.atrStr("A") == Some(256)
    ensures var b := ParseBoolExp(typed, "300:foo");
            && b == Atr(300, "foo") && UnparseQuiet(ctx.t, b) == "A/B:foo"
            && ParseBoolExp(ctx, "A/B:foo") == Eval(256, "B:foo")
  {
    hide ParseBoolExp, ReadDigits, AtoInt, Separator;
    NumberedText(typed);
    assert PrintedName(ctx.t, 300) + ":" + "foo" == "A/B:foo";
    WordParts("A", '/', "B:foo");
    assert "A" + ['/'] + "B:foo" == "A/B:foo";
    WholeWord(ctx, "A/B:foo");
  }

  lemma Number300()
    ensures Integer(300) == "300" && AtoInt("300") == 300 && ReadDigits("300", 0).1 == ""
  {
    assert Decimal(3) == "3";
    assert Decimal(30) == "30";
    assert Decimal(300) == "300";
    DecimalAtoi(300);
    IntegerAtoInt(300);
  }

  lemma NumberedText(ctx: Context)
    ensures ctx.god && ctx.atrStr("300") == None ==> ParseBoolExp(ctx, "300:foo") == Atr(300, "foo")
    ensures ctx.internal && !ctx.god && ctx.atrStr("300") == None ==> ParseBoolExp(ctx, "300:foo") == True
  {
    hide ParseL, ParseF, ParseT, ParseE, ReadDigits, AtoInt, Separator;
    var text := "300:foo";
    Number300();
    WordParts("300", ':', "foo");
    assert "300" + [':'] + "foo" == text;
    WholeWord(ctx, text);
  }

  // A text that is one word.
  lemma WholeWord(ctx: Context, word: string)
    requires Begins(word) && CleanKey(word) && TrimEnd(word) == word && word[0] != '('
    requires word[0] !in {NOT_TOKEN, INDIR_TOKEN, IS_TOKEN, CARRY_TOKEN, OWNER_TOKEN}
    ensures ParseBoolExp(ctx, word) == ObjectLock(ctx, word)
  {
    LWord(ctx, word, "");
    assert word + "" == word;
    FIsL(ctx, word);
    hide ParseL, ParseF, ParseT, ParseE, ObjectLock;
    TStops(ctx, word, ObjectLock(ctx, word), "");
    EStops(ctx, word, ObjectLock(ctx, word), "");
  }

  // A lock on an object opens when the object is gone.
  lemma GoneOpens(db: Database, o: int, lev: int, thing: int)
    requires db.ctx.internal && Sound(db.ctx) && Int(o) && !db.ctx.good(o) && !db.leaf(Const(o), thing)
    ensures !EvalLock(db, lev, thing, Const(o))
    ensures EvalText(db, lev, thing, UnparseQuiet(db.ctx.t, Const(o)))
  {
    ShortNumber(o);
    StoredLockIsReread(db.ctx, Const(o));
  }

  lemma ShortNumber(o: int)
    requires Int(o)
    ensures |UnparseConst(o)| < LBUF_SIZE
  {
    assert Power(5) == 100_000;
    assert Power(10) == 10_000_000_000;
    DecimalLength(if o < 0 then -o else o, 10);
  }

  // ---------- a lock that does not go into the buffer ----------

  // #o|#o|...|#o, n times
  function Chain5(n: nat): BoolExp {
    if n == 0 then Const(5) else Or(Const(5), Chain5(n - 1))
  }

  function Typed5(n: nat): string {
    if n == 0 then "#5" else "#5" + ("|" + Typed5(n - 1))
  }

  lemma {:induction false} TypedChain(ctx: Context, n: nat)
    requires !ctx.internal && ctx.find("#5") == 5
    ensures ParseE(ctx, Typed5(n)) == Parse(Chain5(n), "")
    ensures |Typed5(n)| == 3 * n + 2
  {
    hide ParseL, ParseF, ParseT, ParseE, ObjectLock;
    var after := if n == 0 then "" else "|" + Typed5(n - 1);
    assert "#5" + "" == "#5";
    OneObject(ctx);
    LWord(ctx, "#5", after);
    FIsL(ctx, "#5" + after);
    TStops(ctx, "#5" + after, Const(5), after);
    if n == 0 {
      EStops(ctx, "#5", Const(5), "");
    } else {
      TypedChain(ctx, n - 1);
      EGoesOn(ctx, "#5" + after, Const(5), Typed5(n - 1), Chain5(n - 1), "");
    }
  }

  lemma OneObject(ctx: Context)
    requires !ctx.internal && ctx.find("#5") == 5
    ensures ObjectLock(ctx, "#5") == Const(5)
  {
    SeparatorBack("#5", "");
    assert "#5" + "" == "#5";
  }

  lemma {:induction false} PrintedChain(t: Attributes, n: nat)
    ensures |Unparse(t, Chain5(n), Elsewhere)| == 5 * n + 4
    ensures Lockable(Chain5(n)) && Chain5(n) != True
    ensures Unparse(t, Const(5), Elsewhere) == "(#5)"
  {
    if n > 0 {
      PrintedChain(t, n - 1);
    }
  }

  lemma ChainText(t: Attributes, n: nat)
    requires n > 0
    ensures Unparse(t, Chain5(n), Elsewhere)
         == Unparse(t, Const(5), Elsewhere) + ([OR_TOKEN] + Unparse(t, Chain5(n - 1), Elsewhere))
  {
  }

  lemma ConstLegible(t: Attributes, o: int)
    ensures Readable(t, Const(o))
  {
  }

  // What comes before a text that is not understood does not matter.
  lemma LostBehind(ctx: Context, cut: string)
    requires ctx.internal && Sound(ctx) && ParseE(ctx, cut).lock == True
    ensures ParseE(ctx, Unparse(ctx.t, Const(5), Elsewhere) + ([OR_TOKEN] + cut)).lock == True
  {
    hide ParseE, Sound, Unparse, Readable, Reparsed;
    ConstLegible(ctx.t, 5);
    var x := ParseE(ctx, cut);
    OrChain(ctx, Const(5), cut, x.lock, x.rest);
  }

  lemma ObjectCut(ctx: Context)
    requires ctx.internal && Sound(ctx)
    ensures ParseE(ctx, "(#5").lock == True
  {
    hide ParseL, ParseF, ParseT, ParseE, Sound;
    PrintedChain(ctx.t, 0);
    assert "(#5)"[..3] == "(#5";
    ConstBreaks(ctx, 5, "(#5");
    TStops(ctx, "(#5", True, "");
    EStops(ctx, "(#5", True, "");
  }

  // Without its last parenthesis the chain is the true lock.
  lemma {:induction false} ChainCut(ctx: Context, n: nat)
    requires ctx.internal && Sound(ctx)
    ensures var text := Unparse(ctx.t, Chain5(n), Elsewhere);
            text != "" && ParseE(ctx, text[..|text| - 1]).lock == True
  {
    hide ParseE, Sound, Unparse;
    PrintedChain(ctx.t, n);
    var text := Unparse(ctx.t, Chain5(n), Elsewhere);
    if n == 0 {
      ObjectCut(ctx);
      assert text[..3] == "(#5";
    } else {
      PrintedChain(ctx.t, n - 1);
      ChainText(ctx.t, n);
      ChainCut(ctx, n - 1);
      var rest := Unparse(ctx.t, Chain5(n - 1), Elsewhere);
      var cut := rest[..|rest| - 1];
      LostBehind(ctx, cut);
      assert text[..|text| - 1] == Unparse(ctx.t, Const(5), Elsewhere) + ([OR_TOKEN] + cut);
    }
  }

  lemma {:induction false} ChainRefuses(db: Database, lev: int, thing: int, n: nat)
    requires !db.leaf(Const(5), thing)
    ensures !EvalLock(db, lev, thing, Chain5(n))
  {
    if n > 0 {
      ChainRefuses(db, lev, thing, n - 1);
    }
  }

  // The object #5 3277 times, with | between: 9830 characters are typed, 16384 are
  // printed, and the last of them, a parenthesis, is dropped. The lock is for #5
  // alone; its text lets everybody pass, although #5 exists.
  lemma LongLockOpens(db: Database, typed: Context, lev: int, thing: int)
    requires db.ctx.internal && Sound(db.ctx) && !typed.internal && typed.find("#5") == 5
    requires db.ctx.good(5) && !db.leaf(Const(5), thing)
    ensures |Typed5(3276)| == 9830 && |Unparse(db.ctx.t, Chain5(3276), Elsewhere)| == 16384
    ensures ParseBoolExp(typed, Typed5(3276)) == Chain5(3276)
    ensures !EvalLock(db, lev, thing, Chain5(3276))
    ensures EvalText(db, lev, thing, UnparseQuiet(db.ctx.t, Chain5(3276)))
  {
    hide Chain5, Typed5, EvalLock, ParseE, Unparse, Sound;
    TypedChain(typed, 3276);
    PrintedChain(db.ctx.t, 3276);
    ChainCut(db.ctx, 3276);
    ChainRefuses(db, lev, thing, 3276);
    TrueOpens(db, lev, thing);
  }

  lemma TrueOpens(db: Database, lev: int, thing: int)
    ensures EvalLock(db, lev, thing, True)
  {
  }

  // ---------- a dump and a restart ----------

  // Locks are parsed as #1, written to the file, read back and printed.
  function Reloaded(ctx: Context, key: string, rest: string): Option<string> {
    match LockFile.GetBoolExp(ctx.t, LockFile.PutBoolExp(ctx.t, ParseBoolExp(AsGod(ctx), key)) + rest, true)
    case Read(b, _) => Some(UnparseQuiet(ctx.t, b))
    case _ => None
  }

  // The names of attributes are looked up in the file as the same attributes, as far
  // as the reader takes them for one name.
  ghost predicate Remembered(t: Attributes) {
    && LockFile.Fronts(t)
    && forall n :: t.name(n).Some? ==> Remembers(t, n, t.name(n).value)
  }

  predicate Remembers(t: Attributes, n: int, name: string) {
    '\n' !in name && (StartsWith(name, '*') || !NoSeparator(name) || (n > 0 && t.mkattr(name) == n))
  }

  lemma StoredAttribute(ctx: Context, n: int)
    requires Sound(ctx) && Remembered(ctx.t) && Int(n)
    ensures LockFile.Known(ctx.t, n) <==> NoSeparator(PrintedName(ctx.t, n)) && !LockFile.StarName(ctx.t, n)
  {
    if ctx.t.name(n).Some? {
      assert Remembers(ctx.t, n, ctx.t.name(n).value);
    } else if n > 0 {
      NumberWord(n);
    }
  }

  // Whatever was parsed from a stored lock is fit for the file, but for names that
  // begin with a star or hold the sign that ends a name.
  lemma {:induction false} StoredFits(ctx: Context, b: BoolExp)
    requires ctx.internal && Sound(ctx) && Remembered(ctx.t) && Lockable(b)
    requires Leaves(b, FromText(ctx, '\n')) && Numbered(b)
    ensures LockFile.Fits(b)
    ensures LockFile.Nameable(ctx.t, b) <==> Unseparated(ctx.t, b) && !LockFile.Starred(ctx.t, b)
    ensures Unseparated(ctx.t, b) ==> Leaves(b, LockFile.KnownOrStarred(ctx.t))
  {
    hide Remembered, Sound, LockFile.Known, LockFile.StarName, PrintedName, NoSeparator;
    match b
    case And(l, r) =>
      StoredFits(ctx, l);
      StoredFits(ctx, r);
    case Or(l, r) =>
      StoredFits(ctx, l);
      StoredFits(ctx, r);
    case Not(s) => StoredFits(ctx, s);
    case Is(s) => StoredFits(ctx, s);
    case Carry(s) => StoredFits(ctx, s);
    case Indir(s) => StoredFits(ctx, s);
    case Owner(s) => StoredFits(ctx, s);
    case Const(thing) => GoodNumber(ctx, thing);
    case Atr(n, key) =>
      StoredAttribute(ctx, n);
      assert forall i :: 0 <= i < |key| ==> key[i] in key;
    case Eval(n, key) =>
      StoredAttribute(ctx, n);
      assert forall i :: 0 <= i < |key| ==> key[i] in key;
  }

  lemma GoodNumber(ctx: Context, thing: int)
    requires Sound(ctx) && ctx.good(thing)
    ensures thing >= 0
  {
  }

  // The lock that #1 reads in the text is read from the file again.
  predicate ComesBack(ctx: Context, key: string, rest: string) {
    var b := ParseBoolExp(AsGod(ctx), key);
    LockFile.Reads(LockFile.GetBoolExp(ctx.t, LockFile.PutBoolExp(ctx.t, b) + rest, true), b)
  }

  lemma ReloadedText(ctx: Context, key: string, rest: string)
    requires ctx.internal && Sound(ctx) && Remembered(ctx.t) && '\n' !in key
    requires Numbered(ParseBoolExp(AsGod(ctx), key))
    ensures var b := ParseBoolExp(AsGod(ctx), key);
            && (ComesBack(ctx, key, rest) <==> Unseparated(ctx.t, b) && !LockFile.Starred(ctx.t, b))
            && (ComesBack(ctx, key, rest) ==> Reloaded(ctx, key, rest) == Some(UnparseQuiet(ctx.t, b)))
            && (Unseparated(ctx.t, b) && LockFile.Starred(ctx.t, b) ==> Reloaded(ctx, key, rest) == None)
  {
    hide ParseBoolExp, UnparseQuiet, LockFile.GetBoolExp, LockFile.PutBoolExp, LockFile.KnownOrStarred;
    var b := ParseBoolExp(AsGod(ctx), key);
    StoredParse(AsGod(ctx), key);
    LockFile.LockRoundTrip(ctx.t, b, rest);
    if b != True {
      StoredFits(AsGod(ctx), b);
      if Unseparated(ctx.t, b) {
        LockFile.StarredLockAborts(ctx.t, b, rest);
      }
    }
    hide Unseparated, LockFile.Starred;
  }

  lemma StoredParse(ctx: Context, key: string)
    requires '\n' !in key
    ensures var b := ParseBoolExp(ctx, key); (b == True || Lockable(b)) && Leaves(b, FromText(ctx, '\n'))
  {
    ParserBuilds(ctx, key);
    ParsedFromText(ctx, key, '\n');
  }

  // The player reads the text as #1 does.
  predicate ReadsAlike(ctx: Context, key: string) {
    ParseBoolExp(ctx, key) == ParseBoolExp(AsGod(ctx), key)
  }

  // The lock comes back from the file just when no attribute in it has a name that
  // begins with a star or holds the sign that ends a name. If one begins with a star,
  // and none holds that sign, the server stops while it reads the file. A lock that
  // comes back, and goes into the buffer again, decides afterwards what it decided
  // before, just when the player could read it both times or neither, or it lets him
  // pass anyway. A text that only #1 could read, because it gives the number of an
  // attribute that has a name by now, comes back with the name.
  lemma ReloadMeans(db: Database, lev: int, thing: int, key: string, rest: string)
    requires db.ctx.internal && Sound(db.ctx) && Agree(db.ctx) && Remembered(db.ctx.t)
    requires '\n' !in key && ShortNumbers()(key)
    ensures var b := ParseBoolExp(AsGod(db.ctx), key);
            && (ComesBack(db.ctx, key, rest) <==> Unseparated(db.ctx.t, b) && !LockFile.Starred(db.ctx.t, b))
            && (Unseparated(db.ctx.t, b) ==> (Reloaded(db.ctx, key, rest) == None <==> LockFile.Starred(db.ctx.t, b)))
    ensures var b := ParseBoolExp(AsGod(db.ctx), key);
            var after := Reloaded(db.ctx, key, rest);
            ComesBack(db.ctx, key, rest) && InBuffer(db.ctx.t, b) ==>
              after.Some? &&
              (EvalText(db, lev, thing, after.value) == EvalText(db, lev, thing, key))
              == (ReadsAlike(db.ctx, key) == Understood(db.ctx, b) || EvalLock(db, lev, thing, b))
    ensures var b := ParseBoolExp(AsGod(db.ctx), key);
            var after := Reloaded(db.ctx, key, rest);
            ComesBack(db.ctx, key, rest) && b != True && !InBuffer(db.ctx.t, b) ==>
              after.Some? && ParseBoolExp(db.ctx, after.value) != Normal(b)
  {
    hide ParseBoolExp, UnparseQuiet, Reloaded, Sound, Agree, Remembered, Understood, InBuffer, Unseparated, Readable,
         Unshadowed, ComesBack, LockFile.Starred;
    var b := ParseBoolExp(AsGod(db.ctx), key);
    ParsedPositive(AsGod(db.ctx), key);
    ReloadedText(db.ctx, key, rest);
    EverybodyReadsAlike(db.ctx, key);
    StoredLockMeans(db, AsGod(db.ctx), key, lev, thing);
    if Unseparated(db.ctx.t, b) {
      UnseparatedUnshadowed(db.ctx, b);
    }
    TypedLockIsUnderstood(AsGod(db.ctx), key, db.ctx);
    EmptyOpens(db, lev, thing);
  }

  lemma EmptyOpens(db: Database, lev: int, thing: int)
    ensures EvalText(db, lev, thing, UnparseQuiet(db.ctx.t, True)) && EvalLock(db, lev, thing, True)
  {
  }

  // ---------- what the printer made comes back as it was ----------

  lemma {:induction false} AndThenText(t: Attributes, l: BoolExp, r: BoolExp)
    ensures Unparse(t, AndThen(l, r), Elsewhere) == Unparse(t, And(l, r), Elsewhere)
  {
    if l.And? {
      AndThenText(t, l.sub2, r);
      Joined(Unparse(t, l.sub1, UnderAnd), Unparse(t, l.sub2, UnderAnd), [AND_TOKEN], Unparse(t, r, UnderAnd));
      assert Unparse(t, AndThen(l.sub2, r), UnderAnd) == Unparse(t, AndThen(l.sub2, r), Elsewhere);
    }
  }

  lemma Joined(a: string, b: string, op: string, c: string)
    ensures a + op + (b + op + c) == (a + op + b) + op + c
  {
  }

  lemma {:induction false} OrElseText(t: Attributes, l: BoolExp, r: BoolExp)
    ensures Unparse(t, OrElse(l, r), Elsewhere) == Unparse(t, Or(l, r), Elsewhere)
  {
    if l.Or? {
      OrElseText(t, l.sub2, r);
      Joined(Unparse(t, l.sub1, Elsewhere), Unparse(t, l.sub2, Elsewhere), [OR_TOKEN], Unparse(t, r, Elsewhere));
    }
  }

  lemma {:induction false} AndThenLeaves(l: BoolExp, r: BoolExp, q: BoolExp -> bool)
    ensures Leaves(AndThen(l, r), q) <==> Leaves(l, q) && Leaves(r, q)
  {
    if l.And? {
      AndThenLeaves(l.sub2, r, q);
    }
  }

  lemma {:induction false} OrElseLeaves(l: BoolExp, r: BoolExp, q: BoolExp -> bool)
    ensures Leaves(OrElse(l, r), q) <==> Leaves(l, q) && Leaves(r, q)
  {
    if l.Or? {
      OrElseLeaves(l.sub2, r, q);
    }
  }

  lemma {:induction false} LeavesNormal(b: BoolExp, q: BoolExp -> bool)
    ensures Leaves(Normal(b), q) <==> Leaves(b, q)
  {
    match b
    case And(l, r) =>
      LeavesNormal(l, q);
      LeavesNormal(r, q);
      AndThenLeaves(Normal(l), Normal(r), q);
    case Or(l, r) =>
      LeavesNormal(l, q);
      LeavesNormal(r, q);
      OrElseLeaves(Normal(l), Normal(r), q);
    case Not(s) => LeavesNormal(s, q);
    case _ =>
  }

  // Grouping chains to the right does not change the text.
  lemma {:induction false} NormalText(t: Attributes, b: BoolExp, outer: Outer)
    ensures Unparse(t, Normal(b), outer) == Unparse(t, b, outer)
  {
    match b
    case And(l, r) =>
      NormalText(t, l, UnderAnd);
      NormalText(t, r, UnderAnd);
      AndThenText(t, Normal(l), Normal(r));
      assert AndThen(Normal(l), Normal(r)).And?;
    case Or(l, r) =>
      NormalText(t, l, Elsewhere);
      NormalText(t, r, Elsewhere);
      OrElseText(t, Normal(l), Normal(r));
      assert OrElse(Normal(l), Normal(r)).Or?;
    case Not(s) => NormalText(t, s, UnderNot);
    case _ =>
  }

  // A text that the printer made with the names and numbers of today comes back from
  // the file unchanged, if #1 understands it and no name in it begins with a star. If
  // #1 does not understand it, nobody did, and it comes back empty. So, if it comes
  // back, it decides for every player what it decided.
  lemma PrintedReloads(db: Database, typed: Context, text: string, lev: int, thing: int, rest: string)
    requires db.ctx.internal && Sound(db.ctx) && Agree(db.ctx) && Remembered(db.ctx.t)
    requires ParseBoolExp(typed, text) != True && ShortNumbers()(text)
    requires Unseparated(db.ctx.t, ParseBoolExp(typed, text))
    requires '\n' !in UnparseQuiet(db.ctx.t, ParseBoolExp(typed, text))
    requires InBuffer(db.ctx.t, ParseBoolExp(typed, text))
    ensures var b := ParseBoolExp(typed, text);
            var key := UnparseQuiet(db.ctx.t, b);
            Reloaded(db.ctx, key, rest) ==
              if !Understood(AsGod(db.ctx), b) then Some("")
              else if LockFile.Starred(db.ctx.t, b) then None
              else Some(key)
    ensures var key := UnparseQuiet(db.ctx.t, ParseBoolExp(typed, text));
            var after := Reloaded(db.ctx, key, rest);
            after.Some? ==> EvalText(db, lev, thing, after.value) == EvalText(db, lev, thing, key)
  {
    var b := ParseBoolExp(typed, text);
    ParsedPositive(typed, text);
    hide ParseBoolExp, UnparseQuiet, Reloaded, Sound, Agree, Remembered, Understood, InBuffer, ShortNumbers, Readable,
         Unshadowed, PlainName, LockFile.Unstarred;
    var key := UnparseQuiet(db.ctx.t, b);
    GodIsSound(db.ctx);
    UnseparatedUnshadowed(db.ctx, b);
    TypedLockIsUnderstood(typed, text, AsGod(db.ctx));
    TypedLockIsUnderstood(typed, text, db.ctx);
    LeavesNormal(b, Positive());
    LeavesNormal(b, PlainName(db.ctx.t));
    LeavesNormal(b, LockFile.Unstarred(db.ctx.t));
    ReloadedText(db.ctx, key, rest);
    SameText(db.ctx.t, b);
    EverybodyReadsAlike(db.ctx, key);
    EmptyOpens(db, lev, thing);
    EmptyText(db.ctx.t);
  }

  lemma EmptyText(t: Attributes)
    ensures UnparseQuiet(t, True) == ""
  {
  }

  lemma SameText(t: Attributes, b: BoolExp)
    ensures UnparseQuiet(t, Normal(b)) == UnparseQuiet(t, b)
  {
    NormalText(t, b, Elsewhere);
  }

  lemma GodIsSound(ctx: Context)
    requires Sound(ctx) && Agree(ctx)
    ensures Sound(AsGod(ctx)) && Agree(AsGod(ctx))
  {
  }

  // The number of an attribute that has a name by now: before the restart the text
  // lets everybody but #1 pass, afterwards it refuses who does not have it.
  lemma NumberComesBackNamed(db: Database, lev: int, thing: int, rest: string)
    requires db.ctx.internal && Sound(db.ctx) && Agree(db.ctx) && Remembered(db.ctx.t)
    requires !db.ctx.god && db.ctx.t.name(300) == Some("Foo") && !db.leaf(Atr(300, "foo"), thing)
    ensures EvalText(db, lev, thing, "300:foo")
    ensures Reloaded(db.ctx, "300:foo", rest).Some?
    ensures !EvalText(db, lev, thing, Reloaded(db.ctx, "300:foo", rest).value)
  {
    hide ParseBoolExp, UnparseQuiet, Reloaded, Sound, Agree, Remembered, InBuffer, ShortNumbers, Found, EvalText;
    LooksUp300(db.ctx);
    NumberedText(db.ctx);
    NumberedText(AsGod(db.ctx));
    FoundByName(db.ctx, 300);
    ReloadMeans(db, lev, thing, "300:foo", rest);
    EmptyOpens(db, lev, thing);
    ReadAsTrue(db, lev, thing, "300:foo");
  }

  lemma LooksUp300(ctx: Context)
    requires Agree(ctx) && ctx.t.name(300) == Some("Foo")
    ensures ctx.atrStr("300") == None && InBuffer(ctx.t, Atr(300, "foo"))
    ensures ShortNumbers()("300:foo") && '\n' !in "300:foo"
    ensures Unseparated(ctx.t, Atr(300, "foo")) && !LockFile.Starred(ctx.t, Atr(300, "foo"))
  {
    assert PrintedName(ctx.t, 300) + ":" + "foo" == "Foo:foo";
    forall i ensures !TenDigits("300:foo", i) {
      assert |"300:foo"| < 10;
    }
  }

  lemma ReadAsTrue(db: Database, lev: int, thing: int, key: string)
    requires ParseBoolExp(db.ctx, key) == True
    ensures EvalText(db, lev, thing, key)
  {
  }

  // The password attribute of the server, on which anybody may lock: the text that is
  // stored is what was typed and is understood, and the file it is dumped to cannot be
  // read.
  lemma PasswordStops(ctx: Context, typed: Context, rest: string)
    requires typed.atrStr("*Password") == Some(5) && ctx.t.name(5) == Some("*Password")
    ensures var b := ParseBoolExp(typed, "*Password:foo");
            b == Atr(5, "foo") && UnparseQuiet(ctx.t, b) == "*Password:foo"
    ensures typed.atrStr == ctx.atrStr ==> Reloaded(ctx, "*Password:foo", rest) == None
  {
    hide ParseBoolExp, LockFile.Get1;
    StarText(typed);
    assert PrintedName(ctx.t, 5) + ":" + "foo" == "*Password:foo";
    if typed.atrStr == ctx.atrStr {
      StarText(AsGod(ctx));
      LockFile.StarAborts(ctx.t, LockFile.PutBoolExp(ctx.t, Atr(5, "foo")) + rest);
    }
  }

  lemma StarText(ctx: Context)
    requires ctx.atrStr("*Password") == Some(5)
    ensures ParseBoolExp(ctx, "*Password:foo") == Atr(5, "foo")
  {
    hide ParseL, ParseF, ParseT, ParseE, ReadDigits, AtoInt, Separator;
    WordParts("*Password", ':', "foo");
    assert "*Password" + [':'] + "foo" == "*Password:foo";
    WholeWord(ctx, "*Password:foo");
  }
}
