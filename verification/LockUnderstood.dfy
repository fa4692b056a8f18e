// When a stored lock is understood: by whom, and as what.
module LockUnderstood {
  import opened BoolExps
  import opened LockCut
  import opened LockReparse
  import opened LockText
  import opened Options
  import opened Text

  // ---------- when it is read as it was stored ----------

  // The name that is printed for the attribute holds no operator and is looked up
  // as this attribute, or #1 is asking and its number was printed.
  ghost predicate Found(ctx: Context, n: int) {
    var name := PrintedName(ctx.t, n);
    && NoSeparator(name) && NoOperator(name)
    && match ctx.atrStr(name)
       case Some(m) => m == n
       case None => ctx.god && ctx.t.name(n).None? && n >= 0
  }

  ghost predicate Understood(ctx: Context, b: BoolExp) {
    match b
    case True => true
    case And(l, r) => Understood(ctx, l) && Understood(ctx, r)
    case Or(l, r) => Understood(ctx, l) && Understood(ctx, r)
    case Const(thing) => ctx.good(thing)
    case Atr(n, _) => Found(ctx, n)
    case Eval(n, _) => Found(ctx, n)
    case Not(s) => Understood(ctx, s)
    case Indir(s) => Understood(ctx, s)
    case Owner(s) => Understood(ctx, s)
    case Is(s) => Understood(ctx, s)
    case Carry(s) => Understood(ctx, s)
  }

  lemma PrintedDigits(t: Attributes, n: int)
    requires t.name(n).None? && Int(n)
    ensures ReadDigits(PrintedName(t, n), 0).1 == ""
    ensures AtoInt(PrintedName(t, n)) == if n >= 0 then n else 0
  {
    if n > 0 {
      DecimalAtoi(n);
      IntegerAtoInt(n);
    }
  }

  lemma PrintedWord(t: Attributes, n: int)
    requires t.name(n).Some? && WellNamed(t.name(n).value)
    ensures ReadDigits(PrintedName(t, n), 0).1 != ""
  {
  }

  lemma AtrReread(ctx: Context, b: BoolExp)
    requires ctx.internal && Sound(ctx) && (b.Atr? || b.Eval?) && Lockable(b)
    ensures Reread(ctx, b) == b <==> Found(ctx, b.thing)
  {
    hide Separator, ReadDigits, AtoInt, CleanKey, NoOperator, Trimmed, TrimEnd, PrintedName, NoSeparator;
    var name := PrintedName(ctx.t, b.thing);
    WordParts(name, if b.Atr? then ':' else '/', b.key);
    if NoOperator(name) {
      AtrWord(ctx, b);
    }
    if ctx.t.name(b.thing).None? {
      PrintedDigits(ctx.t, b.thing);
    } else {
      PrintedWord(ctx.t, b.thing);
    }
  }

  lemma {:induction false} RereadSame(ctx: Context, b: BoolExp)
    requires ctx.internal && Sound(ctx) && Lockable(b)
    ensures Reread(ctx, b) == b <==> Understood(ctx, b)
  {
    hide Sound, Found, ObjectLock, UnparseAtr;
    match b
    case And(l, r) =>
      RereadSame(ctx, l);
      RereadSame(ctx, r);
    case Or(l, r) =>
      RereadSame(ctx, l);
      RereadSame(ctx, r);
    case Const(_) =>
    case Atr(_, _) => AtrReread(ctx, b);
    case Eval(_, _) => AtrReread(ctx, b);
    case Not(s) => RereadSame(ctx, s);
    case Indir(s) => RereadSame(ctx, s);
    case Owner(s) => RereadSame(ctx, s);
    case Is(s) => RereadSame(ctx, s);
    case Carry(s) => RereadSame(ctx, s);
  }

  // A stored lock is understood again as the lock it was, up to the grouping of
  // chains, just when its text goes into the buffer, every object in it exists and
  // every attribute is found. This says nothing of names that hold the sign that ends
  // a name and an operator behind it, nor, if the text was cut, of those whose part
  // before that sign is looked up as the same attribute.
  lemma PrintedLockIsUnderstood(ctx: Context, b: BoolExp)
    requires ctx.internal && Sound(ctx) && Lockable(b)
    ensures InBuffer(ctx.t, b) && Readable(ctx.t, b) ==>
              (ParseBoolExp(ctx, UnparseQuiet(ctx.t, b)) == Normal(b) <==> Understood(ctx, b))
    ensures !InBuffer(ctx.t, b) && Unshadowed(ctx, b) ==> ParseBoolExp(ctx, UnparseQuiet(ctx.t, b)) != Normal(b)
  {
    hide ParseBoolExp, UnparseQuiet, Sound, Understood, InBuffer, Readable, Unshadowed;
    if InBuffer(ctx.t, b) && Readable(ctx.t, b) {
      StoredLockIsReread(ctx, b);
      RereadSame(ctx, b);
      RereadAlike(ctx, b);
      TrueIsNormal(b);
      if Reread(ctx, b) != True {
        NormalTellsApart(Reread(ctx, b), b);
      }
    } else if !InBuffer(ctx.t, b) && Unshadowed(ctx, b) {
      CutLockIsAnother(ctx, b);
    }
  }

  // ---------- over tables that agree ----------

  // A name that is looked up begins with a letter or a star. One without the sign
  // that ends a name leads back to its attribute, and only to attributes whose name
  // is without it, too.
  ghost predicate Agree(ctx: Context) {
    && (forall n :: ctx.t.name(n).Some? && NoSeparator(ctx.t.name(n).value) ==>
          ctx.atrStr(ctx.t.name(n).value) == Some(n))
    && (forall s :: ctx.atrStr(s).Some? ==> WellNamed(s))
    && (forall s :: ctx.atrStr(s).Some? && NoSeparator(s) ==> NoSeparator(PrintedName(ctx.t, ctx.atrStr(s).value)))
  }

  // Then an attribute is found just when it has a name without an operator and
  // without the sign that ends a name, or has no name and #1 is asking.
  lemma FoundByName(ctx: Context, n: int)
    requires Agree(ctx) && 0 <= n && Int(n)
    ensures Found(ctx, n) <==>
      match ctx.t.name(n) case Some(name) => NoOperator(name) && NoSeparator(name) case None => ctx.god
  {
    if ctx.t.name(n).None? && n > 0 {
      NumberWord(n);
    }
  }

  // No number of an attribute in the lock is negative; those of ten digits may be
  // that #1 types.
  ghost predicate Numbered(b: BoolExp) {
    Leaves(b, Positive())
  }

  lemma NameUnambiguous(ctx: Context, n: int)
    requires Agree(ctx) && Legible(PrintedName(ctx.t, n))
    ensures Unambiguous(ctx, n)
  {
    hide PrintedName, Legible;
    var name := PrintedName(ctx.t, n);
    assert NoSeparator(name[..Separator(name)]);
  }

  lemma AgreeUnshadowed(ctx: Context, b: BoolExp)
    requires Agree(ctx) && Readable(ctx.t, b)
    ensures Unshadowed(ctx, b)
  {
    hide Agree;
    forall x | LegibleName(ctx.t)(x) ensures UnshadowedName(ctx)(x) {
      if x.Atr? || x.Eval? {
        NameUnambiguous(ctx, x.thing);
      }
    }
    LeavesWeaker(b, LegibleName(ctx.t), UnshadowedName(ctx));
  }

  // Nobody but #1 can lock on an attribute whose name holds that sign: a word is cut
  // there before it is looked up.
  lemma TypedUnseparated(typed: Context, text: string, ctx: Context)
    requires Agree(ctx) && typed.atrStr == ctx.atrStr && !typed.god
    ensures Unseparated(ctx.t, ParseBoolExp(typed, text))
  {
    hide ParseE, Separator;
    forall w: string ensures Leaves(ObjectLock(typed, w), PlainName(ctx.t)) {
      assert NoSeparator(w[..Separator(w)]);
    }
    ELeaves(typed, text, AnyText(), PlainName(ctx.t));
  }

  function AnyText(): string -> bool {
    (s: string) => true
  }

  lemma AtrLost(ctx: Context, b: BoolExp)
    requires ctx.internal && Sound(ctx) && Agree(ctx) && (b.Atr? || b.Eval?) && Lockable(b) && !Found(ctx, b.thing)
    requires NoSeparator(PrintedName(ctx.t, b.thing)) && (ctx.god ==> b.thing >= 0)
    ensures Reread(ctx, b) == True
  {
    hide Separator, ReadDigits, AtoInt, CleanKey, Trimmed, TrimEnd, NoOperator, NoSeparator;
    var name := PrintedName(ctx.t, b.thing);
    if NoOperator(name) {
      WordParts(name, if b.Atr? then ':' else '/', b.key);
      AtrWord(ctx, b);
      NameLost(ctx, b.thing);
    }
    hide PrintedName;
  }

  lemma NameLost(ctx: Context, n: int)
    requires Agree(ctx) && Int(n) && !Found(ctx, n) && NoOperator(PrintedName(ctx.t, n)) && (ctx.god ==> n >= 0)
    requires NoSeparator(PrintedName(ctx.t, n))
    ensures !ctx.god && ctx.atrStr(PrintedName(ctx.t, n)).None?
  {
    if ctx.t.name(n).None? && n > 0 {
      NumberWord(n);
    }
  }

  // If one part is not understood, the stored lock is read as the true lock: it
  // opens to everybody.
  lemma {:induction false} LostOpens(ctx: Context, b: BoolExp)
    requires ctx.internal && Sound(ctx) && Agree(ctx) && Lockable(b) && !Understood(ctx, b)
    requires Unseparated(ctx.t, b) && (ctx.god ==> Numbered(b))
    ensures Reread(ctx, b) == True
  {
    hide Sound, Agree, Found, ObjectLock, UnparseAtr, PrintedName, NoSeparator;
    match b
    case And(l, r) => if !Understood(ctx, l) { LostOpens(ctx, l); } else { LostOpens(ctx, r); }
    case Or(l, r) => if !Understood(ctx, l) { LostOpens(ctx, l); } else { LostOpens(ctx, r); }
    case Const(_) =>
    case Atr(_, _) => AtrLost(ctx, b);
    case Eval(_, _) => AtrLost(ctx, b);
    case Not(s) => LostOpens(ctx, s);
    case Indir(s) => LostOpens(ctx, s);
    case Owner(s) => LostOpens(ctx, s);
    case Is(s) => LostOpens(ctx, s);
    case Carry(s) => LostOpens(ctx, s);
  }

  // Whatever is typed and by whom: the text that @lock stores for it is read as the
  // lock that was typed just when it goes into the buffer and is understood. If it
  // goes in and is not understood, it is the true lock, as long as no printed name
  // holds the sign that ends a name.
  lemma TypedLockIsUnderstood(typed: Context, text: string, ctx: Context)
    requires ctx.internal && Sound(ctx) && Agree(ctx)
    ensures var b := ParseBoolExp(typed, text);
            b != True && Readable(ctx.t, b) ==>
              (ParseBoolExp(ctx, UnparseQuiet(ctx.t, b)) == Normal(b) <==> Understood(ctx, b) && InBuffer(ctx.t, b))
    ensures var b := ParseBoolExp(typed, text);
            b != True && InBuffer(ctx.t, b) && !Understood(ctx, b) && Unseparated(ctx.t, b)
              && (ctx.god ==> Numbered(b)) ==>
              ParseBoolExp(ctx, UnparseQuiet(ctx.t, b)) == True
  {
    var b := ParseBoolExp(typed, text);
    ParserBuilds(typed, text);
    hide ParseBoolExp, UnparseQuiet, Sound, Agree, Understood, InBuffer, Readable, Unshadowed, Unseparated;
    if b != True && Readable(ctx.t, b) {
      PrintedLockIsUnderstood(ctx, b);
      AgreeUnshadowed(ctx, b);
    }
    if b != True && InBuffer(ctx.t, b) && !Understood(ctx, b) && Unseparated(ctx.t, b) && (ctx.god ==> Numbered(b)) {
      UnseparatedUnshadowed(ctx, b);
      StoredLockIsReread(ctx, b);
      LostOpens(ctx, b);
    }
  }

  // ---------- the same text for different players ----------

  // The context of #1, as whom every lock is parsed when the database is dumped.
  function AsGod(ctx: Context): Context {
    ctx.(god := true)
  }

  // p is what a player makes of a text of which #1 makes q.
  predicate OrLess(p: Parse, q: Parse) {
    p.lock == True || p == q
  }

  lemma ObjectOrLess(ctx: Context, buf: string)
    requires ctx.internal
    ensures ObjectLock(ctx, buf) == True || ObjectLock(ctx, buf) == ObjectLock(AsGod(ctx), buf)
  {
    var name := buf[..Separator(buf)];
    if TestAtr(ctx, buf) != TestAtr(AsGod(ctx), buf) {
      assert ReadDigits(name, 0).1 == "";
      assert !StartsWith(buf, '#');
    }
  }

  lemma {:induction false} LOrLess(ctx: Context, text: string)
    requires ctx.internal
    ensures OrLess(ParseL(ctx, text), ParseL(AsGod(ctx), text))
    decreases |text|, 0
  {
    hide ObjectLock, SkipSpace, Word, TrimEnd;
    var s := SkipSpace(text);
    if StartsWith(s, '(') {
      EOrLess(ctx, s[1..]);
    } else {
      ObjectOrLess(ctx, TrimEnd(Word(s).0));
    }
  }

  lemma {:induction false} FOrLess(ctx: Context, text: string)
    requires ctx.internal
    ensures OrLess(ParseF(ctx, text), ParseF(AsGod(ctx), text))
    decreases |text|, 1
  {
    hide ParseL, SkipSpace;
    var s := SkipSpace(text);
    if StartsWith(s, NOT_TOKEN) {
      FOrLess(ctx, s[1..]);
    } else if s != "" && s[0] in {INDIR_TOKEN, IS_TOKEN, CARRY_TOKEN, OWNER_TOKEN} {
      LOrLess(ctx, s[1..]);
    } else {
      LOrLess(ctx, s);
    }
  }

  lemma {:induction false} TOrLess(ctx: Context, text: string)
    requires ctx.internal
    ensures OrLess(ParseT(ctx, text), ParseT(AsGod(ctx), text))
    decreases |text|, 2
  {
    hide ParseF, SkipSpace;
    var p := ParseF(ctx, text);
    FOrLess(ctx, text);
    var rest := SkipSpace(p.rest);
    if p.lock != True && StartsWith(rest, AND_TOKEN) {
      TOrLess(ctx, rest[1..]);
    }
  }

  lemma {:induction false} EOrLess(ctx: Context, text: string)
    requires ctx.internal
    ensures OrLess(ParseE(ctx, text), ParseE(AsGod(ctx), text))
    decreases |text|, 3
  {
    hide ParseT, SkipSpace;
    var p := ParseT(ctx, text);
    TOrLess(ctx, text);
    var rest := SkipSpace(p.rest);
    if p.lock != True && StartsWith(rest, OR_TOKEN) {
      EOrLess(ctx, rest[1..]);
    }
  }

  // Nobody reads a stored lock as anything but what #1 reads, or as the true lock.
  lemma EverybodyReadsAlike(ctx: Context, text: string)
    requires ctx.internal
    ensures ParseBoolExp(ctx, text) == True || ParseBoolExp(ctx, text) == ParseBoolExp(AsGod(ctx), text)
  {
    EOrLess(ctx, text);
  }
}
