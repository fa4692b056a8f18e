// A server in small: what is asked of the tables of names holds of tables with each
// kind of name that the server has or allows.
module LockTables {
  import opened BoolExps
  import LockFile
  import opened LockEval
  import opened LockReparse
  import opened LockText
  import opened LockUnderstood
  import opened Options
  import opened Text

  // Predefined names may begin with a star; those that players choose may hold
  // operators and the sign that ends a name, even both.
  function NameOf(n: int): (r: Option<string>)
    ensures r.Some? ==> WellNamed(r.value) && '\n' !in r.value && 0 < n < 261
  {
    if n == 5 then Some("*Password")
    else if n == 7 then Some("Sex")
    else if n == 256 then Some("A")
    else if n == 257 then Some("A/B")
    else if n == 258 then Some("A)B")
    else if n == 259 then Some("A)B/C")
    else if n == 260 then Some("A/B&C")
    else None
  }

  function Lookup(s: string): (r: Option<Number>)
    ensures r.Some? ==> NameOf(r.value) == Some(s)
  {
    if s == "*Password" then Some(5)
    else if s == "Sex" then Some(7)
    else if s == "A" then Some(256)
    else if s == "A/B" then Some(257)
    else if s == "A)B" then Some(258)
    else if s == "A)B/C" then Some(259)
    else if s == "A/B&C" then Some(260)
    else None
  }

  function Tables(): Attributes {
    Attributes(n => NameOf(n), s => match Lookup(s) case Some(n) => n case None => 261)
  }

  function Server(god: bool, internal: bool, good: int -> bool, find: string -> Int32): Context {
    Context(Tables(), s => Lookup(s), god, internal, good, find)
  }

  lemma NamesLead(n: int)
    requires NameOf(n).Some?
    ensures Lookup(NameOf(n).value) == Some(n)
  {
  }

  lemma TablesFront(n: int)
    requires NameOf(n).Some?
    ensures LockFile.Fronted(Tables(), n, NameOf(n).value)
  {
    NamesLead(n);
  }

  // All that the results on locks ask of the tables, for every player and whatever
  // objects there are.
  lemma TablesMeet(god: bool, internal: bool, good: int -> bool, find: string -> Int32)
    requires forall o :: good(o) ==> o >= 0
    ensures var ctx := Server(god, internal, good, find);
            Sound(ctx) && Agree(ctx) && Remembered(ctx.t)
  {
    var ctx := Server(god, internal, good, find);
    forall n | ctx.t.name(n).Some?
      ensures LockFile.Fronted(ctx.t, n, ctx.t.name(n).value) && Remembers(ctx.t, n, ctx.t.name(n).value)
      ensures ctx.atrStr(ctx.t.name(n).value) == Some(n)
    {
      TablesFront(n);
      NamesLead(n);
    }
  }

  // ---------- how locks are written ----------

  // One lock with every kind of part, with attribute 7, "Sex".
  const RIGHT := And(Is(Const(4)), Or(Atr(7, "f"), Eval(7, "g")))
  const LEFT := Not(Or(Carry(Const(2)), Owner(Const(3))))
  const EXAMPLE := Or(Indir(Const(1)), And(LEFT, RIGHT))

  lemma Digits()
    ensures Integer(1) == "1" && Integer(2) == "2" && Integer(3) == "3" && Integer(4) == "4"
  {
  }

  lemma PrintedObjects(t: Attributes)
    ensures Unparse(t, Indir(Const(1)), Elsewhere) == "@(#1)" && Unparse(t, Carry(Const(2)), Elsewhere) == "+(#2)"
    ensures Unparse(t, Owner(Const(3)), Elsewhere) == "$(#3)" && Unparse(t, Is(Const(4)), UnderAnd) == "=(#4)"
  {
    Digits();
    hide Integer;
  }

  lemma PrintedLeft(t: Attributes)
    ensures Unparse(t, LEFT, UnderAnd) == "!(+(#2)|$(#3))"
  {
    PrintedObjects(t);
    var both := Or(Carry(Const(2)), Owner(Const(3)));
    var text := Unparse(t, both, UnderNot);
    assert text == "(" + (Unparse(t, both.sub1, Elsewhere) + "|" + Unparse(t, both.sub2, Elsewhere)) + ")";
    hide Unparse;
    assert text == "(+(#2)|$(#3))";
  }

  lemma PrintedRight(t: Attributes)
    requires t.name(7) == Some("Sex")
    ensures Unparse(t, RIGHT, UnderAnd) == "=(#4)&(Sex:f|Sex/g)"
  {
    PrintedObjects(t);
    var atrs := RIGHT.sub2;
    assert Unparse(t, atrs.sub1, Elsewhere) == "Sex:f";
    assert Unparse(t, atrs.sub2, Elsewhere) == "Sex/g";
    assert Unparse(t, atrs, UnderAnd) == "(" + ("Sex:f" + "|" + "Sex/g") + ")";
    var text := Unparse(t, RIGHT, UnderAnd);
    assert text == Unparse(t, RIGHT.sub1, UnderAnd) + "&" + Unparse(t, atrs, UnderAnd);
    hide Unparse;
  }

  lemma PrintedInfix(t: Attributes)
    ensures Unparse(t, EXAMPLE, Elsewhere)
         == Unparse(t, Indir(Const(1)), Elsewhere) + "|"
            + (Unparse(t, LEFT, UnderAnd) + "&" + Unparse(t, RIGHT, UnderAnd))
  {
  }

  // In an attribute.
  lemma PrintedExample(t: Attributes)
    requires t.name(7) == Some("Sex")
    ensures Unparse(t, EXAMPLE, Elsewhere) == "@(#1)" + "|" + ("!(+(#2)|$(#3))" + "&" + "=(#4)&(Sex:f|Sex/g)")
  {
    hide Unparse;
    PrintedObjects(t);
    PrintedLeft(t);
    PrintedRight(t);
    PrintedInfix(t);
  }

  lemma WrittenObjects(t: Attributes)
    ensures LockFile.PutSub(t, Indir(Const(1))) == "(@1)" && LockFile.PutSub(t, Carry(Const(2))) == "(+2)"
    ensures LockFile.PutSub(t, Owner(Const(3))) == "($3)" && LockFile.PutSub(t, Is(Const(4))) == "(=4)"
  {
    Digits();
    hide Integer;
  }

  lemma WrittenLeft(t: Attributes)
    ensures LockFile.PutSub(t, LEFT) == "(!((+2)|($3)))"
  {
    WrittenObjects(t);
    var both := LEFT.sub1;
    assert LockFile.PutSub(t, both) == "(" + "(+2)" + "|" + "($3)" + ")";
    assert LockFile.PutSub(t, LEFT) == "(" + "!" + LockFile.PutSub(t, both) + ")";
    hide LockFile.PutSub;
  }

  lemma WrittenRight(t: Attributes)
    requires t.name(7) == Some("Sex")
    ensures LockFile.PutSub(t, RIGHT) == "((=4)&(Sex:f|Sex/g\n))"
  {
    WrittenObjects(t);
    var atrs := RIGHT.sub2;
    assert LockFile.PutSub(t, atrs.sub1) == "Sex:f";
    assert LockFile.PutSub(t, atrs.sub2) == "Sex/g\n";
    assert LockFile.PutSub(t, atrs) == "(" + "Sex:f" + "|" + "Sex/g\n" + ")";
    assert LockFile.PutSub(t, RIGHT) == "(" + "(=4)" + "&" + LockFile.PutSub(t, atrs) + ")";
    hide LockFile.PutSub;
  }

  lemma WrittenInfix(t: Attributes)
    ensures LockFile.PutBoolExp(t, EXAMPLE)
         == "(" + LockFile.PutSub(t, Indir(Const(1))) + "|"
            + ("(" + LockFile.PutSub(t, LEFT) + "&" + LockFile.PutSub(t, RIGHT) + ")") + ")" + "\n"
  {
    var more := LockFile.PutSub(t, And(LEFT, RIGHT));
    assert more == "(" + LockFile.PutSub(t, LEFT) + "&" + LockFile.PutSub(t, RIGHT) + ")";
    assert LockFile.PutSub(t, EXAMPLE) == "(" + LockFile.PutSub(t, Indir(Const(1))) + "|" + more + ")";
  }

  // In the database file.
  lemma FileExample(t: Attributes)
    requires t.name(7) == Some("Sex")
    ensures LockFile.PutBoolExp(t, EXAMPLE)
         == "(" + "(@1)" + "|" + ("(" + "(!((+2)|($3)))" + "&" + "((=4)&(Sex:f|Sex/g\n))" + ")") + ")" + "\n"
  {
    hide LockFile.PutSub, LockFile.PutBoolExp;
    WrittenObjects(t);
    WrittenLeft(t);
    WrittenRight(t);
    WrittenInfix(t);
  }
}
