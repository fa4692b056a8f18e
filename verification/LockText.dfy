// Locks as text: the recursive-descent parser for what players type and what
// the attributes store, and the printer whose output it must understand.
module LockText {
  import opened BoolExps
  import opened Options
  import opened StringIO
  import opened Text

  const NOTHING := -1
  const AMBIGUOUS := -2
  const HOME := -3

  type Number = n: int | 0 <= n < 0x8000_0000

  type Int32 = n: int | Int(n)

  // What the parser asks the rest of the server: attributes by name, whether
  // the player is #1, whether the text is a stored lock, which objects exist,
  // and what a typed name matches.
  datatype Context = Context(
    t: Attributes,
    atrStr: string -> Option<Number>,
    god: bool,
    internal: bool,
    good: int -> bool,
    find: string -> Int32)

  // ---------- the parser ----------

  function TrimEnd(s: string): (r: string)
    ensures |r| <= |s| && r == s[..|r|]
  {
    if s != "" && IsSpace(s[|s| - 1]) then TrimEnd(s[..|s| - 1]) else s
  }

  // The text of an object or attribute: up to an operator or the end.
  function Word(s: string): (r: (string, string))
    ensures r.0 + r.1 == s && CleanKey(r.0) && (r.1 != "" ==> EndsKey(r.1[0]))
  {
    if s == "" || EndsKey(s[0]) then ("", s)
    else var (word, rest) := Word(s[1..]); ([s[0]] + word, rest)
  }

  // The place of the first separator of an attribute lock, or the length.
  function Separator(s: string): (k: nat)
    ensures k <= |s|
    ensures forall i :: 0 <= i < k ==> s[i] != ':' && s[i] != '/'
    ensures k < |s| ==> s[k] == ':' || s[k] == '/'
  {
    if s == "" || s[0] == ':' || s[0] == '/' then 0 else 1 + Separator(s[1..])
  }

  function TestAtr(ctx: Context, s: string): Option<BoolExp> {
    var k := Separator(s);
    if k == |s| then None
    else
      var name, key := s[..k], s[k + 1..];
      var anum := match ctx.atrStr(name)
        case Some(n) => Some(n)
        case None => if ctx.god && ReadDigits(name, 0).1 == "" then Some(AtoInt(name)) else None;
      match anum
      case None => None
      case Some(n) => Some(if s[k] == '/' then Eval(n, key) else Atr(n, key))
  }

  function ObjectLock(ctx: Context, buf: string): BoolExp {
    match TestAtr(ctx, buf)
    case Some(b) => b
    case None =>
      if ctx.internal then
        if StartsWith(buf, '#') && ctx.good(AtoInt(buf[1..])) then Const(AtoInt(buf[1..])) else True
      else
        var thing := ctx.find(buf);
        if thing == NOTHING || thing == AMBIGUOUS then True else Const(thing)
  }

  // The lock and what is left of the text. `True` means that the text was not
  // understood; then nothing depends on what is left.
  datatype Parse = Parse(lock: BoolExp, rest: string)

  // L -> (E); L -> object identifier
  function ParseL(ctx: Context, text: string): (p: Parse)
    ensures |p.rest| <= |text|
    decreases |text|, 0
  {
    var s := SkipSpace(text);
    if StartsWith(s, '(') then
      var p := ParseE(ctx, s[1..]);
      var rest := SkipSpace(p.rest);
      if p.lock == True then Parse(True, rest)
      else if StartsWith(rest, ')') then Parse(p.lock, rest[1..])
      else Parse(True, if rest == "" then "" else rest[1..])
    else
      var (word, rest) := Word(s);
      Parse(ObjectLock(ctx, TrimEnd(word)), rest)
  }

  // F -> !F; F -> @L; F -> =L; F -> +L; F -> $L
  function ParseF(ctx: Context, text: string): (p: Parse)
    ensures |p.rest| <= |text|
    decreases |text|, 1
  {
    var s := SkipSpace(text);
    if StartsWith(s, NOT_TOKEN) then
      var p := ParseF(ctx, s[1..]);
      Parse(if p.lock == True then True else Not(p.lock), p.rest)
    else if StartsWith(s, INDIR_TOKEN) then
      var p := ParseL(ctx, s[1..]);
      Parse(if p.lock.Const? then Indir(p.lock) else True, p.rest)
    else if StartsWith(s, IS_TOKEN) then
      var p := ParseL(ctx, s[1..]);
      Parse(if p.lock.Const? || p.lock.Atr? then Is(p.lock) else True, p.rest)
    else if StartsWith(s, CARRY_TOKEN) then
      var p := ParseL(ctx, s[1..]);
      Parse(if p.lock.Const? || p.lock.Atr? then Carry(p.lock) else True, p.rest)
    else if StartsWith(s, OWNER_TOKEN) then
      var p := ParseL(ctx, s[1..]);
      Parse(if p.lock.Const? then Owner(p.lock) else True, p.rest)
    else ParseL(ctx, s)
  }

  // T -> F; T -> F & T
  function ParseT(ctx: Context, text: string): (p: Parse)
    ensures |p.rest| <= |text|
    decreases |text|, 2
  {
    var p := ParseF(ctx, text);
    if p.lock == True then p
    else
      var rest := SkipSpace(p.rest);
      if StartsWith(rest, AND_TOKEN) then
        var q := ParseT(ctx, rest[1..]);
        Parse(if q.lock == True then True else And(p.lock, q.lock), q.rest)
      else Parse(p.lock, rest)
  }

  // E -> T; E -> T | E
  function ParseE(ctx: Context, text: string): (p: Parse)
    ensures |p.rest| <= |text|
    decreases |text|, 3
  {
    var p := ParseT(ctx, text);
    if p.lock == True then p
    else
      var rest := SkipSpace(p.rest);
      if StartsWith(rest, OR_TOKEN) then
        var q := ParseE(ctx, rest[1..]);
        Parse(if q.lock == True then True else Or(p.lock, q.lock), q.rest)
      else Parse(p.lock, rest)
  }

  function ParseBoolExp(ctx: Context, buf: string): BoolExp {
    if buf == "" then True else ParseE(ctx, buf).lock
  }

  // ---------- what the parser builds ----------

  lemma {:induction false} TrimEnds(s: string)
    ensures Trimmed(TrimEnd(s))
  {
    if s != "" && IsSpace(s[|s| - 1]) {
      TrimEnds(s[..|s| - 1]);
    }
  }

  lemma ObjectBuilds(ctx: Context, buf: string)
    requires CleanKey(buf) && Trimmed(buf)
    ensures ObjectLock(ctx, buf) == True || Lockable(ObjectLock(ctx, buf))
  {
  }

  lemma {:induction false} LBuilds(ctx: Context, text: string)
    ensures var b := ParseL(ctx, text).lock; b == True || Lockable(b)
    decreases |text|, 0
  {
    hide ObjectLock;
    var s := SkipSpace(text);
    if StartsWith(s, '(') {
      EBuilds(ctx, s[1..]);
    } else {
      TrimEnds(Word(s).0);
      ObjectBuilds(ctx, TrimEnd(Word(s).0));
    }
  }

  lemma {:induction false} FBuilds(ctx: Context, text: string)
    ensures var b := ParseF(ctx, text).lock; b == True || Lockable(b)
    decreases |text|, 1
  {
    var s := SkipSpace(text);
    if StartsWith(s, NOT_TOKEN) {
      FBuilds(ctx, s[1..]);
    } else if s != "" && s[0] in {INDIR_TOKEN, IS_TOKEN, CARRY_TOKEN, OWNER_TOKEN} {
      LBuilds(ctx, s[1..]);
    } else {
      LBuilds(ctx, s);
    }
  }

  lemma {:induction false} TBuilds(ctx: Context, text: string)
    ensures var b := ParseT(ctx, text).lock; b == True || Lockable(b)
    decreases |text|, 2
  {
    var p := ParseF(ctx, text);
    FBuilds(ctx, text);
    var rest := SkipSpace(p.rest);
    if p.lock != True && StartsWith(rest, AND_TOKEN) {
      TBuilds(ctx, rest[1..]);
    }
  }

  lemma {:induction false} EBuilds(ctx: Context, text: string)
    ensures var b := ParseE(ctx, text).lock; b == True || Lockable(b)
    decreases |text|, 3
  {
    var p := ParseT(ctx, text);
    TBuilds(ctx, text);
    var rest := SkipSpace(p.rest);
    if p.lock != True && StartsWith(rest, OR_TOKEN) {
      EBuilds(ctx, rest[1..]);
    }
  }

  // Whatever the text, the parser answers the null lock or a lock that is well
  // formed all the way down.
  lemma ParserBuilds(ctx: Context, buf: string)
    ensures ParseBoolExp(ctx, buf) == True || Lockable(ParseBoolExp(ctx, buf))
  {
    EBuilds(ctx, buf);
  }

  // What holds of a text and of every piece of it.
  ghost predicate Hereditary(ok: string -> bool) {
    forall s, i, j {:trigger ok(s[i..j])} :: 0 <= i <= j <= |s| && ok(s) ==> ok(s[i..j])
  }

  // What words of such texts are read as.
  ghost predicate Words(ctx: Context, ok: string -> bool, q: BoolExp -> bool) {
    Hereditary(ok) && forall w :: ok(w) ==> Leaves(ObjectLock(ctx, w), q)
  }

  lemma {:induction false} SkipSpacePiece(s: string)
    ensures SkipSpace(s) == s[|s| - |SkipSpace(s)|..|s|]
  {
    if s != "" && IsSpace(s[0]) {
      SkipSpacePiece(s[1..]);
    }
  }

  lemma PieceOk(ok: string -> bool, s: string, i: nat, j: nat)
    requires Hereditary(ok) && ok(s) && i <= j <= |s|
    ensures ok(s[i..j])
  {
  }

  lemma SkipSpaceOk(ok: string -> bool, s: string)
    requires Hereditary(ok) && ok(s)
    ensures ok(SkipSpace(s)) && (SkipSpace(s) != "" ==> ok(SkipSpace(s)[1..]))
  {
    SkipSpacePiece(s);
    var k := |s| - |SkipSpace(s)|;
    PieceOk(ok, s, k, |s|);
    if SkipSpace(s) != "" {
      PieceOk(ok, s, k + 1, |s|);
      assert SkipSpace(s)[1..] == s[k + 1..|s|];
    }
  }

  lemma WordOk(ctx: Context, s: string, ok: string -> bool, q: BoolExp -> bool)
    requires Words(ctx, ok, q) && ok(s)
    ensures ok(Word(s).1) && Leaves(ObjectLock(ctx, TrimEnd(Word(s).0)), q)
  {
    hide ObjectLock;
    var (word, rest) := Word(s);
    PieceOk(ok, s, |word|, |s|);
    assert rest == s[|word|..|s|];
    PieceOk(ok, s, 0, |TrimEnd(word)|);
    assert TrimEnd(word) == s[0..|TrimEnd(word)|];
  }

  lemma {:induction false} LLeaves(ctx: Context, text: string, ok: string -> bool, q: BoolExp -> bool)
    requires Words(ctx, ok, q) && ok(text)
    ensures var p := ParseL(ctx, text); (p.lock == True || ok(p.rest)) && Leaves(p.lock, q)
    decreases |text|, 0
  {
    hide ObjectLock, Word, TrimEnd, SkipSpace, Words;
    WordsHereditary(ctx, ok, q);
    var s := SkipSpace(text);
    SkipSpaceOk(ok, text);
    if StartsWith(s, '(') {
      ELeaves(ctx, s[1..], ok, q);
      var p := ParseE(ctx, s[1..]);
      if p.lock != True {
        SkipSpaceOk(ok, p.rest);
      }
    } else {
      WordOk(ctx, s, ok, q);
    }
  }

  lemma WordsHereditary(ctx: Context, ok: string -> bool, q: BoolExp -> bool)
    requires Words(ctx, ok, q)
    ensures Hereditary(ok)
  {
  }

  lemma {:induction false} FLeaves(ctx: Context, text: string, ok: string -> bool, q: BoolExp -> bool)
    requires Words(ctx, ok, q) && ok(text)
    ensures var p := ParseF(ctx, text); (p.lock == True || ok(p.rest)) && Leaves(p.lock, q)
    decreases |text|, 1
  {
    hide ParseL, SkipSpace, Words;
    WordsHereditary(ctx, ok, q);
    var s := SkipSpace(text);
    SkipSpaceOk(ok, text);
    if StartsWith(s, NOT_TOKEN) {
      FLeaves(ctx, s[1..], ok, q);
    } else if s != "" && s[0] in {INDIR_TOKEN, IS_TOKEN, CARRY_TOKEN, OWNER_TOKEN} {
      LLeaves(ctx, s[1..], ok, q);
    } else {
      LLeaves(ctx, s, ok, q);
    }
  }

  lemma {:induction false} TLeaves(ctx: Context, text: string, ok: string -> bool, q: BoolExp -> bool)
    requires Words(ctx, ok, q) && ok(text)
    ensures var p := ParseT(ctx, text); (p.lock == True || ok(p.rest)) && Leaves(p.lock, q)
    decreases |text|, 2
  {
    hide ParseF, SkipSpace, Words;
    WordsHereditary(ctx, ok, q);
    var p := ParseF(ctx, text);
    FLeaves(ctx, text, ok, q);
    if p.lock != True {
      SkipSpaceOk(ok, p.rest);
      var rest := SkipSpace(p.rest);
      if StartsWith(rest, AND_TOKEN) {
        TLeaves(ctx, rest[1..], ok, q);
      }
    }
  }

  // Whatever the words of a text are read as, the whole of it is made of that.
  lemma {:induction false} ELeaves(ctx: Context, text: string, ok: string -> bool, q: BoolExp -> bool)
    requires Words(ctx, ok, q) && ok(text)
    ensures var p := ParseE(ctx, text); (p.lock == True || ok(p.rest)) && Leaves(p.lock, q)
    decreases |text|, 3
  {
    hide ParseT, SkipSpace, Words;
    WordsHereditary(ctx, ok, q);
    var p := ParseT(ctx, text);
    TLeaves(ctx, text, ok, q);
    if p.lock != True {
      SkipSpaceOk(ok, p.rest);
      var rest := SkipSpace(p.rest);
      if StartsWith(rest, OR_TOKEN) {
        ELeaves(ctx, rest[1..], ok, q);
      }
    }
  }

  // Attribute texts without the character, and objects that exist if the text was
  // stored.
  function FromText(ctx: Context, c: char): BoolExp -> bool {
    (b: BoolExp) =>
      match b
      case Const(thing) => ctx.internal ==> ctx.good(thing)
      case Atr(_, key) => c !in key
      case Eval(_, key) => c !in key
      case _ => true
  }

  function Without(c: char): string -> bool {
    (s: string) => c !in s
  }

  // The attribute texts of a parsed lock hold only characters of its text, and
  // every object in a stored lock exists.
  lemma ParsedFromText(ctx: Context, text: string, c: char)
    requires c !in text
    ensures Leaves(ParseBoolExp(ctx, text), FromText(ctx, c))
    ensures var p := ParseE(ctx, text); p.lock == True || c !in p.rest
  {
    var ok, q := Without(c), FromText(ctx, c);
    forall s: string, i: int, j: int | 0 <= i <= j <= |s| && ok(s) ensures ok(s[i..j]) {
    }
    forall w | ok(w) ensures Leaves(ObjectLock(ctx, w), q) {
      hide Separator, ReadDigits, AtoInt;
    }
    ELeaves(ctx, text, ok, q);
  }

  // No attribute number is negative.
  function Positive(): BoolExp -> bool {
    (b: BoolExp) => b.Atr? || b.Eval? ==> b.thing >= 0
  }

  // No ten digits in a row.
  ghost function ShortNumbers(): string -> bool {
    (s: string) => forall i :: !TenDigits(s, i)
  }

  predicate TenDigits(s: string, i: int) {
    0 <= i <= |s| - 10 && forall k :: i <= k < i + 10 ==> IsDigit(s[k])
  }

  lemma {:induction false} DigitsRead(s: string, acc: nat, k: nat)
    requires ReadDigits(s, acc).1 == "" && acc < Power(k)
    ensures ReadDigits(s, acc).0 < Power(k + |s|)
    ensures forall i :: 0 <= i < |s| ==> IsDigit(s[i])
  {
    if s != "" {
      DigitsRead(s[1..], acc * 10 + DigitValue(s[0]), k + 1);
    }
  }

  lemma DigitsAtoi(s: string)
    requires ReadDigits(s, 0).1 == ""
    ensures Atoi(s) == ReadDigits(s, 0).0
  {
  }

  lemma ShortDigits(s: string)
    requires ReadDigits(s, 0).1 == "" && |s| < 10
    ensures AtoInt(s) >= 0
  {
    hide ReadDigits, Atoi;
    DigitsAtoi(s);
    DigitsRead(s, 0, 0);
    PowerGrows(|s|, 9);
    Billion();
    hide Power;
    assert 0 <= Atoi(s) < 1_000_000_000;
  }

  lemma Billion()
    ensures Power(0) == 1 && Power(9) == 1_000_000_000
  {
    assert Power(3) == 1000;
    assert Power(6) == 1_000_000;
  }

  lemma {:induction false} PowerGrows(j: nat, k: nat)
    requires j <= k
    ensures Power(j) <= Power(k)
  {
    if j < k {
      PowerGrows(j, k - 1);
    }
  }

  // A number that is typed for an attribute wraps only when it has ten digits.
  lemma ParsedPositive(ctx: Context, text: string)
    requires ShortNumbers()(text)
    ensures Leaves(ParseBoolExp(ctx, text), Positive())
  {
    var ok, q := ShortNumbers(), Positive();
    forall s: string, i: int, j: int | 0 <= i <= j <= |s| && ok(s) ensures ok(s[i..j]) {
      forall k ensures !TenDigits(s[i..j], k) {
        if TenDigits(s[i..j], k) {
          assert forall m :: i + k <= m < i + k + 10 ==> s[m] == s[i..j][m - i];
          assert TenDigits(s, i + k);
        }
      }
    }
    forall w | ok(w) ensures Leaves(ObjectLock(ctx, w), q) {
      WordPositive(ctx, w);
    }
    ELeaves(ctx, text, ok, q);
  }

  lemma WordPositive(ctx: Context, w: string)
    requires ShortNumbers()(w)
    ensures Leaves(ObjectLock(ctx, w), Positive())
  {
    var name := w[..Separator(w)];
    if ReadDigits(name, 0).1 == "" {
      DigitsRead(name, 0, 0);
      assert forall k :: 0 <= k < |name| ==> w[k] == name[k];
      assert |name| >= 10 ==> TenDigits(w, 0);
      ShortDigits(name);
    }
    hide Separator, ReadDigits, AtoInt;
  }

  // ---------- the printer ----------

  datatype Outer = UnderNot | UnderAnd | Elsewhere

  function UnparseConst(thing: int): string {
    if thing == NOTHING then "-1"
    else if thing == HOME then "-3"
    else "(#" + Integer(thing) + ")"
  }

  // An attribute number that is neither named nor positive has no name to print.
  function PrintedName(t: Attributes, n: int): string {
    match t.name(n)
    case Some(name) => name
    case None => if n > 0 then Integer(n) else ""
  }

  function UnparseAtr(t: Attributes, b: BoolExp): string
    requires b.Atr? || b.Eval?
  {
    PrintedName(t, b.thing) + (if b.Atr? then ":" else "/") + b.key
  }

  function Enclose(s: string, parentheses: bool): string {
    if parentheses then "(" + s + ")" else s
  }

  // unparse_boolexp1 in its quiet format
  function Unparse(t: Attributes, b: BoolExp, outer: Outer): string {
    match b
    case True => ""
    case And(l, r) =>
      Enclose(Unparse(t, l, UnderAnd) + [AND_TOKEN] + Unparse(t, r, UnderAnd), outer == UnderNot)
    case Or(l, r) =>
      Enclose(Unparse(t, l, Elsewhere) + [OR_TOKEN] + Unparse(t, r, Elsewhere), outer != Elsewhere)
    case Not(s) => [NOT_TOKEN] + Unparse(t, s, UnderNot)
    case Indir(s) => [INDIR_TOKEN] + Unparse(t, s, Elsewhere)
    case Is(s) => [IS_TOKEN] + Unparse(t, s, Elsewhere)
    case Carry(s) => [CARRY_TOKEN] + Unparse(t, s, Elsewhere)
    case Owner(s) => [OWNER_TOKEN] + Unparse(t, s, Elsewhere)
    case Const(thing) => UnparseConst(thing)
    case Atr(_, _) => UnparseAtr(t, b)
    case Eval(_, _) => UnparseAtr(t, b)
  }

  // The printer drops what does not go into its buffer.
  function UnparseQuiet(t: Attributes, b: BoolExp): string {
    Clip(Unparse(t, b, Elsewhere), LBUF_SIZE - 1)
  }
}
