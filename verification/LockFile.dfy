// Locks in the database file: putboolexp writes them and getboolexp reads them.
module LockFile {
  import opened BoolExps
  import opened Options
  import opened StringIO
  import opened Text

  // ---------- writing ----------

  function AtrText(t: Attributes, b: BoolExp): string
    requires b.Atr? || b.Eval?
  {
    var sep := if b.Atr? then ":" else "/";
    match t.name(b.thing)
    case Some(name) => name + sep + b.key + (if b.Atr? then "" else "\n")
    case None => Integer(b.thing) + sep + b.key + "\n"
  }

  function PutSub(t: Attributes, b: BoolExp): string {
    match b
    case True => ""
    case Is(s) => "(" + [IS_TOKEN] + PutSub(t, s) + ")"
    case Carry(s) => "(" + [CARRY_TOKEN] + PutSub(t, s) + ")"
    case Indir(s) => "(" + [INDIR_TOKEN] + PutSub(t, s) + ")"
    case Owner(s) => "(" + [OWNER_TOKEN] + PutSub(t, s) + ")"
    case And(l, r) => "(" + PutSub(t, l) + [AND_TOKEN] + PutSub(t, r) + ")"
    case Or(l, r) => "(" + PutSub(t, l) + [OR_TOKEN] + PutSub(t, r) + ")"
    case Not(s) => "(" + [NOT_TOKEN] + PutSub(t, s) + ")"
    case Const(thing) => Integer(thing)
    case Atr(_, _) => AtrText(t, b)
    case Eval(_, _) => AtrText(t, b)
  }

  function PutBoolExp(t: Attributes, b: BoolExp): string {
    PutSub(t, b) + "\n"
  }

  // ---------- reading ----------

  // The lock that was read and what is left of the file. The reader aborts on a
  // malformed lock. `Untyped` is a quoted attribute name without a separator,
  // for which it builds a node whose type is never set.
  datatype Read = Read(lock: BoolExp, rest: string) | Abort | Untyped(rest: string)

  // The text up to the first character that `stop` names, which must be there.
  function Until(s: string, stop: char -> bool): (r: Option<(string, string)>)
    ensures r.Some? ==> s == r.value.0 + r.value.1 && r.value.1 != "" && stop(r.value.1[0])
  {
    if s == "" then None
    else if stop(s[0]) then Some(("", s))
    else match Until(s[1..], stop)
      case None => None
      case Some((text, rest)) => Some(([s[0]] + text, rest))
  }

  function Unary(token: char, s: BoolExp): BoolExp
    requires token in {NOT_TOKEN, INDIR_TOKEN, IS_TOKEN, CARRY_TOKEN, OWNER_TOKEN}
  {
    if token == NOT_TOKEN then Not(s)
    else if token == INDIR_TOKEN then Indir(s)
    else if token == IS_TOKEN then Is(s)
    else if token == CARRY_TOKEN then Carry(s)
    else Owner(s)
  }

  // What comes after the operand of a prefix operator, and after the second
  // operand of an infix one.
  function Close(b: BoolExp, rest: string): (out: Read)
    ensures out.Read? ==> |out.rest| <= |rest|
  {
    var r := SkipNewline(rest);
    if StartsWith(r, ')') then Read(b, r[1..]) else Abort
  }

  predicate EndsName(c: char) {
    c == '\n' || c == ':' || c == '/'
  }

  predicate EndsText(c: char) {
    c == '\n' || EndsKey(c)
  }

  // After the name or number of an attribute: its separator, if any, and text.
  function GetText(thing: int, s: string): (out: Read)
    ensures out.Read? ==> |out.rest| <= |s|
  {
    if StartsWith(s, ':') || StartsWith(s, '/') then
      match Until(s[1..], EndsText)
      case None => Abort
      case Some((key, rest)) => Read(if s[0] == '/' then Eval(thing, key) else Atr(thing, key), rest)
    else Read(Const(thing), s)
  }

  function GetQuotedAtr(t: Attributes, s: string): (out: Read)
    ensures out.Read? ==> |out.rest| <= |s|
  {
    var (name, rest) := GetString(s, true);
    if rest == "" then Read(True, "")
    else
      var anum := t.mkattr(name);
      if anum <= 0 then Abort
      else if rest[0] == ':' || rest[0] == '/' then
        var (key, rest') := GetString(rest[1..], true);
        Read(if rest[0] == '/' then Eval(anum, key) else Atr(anum, key), rest')
      else Untyped(rest[1..])
  }

  // getboolexp1
  function Get1(t: Attributes, s: string): (out: Read)
    ensures out.Read? ==> |out.rest| <= |s|
    decreases |s|
  {
    if s == "" then Abort
    else if s[0] == '\n' then Read(True, s)
    else if s[0] == '(' then
      if s[1..] == "" then Abort
      else if s[1] in {NOT_TOKEN, INDIR_TOKEN, IS_TOKEN, CARRY_TOKEN, OWNER_TOKEN} then
        match Get1(t, s[2..])
        case Read(sub, rest) => Close(Unary(s[1], sub), rest)
        case other => other
      else
        match Get1(t, s[1..])
        case Read(sub1, rest1) =>
          var r := SkipNewline(rest1);
          if StartsWith(r, AND_TOKEN) || StartsWith(r, OR_TOKEN) then
            match Get1(t, r[1..])
            case Read(sub2, rest2) =>
              Close(if r[0] == AND_TOKEN then And(sub1, sub2) else Or(sub1, sub2), rest2)
            case other => other
          else Abort
        case other => other
    else if s[0] == '-' then
      match Until(s[1..], c => c == '\n')
      case None => Abort
      case Some((_, rest)) => Read(True, rest)
    else if s[0] == '"' then GetQuotedAtr(t, s)
    else if IsDigit(s[0]) then
      var (n, rest) := ReadDigits(s, 0);
      GetText(n, rest)
    else if IsAlpha(s[0]) then
      match Until(s, EndsName)
      case None => Abort
      case Some((name, rest)) =>
        var anum := t.mkattr(name);
        if anum <= 0 then Abort else GetText(anum, rest)
    else Abort
  }

  // getboolexp: files of most formats may hold one more newline after a lock.
  function GetBoolExp(t: Attributes, s: string, extraNewline: bool): Read {
    match Get1(t, s)
    case Read(b, rest) =>
      if !StartsWith(rest, '\n') then Abort
      else Read(b, if extraNewline then SkipNewline(rest[1..]) else rest[1..])
    case other => other
  }

  // ---------- what is written is read back ----------

  // An attribute whose name, when it has one, is read back as the same number.
  predicate Known(t: Attributes, n: int) {
    match t.name(n)
    case Some(name) =>
      && n > 0 && name != "" && IsAlpha(name[0])
      && (forall i :: 0 <= i < |name| ==> !EndsName(name[i]))
      && t.mkattr(name) == n
    case None => true
  }

  ghost predicate KeyFits(key: string) {
    forall i :: 0 <= i < |key| ==> !EndsText(key[i])
  }

  // No part is the true lock, and every attribute is known.
  ghost predicate Nameable(t: Attributes, b: BoolExp) {
    match b
    case True => false
    case And(l, r) => Nameable(t, l) && Nameable(t, r)
    case Or(l, r) => Nameable(t, l) && Nameable(t, r)
    case Const(_) => true
    case Atr(n, _) => Known(t, n)
    case Eval(n, _) => Known(t, n)
    case Not(s) => Nameable(t, s)
    case Indir(s) => Nameable(t, s)
    case Owner(s) => Nameable(t, s)
    case Is(s) => Nameable(t, s)
    case Carry(s) => Nameable(t, s)
  }

  // No object or attribute has a negative number, and no text of an attribute holds
  // a newline or an operator.
  ghost predicate Fits(b: BoolExp) {
    match b
    case True => true
    case And(l, r) => Fits(l) && Fits(r)
    case Or(l, r) => Fits(l) && Fits(r)
    case Const(thing) => thing >= 0
    case Atr(n, key) => n >= 0 && KeyFits(key)
    case Eval(n, key) => n >= 0 && KeyFits(key)
    case Not(s) => Fits(s)
    case Indir(s) => Fits(s)
    case Owner(s) => Fits(s)
    case Is(s) => Fits(s)
    case Carry(s) => Fits(s)
  }

  ghost predicate Writable(t: Attributes, b: BoolExp) {
    Nameable(t, b) && Fits(b)
  }

  // Some attribute locks are written with a newline that the reader leaves
  // where it is.
  function Trail(t: Attributes, b: BoolExp): string {
    if b.Eval? || (b.Atr? && t.name(b.thing).None?) then "\n" else ""
  }

  predicate Follows(rest: string) {
    rest != "" && EndsText(rest[0])
  }

  lemma {:induction false} UntilFound(text: string, rest: string, stop: char -> bool)
    requires forall i :: 0 <= i < |text| ==> !stop(text[i])
    requires rest != "" && stop(rest[0])
    ensures Until(text + rest, stop) == Some((text, rest))
  {
    if text == "" {
      assert text + rest == rest;
    } else {
      assert (text + rest)[1..] == text[1..] + rest;
      UntilFound(text[1..], rest, stop);
      assert [text[0]] + text[1..] == text;
    }
  }

  lemma GetTextBack(b: BoolExp, rest: string)
    requires (b.Atr? || b.Eval?) && KeyFits(b.key) && Follows(rest)
    ensures GetText(b.thing, (if b.Atr? then ":" else "/") + b.key + rest) == Read(b, rest)
  {
    var s := (if b.Atr? then ":" else "/") + b.key + rest;
    assert s[1..] == b.key + rest;
    UntilFound(b.key, rest, EndsText);
  }

  lemma Reassociate(a: string, b: string, c: string, d: string, e: string)
    ensures a + b + c + d + e == a + (b + (c + (d + e)))
    ensures a + b + c + d == a + (b + (c + d))
  {
  }

  lemma AtrBack(t: Attributes, b: BoolExp, rest: string)
    requires (b.Atr? || b.Eval?) && Known(t, b.thing) && b.thing >= 0 && KeyFits(b.key) && Follows(rest)
    ensures Get1(t, AtrText(t, b) + rest) == Read(b, Trail(t, b) + rest)
  {
    var sep := if b.Atr? then ":" else "/";
    var tail := Trail(t, b) + rest;
    var after := sep + b.key + tail;
    GetTextBack(b, tail);
    var front := match t.name(b.thing) case Some(name) => name case None => Decimal(b.thing);
    Reassociate(front, sep, b.key, Trail(t, b), rest);
    assert after == sep + (b.key + (Trail(t, b) + rest));
    if t.name(b.thing).Some? {
      UntilFound(front, after, EndsName);
    } else {
      ReadDecimal(b.thing, after);
    }
    hide Until, GetText;
    assert Get1(t, front + after) == Read(b, tail);
  }

  lemma CloseBack(b: BoolExp, trail: string, rest: string)
    requires trail == "" || trail == "\n"
    ensures Close(b, trail + (")" + rest)) == Read(b, rest)
  {
    assert (")" + rest)[1..] == rest;
  }

  lemma GetUnary(t: Attributes, s: string, sub: BoolExp, rest: string)
    requires StartsWith(s, '(') && |s| > 1 && s[1] in {NOT_TOKEN, INDIR_TOKEN, IS_TOKEN, CARRY_TOKEN, OWNER_TOKEN}
    requires Get1(t, s[2..]) == Read(sub, rest)
    ensures Get1(t, s) == Close(Unary(s[1], sub), rest)
  {
  }

  lemma UnaryBack(t: Attributes, token: char, p: string, s: BoolExp, trail: string, rest: string)
    requires token in {NOT_TOKEN, INDIR_TOKEN, IS_TOKEN, CARRY_TOKEN, OWNER_TOKEN}
    requires trail == "" || trail == "\n"
    requires Get1(t, p + (")" + rest)) == Read(s, trail + (")" + rest))
    ensures Get1(t, "(" + [token] + p + ")" + rest) == Read(Unary(token, s), rest)
  {
    hide Get1, Close, Unary;
    Reassociate("(", [token], p, ")", rest);
    var all := "(" + ([token] + (p + (")" + rest)));
    assert all[0] == '(' && all[1] == token && all[2..] == p + (")" + rest);
    GetUnary(t, all, s, trail + (")" + rest));
    CloseBack(Unary(token, s), trail, rest);
  }

  lemma GetInfix(t: Attributes, s: string, l: BoolExp, rest: string)
    requires StartsWith(s, '(') && |s| > 1 && (s[1] == '(' || IsDigit(s[1]) || IsAlpha(s[1]))
    requires Get1(t, s[1..]) == Read(l, rest)
    requires StartsWith(SkipNewline(rest), AND_TOKEN) || StartsWith(SkipNewline(rest), OR_TOKEN)
    ensures var after := SkipNewline(rest);
            var out := Get1(t, after[1..]);
            out.Read? ==>
              Get1(t, s) == Close(if after[0] == AND_TOKEN then And(l, out.lock) else Or(l, out.lock), out.rest)
  {
  }

  lemma InfixText(p: string, trail: string, token: char, q: string, rest: string) returns (all: string, left: string)
    requires p != "" && (trail == "" || trail == "\n") && token != '\n'
    ensures all == "(" + p + [token] + q + ")" + rest
    ensures left == trail + ([token] + (q + (")" + rest)))
    ensures |all| > 1 && all[0] == '(' && all[1] == p[0]
    ensures all[1..] == p + ([token] + (q + (")" + rest)))
    ensures StartsWith(SkipNewline(left), token) && SkipNewline(left)[1..] == q + (")" + rest)
  {
    var after := [token] + (q + (")" + rest));
    Reassociate(p, [token], q, ")", rest);
    all, left := "(" + p + [token] + q + ")" + rest, trail + after;
    assert all == "(" + (p + after);
    assert trail != "" ==> left[1..] == after;
    assert "" + after == after;
  }

  // What is written never starts like an operator.
  lemma FirstChar(t: Attributes, b: BoolExp)
    requires Writable(t, b)
    ensures PutSub(t, b) != "" && var c := PutSub(t, b)[0]; c == '(' || IsDigit(c) || IsAlpha(c)
  {
  }

  // Each kind of lock is read back as itself, up to its trailing newline.
  lemma {:induction false} SubBack(t: Attributes, b: BoolExp, rest: string)
    requires Writable(t, b) && Follows(rest)
    ensures Get1(t, PutSub(t, b) + rest) == Read(b, Trail(t, b) + rest)
    decreases b
  {
    hide Get1, AtrText;
    match b
    case Const(thing) => ConstBack(t, thing, rest);
    case Atr(_, _) => AtrBack(t, b, rest);
    case Eval(_, _) => AtrBack(t, b, rest);
    case And(l, r) => InfixBack(t, b, l, AND_TOKEN, r, rest);
    case Or(l, r) => InfixBack(t, b, l, OR_TOKEN, r, rest);
    case Not(s) => PrefixBack(t, b, NOT_TOKEN, s, rest);
    case Indir(s) => PrefixBack(t, b, INDIR_TOKEN, s, rest);
    case Owner(s) => PrefixBack(t, b, OWNER_TOKEN, s, rest);
    case Is(s) => PrefixBack(t, b, IS_TOKEN, s, rest);
    case Carry(s) => PrefixBack(t, b, CARRY_TOKEN, s, rest);
  }

  lemma GetNumber(t: Attributes, s: string)
    requires s != "" && IsDigit(s[0])
    ensures Get1(t, s) == GetText(ReadDigits(s, 0).0, ReadDigits(s, 0).1)
  {
  }

  lemma ConstBack(t: Attributes, thing: nat, rest: string)
    requires Follows(rest)
    ensures Get1(t, Integer(thing) + rest) == Read(Const(thing), "" + rest)
  {
    hide Get1, ReadDigits, Decimal;
    var s := Integer(thing) + rest;
    assert s[0] == Decimal(thing)[0];
    GetNumber(t, s);
    ReadDecimal(thing, rest);
    assert "" + rest == rest;
  }

  lemma {:induction false} PrefixBack(t: Attributes, b: BoolExp, token: char, s: BoolExp, rest: string)
    requires Writable(t, s) && Follows(rest) && s < b
    requires token in {NOT_TOKEN, INDIR_TOKEN, IS_TOKEN, CARRY_TOKEN, OWNER_TOKEN}
    ensures Get1(t, "(" + [token] + PutSub(t, s) + ")" + rest) == Read(Unary(token, s), "" + rest)
    decreases b, 0
  {
    hide Get1, PutSub;
    SubBack(t, s, ")" + rest);
    UnaryBack(t, token, PutSub(t, s), s, Trail(t, s), rest);
    assert "" + rest == rest;
  }

  lemma {:induction false} InfixBack(t: Attributes, b: BoolExp, l: BoolExp, token: char, r: BoolExp, rest: string)
    requires Writable(t, l) && Writable(t, r) && Follows(rest) && l < b && r < b
    requires token == AND_TOKEN || token == OR_TOKEN
    ensures Get1(t, "(" + PutSub(t, l) + [token] + PutSub(t, r) + ")" + rest)
         == Read(if token == AND_TOKEN then And(l, r) else Or(l, r), "" + rest)
    decreases b, 0
  {
    hide Get1, PutSub, Close, SkipNewline;
    SubBack(t, l, [token] + (PutSub(t, r) + (")" + rest)));
    SubBack(t, r, ")" + rest);
    FirstChar(t, l);
    var all, left := InfixText(PutSub(t, l), Trail(t, l), token, PutSub(t, r), rest);
    GetInfix(t, all, l, left);
    CloseBack(if token == AND_TOKEN then And(l, r) else Or(l, r), Trail(t, r), rest);
    assert "" + rest == rest;
  }

  // ---------- what does not fit is not read back ----------

  // However far the writer got, the reader has not read b.
  predicate Reads(out: Read, b: BoolExp) {
    out.Read? && out.lock == b
  }

  lemma {:induction false} UntilStops(text: string, rest: string, stop: char -> bool)
    requires exists i :: 0 <= i < |text| && stop(text[i])
    ensures var out := Until(text + rest, stop); out.Some? && |out.value.0| < |text|
  {
    assert (text + rest)[0] == text[0];
    if !stop(text[0]) {
      assert (text + rest)[1..] == text[1..] + rest;
      var i :| 0 <= i < |text| && stop(text[i]);
      assert text[1..][i - 1] == text[i];
      UntilStops(text[1..], rest, stop);
    }
  }

  lemma GetTextLost(b: BoolExp, rest: string)
    requires (b.Atr? || b.Eval?) && !KeyFits(b.key)
    ensures !Reads(GetText(b.thing, (if b.Atr? then ":" else "/") + b.key + rest), b)
  {
    var s := (if b.Atr? then ":" else "/") + b.key + rest;
    assert s[1..] == b.key + rest;
    UntilStops(b.key, rest, EndsText);
  }

  // Names begin with a letter or a star, and none begins with another name of the
  // same attribute and a character at which the reader ends a name.
  ghost predicate Fronts(t: Attributes) {
    forall n :: t.name(n).Some? ==> Fronted(t, n, t.name(n).value)
  }

  predicate Fronted(t: Attributes, n: int, name: string) {
    && name != "" && (IsAlpha(name[0]) || name[0] == '*')
    && (NameEnd(name) < |name| ==> t.mkattr(name[..NameEnd(name)]) != n)
  }

  function NameEnd(name: string): (k: nat)
    ensures k <= |name| && (k < |name| ==> EndsName(name[k]))
    ensures forall i :: 0 <= i < k ==> !EndsName(name[i])
  {
    if name == "" || EndsName(name[0]) then 0 else 1 + NameEnd(name[1..])
  }

  // A text that begins with the name of another attribute, or with none, is not read
  // as b.
  lemma OtherName(t: Attributes, name: string, after: string, b: BoolExp)
    requires (b.Atr? || b.Eval?) && name != "" && IsAlpha(name[0]) && after != "" && EndsName(after[0])
    requires forall i :: 0 <= i < |name| ==> !EndsName(name[i])
    requires t.mkattr(name) <= 0 || t.mkattr(name) != b.thing
    ensures !Reads(Get1(t, name + after), b)
  {
    UntilFound(name, after, EndsName);
    hide Until;
    assert (name + after)[0] == name[0];
  }

  lemma StarAborts(t: Attributes, s: string)
    requires StartsWith(s, '*')
    ensures Get1(t, s) == Abort
  {
  }

  // An attribute that is not known is not read back, whatever its text.
  lemma UnknownLost(t: Attributes, b: BoolExp, rest: string)
    requires (b.Atr? || b.Eval?) && Fronts(t) && !Known(t, b.thing)
    ensures !Reads(Get1(t, AtrText(t, b) + rest), b)
  {
    hide Get1;
    var name := t.name(b.thing).value;
    assert Fronted(t, b.thing, name);
    var text, k := AtrText(t, b) + rest, NameEnd(name);
    var after := (if b.Atr? then ":" else "/") + b.key + (if b.Atr? then "" else "\n") + rest;
    assert text == name + after;
    if name[0] == '*' {
      StarAborts(t, text);
    } else if k == |name| {
      OtherName(t, name, after, b);
    } else {
      assert text == name[..k] + (name[k..] + after);
      assert k > 0;
      OtherName(t, name[..k], name[k..] + after, b);
    }
  }

  lemma AtrLost(t: Attributes, b: BoolExp, rest: string)
    requires (b.Atr? || b.Eval?) && Fronts(t) && !Writable(t, b)
    ensures !Reads(Get1(t, AtrText(t, b) + rest), b)
  {
    if !Known(t, b.thing) {
      UnknownLost(t, b, rest);
    } else if b.thing < 0 {
      NegativeLost(t, b, rest);
    } else {
      KnownLost(t, b, rest);
    }
  }

  lemma KnownLost(t: Attributes, b: BoolExp, rest: string)
    requires (b.Atr? || b.Eval?) && Known(t, b.thing) && b.thing >= 0 && !KeyFits(b.key)
    ensures !Reads(Get1(t, AtrText(t, b) + rest), b)
  {
    var sep := if b.Atr? then ":" else "/";
    var tail := Trail(t, b) + rest;
    var after := sep + b.key + tail;
    GetTextLost(b, tail);
    var front := match t.name(b.thing) case Some(name) => name case None => Decimal(b.thing);
    Reassociate(front, sep, b.key, Trail(t, b), rest);
    assert after == sep + (b.key + (Trail(t, b) + rest));
    if t.name(b.thing).Some? {
      UntilFound(front, after, EndsName);
    } else {
      ReadDecimal(b.thing, after);
    }
    hide Until, GetText;
    assert !Reads(Get1(t, front + after), b);
  }

  lemma NegativeLost(t: Attributes, b: BoolExp, rest: string)
    requires (b.Atr? || b.Eval?) && Known(t, b.thing) && b.thing < 0
    ensures !Reads(Get1(t, AtrText(t, b) + rest), b)
  {
    assert (AtrText(t, b) + rest)[0] == '-';
  }

  lemma ConstLost(t: Attributes, thing: int, rest: string)
    requires thing < 0
    ensures !Reads(Get1(t, Integer(thing) + rest), Const(thing))
  {
  }

  lemma GetUnaryLost(t: Attributes, token: char, p: string, s: BoolExp, rest: string)
    requires token in {NOT_TOKEN, INDIR_TOKEN, IS_TOKEN, CARRY_TOKEN, OWNER_TOKEN}
    requires !Reads(Get1(t, p + (")" + rest)), s)
    ensures !Reads(Get1(t, "(" + [token] + p + ")" + rest), Unary(token, s))
  {
    Reassociate("(", [token], p, ")", rest);
    var all := "(" + ([token] + (p + (")" + rest)));
    assert all[0] == '(' && all[1] == token && all[2..] == p + (")" + rest);
  }

  // The first operand is lost, or it is read and the second one is lost.
  lemma InfixLost(t: Attributes, l: BoolExp, p: string, token: char, q: string, r: BoolExp,
                  trail: string, rest: string)
    requires token == AND_TOKEN || token == OR_TOKEN
    requires p != "" && (trail == "" || trail == "\n")
    requires p[0] !in {NOT_TOKEN, INDIR_TOKEN, IS_TOKEN, CARRY_TOKEN, OWNER_TOKEN}
    requires var first := Get1(t, p + ([token] + (q + (")" + rest))));
             || !Reads(first, l)
             || (first == Read(l, trail + ([token] + (q + (")" + rest)))) && !Reads(Get1(t, q + (")" + rest)), r))
    ensures !Reads(Get1(t, "(" + p + [token] + q + ")" + rest), if token == AND_TOKEN then And(l, r) else Or(l, r))
  {
    var all, left := InfixText(p, trail, token, q, rest);
  }

  lemma FirstWritten(t: Attributes, b: BoolExp)
    requires b != True && Fronts(t)
    ensures PutSub(t, b) != ""
    ensures PutSub(t, b)[0] !in {NOT_TOKEN, INDIR_TOKEN, IS_TOKEN, CARRY_TOKEN, OWNER_TOKEN}
  {
    if b.Atr? || b.Eval? {
      assert t.name(b.thing).Some? ==> Fronted(t, b.thing, t.name(b.thing).value);
    }
  }

  // A part that is the true lock is written as nothing; the reader aborts there.
  lemma NothingAborts(t: Attributes, s: string)
    requires s != "" && EndsKey(s[0])
    ensures Get1(t, s) == Abort
  {
  }

  lemma {:induction false} SubLost(t: Attributes, b: BoolExp, rest: string)
    requires Fronts(t) && !Writable(t, b) && (b == True ==> rest != "" && EndsKey(rest[0]))
    ensures !Reads(Get1(t, PutSub(t, b) + rest), b)
    decreases b, 1
  {
    hide Get1, AtrText, Fronts;
    match b
    case True =>
      assert "" + rest == rest;
      NothingAborts(t, rest);
    case Const(thing) => ConstLost(t, thing, rest);
    case Atr(_, _) => AtrLost(t, b, rest);
    case Eval(_, _) => AtrLost(t, b, rest);
    case And(l, r) => OperandLost(t, b, l, AND_TOKEN, r, rest);
    case Or(l, r) => OperandLost(t, b, l, OR_TOKEN, r, rest);
    case Not(s) => SubLost(t, s, ")" + rest); GetUnaryLost(t, NOT_TOKEN, PutSub(t, s), s, rest);
    case Indir(s) => SubLost(t, s, ")" + rest); GetUnaryLost(t, INDIR_TOKEN, PutSub(t, s), s, rest);
    case Owner(s) => SubLost(t, s, ")" + rest); GetUnaryLost(t, OWNER_TOKEN, PutSub(t, s), s, rest);
    case Is(s) => SubLost(t, s, ")" + rest); GetUnaryLost(t, IS_TOKEN, PutSub(t, s), s, rest);
    case Carry(s) => SubLost(t, s, ")" + rest); GetUnaryLost(t, CARRY_TOKEN, PutSub(t, s), s, rest);
  }

  lemma {:induction false} OperandLost(t: Attributes, b: BoolExp, l: BoolExp, token: char, r: BoolExp, rest: string)
    requires Fronts(t) && !(Writable(t, l) && Writable(t, r)) && l < b && r < b
    requires token == AND_TOKEN || token == OR_TOKEN
    ensures !Reads(Get1(t, "(" + PutSub(t, l) + [token] + PutSub(t, r) + ")" + rest),
                   if token == AND_TOKEN then And(l, r) else Or(l, r))
    decreases b, 0
  {
    hide Get1, PutSub, Fronts;
    if l == True {
      TrueFirst(t, token, PutSub(t, r) + ")" + rest);
      NothingWritten(t, token, r, rest);
      return;
    }
    FirstWritten(t, l);
    if Writable(t, l) {
      SubBack(t, l, [token] + (PutSub(t, r) + (")" + rest)));
      SubLost(t, r, ")" + rest);
    } else {
      SubLost(t, l, [token] + (PutSub(t, r) + (")" + rest)));
    }
    InfixLost(t, l, PutSub(t, l), token, PutSub(t, r), r, Trail(t, l), rest);
  }

  lemma NothingWritten(t: Attributes, token: char, r: BoolExp, rest: string)
    ensures "(" + PutSub(t, True) + [token] + PutSub(t, r) + ")" + rest == "(" + ([token] + (PutSub(t, r) + ")" + rest))
  {
    assert PutSub(t, True) == "";
  }

  lemma TrueFirst(t: Attributes, token: char, more: string)
    requires token == AND_TOKEN || token == OR_TOKEN
    ensures Get1(t, "(" + ([token] + more)) == Abort
  {
    var s := "(" + ([token] + more);
    assert s[1..] == [token] + more;
  }

  // A lock is read back from the file as it was written, whatever follows, just when
  // every attribute in it is known, no part is the true lock, no text holds a newline
  // or an operator, and no number is negative; and so is the true lock itself. What
  // follows is untouched exactly when it does not begin with a newline or the lock
  // itself was written with a trailing one.
  lemma LockRoundTrip(t: Attributes, b: BoolExp, rest: string)
    requires Fronts(t)
    ensures Reads(GetBoolExp(t, PutBoolExp(t, b) + rest, true), b) <==> b == True || Writable(t, b)
    ensures b == True || Writable(t, b) ==>
      (GetBoolExp(t, PutBoolExp(t, b) + rest, true).rest == rest <==> !StartsWith(rest, '\n') || Trail(t, b) != "")
  {
    hide Get1, PutSub, Fronts;
    var end := "\n" + rest;
    Regroup(PutSub(t, b), "\n", rest);
    if b == True {
      TrueBack(t, rest);
      assert "" + end == end;
    } else if Writable(t, b) {
      SubBack(t, b, end);
    } else {
      SubLost(t, b, end);
      return;
    }
    LineEnd(t, PutSub(t, b) + end, b, Trail(t, b), rest);
  }

  // With a newline in it the lock comes back cut, and the reader stands in the
  // middle of what was written.
  lemma NewlineCuts(t: Attributes, rest: string)
    requires t.name(7) == Some("Sex") && t.mkattr("Sex") == 7
    ensures GetBoolExp(t, PutBoolExp(t, Atr(7, "a\nb")) + rest, true) == Read(Atr(7, "a"), "b\n" + rest)
  {
    hide Get1;
    var tail := "\nb\n" + rest;
    assert PutBoolExp(t, Atr(7, "a\nb")) + rest == "Sex" + (":" + ("a" + tail));
    CutRead(t, tail);
    assert tail[1..] == "b\n" + rest;
  }

  lemma CutRead(t: Attributes, tail: string)
    requires t.mkattr("Sex") == 7 && StartsWith(tail, '\n')
    ensures Get1(t, "Sex" + (":" + ("a" + tail))) == Read(Atr(7, "a"), tail)
  {
    hide Until;
    var after := ":" + ("a" + tail);
    assert after[1..] == "a" + tail;
    UntilFound("Sex", after, EndsName);
    UntilFound("a", tail, EndsText);
    assert ("Sex" + after)[0] == 'S';
  }

  // What getboolexp makes of the line ends behind a lock.
  lemma LineEnd(t: Attributes, s: string, b: BoolExp, trail: string, rest: string)
    requires Get1(t, s) == Read(b, trail + ("\n" + rest)) && (trail == "" || trail == "\n")
    ensures GetBoolExp(t, s, true) == Read(b, if trail == "" then SkipNewline(rest) else rest)
    ensures SkipNewline(rest) == rest <==> !StartsWith(rest, '\n')
  {
    hide Get1;
    var end := "\n" + rest;
    assert end[1..] == rest;
    if trail == "" {
      assert trail + end == end;
    } else {
      assert (trail + end)[1..] == end;
    }
    assert StartsWith(rest, '\n') ==> |SkipNewline(rest)| < |rest|;
  }

  lemma TrueBack(t: Attributes, rest: string)
    ensures PutSub(t, True) + ("\n" + rest) == "\n" + rest
    ensures Get1(t, "\n" + rest) == Read(True, "\n" + rest)
  {
  }

  // ---------- names that begin with a star ----------

  // The table of the server begins with such names.
  ghost predicate Starred(t: Attributes, b: BoolExp) {
    !Leaves(b, Unstarred(t))
  }

  function Unstarred(t: Attributes): BoolExp -> bool {
    (b: BoolExp) => b.Atr? || b.Eval? ==> !StarName(t, b.thing)
  }

  predicate StarName(t: Attributes, n: int) {
    t.name(n).Some? && StartsWith(t.name(n).value, '*')
  }

  function KnownOrStarred(t: Attributes): BoolExp -> bool {
    (b: BoolExp) => b.Atr? || b.Eval? ==> StarName(t, b.thing) || Known(t, b.thing)
  }

  lemma {:induction false} NameableOrStarred(t: Attributes, b: BoolExp)
    requires Lockable(b) && Leaves(b, KnownOrStarred(t))
    ensures Starred(t, b) <==> !Nameable(t, b)
  {
    match b
    case And(l, r) =>
      NameableOrStarred(t, l);
      NameableOrStarred(t, r);
    case Or(l, r) =>
      NameableOrStarred(t, l);
      NameableOrStarred(t, r);
    case Not(s) => NameableOrStarred(t, s);
    case Indir(s) => NameableOrStarred(t, s);
    case Owner(s) => NameableOrStarred(t, s);
    case Is(s) => NameableOrStarred(t, s);
    case Carry(s) => NameableOrStarred(t, s);
    case Const(_) =>
    case Atr(_, _) =>
    case Eval(_, _) =>
  }

  // The reader gives up at the first of them.
  lemma {:induction false} StarredAborts(t: Attributes, b: BoolExp, rest: string)
    requires Fronts(t) && Lockable(b) && Fits(b) && Leaves(b, KnownOrStarred(t)) && Starred(t, b)
    ensures Get1(t, PutSub(t, b) + rest) == Abort
    decreases b, 1
  {
    hide Get1, AtrText, Fronts, KnownOrStarred;
    match b
    case Const(_) => assert false;
    case Atr(_, _) => AtrAborts(t, b, rest);
    case Eval(_, _) => AtrAborts(t, b, rest);
    case And(l, r) => OperandAborts(t, b, l, AND_TOKEN, r, rest);
    case Or(l, r) => OperandAborts(t, b, l, OR_TOKEN, r, rest);
    case Not(s) => StarredAborts(t, s, ")" + rest); UnaryAborts(t, NOT_TOKEN, PutSub(t, s), rest);
    case Indir(s) => StarredAborts(t, s, ")" + rest); UnaryAborts(t, INDIR_TOKEN, PutSub(t, s), rest);
    case Owner(s) => StarredAborts(t, s, ")" + rest); UnaryAborts(t, OWNER_TOKEN, PutSub(t, s), rest);
    case Is(s) => StarredAborts(t, s, ")" + rest); UnaryAborts(t, IS_TOKEN, PutSub(t, s), rest);
    case Carry(s) => StarredAborts(t, s, ")" + rest); UnaryAborts(t, CARRY_TOKEN, PutSub(t, s), rest);
  }

  lemma AtrAborts(t: Attributes, b: BoolExp, rest: string)
    requires (b.Atr? || b.Eval?) && Starred(t, b)
    ensures Get1(t, AtrText(t, b) + rest) == Abort
  {
    StarAborts(t, AtrText(t, b) + rest);
  }

  lemma UnaryAborts(t: Attributes, token: char, p: string, rest: string)
    requires token in {NOT_TOKEN, INDIR_TOKEN, IS_TOKEN, CARRY_TOKEN, OWNER_TOKEN}
    requires Get1(t, p + (")" + rest)) == Abort
    ensures Get1(t, "(" + [token] + p + ")" + rest) == Abort
  {
    Reassociate("(", [token], p, ")", rest);
    var all := "(" + ([token] + (p + (")" + rest)));
    assert all[0] == '(' && all[1] == token && all[2..] == p + (")" + rest);
  }

  lemma {:induction false} OperandAborts(t: Attributes, b: BoolExp, l: BoolExp, token: char, r: BoolExp, rest: string)
    requires Fronts(t) && Lockable(l) && Lockable(r) && Fits(l) && Fits(r) && l < b && r < b
    requires Leaves(l, KnownOrStarred(t)) && Leaves(r, KnownOrStarred(t)) && (Starred(t, l) || Starred(t, r))
    requires token == AND_TOKEN || token == OR_TOKEN
    ensures Get1(t, "(" + PutSub(t, l) + [token] + PutSub(t, r) + ")" + rest) == Abort
    decreases b, 0
  {
    hide Get1, PutSub, Fronts, Starred, KnownOrStarred;
    FirstWritten(t, l);
    NameableOrStarred(t, l);
    var second := PutSub(t, r) + (")" + rest);
    if Starred(t, l) {
      StarredAborts(t, l, [token] + second);
    } else {
      SubBack(t, l, [token] + second);
      StarredAborts(t, r, ")" + rest);
    }
    InfixAborts(t, l, PutSub(t, l), token, PutSub(t, r), Trail(t, l), rest);
  }

  lemma InfixAborts(t: Attributes, l: BoolExp, p: string, token: char, q: string, trail: string, rest: string)
    requires token == AND_TOKEN || token == OR_TOKEN
    requires p != "" && (trail == "" || trail == "\n")
    requires p[0] !in {NOT_TOKEN, INDIR_TOKEN, IS_TOKEN, CARRY_TOKEN, OWNER_TOKEN}
    requires var first := Get1(t, p + ([token] + (q + (")" + rest))));
             || first == Abort
             || (first == Read(l, trail + ([token] + (q + (")" + rest)))) && Get1(t, q + (")" + rest)) == Abort)
    ensures Get1(t, "(" + p + [token] + q + ")" + rest) == Abort
  {
    var all, left := InfixText(p, trail, token, q, rest);
  }

  // With such a name in it a lock that is fit for the file otherwise is not read back
  // at all, and the server does not come up.
  lemma StarredLockAborts(t: Attributes, b: BoolExp, rest: string)
    requires Fronts(t) && Lockable(b) && Fits(b) && Leaves(b, KnownOrStarred(t))
    ensures GetBoolExp(t, PutBoolExp(t, b) + rest, true) == Abort <==> Starred(t, b)
  {
    hide Get1, PutSub, Starred, Fronts, GetBoolExp, KnownOrStarred;
    NameableOrStarred(t, b);
    LockRoundTrip(t, b, rest);
    if Starred(t, b) {
      StarredAborts(t, b, "\n" + rest);
      Regroup(PutSub(t, b), "\n", rest);
      AbortsWhole(t, PutBoolExp(t, b) + rest);
    }
  }

  lemma AbortsWhole(t: Attributes, s: string)
    requires Get1(t, s) == Abort
    ensures GetBoolExp(t, s, true) == Abort
  {
    hide Get1;
  }

  // ---------- forms that the reader knows and the writer does not use ----------

  // An attribute lock whose name and text are quoted: any C strings that go into the
  // buffer are read, newlines and operators included.
  lemma QuotedBack(t: Attributes, name: string, key: string, sep: char, rest: string)
    requires Plain(name) && Plain(key) && |name| < LBUF_SIZE && |key| < LBUF_SIZE && (sep == ':' || sep == '/')
    ensures var out := Get1(t, PutString(name) + ([sep] + (PutString(key) + rest)));
            var n := t.mkattr(name);
            out == if n <= 0 then Abort else Read(if sep == ':' then Atr(n, key) else Eval(n, key), rest)
  {
    var after := [sep] + (PutString(key) + rest);
    StringRoundTrip(name, after);
    StringRoundTrip(key, rest);
    hide GetString;
    assert after[1..] == PutString(key) + rest;
    assert (PutString(name) + after)[0] == '"';
  }

  // A line that begins with a minus sign is the true lock.
  lemma DashIsTrue(t: Attributes, line: string, rest: string)
    requires '\n' !in line
    ensures Get1(t, "-" + (line + ("\n" + rest))) == Read(True, "\n" + rest)
  {
    var s := "-" + (line + ("\n" + rest));
    assert s[1..] == line + ("\n" + rest);
    UntilFound(line, "\n" + rest, c => c == '\n');
  }
}
