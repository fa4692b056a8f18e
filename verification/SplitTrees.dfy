// Lines whose groups are well nested: they split as their structure says.
module SplitTrees {
  import opened SplitText

  // A character; an escape and the character it takes with it; a group in parentheses
  // or brackets; a group in braces.
  datatype Item =
    | Plain(c: char)
    | Escaped(mark: char, c: char)
    | Group(open: char, inside: seq<Item>)
    | Braces(inside: seq<Item>)

  function Closing(open: char): char {
    if open == '(' then ')' else ']'
  }

  function Spelled(x: Item): (s: string)
    ensures s != ""
    decreases x, 1
  {
    match x
    case Plain(c) => [c]
    case Escaped(mark, c) => [mark, c]
    case Group(open, inside) => [open] + AllSpelled(inside) + [Closing(open)]
    case Braces(inside) => "{" + AllSpelled(inside) + "}"
  }

  function AllSpelled(xs: seq<Item>): string {
    if xs == [] then "" else Spelled(xs[0]) + AllSpelled(xs[1..])
  }

  // An item in braces: parentheses and brackets are characters like others there.
  predicate InBraces(x: Item) {
    match x
    case Plain(c) => c !in {'\\', '%', '{', '}'}
    case Escaped(mark, _) => mark == '\\' || mark == '%'
    case Group(_, _) => false
    case Braces(inside) => forall i :: 0 <= i < |inside| ==> InBraces(inside[i])
  }

  // An item outside braces, in `depth` groups: no stray closing character, no more
  // than 32 groups in each other, and the escape of the terminal nowhere.
  predicate Nested(x: Item, depth: nat) {
    match x
    case Plain(c) => c !in {'\\', '%', '{', '(', ')', '[', ']', ESC_CHAR}
    case Escaped(mark, c) => (mark == '\\' || mark == '%') && c != ESC_CHAR
    case Group(open, inside) =>
      (open == '(' || open == '[') && depth < STACKLIM && forall i :: 0 <= i < |inside| ==> Nested(inside[i], depth + 1)
    case Braces(inside) => forall i :: 0 <= i < |inside| ==> InBraces(inside[i])
  }

  predicate AllBraced(xs: seq<Item>) {
    forall i :: 0 <= i < |xs| ==> InBraces(xs[i])
  }

  predicate AllNested(xs: seq<Item>, depth: nat) {
    forall i :: 0 <= i < |xs| ==> Nested(xs[i], depth)
  }

  // The text stands in s at i.
  predicate At(s: string, i: nat, t: string) {
    i + |t| <= |s| && s[i..i + |t|] == t
  }

  lemma AtParts(s: string, i: nat, a: string, b: string)
    requires At(s, i, a + b)
    ensures At(s, i, a) && At(s, i + |a|, b)
  {
    var t := s[i..i + |a + b|];
    assert t[..|a|] == a && t[|a|..] == b;
    assert t[..|a|] == s[i..i + |a|] && t[|a|..] == s[i + |a|..i + |a| + |b|];
  }

  lemma AtChar(s: string, i: nat, c: char)
    requires At(s, i, [c])
    ensures i < |s| && s[i] == c
  {
    assert s[i..i + 1][0] == c;
  }

  // ---------- braces ----------

  // A group in braces is passed over as a whole.
  lemma {:induction false} BracesPassed(s: string, i: nat, x: Item, lev: nat)
    requires InBraces(x) && At(s, i, Spelled(x)) && lev > 0
    ensures SkipBraces(s, i, lev) == SkipBraces(s, i + |Spelled(x)|, lev)
    decreases x, 1
  {
    match x
    case Plain(c) => AtChar(s, i, c);
    case Escaped(mark, c) =>
      assert [mark, c] == [mark] + [c];
      AtParts(s, i, [mark], [c]);
      AtChar(s, i, mark);
    case Braces(inside) =>
      AtParts(s, i, "{" + AllSpelled(inside), "}");
      AtChar(s, i + 1 + |AllSpelled(inside)|, '}');
      AtParts(s, i, "{", AllSpelled(inside));
      AtChar(s, i, '{');
      AllBracedPassed(s, i + 1, inside, lev + 1);
  }

  lemma {:induction false} AllBracedPassed(s: string, i: nat, xs: seq<Item>, lev: nat)
    requires AllBraced(xs) && At(s, i, AllSpelled(xs)) && lev > 0
    ensures SkipBraces(s, i, lev) == SkipBraces(s, i + |AllSpelled(xs)|, lev)
    decreases xs, 0
  {
    if xs != [] {
      AtParts(s, i, Spelled(xs[0]), AllSpelled(xs[1..]));
      BracesPassed(s, i, xs[0], lev);
      AllBracedPassed(s, i + |Spelled(xs[0])|, xs[1..], lev);
    }
  }

  // ---------- groups ----------

  predicate Ordinary(delim: char) {
    delim !in {'\\', '%', '{', '(', ')', '[', ']'}
  }

  // No escape of the terminal stands before i.
  predicate Clear(s: string, i: nat) {
    i == 0 || (i <= |s| && s[i - 1] != ESC_CHAR)
  }

  lemma {:induction false} TopmostLast(stack: seq<char>, c: char)
    ensures Topmost(stack + [c], c) == |stack| && (stack + [c])[..|stack|] == stack
  {
  }

  lemma GroupOpens(s: string, i: nat, open: char, stack: seq<char>, delim: char)
    requires At(s, i, [open]) && (open == '(' || open == '[') && Ordinary(delim) && Clear(s, i) && |stack| < STACKLIM
    ensures Find(s, i, stack, delim) == Find(s, i + 1, stack + [Closing(open)], delim) && Clear(s, i + 1)
  {
    AtChar(s, i, open);
  }

  lemma GroupCloses(s: string, i: nat, open: char, stack: seq<char>, delim: char)
    requires At(s, i, [Closing(open)])
    ensures Find(s, i, stack + [Closing(open)], delim) == Find(s, i + 1, stack, delim) && Clear(s, i + 1)
  {
    AtChar(s, i, Closing(open));
    TopmostLast(stack, Closing(open));
    hide Topmost;
  }

  lemma PlainPassed(s: string, i: nat, x: Item, stack: seq<char>, delim: char)
    requires (x.Plain? || x.Escaped?) && Nested(x, |stack|) && At(s, i, Spelled(x)) && Ordinary(delim)
    requires x == Plain(delim) ==> stack != []
    ensures Find(s, i, stack, delim) == Find(s, i + |Spelled(x)|, stack, delim) && Clear(s, i + |Spelled(x)|)
  {
    if x.Plain? {
      AtChar(s, i, x.c);
    } else {
      assert [x.mark, x.c] == [x.mark] + [x.c];
      AtParts(s, i, [x.mark], [x.c]);
      AtChar(s, i, x.mark);
      AtChar(s, i + 1, x.c);
    }
  }

  lemma BraceGroupPassed(s: string, i: nat, inside: seq<Item>, stack: seq<char>, delim: char)
    requires AllBraced(inside) && At(s, i, Spelled(Braces(inside)))
    ensures var n := i + |Spelled(Braces(inside))|; Find(s, i, stack, delim) == Find(s, n, stack, delim) && Clear(s, n)
  {
    hide AllSpelled, InBraces;
    var last := i + 1 + |AllSpelled(inside)|;
    AtParts(s, i, "{" + AllSpelled(inside), "}");
    AtChar(s, last, '}');
    AtParts(s, i, "{", AllSpelled(inside));
    AtChar(s, i, '{');
    hide At;
    AllBracedPassed(s, i + 1, inside, 1);
  }

  // An item is passed over as a whole, whatever delimiters it holds, unless it is the
  // delimiter itself outside every group.
  lemma {:induction false} ItemPassed(s: string, i: nat, x: Item, stack: seq<char>, delim: char)
    requires |stack| <= STACKLIM && Nested(x, |stack|) && At(s, i, Spelled(x)) && Clear(s, i) && Ordinary(delim)
    requires x == Plain(delim) ==> stack != []
    ensures Find(s, i, stack, delim) == Find(s, i + |Spelled(x)|, stack, delim) && Clear(s, i + |Spelled(x)|)
    decreases x, 1
  {
    hide Find, AllSpelled;
    match x
    case Plain(_) => PlainPassed(s, i, x, stack, delim);
    case Escaped(_, _) => PlainPassed(s, i, x, stack, delim);
    case Braces(inside) => BraceGroupPassed(s, i, inside, stack, delim);
    case Group(open, inside) =>
      AtParts(s, i, [open] + AllSpelled(inside), [Closing(open)]);
      AtParts(s, i, [open], AllSpelled(inside));
      GroupOpens(s, i, open, stack, delim);
      AllPassed(s, i + 1, inside, stack + [Closing(open)], delim);
      GroupCloses(s, i + 1 + |AllSpelled(inside)|, open, stack, delim);
  }

  lemma {:induction false} AllPassed(s: string, i: nat, xs: seq<Item>, stack: seq<char>, delim: char)
    requires |stack| <= STACKLIM && AllNested(xs, |stack|) && At(s, i, AllSpelled(xs)) && Clear(s, i) && Ordinary(delim)
    requires stack == [] ==> Plain(delim) !in xs
    ensures Find(s, i, stack, delim) == Find(s, i + |AllSpelled(xs)|, stack, delim) && Clear(s, i + |AllSpelled(xs)|)
    decreases xs, 0
  {
    hide Find;
    if xs != [] {
      AtParts(s, i, Spelled(xs[0]), AllSpelled(xs[1..]));
      ItemPassed(s, i, xs[0], stack, delim);
      AllPassed(s, i + |Spelled(xs[0])|, xs[1..], stack, delim);
    }
  }

  // ---------- the pieces ----------

  function FirstDelim(xs: seq<Item>, delim: char): (k: nat)
    ensures k <= |xs| && (k < |xs| ==> xs[k] == Plain(delim)) && Plain(delim) !in xs[..k]
  {
    if xs == [] || xs[0] == Plain(delim) then 0 else 1 + FirstDelim(xs[1..], delim)
  }

  // The items between the delimiters that stand outside every group.
  function Parts(xs: seq<Item>, delim: char): seq<seq<Item>> {
    var k := FirstDelim(xs, delim);
    if k == |xs| then [xs] else [xs[..k]] + Parts(xs[k + 1..], delim)
  }

  function Texts(parts: seq<seq<Item>>): (r: seq<string>)
    ensures |r| == |parts| && forall i :: 0 <= i < |parts| ==> r[i] == AllSpelled(parts[i])
  {
    if parts == [] then [] else [AllSpelled(parts[0])] + Texts(parts[1..])
  }

  lemma TextFirst(xs: seq<Item>)
    requires xs != []
    ensures AllSpelled(xs) == Spelled(xs[0]) + AllSpelled(xs[1..])
  {
  }

  lemma {:induction false} TextConcat(xs: seq<Item>, ys: seq<Item>)
    ensures AllSpelled(xs + ys) == AllSpelled(xs) + AllSpelled(ys)
  {
    hide Spelled;
    if xs == [] {
      assert xs + ys == ys;
    } else {
      TextConcat(xs[1..], ys);
      assert (xs + ys)[1..] == xs[1..] + ys && (xs + ys)[0] == xs[0];
      TextFirst(xs);
      TextFirst(xs + ys);
      hide AllSpelled;
      Joined(Spelled(xs[0]), AllSpelled(xs[1..]), AllSpelled(ys));
    }
  }

  lemma Joined(a: string, b: string, c: string)
    ensures a + b + c == a + (b + c)
  {
  }

  lemma AtFront(s: string, a: string, b: string)
    requires s == a + b
    ensures At(s, 0, a) && s[..|a|] == a && s[|a|..] == b
  {
  }

  // The text up to the first delimiter and the text behind it.
  lemma TextAround(xs: seq<Item>, delim: char)
    requires FirstDelim(xs, delim) < |xs|
    ensures var k := FirstDelim(xs, delim);
            AllSpelled(xs) == AllSpelled(xs[..k]) + ([delim] + AllSpelled(xs[k + 1..]))
  {
    hide AllSpelled, FirstDelim;
    var k := FirstDelim(xs, delim);
    assert xs == xs[..k] + xs[k..];
    TextConcat(xs[..k], xs[k..]);
    assert xs[k..][1..] == xs[k + 1..];
    TextFirst(xs[k..]);
  }

  lemma AfterFront(s: string, front: string, delim: char, rest: string)
    requires s == front + ([delim] + rest)
    ensures s[..|front|] == front && |front| < |s| && s[|front|] == delim && s[|front| + 1..] == rest
  {
  }

  lemma FoundThere(s: string, front: string, delim: char, rest: string)
    requires s == front + ([delim] + rest) && Find(s, 0, [], delim) == Find(s, |front|, [], delim) && Ordinary(delim)
    ensures FirstSplit(s, delim) == |front| && s[..|front|] == front && s[|front| + 1..] == rest && |front| < |s|
  {
    AfterFront(s, front, delim, rest);
    FindsDelim(s, |front|, delim);
    hide Find;
  }

  lemma FindsDelim(s: string, i: nat, delim: char)
    requires i < |s| && s[i] == delim && Ordinary(delim)
    ensures Find(s, i, [], delim) == i
  {
  }

  lemma SplitsThere(xs: seq<Item>, delim: char)
    requires AllNested(xs, 0) && Ordinary(delim)
    ensures var k := FirstDelim(xs, delim);
            var s := AllSpelled(xs);
            && FirstSplit(s, delim) == |AllSpelled(xs[..k])|
            && s[..FirstSplit(s, delim)] == AllSpelled(xs[..k])
            && (k < |xs| ==> FirstSplit(s, delim) < |s| && s[FirstSplit(s, delim) + 1..] == AllSpelled(xs[k + 1..]))
            && (k == |xs| ==> FirstSplit(s, delim) == |s|)
  {
    hide AllSpelled, FirstDelim, Find, Nested;
    var k := FirstDelim(xs, delim);
    var s, front := AllSpelled(xs), AllSpelled(xs[..k]);
    if k < |xs| {
      TextAround(xs, delim);
      AtFront(s, front, [delim] + AllSpelled(xs[k + 1..]));
      AllPassed(s, 0, xs[..k], [], delim);
      FoundThere(s, front, delim, AllSpelled(xs[k + 1..]));
    } else {
      assert xs[..k] == xs;
      AtFront(s, s, "");
      AllPassed(s, 0, xs, [], delim);
    }
  }

  lemma PiecesFirst(s: string, delim: char)
    ensures var k := FirstSplit(s, delim);
            Pieces(s, delim) == if k == |s| then [s] else [s[..k]] + Pieces(s[k + 1..], delim)
  {
  }

  lemma PartsFirst(xs: seq<Item>, delim: char)
    ensures var k := FirstDelim(xs, delim);
            Texts(Parts(xs, delim)) ==
              if k == |xs| then [AllSpelled(xs)] else [AllSpelled(xs[..k])] + Texts(Parts(xs[k + 1..], delim))
  {
    hide AllSpelled;
  }

  // A line whose groups are well nested splits at the delimiters outside the groups
  // and nowhere else: its pieces are the texts between them.
  lemma {:induction false} PiecesOfTree(xs: seq<Item>, delim: char)
    requires AllNested(xs, 0) && Ordinary(delim)
    ensures Pieces(AllSpelled(xs), delim) == Texts(Parts(xs, delim))
    decreases |xs|
  {
    hide FirstSplit, AllSpelled, FirstDelim, Pieces, Texts, Parts, Nested;
    var k := FirstDelim(xs, delim);
    SplitsThere(xs, delim);
    PiecesFirst(AllSpelled(xs), delim);
    PartsFirst(xs, delim);
    if k < |xs| {
      PiecesOfTree(xs[k + 1..], delim);
    }
  }

  // A whole group is one piece, whatever it holds.
  lemma GroupIsOnePiece(x: Item, delim: char)
    requires (x.Group? || x.Braces?) && Nested(x, 0) && Ordinary(delim)
    ensures Pieces(Spelled(x), delim) == [Spelled(x)]
  {
    hide Pieces;
    PiecesOfTree([x], delim);
    TextFirst([x]);
    hide Spelled;
    assert AllSpelled([x]) == Spelled(x);
    assert FirstDelim([x], delim) == 1;
  }

  // ---------- text without groups and escapes ----------

  predicate PlainLine(s: string) {
    forall i :: 0 <= i < |s| ==> s[i] !in {'\\', '%', '{', '(', ')', '[', ']'}
  }

  function FirstOf(s: string, delim: char): (k: nat)
    ensures k <= |s| && (k < |s| ==> s[k] == delim) && delim !in s[..k]
  {
    if s == "" || s[0] == delim then 0 else 1 + FirstOf(s[1..], delim)
  }

  lemma {:induction false} PlainFound(s: string, i: nat, delim: char)
    requires PlainLine(s) && i <= |s|
    ensures Find(s, i, [], delim) == i + FirstOf(s[i..], delim)
    decreases |s| - i
  {
    if i < |s| && s[i] != delim {
      PlainFound(s, i + 1, delim);
      assert s[i..][1..] == s[i + 1..];
    }
  }

  // It splits at the first delimiter.
  lemma PlainLineSplits(s: string, delim: char)
    requires PlainLine(s)
    ensures FirstSplit(s, delim) == FirstOf(s, delim)
  {
    PlainFound(s, 0, delim);
    assert s[0..] == s;
  }
}
