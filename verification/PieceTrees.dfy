// What the flags that strip escapes, braces and spaces make of a piece, on lines
// whose groups are well nested.
module PieceTrees {
  import ParseTo
  import opened PieceText
  import opened SplitText
  import opened SplitTrees
  import opened Text

  // ---------- escapes and braces ----------

  function Mark(mark: char, f: Flags): string {
    if mark == '\\' && f.stripEsc then "" else [mark]
  }

  // What is left of an item in braces: only its escapes may go.
  function ShownIn(x: Item, f: Flags): string
    decreases x, 1
  {
    match x
    case Plain(c) => [c]
    case Escaped(mark, c) => Mark(mark, f) + [c]
    case Group(_, _) => Spelled(x)
    case Braces(inside) => "{" + AllShownIn(inside, f) + "}"
  }

  function AllShownIn(xs: seq<Item>, f: Flags): string {
    if xs == [] then "" else ShownIn(xs[0], f) + AllShownIn(xs[1..], f)
  }

  // What is left of an item outside braces: the outermost braces go, too, in groups
  // as well.
  function Shown(x: Item, f: Flags): string
    decreases x, 1
  {
    match x
    case Plain(c) => [c]
    case Escaped(mark, c) => Mark(mark, f) + [c]
    case Group(open, inside) => [open] + AllShown(inside, f) + [Closing(open)]
    case Braces(inside) => if f.strip then AllShownIn(inside, f) else "{" + AllShownIn(inside, f) + "}"
  }

  function AllShown(xs: seq<Item>, f: Flags): string {
    if xs == [] then "" else Shown(xs[0], f) + AllShown(xs[1..], f)
  }

  lemma Joined3(a: string, b: string, c: string, d: string)
    ensures a + b + c + d == a + (b + (c + d)) && (a + b) + d == a + (b + d)
  {
  }

  // Where the braces of a group stand.
  lemma BracesStand(s: string, i: nat, inside: seq<Item>)
    requires At(s, i, Spelled(Braces(inside)))
    ensures var last := i + 1 + |AllSpelled(inside)|;
            && i < last < |s| && s[i] == '{' && s[last] == '}' && At(s, i + 1, AllSpelled(inside))
            && i + |Spelled(Braces(inside))| == last + 1
  {
    hide AllSpelled;
    AtParts(s, i, "{" + AllSpelled(inside), "}");
    AtChar(s, i + 1 + |AllSpelled(inside)|, '}');
    AtParts(s, i, "{", AllSpelled(inside));
    AtChar(s, i, '{');
    hide At;
  }

  lemma BracedEscape(s: string, j: nat, mark: char, c: char, lev: nat, f: Flags)
    requires (mark == '\\' || mark == '%') && At(s, j, [mark, c]) && lev > 0
    ensures Braced(s, j, lev, f) == Mark(mark, f) + [c] + Braced(s, j + 2, lev, f)
  {
    assert [mark, c] == [mark] + [c];
    AtParts(s, j, [mark], [c]);
    AtChar(s, j, mark);
    AtChar(s, j + 1, c);
  }

  lemma BracedPlain(s: string, j: nat, c: char, lev: nat, f: Flags)
    requires c !in {'\\', '%', '{', '}'} && At(s, j, [c]) && lev > 0
    ensures Braced(s, j, lev, f) == [c] + Braced(s, j + 1, lev, f)
  {
    AtChar(s, j, c);
  }

  lemma ShortSpelled(x: Item)
    ensures x.Plain? ==> Spelled(x) == [x.c]
    ensures x.Escaped? ==> Spelled(x) == [x.mark, x.c]
    ensures x.Group? ==> Spelled(x) == [x.open] + AllSpelled(x.inside) + [Closing(x.open)]
  {
  }

  lemma {:induction false} BracedItem(s: string, j: nat, x: Item, lev: nat, f: Flags)
    requires InBraces(x) && At(s, j, Spelled(x)) && lev > 0
    ensures var n := j + |Spelled(x)|;
            Braced(s, j, lev, f) == ShownIn(x, f) + Braced(s, n, lev, f)
    decreases x, 1
  {
    hide Mark, AllSpelled, Spelled, Braced, At, AllShownIn;
    ShortSpelled(x);
    match x
    case Plain(c) => BracedPlain(s, j, c, lev, f);
    case Escaped(mark, c) => BracedEscape(s, j, mark, c, lev, f);
    case Braces(inside) =>
      BracesStand(s, j, inside);
      BracedItems(s, j + 1, inside, lev + 1, f);
      BracesAround(s, j, j + 1 + |AllSpelled(inside)|, lev, AllShownIn(inside, f), f);
  }

  lemma BracesAround(s: string, j: nat, n: nat, lev: nat, inner: string, f: Flags)
    requires j < n < |s| && s[j] == '{' && s[n] == '}' && lev > 0
    requires Braced(s, j + 1, lev + 1, f) == inner + Braced(s, n, lev + 1, f)
    ensures Braced(s, j, lev, f) == "{" + inner + "}" + Braced(s, n + 1, lev, f)
  {
    Joined3("{", inner, "}", Braced(s, n + 1, lev, f));
  }

  lemma {:induction false} BracedItems(s: string, j: nat, xs: seq<Item>, lev: nat, f: Flags)
    requires AllBraced(xs) && At(s, j, AllSpelled(xs)) && lev > 0
    ensures Braced(s, j, lev, f) == AllShownIn(xs, f) + Braced(s, j + |AllSpelled(xs)|, lev, f)
    decreases xs, 0
  {
    hide Braced, ShownIn;
    if xs != [] {
      AtParts(s, j, Spelled(xs[0]), AllSpelled(xs[1..]));
      BracedItem(s, j, xs[0], lev, f);
      var k := j + |Spelled(xs[0])|;
      BracedItems(s, k, xs[1..], lev, f);
      Joined(ShownIn(xs[0], f), AllShownIn(xs[1..], f), Braced(s, k + |AllSpelled(xs[1..])|, lev, f));
    }
  }

  // Without compression it does not matter whether only spaces have been seen.
  lemma {:induction false} AnyFirst(s: string, i: nat, k: nat, f: Flags, first: bool)
    requires i <= |s| && k <= |s| && !Squeezes(f)
    ensures Treated(s, i, k, f, first) == Treated(s, i, k, f, false)
    decreases |s| - i
  {
    if i < k && !IsEscape(s[i]) && s[i] != '{' {
      AnyFirst(s, i + 1, k, f, first && s[i] == ' ');
    }
  }

  lemma TreatedPlain(s: string, i: nat, k: nat, c: char, f: Flags)
    requires At(s, i, [c]) && i < k <= |s| && !Squeezes(f) && !IsEscape(c) && c != '{'
    ensures Treated(s, i, k, f, false) == [c] + Treated(s, i + 1, k, f, false)
  {
    AtChar(s, i, c);
  }

  lemma TreatedEscape(s: string, i: nat, k: nat, mark: char, c: char, f: Flags)
    requires At(s, i, [mark, c]) && i + 2 <= k <= |s| && (mark == '\\' || mark == '%')
    ensures Treated(s, i, k, f, false) == Mark(mark, f) + [c] + Treated(s, i + 2, k, f, false)
  {
    assert [mark, c] == [mark] + [c];
    AtParts(s, i, [mark], [c]);
    AtChar(s, i, mark);
    AtChar(s, i + 1, c);
  }

  // A group in braces is passed over, and this is its text.
  lemma GroupInBraces(s: string, i: nat, inside: seq<Item>, f: Flags)
    requires AllBraced(inside) && At(s, i, Spelled(Braces(inside)))
    ensures var n := i + |Spelled(Braces(inside))|;
            && i < |s| && s[i] == '{' && n <= |s| && SkipBraces(s, i + 1, 1) == n
            && Braced(s, i + 1, 1, f) == AllShownIn(inside, f) + if f.strip then "" else "}"
  {
    hide AllSpelled, Spelled, InBraces, AllShownIn, At, SkipBraces, Braced;
    BracesStand(s, i, inside);
    AllBracedPassed(s, i + 1, inside, 1);
    BracedItems(s, i + 1, inside, 1, f);
    EndOfBraces(s, i + 1 + |AllSpelled(inside)|, f);
  }

  lemma ShownBraces(inside: seq<Item>, f: Flags)
    ensures Shown(Braces(inside), f)
         == (if f.strip then "" else "{") + (AllShownIn(inside, f) + if f.strip then "" else "}")
  {
    hide AllShownIn;
    Joined("{", AllShownIn(inside, f), "}");
  }

  lemma TreatedBraces(s: string, i: nat, k: nat, inside: seq<Item>, f: Flags)
    requires AllBraced(inside) && At(s, i, Spelled(Braces(inside)))
    requires i + |Spelled(Braces(inside))| <= k <= |s|
    ensures var n := i + |Spelled(Braces(inside))|;
            Treated(s, i, k, f, false) == Shown(Braces(inside), f) + Treated(s, n, k, f, false)
  {
    hide At, Spelled, Shown, AllShownIn, SkipBraces, Braced;
    GroupInBraces(s, i, inside, f);
    ShownBraces(inside, f);
  }

  lemma EndOfBraces(s: string, j: nat, f: Flags)
    requires j < |s| && s[j] == '}'
    ensures Braced(s, j, 1, f) == (if f.strip then "" else "}") && SkipBraces(s, j, 1) == j + 1
  {
  }

  lemma {:induction false} TreatedItem(s: string, i: nat, k: nat, x: Item, depth: nat, f: Flags)
    requires Nested(x, depth) && At(s, i, Spelled(x)) && i + |Spelled(x)| <= k <= |s| && !Squeezes(f)
    ensures Treated(s, i, k, f, false) == Shown(x, f) + Treated(s, i + |Spelled(x)|, k, f, false)
    decreases x, 1
  {
    hide Treated, AllSpelled, Mark, Spelled, At, AllShown, AllShownIn;
    ShortSpelled(x);
    match x
    case Plain(c) => TreatedPlain(s, i, k, c, f);
    case Escaped(mark, c) => TreatedEscape(s, i, k, mark, c, f);
    case Braces(inside) => TreatedBraces(s, i, k, inside, f);
    case Group(open, inside) =>
      var last := i + 1 + |AllSpelled(inside)|;
      AtParts(s, i, [open] + AllSpelled(inside), [Closing(open)]);
      AtParts(s, i, [open], AllSpelled(inside));
      TreatedPlain(s, i, k, open, f);
      TreatedItems(s, i + 1, k, inside, depth + 1, f);
      TreatedPlain(s, last, k, Closing(open), f);
      Joined3([open], AllShown(inside, f), [Closing(open)], Treated(s, last + 1, k, f, false));
  }

  lemma {:induction false} TreatedItems(s: string, i: nat, k: nat, xs: seq<Item>, depth: nat, f: Flags)
    requires AllNested(xs, depth) && At(s, i, AllSpelled(xs)) && i + |AllSpelled(xs)| <= k <= |s| && !Squeezes(f)
    ensures Treated(s, i, k, f, false) == AllShown(xs, f) + Treated(s, i + |AllSpelled(xs)|, k, f, false)
    decreases xs, 0
  {
    hide Treated, Shown;
    if xs != [] {
      AtParts(s, i, Spelled(xs[0]), AllSpelled(xs[1..]));
      TreatedItem(s, i, k, xs[0], depth, f);
      var n := i + |Spelled(xs[0])|;
      TreatedItems(s, n, k, xs[1..], depth, f);
      Joined(Shown(xs[0], f), AllShown(xs[1..], f), Treated(s, n + |AllSpelled(xs[1..])|, k, f, false));
    }
  }

  // The piece of a well nested line, when spaces are not treated: each item up to the
  // delimiter is shown as the flags say.
  lemma TreePiece(xs: seq<Item>, delim: char, f: Flags)
    requires AllNested(xs, 0) && Ordinary(delim) && !f.compress && !f.stripTs && !f.stripAround
    ensures var s := AllSpelled(xs);
            Piece(s, FirstSplit(s, delim), f) == AllShown(xs[..FirstDelim(xs, delim)], f)
  {
    hide AllSpelled, AllShown, FirstDelim, FirstSplit, Treated, Nested;
    var s := AllSpelled(xs);
    var front := xs[..FirstDelim(xs, delim)];
    SplitsThere(xs, delim);
    var k := FirstSplit(s, delim);
    FrontStands(s, k, AllSpelled(front));
    TreatedItems(s, 0, k, front, 0, f);
    NothingTreated(s, k, f);
    AnyFirst(s, 0, k, f, true);
  }

  lemma FrontStands(s: string, k: nat, front: string)
    requires k <= |s| && s[..k] == front
    ensures At(s, 0, front)
  {
  }

  lemma NothingTreated(s: string, k: nat, f: Flags)
    requires k <= |s|
    ensures Treated(s, k, k, f, false) == ""
  {
  }

  // ---------- spaces and the braces around the whole ----------

  // With the flag for trailing spaces alone one space goes, unless all are spaces.
  lemma TrailingSpaceGoes(s: string, delim: char, f: Flags)
    requires f == Flags(false, false, false, true, false, false, false)
    ensures var cut := s[..FirstSplit(s, delim)];
            Piece(s, FirstSplit(s, delim), f)
            == if !Blank(cut) && EndsBlank(cut) then cut[..|cut| - 1] else cut
  {
    hide FirstSplit, Treated;
    var k := FirstSplit(s, delim);
    SameTreated(s, 0, k, f, f.(stripTs := false), true);
    PlainPiece(s, delim, f.(stripTs := false));
  }

  // Where spaces stay the other flags for them play no part.
  lemma {:induction false} SameTreated(s: string, i: nat, k: nat, f: Flags, g: Flags, first: bool)
    requires i <= |s| && k <= |s| && g == f.(stripTs := false)
    ensures Treated(s, i, k, f, first) == Treated(s, i, k, g, first)
    decreases |s| - i
  {
    if i < k {
      if IsEscape(s[i]) {
        if i + 1 < |s| {
          SameTreated(s, i + 2, k, f, g, false);
        }
      } else if s[i] == '{' {
        SameBraced(s, i + 1, 1, f, g);
        SameTreated(s, SkipBraces(s, i + 1, 1), k, f, g, false);
      } else {
        SameTreated(s, i + 1, k, f, g, first);
        SameTreated(s, i + 1, k, f, g, first && s[i] == ' ');
      }
    }
  }

  lemma {:induction false} SameBraced(s: string, j: nat, lev: nat, f: Flags, g: Flags)
    requires j <= |s| && lev > 0 && g == f.(stripTs := false)
    ensures Braced(s, j, lev, f) == Braced(s, j, lev, g)
    decreases |s| - j
  {
    if j < |s| {
      if IsEscape(s[j]) {
        if j + 1 < |s| {
          SameBraced(s, j + 2, lev, f, g);
        }
      } else if !(s[j] == '}' && lev == 1) {
        SameBraced(s, j + 1, if s[j] == '{' then lev + 1 else if s[j] == '}' then lev - 1 else lev, f, g);
      }
    }
  }

  predicate Spaces(s: string) {
    forall i :: 0 <= i < |s| ==> IsSpace(s[i])
  }

  lemma {:induction false} SpacesLead(a: string, q: string)
    requires Spaces(a) && q != "" && !IsSpace(q[0])
    ensures LeadingSpaces(a + q) == |a|
  {
    if a == "" {
      assert a + q == q;
    } else {
      assert (a + q)[1..] == a[1..] + q && (a + q)[0] == a[0];
      SpacesLead(a[1..], q);
    }
  }

  lemma {:induction false} SpacesTrail(q: string, b: string)
    requires Spaces(b) && q != "" && !IsSpace(q[|q| - 1])
    ensures WithoutTrailing(q + b) == q
  {
    if b == "" {
      assert q + b == q;
    } else {
      var s := q + b;
      assert s[|s| - 1] == b[|b| - 1] && s[..|s| - 1] == q + b[..|b| - 1];
      SpacesTrail(q, b[..|b| - 1]);
    }
  }

  lemma LedText(a: string, q: string, f: Flags)
    requires Spaces(a) && q != "" && !IsSpace(q[0])
    ensures Led(a + q, f) == if f.compress && (!f.noCompress || f.stripLs) then q else a + q
  {
    SpacesLead(a, q);
    hide LeadingSpaces;
    assert (a + q)[|a|..] == q;
  }

  lemma TrailedText(q: string, b: string, f: Flags)
    requires Spaces(b) && q != "" && !IsSpace(q[|q| - 1])
    ensures Trailed(q + b, f) == if f.compress && (!f.noCompress || f.stripTs) then q else q + b
  {
    SpacesTrail(q, b);
    hide WithoutTrailing;
  }

  lemma BracesOff(inner: string, f: Flags)
    requires f.stripAround
    ensures Bared("{" + inner + "}", f) == Trailed(Led(inner, f), f)
  {
    assert ("{" + inner + "}")[1..|inner| + 1] == inner;
    hide Led, Trailed;
  }

  // The braces around the whole go, and with compression the spaces inside them.
  lemma BracesGo(a: string, q: string, b: string, f: Flags)
    requires f.stripAround && Spaces(a) && Spaces(b) && q != "" && !IsSpace(q[0]) && !IsSpace(q[|q| - 1])
    ensures Bared("{" + (a + q + b) + "}", f) ==
              (if f.compress && (!f.noCompress || f.stripLs) then "" else a) + q
              + (if f.compress && (!f.noCompress || f.stripTs) then "" else b)
  {
    hide Led, Trailed, Bared, Spaces;
    BracesOff(a + q + b, f);
    Joined(a, q, b);
    LedText(a, q + b, f);
    TrailedText(q, b, f);
    TrailedText(a + q, b, f);
    assert "" + q == q && q + "" == q && a + q + "" == a + q;
  }

  // Spaces in front are not part of the piece when spaces are compressed or are to be
  // stripped there, unless compression is switched off.
  lemma LeadSkipped(a: string, q: string, f: Flags)
    requires Spaces(a) && q != "" && !IsSpace(q[0])
    ensures ParseTo.Skipped(a + q, f) == if (f.compress || f.stripLs) && !f.noCompress then |a| else 0
  {
    SpacesLead(a, q);
  }
}
