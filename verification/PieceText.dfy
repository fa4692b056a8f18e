// What a piece cut off a command line reads like once spaces, escapes and
// braces are treated as the caller's flags say.
module PieceText {
  import opened SplitText
  import opened Text

  // Space compression is a setting of the server, the others are passed in.
  datatype Flags = Flags(
    compress: bool,
    noCompress: bool,
    stripLs: bool,
    stripTs: bool,
    stripAround: bool,
    strip: bool,
    stripEsc: bool)

  predicate IsEscape(c: char) {
    c == '\\' || c == '%'
  }

  predicate SkipsLeading(f: Flags) {
    (f.compress || f.stripLs) && !f.noCompress
  }

  predicate Squeezes(f: Flags) {
    f.compress && !f.noCompress
  }

  function LeadingSpaces(s: string): (n: nat)
    ensures n <= |s|
  {
    if s != "" && IsSpace(s[0]) then 1 + LeadingSpaces(s[1..]) else 0
  }

  function WithoutTrailing(s: string): (t: string)
    ensures t <= s
  {
    if s != "" && IsSpace(s[|s| - 1]) then WithoutTrailing(s[..|s| - 1]) else s
  }

  predicate Blank(s: string) {
    forall i :: 0 <= i < |s| ==> s[i] == ' '
  }

  function Kept(c: char, f: Flags): string {
    if c == '\\' && f.stripEsc then "" else [c]
  }

  // The text of a brace group, read from j on.
  function Braced(s: string, j: nat, lev: nat, f: Flags): string
    requires j <= |s| && lev > 0
    decreases |s| - j
  {
    if j == |s| then ""
    else if IsEscape(s[j]) then
      if j + 1 < |s| then Kept(s[j], f) + [s[j + 1]] + Braced(s, j + 2, lev, f) else [s[j]]
    else if s[j] == '}' && lev == 1 then if f.strip then "" else "}"
    else
      [s[j]] + Braced(s, j + 1, if s[j] == '{' then lev + 1 else if s[j] == '}' then lev - 1 else lev, f)
  }

  // The text of s[i..k]; `first` holds while only spaces have been seen.
  function Treated(s: string, i: nat, k: nat, f: Flags, first: bool): string
    requires i <= |s| && k <= |s|
    decreases |s| - i
  {
    if i >= k then ""
    else if IsEscape(s[i]) then
      if i + 1 < |s| then Kept(s[i], f) + [s[i + 1]] + Treated(s, i + 2, k, f, false) else Kept(s[i], f)
    else if s[i] == '{' then
      (if f.strip then "" else "{") + Braced(s, i + 1, 1, f) + Treated(s, SkipBraces(s, i + 1, 1), k, f, false)
    else if s[i] == ' ' && Squeezes(f) && (first || (i > 0 && s[i - 1] == ' ')) then Treated(s, i + 1, k, f, first)
    else [s[i]] + Treated(s, i + 1, k, f, first && s[i] == ' ')
  }

  // The trailing space, and the braces around the whole, are taken off last.
  function Trimmed(p: string, trailing: bool, f: Flags): string {
    if (f.compress || f.stripTs) && !f.noCompress && trailing && p != "" then p[..|p| - 1] else p
  }

  function Led(inner: string, f: Flags): string {
    if f.compress && (!f.noCompress || f.stripLs) then inner[LeadingSpaces(inner)..] else inner
  }

  function Trailed(led: string, f: Flags): string {
    if f.compress && (!f.noCompress || f.stripTs) then WithoutTrailing(led) else led
  }

  function Bared(q: string, f: Flags): string {
    if f.stripAround && |q| >= 2 && q[0] == '{' && q[|q| - 1] == '}' then Trailed(Led(q[1..|q| - 1], f), f)
    else q
  }

  function Piece(s: string, k: nat, f: Flags): string
    requires k <= |s|
  {
    Bared(Trimmed(Treated(s, 0, k, f, true), !Blank(s[..k]) && s[k - 1] == ' ', f), f)
  }

  // No flag and no compression: the text is only cut.
  predicate Plain(f: Flags) {
    !f.compress && !f.stripLs && !f.stripTs && !f.stripAround && !f.strip && !f.stripEsc
  }

  // What is written so far and what is still to come make up the whole.
  ghost predicate Written(s: string, i: int, k: int, f: Flags, first: bool, out: string, whole: string) {
    0 <= i <= |s| && 0 <= k <= |s| && out + Treated(s, i, k, f, first) == whole && first == Blank(s[..i])
  }

  lemma Reassociate(a: string, b: string, c: string)
    ensures a + (b + c) == a + b + c
  {
  }

  lemma WrittenChar(s: string, i: int, k: int, f: Flags, first: bool, out: string, whole: string)
    requires Written(s, i, k, f, first, out, whole) && i < k && !IsEscape(s[i]) && s[i] != '{'
    ensures
      var first' := first && s[i] == ' ';
      if s[i] == ' ' && Squeezes(f) && (first || (i > 0 && s[i - 1] == ' ')) then
        Written(s, i + 1, k, f, first', out, whole)
      else Written(s, i + 1, k, f, first', out + [s[i]], whole)
  {
    assert s[..i + 1] == s[..i] + [s[i]];
    Reassociate(out, [s[i]], Treated(s, i + 1, k, f, first && s[i] == ' '));
  }

  lemma WrittenEscape(s: string, i: int, k: int, f: Flags, first: bool, out: string, whole: string)
    requires Written(s, i, k, f, first, out, whole) && i < k && IsEscape(s[i])
    ensures i + 1 < |s| ==> Written(s, i + 2, k, f, false, out + Kept(s[i], f) + [s[i + 1]], whole)
    ensures i + 1 == |s| ==> Written(s, i + 1, k, f, false, out + Kept(s[i], f), whole)
  {
    if i + 1 < |s| {
      assert s[..i + 2][i] == s[i];
      Reassociate(out, Kept(s[i], f) + [s[i + 1]], Treated(s, i + 2, k, f, false));
      Reassociate(out, Kept(s[i], f), [s[i + 1]]);
    } else {
      assert s[..i + 1][i] == s[i];
      assert Treated(s, i + 1, k, f, false) == "";
      assert out + Kept(s[i], f) + "" == out + Kept(s[i], f);
    }
  }

  lemma WrittenBraces(s: string, i: int, k: int, f: Flags, first: bool, out: string, whole: string)
    requires Written(s, i, k, f, first, out, whole) && i < k && s[i] == '{'
    ensures Written(s, SkipBraces(s, i + 1, 1), k, f, false,
                    out + ((if f.strip then "" else "{") + Braced(s, i + 1, 1, f)), whole)
  {
    var j := SkipBraces(s, i + 1, 1);
    assert s[..j][i] == s[i];
    Reassociate(out, (if f.strip then "" else "{") + Braced(s, i + 1, 1, f), Treated(s, j, k, f, false));
  }

  // A brace group that ends in a space, being unclosed, is written with it.
  lemma {:induction false} BracedEnds(s: string, j: nat, lev: nat, f: Flags)
    requires j < |s| && lev > 0 && s[SkipBraces(s, j, lev) - 1] == ' '
    ensures Braced(s, j, lev, f) != "" && Braced(s, j, lev, f)[|Braced(s, j, lev, f)| - 1] == ' '
    decreases |s| - j
  {
    if IsEscape(s[j]) {
      if j + 2 < |s| {
        BracedEnds(s, j + 2, lev, f);
      }
    } else if !(s[j] == '}' && lev == 1) {
      var lev' := if s[j] == '{' then lev + 1 else if s[j] == '}' then lev - 1 else lev;
      if j + 1 < |s| {
        BracedEnds(s, j + 1, lev', f);
      }
    }
  }

  ghost predicate EndsBlank(out: string) {
    out != "" && out[|out| - 1] == ' '
  }

  // The state of the scan at place i of the text, with `out` written.
  ghost predicate Progress(s: string, i: int, k: int, f: Flags, first: bool, out: string, whole: string) {
    && Written(s, i, k, f, first, out, whole)
    && (!first && s[i - 1] == ' ' ==> EndsBlank(out))
    && (first && Squeezes(f) ==> out == "")
    && (!f.strip && out == "" ==> '{' !in s[..i])
  }

  predicate Dropped(s: string, i: nat, f: Flags, first: bool)
    requires i < |s|
  {
    s[i] == ' ' && Squeezes(f) && (first || (i > 0 && s[i - 1] == ' '))
  }

  lemma ProgressChar(s: string, i: int, k: int, f: Flags, first: bool, out: string, whole: string)
    requires Progress(s, i, k, f, first, out, whole) && i < k && !IsEscape(s[i]) && s[i] != '{'
    ensures Progress(s, i + 1, k, f, first && s[i] == ' ', if Dropped(s, i, f, first) then out else out + [s[i]], whole)
  {
    WrittenChar(s, i, k, f, first, out, whole);
    assert s[..i + 1] == s[..i] + [s[i]];
    hide Written;
  }

  lemma ProgressEscape(s: string, i: int, k: int, f: Flags, first: bool, out: string, whole: string)
    requires Progress(s, i, k, f, first, out, whole) && i < k && IsEscape(s[i])
    ensures i + 1 < |s| ==> Progress(s, i + 2, k, f, false, out + Kept(s[i], f) + [s[i + 1]], whole)
    ensures i + 1 == |s| ==> Progress(s, i + 1, k, f, false, out + Kept(s[i], f), whole)
  {
    WrittenEscape(s, i, k, f, first, out, whole);
    assert s[..i + 1] == s[..i] + [s[i]];
    hide Written;
  }

  lemma EndsWith(a: string, b: string)
    requires EndsBlank(b)
    ensures EndsBlank(a + b)
  {
  }

  lemma BracesEnd(s: string, i: nat, f: Flags, out: string)
    requires i < |s| && s[i] == '{'
    ensures i < SkipBraces(s, i + 1, 1)
    ensures s[SkipBraces(s, i + 1, 1) - 1] == ' ' ==>
              EndsBlank(out + ((if f.strip then "" else "{") + Braced(s, i + 1, 1, f)))
  {
    var j := SkipBraces(s, i + 1, 1);
    if i + 1 < |s| {
      if s[j - 1] == ' ' {
        BracedEnds(s, i + 1, 1, f);
        hide SkipBraces, Braced;
        EndsWith(if f.strip then "" else "{", Braced(s, i + 1, 1, f));
        EndsWith(out, (if f.strip then "" else "{") + Braced(s, i + 1, 1, f));
      }
    }
  }

  lemma BracesWritten(out: string, braced: string, f: Flags)
    ensures !f.strip ==> out + ((if f.strip then "" else "{") + braced) != ""
  {
    assert !f.strip ==> |out + ("{" + braced)| > 0;
  }

  lemma InProgress(s: string, i: int, k: int, f: Flags, first: bool, out: string, whole: string)
    requires Progress(s, i, k, f, first, out, whole)
    ensures Written(s, i, k, f, first, out, whole) && 0 <= i <= |s|
  {
  }

  lemma ProgressBraces(s: string, i: int, k: int, f: Flags, first: bool, out: string, whole: string)
    requires Progress(s, i, k, f, first, out, whole) && i < k && s[i] == '{'
    ensures Progress(s, SkipBraces(s, i + 1, 1), k, f, false,
                     out + ((if f.strip then "" else "{") + Braced(s, i + 1, 1, f)), whole)
  {
    InProgress(s, i, k, f, first, out, whole);
    var after := SkipBraces(s, i + 1, 1);
    var out' := out + ((if f.strip then "" else "{") + Braced(s, i + 1, 1, f));
    WrittenBraces(s, i, k, f, first, out, whole);
    BracesEnd(s, i, f, out);
    BracesWritten(out, Braced(s, i + 1, 1, f), f);
    hide Written, Braced, SkipBraces, EndsBlank;
    assert Progress(s, after, k, f, false, out', whole);
  }

  lemma Slices(s: string, i: nat, j: nat, k: nat)
    requires i <= j <= k <= |s|
    ensures s[i..j] + s[j..k] == s[i..k]
    ensures j == i + 1 ==> s[i..j] == [s[i]]
    ensures j == i + 2 ==> s[i..j] == [s[i]] + [s[i + 1]]
  {
  }

  lemma {:induction false} PlainBraces(s: string, j: nat, lev: nat, f: Flags)
    requires j <= |s| && lev > 0 && !f.strip && !f.stripEsc
    ensures Braced(s, j, lev, f) == s[j..SkipBraces(s, j, lev)]
    decreases |s| - j
  {
    if j < |s| {
      var k := SkipBraces(s, j, lev);
      if IsEscape(s[j]) {
        if j + 1 < |s| {
          PlainBraces(s, j + 2, lev, f);
          Slices(s, j, j + 2, k);
        }
      } else if !(s[j] == '}' && lev == 1) {
        PlainBraces(s, j + 1, if s[j] == '{' then lev + 1 else if s[j] == '}' then lev - 1 else lev, f);
        Slices(s, j, j + 1, k);
      }
    }
  }

  lemma {:induction false} PlainText(s: string, i: nat, stack: seq<char>, delim: char, f: Flags, first: bool)
    requires i <= |s| && Plain(f)
    ensures var k := Find(s, i, stack, delim); Treated(s, i, k, f, first) == s[i..k]
    decreases |s| - i
  {
    var k := Find(s, i, stack, delim);
    if i < k {
      if IsEscape(s[i]) || s[i] == '{' {
        var j := if s[i] == '{' then SkipBraces(s, i + 1, 1) else if i + 1 < |s| then i + 2 else i + 1;
        PlainText(s, j, stack, delim, f, false);
        MarkedText(s, i, k, f, first, j);
        Slices(s, i, j, k);
      } else {
        var tp := Topmost(stack, s[i]);
        PlainText(s, i + 1,
                  if s[i] != ']' && s[i] != ')' then Opened(s, i, stack) else if tp >= 0 then stack[..tp] else stack,
                  delim, f, first && s[i] == ' ');
        Slices(s, i, i + 1, k);
      }
    }
  }

  // With no flags a piece is the text as it stood.
  lemma PlainPiece(s: string, delim: char, f: Flags)
    requires Plain(f)
    ensures Piece(s, FirstSplit(s, delim), f) == s[..FirstSplit(s, delim)]
  {
    PlainText(s, 0, [], delim, f, true);
  }

  function Solid(s: string): string {
    if s == "" then "" else (if s[0] == ' ' then "" else [s[0]]) + Solid(s[1..])
  }

  lemma {:induction false} SolidJoin(a: string, b: string)
    ensures Solid(a + b) == Solid(a) + Solid(b)
  {
    if a == "" {
      assert a + b == b;
    } else {
      assert (a + b)[1..] == a[1..] + b;
      SolidJoin(a[1..], b);
    }
  }

  lemma SolidParts(s: string, i: nat, j: nat, k: nat, t: string)
    requires i <= j <= k <= |s| && Solid(t) == Solid(s[j..k])
    ensures Solid(s[i..j] + t) == Solid(s[i..k])
  {
    Slices(s, i, j, k);
    SolidJoin(s[i..j], t);
    SolidJoin(s[i..j], s[j..k]);
  }

  predicate Unmarked(s: string) {
    forall j :: 0 <= j < |s| ==> !IsEscape(s[j]) && s[j] != '{'
  }

  predicate Keeps(s: string, f: Flags) {
    (!f.strip && !f.stripEsc) || Unmarked(s)
  }

  lemma SolidChar(s: string, i: nat, k: nat, t: string)
    requires i < k <= |s| && Solid(t) == Solid(s[i + 1..k])
    ensures Solid([s[i]] + t) == Solid(s[i..k])
    ensures s[i] == ' ' ==> Solid(t) == Solid(s[i..k])
  {
    SolidParts(s, i, i + 1, k, t);
    SolidJoin([s[i]], t);
  }

  lemma MarkedText(s: string, i: nat, k: nat, f: Flags, first: bool, j: nat)
    requires i < k <= |s| && Keeps(s, f) && (IsEscape(s[i]) || s[i] == '{')
    requires j == if s[i] == '{' then SkipBraces(s, i + 1, 1) else if i + 1 < |s| then i + 2 else i + 1
    ensures j <= |s| && Treated(s, i, k, f, first) == s[i..j] + Treated(s, j, k, f, false)
  {
    if s[i] == '{' {
      PlainBraces(s, i + 1, 1, f);
      Slices(s, i, i + 1, j);
    } else {
      Slices(s, i, j, j);
    }
  }

  // Unless braces or escapes are stripped, nothing but spaces is ever lost.
  lemma {:induction false} OnlySpacesLost(s: string, i: nat, stack: seq<char>, delim: char, f: Flags, first: bool)
    requires i <= |s| && Keeps(s, f)
    ensures var k := Find(s, i, stack, delim); Solid(Treated(s, i, k, f, first)) == Solid(s[i..k])
    decreases |s| - i
  {
    var k := Find(s, i, stack, delim);
    if i < k {
      if IsEscape(s[i]) || s[i] == '{' {
        var j := if s[i] == '{' then SkipBraces(s, i + 1, 1) else if i + 1 < |s| then i + 2 else i + 1;
        OnlySpacesLost(s, j, stack, delim, f, false);
        MarkedText(s, i, k, f, first, j);
        SolidParts(s, i, j, k, Treated(s, j, k, f, false));
      } else {
        var tp := Topmost(stack, s[i]);
        var first' := first && s[i] == ' ';
        OnlySpacesLost(s, i + 1,
                       if s[i] != ']' && s[i] != ')' then Opened(s, i, stack)
                       else if tp >= 0 then stack[..tp] else stack,
                       delim, f, first');
        SolidChar(s, i, k, Treated(s, i + 1, k, f, first'));
      }
    }
  }

  // No space at the front, after `before`, and none after another.
  predicate Tight(t: string, before: bool) {
    (before && t != "" ==> t[0] != ' ') && forall j :: 0 < j < |t| && t[j] == ' ' ==> t[j - 1] != ' '
  }

  lemma TightFront(c: char, t: string, before: bool)
    requires Tight(t, c == ' ') && (c == ' ' ==> !before)
    ensures Tight([c] + t, before)
  {
    forall j | 0 < j < |[c] + t| && ([c] + t)[j] == ' ' ensures ([c] + t)[j - 1] != ' ' {
      assert t[j - 1] == ' ';
    }
  }

  lemma TightBack(t: string)
    requires Tight(t, true) && EndsBlank(t)
    ensures Tight(t[..|t| - 1], true) && !EndsBlank(t[..|t| - 1])
  {
    var p := t[..|t| - 1];
    assert forall j :: 0 <= j < |p| ==> p[j] == t[j];
    assert |t| > 1 ==> t[|t| - 2] != ' ';
  }

  lemma {:induction false} Squeezed(s: string, i: nat, k: nat, f: Flags, first: bool)
    requires i <= k <= |s| && Squeezes(f) && Unmarked(s) && first == Blank(s[..i])
    ensures Tight(Treated(s, i, k, f, first), i == 0 || s[i - 1] == ' ') && '{' !in Treated(s, i, k, f, first)
    decreases |s| - i
  {
    if i < k {
      assert s[..i + 1] == s[..i] + [s[i]];
      assert first && i > 0 ==> s[..i][i - 1] == ' ';
      Squeezed(s, i + 1, k, f, first && s[i] == ' ');
      if !Dropped(s, i, f, first) {
        TightFront(s[i], Treated(s, i + 1, k, f, first && s[i] == ' '), i == 0 || s[i - 1] == ' ');
      }
    }
  }

  lemma BlankParts(s: string, i: nat, k: nat)
    requires i < k <= |s|
    ensures Blank(s[i..k]) <==> s[i] == ' ' && Blank(s[i + 1..k])
    ensures Blank(s[..i + 1]) <==> Blank(s[..i]) && s[i] == ' '
    ensures Blank(s[..i]) && i > 0 ==> s[i - 1] == ' '
    ensures i + 1 < k && Blank(s[i + 1..k]) ==> s[k - 1] == ' ' && s[i + 1] == ' '
  {
    var t := s[i..k];
    assert t[0] == s[i] && t[1..] == s[i + 1..k];
    assert t == [s[i]] + s[i + 1..k];
    assert s[..i + 1] == s[..i] + [s[i]];
    assert i > 0 ==> s[..i][i - 1] == s[i - 1];
    if i + 1 < k {
      assert s[i + 1..k][k - i - 2] == s[k - 1] && s[i + 1..k][0] == s[i + 1];
    }
  }

  // What is written of a character and of the text behind it.
  lemma TreatedChar(s: string, i: nat, k: nat, f: Flags, first: bool)
    requires i < k <= |s| && Squeezes(f) && Unmarked(s)
    ensures var more := Treated(s, i + 1, k, f, first && s[i] == ' ');
            Treated(s, i, k, f, first) == if Dropped(s, i, f, first) then more else [s[i]] + more
  {
  }

  // What is written ends in a space when the text does, unless that is blank.
  lemma {:induction false} LastBlank(s: string, i: nat, k: nat, f: Flags, first: bool)
    requires i <= k <= |s| && Squeezes(f) && Unmarked(s) && first == Blank(s[..i])
    ensures
      var t := Treated(s, i, k, f, first);
      if Blank(s[i..k]) then i == 0 || s[i - 1] == ' ' ==> t == ""
      else t != "" && (s[k - 1] == ' ' <==> EndsBlank(t))
    decreases |s| - i
  {
    if i < k {
      hide Blank, Treated, Unmarked, Squeezes;
      BlankParts(s, i, k);
      TreatedChar(s, i, k, f, first);
      LastBlank(s, i + 1, k, f, first && s[i] == ' ');
      if Blank(s[i + 1..k]) && s[i] != ' ' {
        LastSolid(s, i, k, f);
      }
      NothingFirst(s);
    }
  }

  lemma NothingFirst(s: string)
    ensures Blank(s[..0]) && Blank("")
  {
  }

  // The last character before the trailing spaces.
  lemma LastSolid(s: string, i: nat, k: nat, f: Flags)
    requires i < k <= |s| && Squeezes(f) && Unmarked(s) && s[i] != ' ' && Blank(s[i + 1..k])
    ensures Treated(s, i + 1, k, f, false) == if i + 1 < k then " " else ""
    ensures i + 1 < k ==> s[k - 1] == ' '
    ensures i + 1 == k ==> s[k - 1] != ' '
  {
    BlankParts(s, i, k);
    if i + 1 < k {
      BlankParts(s, i + 1, k);
      TreatedChar(s, i + 1, k, f, false);
      AllSqueezed(s, i + 2, k, f);
    }
  }

  // Spaces behind a space are dropped.
  lemma {:induction false} AllSqueezed(s: string, i: nat, k: nat, f: Flags)
    requires 0 < i <= k <= |s| && Squeezes(f) && Unmarked(s) && s[i - 1] == ' ' && Blank(s[i..k])
    ensures Treated(s, i, k, f, false) == ""
    decreases k - i
  {
    if i < k {
      BlankParts(s, i, k);
      TreatedChar(s, i, k, f, false);
      AllSqueezed(s, i + 1, k, f);
    }
  }

  // The trailing space goes, and there are no braces around the whole.
  lemma TrailingGoes(s: string, k: nat, f: Flags, t: string)
    requires k <= |s| && Squeezes(f) && t == Treated(s, 0, k, f, true) && '{' !in t
    requires if Blank(s[..k]) then t == "" else t != "" && (s[k - 1] == ' ' <==> EndsBlank(t))
    ensures Piece(s, k, f) == if EndsBlank(t) then t[..|t| - 1] else t
  {
    hide Treated, Blank;
    var p := if EndsBlank(t) then t[..|t| - 1] else t;
    assert p != "" ==> p[0] == t[0];
  }

  lemma BackSolid(t: string)
    requires Tight(t, true) && EndsBlank(t)
    ensures var p := t[..|t| - 1]; Solid(p) == Solid(t) && Tight(p, true) && !EndsBlank(p)
  {
    var p := t[..|t| - 1];
    assert t == p + " ";
    SolidJoin(p, " ");
    assert Solid(" ") == "";
    TightBack(t);
  }

  // Squeezing gives the normal form: no space at the ends, no two in a row, and
  // all else in its place.
  lemma SqueezedPiece(s: string, delim: char, f: Flags)
    requires Squeezes(f) && Unmarked(s)
    ensures
      var p := Piece(s, FirstSplit(s, delim), f);
      && Solid(p) == Solid(s[..FirstSplit(s, delim)])
      && Tight(p, true) && !EndsBlank(p)
  {
    var k := FirstSplit(s, delim);
    var t := Treated(s, 0, k, f, true);
    assert s[0..k] == s[..k];
    Squeezed(s, 0, k, f, true);
    LastBlank(s, 0, k, f, true);
    OnlySpacesLost(s, 0, [], delim, f, true);
    hide Treated, Piece, Tight, Solid, Blank, Squeezes, Unmarked;
    TrailingGoes(s, k, f, t);
    if EndsBlank(t) {
      BackSolid(t);
    }
  }
}
