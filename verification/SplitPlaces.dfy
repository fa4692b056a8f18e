// Where a line splits, said place by place: what is looked at, which groups are open
// there, and that the line splits at the first delimiter outside all groups.
module SplitPlaces {
  import opened SplitText

  predicate IsEscape(c: char) {
    c == '\\' || c == '%'
  }

  predicate IsCloser(c: char) {
    c == ')' || c == ']'
  }

  predicate Pairs(open: char, close: char) {
    (open == '(' && close == ')') || (open == '[' && close == ']')
  }

  // The next place that is looked at: an escape takes the next character with it, and
  // a group in braces is passed over as a whole.
  function After(s: string, i: nat): (n: nat)
    requires i < |s|
    ensures i < n <= |s|
  {
    if IsEscape(s[i]) then if i + 1 < |s| then i + 2 else i + 1
    else if s[i] == '{' then SkipBraces(s, i + 1, 1)
    else i + 1
  }

  ghost predicate Looked(s: string, i: nat) {
    i == 0 || exists j: nat :: j < i && j < |s| && Looked(s, j) && After(s, j) == i
  }

  // The group that begins at m is open at p: it began, and nothing before p closed it.
  ghost predicate Open(s: string, m: nat, p: nat)
    requires p <= |s|
    decreases p, 1
  {
    && m < p && Begins(s, m)
    && forall q: nat :: m < q < p && Looked(s, q) && IsCloser(s[q]) ==> !Closes(s, q, m)
  }

  // An opening character begins a group, unless it is a bracket behind the escape of
  // the terminal or 32 groups are open already.
  ghost predicate Begins(s: string, m: nat)
    requires m < |s|
    decreases m, 3
  {
    && Looked(s, m) && (s[m] == '(' || s[m] == '[')
    && !(s[m] == '[' && m > 0 && s[m - 1] == ESC_CHAR)
    && |OpenAt(s, m)| < STACKLIM
  }

  ghost function OpenAt(s: string, p: nat): (r: set<nat>)
    requires p <= |s|
    ensures forall o: nat :: o in r <==> Open(s, o, p)
    decreases p, 2
  {
    set o: nat | o < p && Open(s, o, p)
  }

  // A closing character closes the innermost open group of its kind, and all groups in
  // that.
  ghost predicate Closes(s: string, q: nat, m: nat)
    requires q < |s|
    decreases q, 3
  {
    exists o: nat :: o <= m && Innermost(s, q, o)
  }

  ghost predicate Innermost(s: string, q: nat, o: nat)
    requires q < |s|
    decreases q, 2
  {
    && o < q && Open(s, o, q) && Pairs(s[o], s[q])
    && forall o': nat :: o < o' < q && Open(s, o', q) ==> !Pairs(s[o'], s[q])
  }

  ghost predicate AllClosed(s: string, k: nat)
    requires k <= |s|
  {
    forall m: nat :: !Open(s, m, k)
  }

  ghost predicate AllOfKindClosed(s: string, k: nat)
    requires k < |s|
  {
    forall o: nat :: !Innermost(s, k, o)
  }

  // The line may split here: a delimiter that is looked at outside all groups; if it is
  // a closing character, outside all groups of its kind.
  ghost predicate SplitsAt(s: string, k: nat, delim: char) {
    && k < |s| && Looked(s, k) && s[k] == delim && !IsEscape(delim) && delim != '{'
    && if IsCloser(delim) then AllOfKindClosed(s, k) else AllClosed(s, k)
  }

  // ---------- places that are looked at ----------

  lemma {:induction false} LookedInTurn(s: string, i: nat, j: nat)
    requires Looked(s, i) && Looked(s, j) && i < j && i < |s|
    ensures After(s, i) <= j
    decreases i + j
  {
    var p: nat :| p < j && p < |s| && Looked(s, p) && After(s, p) == j;
    if p > i {
      LookedInTurn(s, i, p);
    } else if p < i {
      LookedInTurn(s, p, i);
    }
  }

  lemma NextLooked(s: string, i: nat)
    requires Looked(s, i) && i < |s|
    ensures Looked(s, After(s, i))
    ensures forall j: nat :: i < j < After(s, i) ==> !Looked(s, j)
  {
    forall j: nat | i < j < After(s, i) ensures !Looked(s, j) {
      if Looked(s, j) {
        LookedInTurn(s, i, j);
      }
    }
  }

  // ---------- the stack ----------

  // The stack holds the closing characters of the open groups, outermost first.
  ghost predicate Stacked(s: string, i: nat, stack: seq<char>, opens: seq<nat>) {
    && i <= |s| && |opens| == |stack| <= STACKLIM
    && (forall j, k :: 0 <= j < k < |opens| ==> opens[j] < opens[k])
    && (forall j :: 0 <= j < |opens| ==> opens[j] < i && Pairs(s[opens[j]], stack[j]))
    && (forall m: nat :: Open(s, m, i) <==> m in opens)
  }

  lemma {:induction false} TopmostIsTop(stack: seq<char>, c: char)
    ensures forall j :: Topmost(stack, c) < j < |stack| ==> stack[j] != c
  {
    if stack != [] && stack[|stack| - 1] != c {
      TopmostIsTop(stack[..|stack| - 1], c);
    }
  }

  lemma StackedStarts(s: string)
    ensures Stacked(s, 0, [], [])
  {
  }

  lemma NotBegun(s: string, m: nat)
    requires m < |s| && !Looked(s, m)
    ensures !Begins(s, m)
  {
  }

  // What is open at the next place.
  lemma OpenLater(s: string, i: nat, m: nat)
    requires i < |s| && Looked(s, i)
    ensures Open(s, m, After(s, i)) <==>
              if m == i then Begins(s, i) else Open(s, m, i) && !(IsCloser(s[i]) && Closes(s, i, m))
  {
    var n := After(s, i);
    NextLooked(s, i);
    if i < m < n {
      NotBegun(s, m);
    }
    hide After, Looked, Begins, Closes;
  }

  lemma {:induction false} Distinct(opens: seq<nat>, all: set<nat>)
    requires forall j, k :: 0 <= j < k < |opens| ==> opens[j] < opens[k]
    requires forall m :: m in all <==> m in opens
    ensures |all| == |opens|
  {
    if opens == [] {
      assert all == {};
    } else {
      var last := opens[|opens| - 1];
      var front := opens[..|opens| - 1];
      assert opens == front + [last];
      Distinct(front, all - {last});
    }
  }

  lemma HowMany(s: string, i: nat, stack: seq<char>, opens: seq<nat>)
    requires Stacked(s, i, stack, opens)
    ensures |OpenAt(s, i)| == |opens|
  {
    hide Open, OpenAt;
    Distinct(opens, OpenAt(s, i));
  }

  // An ordinary character, an escape or a group in braces.
  lemma StackedPast(s: string, i: nat, stack: seq<char>, opens: seq<nat>)
    requires Stacked(s, i, stack, opens) && i < |s| && Looked(s, i)
    requires !IsCloser(s[i]) && s[i] != '(' && s[i] != '['
    ensures Stacked(s, After(s, i), stack, opens)
  {
    NothingBegins(s, i);
    hide Open, After, Looked, Begins, Closes;
    forall m: nat ensures Open(s, m, After(s, i)) <==> m in opens {
      OpenLater(s, i, m);
    }
  }

  lemma NothingBegins(s: string, i: nat)
    requires i < |s| && s[i] != '(' && s[i] != '['
    ensures !Begins(s, i)
  {
  }

  lemma BeginsHere(s: string, i: nat, stack: seq<char>, opens: seq<nat>)
    requires Stacked(s, i, stack, opens) && i < |s| && Looked(s, i) && (s[i] == '(' || s[i] == '[')
    ensures Begins(s, i) <==> !(s[i] == '[' && i > 0 && s[i - 1] == ESC_CHAR) && |opens| < STACKLIM
    ensures After(s, i) == i + 1
  {
    hide Open, OpenAt, Looked, Stacked;
    HowMany(s, i, stack, opens);
  }

  lemma OpenedLater(s: string, i: nat, stack: seq<char>, opens: seq<nat>, m: nat)
    requires Stacked(s, i, stack, opens) && i < |s| && Looked(s, i) && (s[i] == '(' || s[i] == '[')
    ensures Open(s, m, i + 1) <==> m in opens || (m == i && Begins(s, i))
  {
    hide OpenAt, After, Looked, Begins, Closes;
    BeginsHere(s, i, stack, opens);
    OpenLater(s, i, m);
    hide Open;
  }

  lemma StackedOpened(s: string, i: nat, stack: seq<char>, opens: seq<nat>)
    requires Stacked(s, i, stack, opens) && i < |s| && Looked(s, i) && (s[i] == '(' || s[i] == '[')
    ensures Stacked(s, i + 1, Opened(s, i, stack), if Begins(s, i) then opens + [i] else opens)
  {
    hide Open, OpenAt, After, Looked, Begins, Closes, Stacked;
    StackedSize(s, i, stack, opens);
    BeginsHere(s, i, stack, opens);
    forall m: nat ensures Open(s, m, i + 1) <==> m in opens || (m == i && Begins(s, i)) {
      OpenedLater(s, i, stack, opens, m);
    }
    if Begins(s, i) {
      OneMore(s, i, stack, opens, if s[i] == '[' then ']' else ')');
    } else {
      NoneMore(s, i, stack, opens);
    }
  }

  lemma NoneMore(s: string, i: nat, stack: seq<char>, opens: seq<nat>)
    requires Stacked(s, i, stack, opens) && i < |s| && forall m: nat :: Open(s, m, i + 1) <==> m in opens
    ensures Stacked(s, i + 1, stack, opens)
  {
    hide Open;
  }

  lemma OneMore(s: string, i: nat, stack: seq<char>, opens: seq<nat>, c: char)
    requires Stacked(s, i, stack, opens) && i < |s| && Pairs(s[i], c) && |opens| < STACKLIM
    requires forall m: nat :: Open(s, m, i + 1) <==> m in opens || m == i
    ensures Stacked(s, i + 1, stack + [c], opens + [i])
  {
    hide Open;
    assert forall m: nat :: m in opens + [i] <==> m in opens || m == i;
  }

  // The innermost open group of the kind of a closing character.
  lemma InnermostIs(s: string, i: nat, stack: seq<char>, opens: seq<nat>, o: nat)
    requires Stacked(s, i, stack, opens) && i < |s| && IsCloser(s[i])
    ensures var tp := Topmost(stack, s[i]); Innermost(s, i, o) <==> tp >= 0 && o == opens[tp]
  {
    hide Open, Topmost;
    TopmostIsTop(stack, s[i]);
    var tp := Topmost(stack, s[i]);
    if tp >= 0 {
      forall o': nat | opens[tp] < o' < i && Open(s, o', i) ensures !Pairs(s[o'], s[i]) {
        assert o' in opens;
        var j :| 0 <= j < |opens| && opens[j] == o';
        assert j > tp;
      }
      assert Open(s, opens[tp], i);
      assert Innermost(s, i, opens[tp]);
    }
    if Innermost(s, i, o) {
      assert Open(s, o, i);
      assert o in opens;
      var j :| 0 <= j < |opens| && opens[j] == o;
      assert stack[j] == s[i];
    }
  }

  lemma StackedClosed(s: string, i: nat, stack: seq<char>, opens: seq<nat>)
    requires Stacked(s, i, stack, opens) && i < |s| && Looked(s, i) && IsCloser(s[i])
    ensures var tp := Topmost(stack, s[i]);
            if tp >= 0 then Stacked(s, i + 1, stack[..tp], opens[..tp]) else Stacked(s, i + 1, stack, opens)
  {
    hide Open, After, Looked, Begins, Closes, Topmost;
    CloserAlone(s, i);
    var tp := Topmost(stack, s[i]);
    var now := if tp >= 0 then opens[..tp] else opens;
    forall m: nat ensures Open(s, m, i + 1) <==> m in now {
      OpenLater(s, i, m);
      ClosesFrom(s, i, stack, opens, m);
      StillOpen(opens, tp, m);
    }
  }

  lemma CloserAlone(s: string, i: nat)
    requires i < |s| && IsCloser(s[i])
    ensures After(s, i) == i + 1 && !Begins(s, i)
  {
  }

  lemma ClosesFrom(s: string, i: nat, stack: seq<char>, opens: seq<nat>, m: nat)
    requires Stacked(s, i, stack, opens) && i < |s| && IsCloser(s[i])
    ensures var tp := Topmost(stack, s[i]); Closes(s, i, m) <==> tp >= 0 && opens[tp] <= m
  {
    hide Innermost, Topmost, Open, Stacked;
    StackedSize(s, i, stack, opens);
    forall o: nat ensures Innermost(s, i, o) <==> Topmost(stack, s[i]) >= 0 && o == opens[Topmost(stack, s[i])] {
      InnermostIs(s, i, stack, opens, o);
    }
    assert Topmost(stack, s[i]) >= 0 ==> Innermost(s, i, opens[Topmost(stack, s[i])]);
  }

  lemma StillOpen(opens: seq<nat>, tp: int, m: nat)
    requires tp < |opens| && forall j, k :: 0 <= j < k < |opens| ==> opens[j] < opens[k]
    ensures m in opens && !(tp >= 0 && opens[tp] <= m) <==> m in if tp >= 0 then opens[..tp] else opens
  {
    if m in opens && tp >= 0 && opens[tp] > m {
      var j :| 0 <= j < |opens| && opens[j] == m;
      assert opens[..tp][j] == m;
    }
  }

  // ---------- the split ----------

  // Where the line does not split, the look goes on at the next place.
  lemma LooksOn(s: string, i: nat, stack: seq<char>, opens: seq<nat>, delim: char)
      returns (stack': seq<char>, opens': seq<nat>)
    requires Stacked(s, i, stack, opens) && Looked(s, i) && i < |s| && !SplitsAt(s, i, delim)
    ensures Stacked(s, After(s, i), stack', opens')
    ensures Find(s, i, stack, delim) == Find(s, After(s, i), stack', delim)
  {
    hide Stacked, Open, Begins, Innermost, Looked, SplitsAt;
    StackedSize(s, i, stack, opens);
    MaySplit(s, i, stack, opens, delim);
    stack', opens' := stack, opens;
    if IsEscape(s[i]) || s[i] == '{' {
      StackedPast(s, i, stack, opens);
    } else if IsCloser(s[i]) {
      StackedClosed(s, i, stack, opens);
      var tp := Topmost(stack, s[i]);
      if tp >= 0 {
        stack', opens' := stack[..tp], opens[..tp];
      }
    } else if s[i] == '(' || s[i] == '[' {
      StackedOpened(s, i, stack, opens);
      stack', opens' := Opened(s, i, stack), if Begins(s, i) then opens + [i] else opens;
    } else {
      StackedPast(s, i, stack, opens);
    }
  }

  lemma FindsHere(s: string, i: nat, stack: seq<char>, opens: seq<nat>, delim: char)
    requires Stacked(s, i, stack, opens) && Looked(s, i) && i < |s| && SplitsAt(s, i, delim)
    ensures Find(s, i, stack, delim) == i
  {
    hide Stacked, Open, Innermost, Looked, SplitsAt;
    MaySplit(s, i, stack, opens, delim);
  }

  // Looking from i on, the line splits at the first place where it may, or not at all.
  lemma {:induction false} FindsFirst(s: string, i: nat, stack: seq<char>, opens: seq<nat>, delim: char)
    requires Stacked(s, i, stack, opens) && Looked(s, i)
    ensures var k := Find(s, i, stack, delim);
            (k < |s| ==> SplitsAt(s, k, delim)) && forall j: nat :: i <= j < k ==> !SplitsAt(s, j, delim)
    decreases |s| - i
  {
    hide Stacked, Looked, SplitsAt;
    InLine(s, i, stack, opens);
    if i < |s| {
      NextLooked(s, i);
      NotLookedNotSplit(s, delim);
      if SplitsAt(s, i, delim) {
        FindsHere(s, i, stack, opens, delim);
      } else {
        var stack', opens' := LooksOn(s, i, stack, opens, delim);
        hide Find, After;
        FindsFirst(s, After(s, i), stack', opens', delim);
      }
    }
  }

  lemma InLine(s: string, i: nat, stack: seq<char>, opens: seq<nat>)
    requires Stacked(s, i, stack, opens)
    ensures i <= |s|
  {
  }

  lemma NotLookedNotSplit(s: string, delim: char)
    ensures forall j: nat :: !Looked(s, j) ==> !SplitsAt(s, j, delim)
  {
  }

  lemma StackedSize(s: string, i: nat, stack: seq<char>, opens: seq<nat>)
    requires Stacked(s, i, stack, opens)
    ensures |opens| == |stack|
  {
  }

  lemma AnyInnermost(s: string, i: nat, stack: seq<char>, opens: seq<nat>)
    requires Stacked(s, i, stack, opens) && i < |s| && IsCloser(s[i])
    ensures AllOfKindClosed(s, i) <==> Topmost(stack, s[i]) < 0
  {
    hide Innermost, Topmost, Stacked;
    StackedSize(s, i, stack, opens);
    var tp := Topmost(stack, s[i]);
    forall o: nat ensures Innermost(s, i, o) <==> tp >= 0 && o == opens[tp] {
      InnermostIs(s, i, stack, opens, o);
    }
    if tp >= 0 {
      assert Innermost(s, i, opens[tp]);
    }
  }

  lemma MaySplit(s: string, i: nat, stack: seq<char>, opens: seq<nat>, delim: char)
    requires Stacked(s, i, stack, opens) && i < |s| && Looked(s, i)
    ensures SplitsAt(s, i, delim) <==>
              && s[i] == delim && !IsEscape(delim) && delim != '{'
              && if IsCloser(delim) then Topmost(stack, delim) < 0 else stack == []
  {
    hide Topmost, Looked, Stacked, AllClosed, AllOfKindClosed;
    AnyOpen(s, i, stack, opens);
    if s[i] == delim && IsCloser(delim) {
      AnyInnermost(s, i, stack, opens);
    }
  }

  lemma AnyOpen(s: string, i: nat, stack: seq<char>, opens: seq<nat>)
    requires Stacked(s, i, stack, opens)
    ensures |opens| == |stack| && (AllClosed(s, i) <==> stack == [])
  {
    hide Open;
    if opens != [] {
      assert opens[0] in opens;
      assert Open(s, opens[0], i);
    }
  }

  // A line splits at the first place that holds the delimiter, is looked at and lies
  // outside every group, and nowhere just when there is none.
  lemma SplitsAtFirst(s: string, delim: char)
    ensures var k := FirstSplit(s, delim);
            (k < |s| ==> SplitsAt(s, k, delim)) && forall j: nat :: j < k ==> !SplitsAt(s, j, delim)
  {
    StackedStarts(s);
    FindsFirst(s, 0, [], [], delim);
  }
}
