// What the server keeps of a player's channels and macros: a table of channel
// aliases in alphabetic order, and the slots that name macro sets.
module Commac {
  import opened BubbleSort
  import opened Memory

  // ---------- strcasecmp ----------

  function Lower(c: char): char {
    if 'A' <= c <= 'Z' then c + 32 as char else c
  }

  function Folded(s: string): (r: string)
    ensures |r| == |s| && forall i :: 0 <= i < |s| ==> r[i] == Lower(s[i])
  {
    seq(|s|, i requires 0 <= i < |s| => Lower(s[i]))
  }

  // Negative, zero or positive; a string is less than one that goes on.
  function StrCaseCmp(a: string, b: string): int {
    if a == "" then if b == "" then 0 else -1
    else if b == "" then 1
    else if Lower(a[0]) < Lower(b[0]) then -1
    else if Lower(a[0]) > Lower(b[0]) then 1
    else StrCaseCmp(a[1..], b[1..])
  }

  predicate Greater(a: string, b: string) {
    StrCaseCmp(a, b) > 0
  }

  lemma {:induction false} CompareBack(a: string, b: string)
    ensures StrCaseCmp(a, b) == -StrCaseCmp(b, a)
  {
    if a != "" && b != "" {
      CompareBack(a[1..], b[1..]);
    }
  }

  lemma {:induction false} CompareOn(a: string, b: string, c: string)
    ensures StrCaseCmp(a, b) <= 0 && StrCaseCmp(b, c) <= 0 ==>
              StrCaseCmp(a, c) <= 0 && (StrCaseCmp(a, c) == 0 ==> StrCaseCmp(a, b) == 0 && StrCaseCmp(b, c) == 0)
  {
    if a != "" && b != "" && c != "" {
      CompareOn(a[1..], b[1..], c[1..]);
    }
  }

  lemma {:induction false} CompareSame(a: string, b: string)
    ensures StrCaseCmp(a, b) == 0 <==> Folded(a) == Folded(b)
  {
    if a != "" && b != "" {
      CompareSame(a[1..], b[1..]);
      assert Folded(a) == [Lower(a[0])] + Folded(a[1..]);
      assert Folded(b) == [Lower(b[0])] + Folded(b[1..]);
    }
  }

  // The same letter, in whatever case.
  predicate SameLetter(a: char, b: char) {
    || a == b
    || ('A' <= a <= 'Z' && b as int == a as int + 32)
    || ('A' <= b <= 'Z' && a as int == b as int + 32)
  }

  // Two strings are equal to strcasecmp just when they have the same letters, case
  // aside, and everything else in common.
  lemma {:induction false} SameButCase(a: string, b: string)
    ensures StrCaseCmp(a, b) == 0 <==> |a| == |b| && forall i :: 0 <= i < |a| ==> SameLetter(a[i], b[i])
  {
    if a != "" && b != "" {
      assert Lower(a[0]) == Lower(b[0]) <==> SameLetter(a[0], b[0]);
      SameButCase(a[1..], b[1..]);
      assert forall i :: 0 < i < |a| && i < |b| ==> SameLetter(a[i], b[i]) == SameLetter(a[1..][i - 1], b[1..][i - 1]);
    }
  }

  lemma GreaterIsOrder()
    ensures IsOrder(Greater)
  {
    forall a, b ensures Greater(a, b) ==> !Greater(b, a) {
      CompareBack(a, b);
    }
    forall a, b, c ensures !Greater(a, b) && !Greater(b, c) ==> !Greater(a, c) {
      CompareOn(a, b, c);
    }
  }

  // An alias is cut to five characters when it is stored.
  const ALIAS := 5

  function Cut(s: string): (t: string)
    ensures |t| <= ALIAS
  {
    if |s| <= ALIAS then s else s[..ALIAS]
  }

  // Cutting may only bring a string down, and not below a short one.
  lemma {:induction false} CutBelow(a: string, s: string, n: nat)
    requires |s| > n
    ensures StrCaseCmp(s[..n], s) <= 0
    ensures |a| <= n && StrCaseCmp(a, s) <= 0 ==> StrCaseCmp(a, s[..n]) <= 0
    decreases n
  {
    if n > 0 {
      assert s[..n][1..] == s[1..][..n - 1];
      CutBelow(if a == "" then a else a[1..], s[1..], n - 1);
    }
  }

  // The place for a new alias is found with the alias as it was typed.
  ghost predicate PlaceFor(t: seq<string>, w: nat, arg: string) {
    && w <= |t| && (forall i :: 0 <= i < w ==> StrCaseCmp(arg, t[i]) > 0)
    && (w < |t| ==> StrCaseCmp(arg, t[w]) <= 0)
  }

  lemma CutOrder(a: string, arg: string)
    ensures StrCaseCmp(Cut(arg), arg) <= 0
    ensures |a| <= ALIAS && StrCaseCmp(arg, a) > 0 ==> StrCaseCmp(a, Cut(arg)) <= 0
  {
    CompareBack(arg, a);
    CompareBack(arg, arg);
    if |arg| > ALIAS {
      CutBelow(a, arg, ALIAS);
    }
  }

  lemma InsertedOrdered(t: seq<string>, w: nat, arg: string)
    requires Ordered(Greater, t) && (forall i :: 0 <= i < |t| ==> |t[i]| <= ALIAS) && PlaceFor(t, w, arg)
    ensures Ordered(Greater, Inserted(t, w, Cut(arg)))
  {
    var x, n := Cut(arg), Inserted(t, w, Cut(arg));
    forall i | 0 <= i < w ensures !Greater(t[i], x) {
      CutOrder(t[i], arg);
    }
    forall i | w <= i < |t| ensures !Greater(x, t[i]) {
      CutOrder("", arg);
      assert i > w ==> !Greater(t[w], t[i]);
      CompareBack(t[w], t[w]);
      CompareOn(arg, t[w], t[i]);
      CompareOn(x, arg, t[i]);
    }
    forall i, j | 0 <= i < j < |n| ensures !Greater(n[i], n[j]) {
      assert n[i] == if i < w then t[i] else if i == w then x else t[i - 1];
      assert n[j] == if j < w then t[j] else if j == w then x else t[j - 1];
    }
  }

  ghost predicate Unlike(t: seq<string>, a: string) {
    forall i :: 0 <= i < |t| ==> StrCaseCmp(a, t[i]) != 0
  }

  lemma PlaceTells(t: seq<string>, w: nat, arg: string)
    requires Ordered(Greater, t) && PlaceFor(t, w, arg)
    ensures Unlike(t, arg) <==> !(w < |t| && StrCaseCmp(arg, t[w]) == 0)
  {
    if w < |t| && StrCaseCmp(arg, t[w]) < 0 {
      Around(t, arg, w);
    }
  }

  // An alias that is new as typed may be taken once it is cut: just when it is
  // long and an entry has its first five characters.
  lemma CutClashes(t: seq<string>, arg: string)
    requires Unlike(t, arg)
    ensures !Unlike(t, Cut(arg)) <==> |arg| > ALIAS && exists i :: 0 <= i < |t| && Folded(t[i]) == Folded(arg[..ALIAS])
  {
    forall i | 0 <= i < |t| ensures StrCaseCmp(Cut(arg), t[i]) == 0 <==> Folded(Cut(arg)) == Folded(t[i]) {
      CompareSame(Cut(arg), t[i]);
    }
  }

  // Beside the alias "abcde" the alias "abcdef" is new, and is stored as the same.
  lemma SixthLetterClashes()
    ensures Unlike(["abcde"], "abcdef") && Cut("abcdef") == "abcde" && !Unlike(["abcde"], Cut("abcdef"))
  {
    CompareSame("abcdef", "abcde");
    assert |Folded("abcdef")| != |Folded("abcde")|;
    CutClashes(["abcde"], "abcdef");
    assert "abcdef"[..ALIAS] == "abcde";
    assert ["abcde"][0] == "abcde";
  }

  class Commac {
    const who: int
    var alias: array<string>
    var channels: array<string>
    var numchannels: nat
    var macros: array<int>
    var curmac: int

    ghost predicate Valid()
      reads this, alias
    {
      && numchannels <= alias.Length == channels.Length
      && alias as object != channels as object && macros.Length == 5
      && (forall i :: 0 <= i < numchannels ==> |alias[i]| <= ALIAS)
      && Ordered(Greater, alias[..numchannels])
    }

    constructor (who: int)
      ensures Valid() && this.who == who && numchannels == 0 && curmac == -1 && macros[..] == [-1, -1, -1, -1, -1]
      ensures fresh(alias) && fresh(channels) && fresh(macros)
    {
      this.who := who;
      alias, channels := new string[0], new string[0];
      numchannels, curmac := 0, -1;
      macros := new int[5](_ => -1);
    }

    ghost function Table(): seq<(string, string)>
      requires Valid()
      reads this, alias, channels
    {
      Pairs(alias[..], channels[..], numchannels)
    }

    // The binary search finds an entry just when there is one to be found.
    method GetChannelFromAlias(a: string) returns (channel: string)
      requires Valid()
      ensures (exists i :: 0 <= i < numchannels && StrCaseCmp(a, alias[i]) == 0 && channel == channels[i])
              || ((forall i :: 0 <= i < numchannels ==> StrCaseCmp(a, alias[i]) != 0) && channel == "")
    {
      var first, last, dir, current := 0, numchannels - 1, 1, 0;
      while dir != 0 && first <= last
        invariant 0 <= first <= last + 1 <= numchannels || dir == 0
        invariant dir == 0 ==> 0 <= current < numchannels && StrCaseCmp(a, alias[current]) == 0
        invariant dir != 0 ==> forall i :: 0 <= i < first ==> StrCaseCmp(a, alias[i]) > 0
        invariant dir != 0 ==> forall i :: last < i < numchannels ==> StrCaseCmp(a, alias[i]) < 0
        decreases last - first + 1, if dir != 0 then 1 else 0
      {
        current := (first + last) / 2;
        dir := StrCaseCmp(a, alias[current]);
        Around(alias[..numchannels], a, current);
        if dir < 0 {
          last := current - 1;
        } else {
          first := current + 1;
        }
      }
      channel := if dir == 0 then channels[current] else "";
    }

    // The loop that looks for the place of an alias.
    method FindPlace(arg: string) returns (w: nat)
      requires Valid()
      ensures PlaceFor(alias[..numchannels], w, arg)
    {
      w := 0;
      while w < numchannels && StrCaseCmp(arg, alias[w]) > 0
        invariant w <= numchannels && forall i :: 0 <= i < w ==> StrCaseCmp(arg, alias[i]) > 0
      {
        w := w + 1;
      }
    }

    // Ten more entries, if the table is full.
    method Grow()
      requires Valid()
      modifies this
      ensures Valid() && numchannels == old(numchannels) < alias.Length
      ensures macros == old(macros) && curmac == old(curmac)
      ensures alias[..numchannels] == old(alias[..numchannels])
      ensures channels[..numchannels] == old(channels[..numchannels])
      ensures (alias == old(alias) || fresh(alias)) && (channels == old(channels) || fresh(channels))
    {
      if numchannels >= alias.Length {
        var a := Realloc(alias, alias.Length + 10, "");
        var c := Realloc(channels, channels.Length + 10, "");
        alias, channels := a, c;
      }
    }

    // The table part of do_addcom.
    method AddAlias(arg: string, channel: string) returns (ok: bool)
      requires Valid()
      modifies this, alias, channels
      ensures Valid()
      ensures ok <==> Unlike(old(alias[..numchannels]), arg)
      ensures !ok ==> Table() == old(Table())
      ensures ok ==> exists w :: 0 <= w <= |old(Table())| && Table() == Inserted(old(Table()), w, (Cut(arg), channel))
    {
      var w := FindPlace(arg);
      ghost var t, table := alias[..numchannels], Table();
      PlaceTells(t, w, arg);
      if w < numchannels && StrCaseCmp(arg, alias[w]) == 0 {
        return false;
      }
      InsertedOrdered(t, w, arg);
      hide Ordered, Cut, StrCaseCmp;
      ghost var al, ch := alias[..], channels[..];
      assert al[..|t|] == t;
      Grow();
      Enter(w, Cut(arg), channel);
      TableInserted(al, ch, alias[..], channels[..], |t|, w, Cut(arg), channel);
      ok := true;
    }

    // The entries from w on move up by one.
    method Enter(w: nat, a: string, channel: string)
      requires Valid() && w <= numchannels < alias.Length && |a| <= ALIAS
      requires Ordered(Greater, Inserted(alias[..numchannels], w, a))
      modifies `numchannels, alias, channels
      ensures Valid() && numchannels == old(numchannels) + 1
      ensures alias[..numchannels] == Inserted(old(alias[..numchannels]), w, a)
      ensures channels[..numchannels] == Inserted(old(channels[..numchannels]), w, channel)
    {
      hide Ordered;
      InsertAt(alias, w, numchannels, a);
      InsertAt(channels, w, numchannels, channel);
      numchannels := numchannels + 1;
      InsertedAll(old(alias[..numchannels]), w, a);
    }

    // The table part of do_delcom.
    method DelAlias(arg: string) returns (found: bool)
      requires Valid()
      modifies this, alias, channels
      ensures Valid()
      ensures found <==> !Unlike(old(alias[..numchannels]), arg)
      ensures !found ==> Table() == old(Table())
      ensures found ==> exists w :: 0 <= w < |old(Table())| && StrCaseCmp(arg, old(Table())[w].0) == 0
                                    && Table() == Deleted(old(Table()), w)
    {
      var i := 0;
      ghost var t, table := alias[..numchannels], Table();
      while i < numchannels
        invariant i <= numchannels && forall j :: 0 <= j < i ==> StrCaseCmp(arg, t[j]) != 0
        invariant Valid() && Table() == table && numchannels == |t| && alias == old(alias) && channels == old(channels)
        invariant alias[..numchannels] == t
      {
        if StrCaseCmp(arg, alias[i]) == 0 {
          ghost var al, ch := alias[..], channels[..];
          assert al[..|t|] == t;
          Remove(i);
          TableDeleted(al, ch, alias[..], channels[..], |t|, i);
          return true;
        }
        i := i + 1;
      }
      found := false;
    }

    method Remove(w: nat)
      requires Valid() && w < numchannels
      modifies `numchannels, alias, channels
      ensures Valid() && numchannels == old(numchannels) - 1
      ensures alias[..numchannels] == Deleted(old(alias[..numchannels]), w)
      ensures channels[..numchannels] == Deleted(old(channels[..numchannels]), w)
    {
      DeletedOrdered(alias[..numchannels], w);
      hide Ordered;
      RemoveAt(alias, w, numchannels);
      RemoveAt(channels, w, numchannels);
      numchannels := numchannels - 1;
    }

    // sort_com_aliases, after the table was read from a file in any order.
    method SortComAliases()
      requires numchannels <= alias.Length == channels.Length && alias as object != channels as object
      requires macros.Length == 5 && forall i :: 0 <= i < numchannels ==> |alias[i]| <= ALIAS
      modifies alias, channels
      ensures Valid()
      ensures multiset(Table()) == multiset(Pairs(old(alias[..]), old(channels[..]), numchannels))
    {
      GreaterIsOrder();
      ghost var was := Pairs(alias[..], channels[..], numchannels);
      SortPairs(alias, channels, numchannels, Greater);
      forall i | 0 <= i < numchannels ensures |alias[i]| <= ALIAS {
        var now := Pairs(alias[..], channels[..], numchannels);
        assert now[i] in multiset(now);
        assert now[i] in was;
      }
    }
  }

  lemma TableInserted(al: seq<string>, ch: seq<string>, al': seq<string>, ch': seq<string>, n: nat, w: nat,
                      x: string, y: string)
    requires w <= n <= |al| && n <= |ch| && n < |al'| && n < |ch'|
    requires al'[..n + 1] == Inserted(al[..n], w, x) && ch'[..n + 1] == Inserted(ch[..n], w, y)
    ensures Pairs(al', ch', n + 1) == Inserted(Pairs(al, ch, n), w, (x, y))
  {
    var p, q := Pairs(al', ch', n + 1), Inserted(Pairs(al, ch, n), w, (x, y));
    forall i | 0 <= i < n + 1 ensures p[i] == q[i] {
      assert al'[i] == al'[..n + 1][i] && ch'[i] == ch'[..n + 1][i];
    }
  }

  lemma TableDeleted(al: seq<string>, ch: seq<string>, al': seq<string>, ch': seq<string>, n: nat, w: nat)
    requires w < n <= |al| && n <= |ch| && n - 1 <= |al'| && n - 1 <= |ch'|
    requires al'[..n - 1] == Deleted(al[..n], w) && ch'[..n - 1] == Deleted(ch[..n], w)
    ensures Pairs(al', ch', n - 1) == Deleted(Pairs(al, ch, n), w)
  {
    var p, q := Pairs(al', ch', n - 1), Deleted(Pairs(al, ch, n), w);
    forall i | 0 <= i < n - 1 ensures p[i] == q[i] {
      assert al'[i] == al'[..n - 1][i] && ch'[i] == ch'[..n - 1][i];
    }
  }

  lemma InsertedAll(t: seq<string>, w: nat, a: string)
    requires w <= |t| && |a| <= ALIAS && forall i :: 0 <= i < |t| ==> |t[i]| <= ALIAS
    ensures forall i :: 0 <= i < |Inserted(t, w, a)| ==> |Inserted(t, w, a)[i]| <= ALIAS
  {
  }

  lemma DeletedOrdered(t: seq<string>, w: nat)
    requires Ordered(Greater, t) && w < |t| && forall i :: 0 <= i < |t| ==> |t[i]| <= ALIAS
    ensures Ordered(Greater, Deleted(t, w)) && forall i :: 0 <= i < |Deleted(t, w)| ==> |Deleted(t, w)[i]| <= ALIAS
  {
  }

  // In an ordered table, what is before a smaller entry is smaller.
  lemma Around(t: seq<string>, a: string, at: nat)
    requires Ordered(Greater, t) && at < |t|
    ensures StrCaseCmp(a, t[at]) > 0 ==> forall i :: 0 <= i <= at ==> StrCaseCmp(a, t[i]) > 0
    ensures StrCaseCmp(a, t[at]) < 0 ==> forall i :: at <= i < |t| ==> StrCaseCmp(a, t[i]) < 0
  {
    forall i | 0 <= i <= at && StrCaseCmp(a, t[at]) > 0 ensures StrCaseCmp(a, t[i]) > 0 {
      CompareOn(a, t[i], t[at]);
      assert i < at ==> !Greater(t[i], t[at]);
    }
    forall i | at <= i < |t| && StrCaseCmp(a, t[at]) < 0 ensures StrCaseCmp(a, t[i]) < 0 {
      CompareOn(a, t[at], t[i]);
      assert at < i ==> !Greater(t[at], t[i]);
    }
  }
}
