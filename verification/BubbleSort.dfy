// The sort by exchanges of neighbours that a player's channel aliases are loaded
// with: passes are made until one changes nothing.
module BubbleSort {

  // Strictly greater; what is not greater is in order.
  ghost predicate IsOrder<T(!new)>(gt: (T, T) -> bool) {
    && (forall a, b :: gt(a, b) ==> !gt(b, a))
    && (forall a, b, c :: !gt(a, b) && !gt(b, c) ==> !gt(a, c))
  }

  ghost predicate Ordered<T>(gt: (T, T) -> bool, s: seq<T>) {
    forall i, j :: 0 <= i < j < |s| ==> !gt(s[i], s[j])
  }

  // How many of t the element x is greater than.
  function Over<T>(gt: (T, T) -> bool, x: T, t: seq<T>): nat {
    if t == [] then 0 else (if gt(x, t[0]) then 1 else 0) + Over(gt, x, t[1..])
  }

  // The pairs that stand in the wrong order.
  function Wrong<T>(gt: (T, T) -> bool, s: seq<T>): nat {
    if s == [] then 0 else Over(gt, s[0], s[1..]) + Wrong(gt, s[1..])
  }

  function Exchanged<T>(s: seq<T>, i: nat): (r: seq<T>)
    requires i + 1 < |s|
    ensures |r| == |s| && r[i] == s[i + 1] && r[i + 1] == s[i]
    ensures forall k :: 0 <= k < |s| && k != i && k != i + 1 ==> r[k] == s[k]
  {
    s[i := s[i + 1]][i + 1 := s[i]]
  }

  lemma {:induction false} OverExchanged<T>(gt: (T, T) -> bool, x: T, t: seq<T>, i: nat)
    requires i + 1 < |t|
    ensures Over(gt, x, Exchanged(t, i)) == Over(gt, x, t)
  {
    var e := Exchanged(t, i);
    if i == 0 {
      assert e[1..][1..] == t[1..][1..];
    } else {
      assert e[1..] == Exchanged(t[1..], i - 1);
      OverExchanged(gt, x, t[1..], i - 1);
    }
  }

  // Exchanging two neighbours in the wrong order takes away one such pair.
  lemma {:induction false} WrongExchanged<T>(gt: (T, T) -> bool, s: seq<T>, i: nat)
    requires i + 1 < |s| && gt(s[i], s[i + 1]) && !gt(s[i + 1], s[i])
    ensures Wrong(gt, Exchanged(s, i)) == Wrong(gt, s) - 1
  {
    var e := Exchanged(s, i);
    if i == 0 {
      assert e[1..][1..] == s[1..][1..];
      assert e[1..][0] == s[0] && s[1..][0] == s[1];
    } else {
      assert e[1..] == Exchanged(s[1..], i - 1);
      WrongExchanged(gt, s[1..], i - 1);
      OverExchanged(gt, s[0], s[1..], i - 1);
    }
  }

  lemma ExchangedSame<T>(s: seq<T>, i: nat)
    requires i + 1 < |s|
    ensures multiset(Exchanged(s, i)) == multiset(s)
  {
    var e := Exchanged(s, i);
    var a, b := s[..i], s[i + 2..];
    assert s == a + [s[i], s[i + 1]] + b;
    assert e == a + [s[i + 1], s[i]] + b;
  }

  // When no two neighbours are in the wrong order, no two elements are.
  lemma NeighboursOrdered<T(!new)>(gt: (T, T) -> bool, s: seq<T>)
    requires IsOrder(gt) && forall i :: 0 <= i < |s| - 1 ==> !gt(s[i], s[i + 1])
    ensures Ordered(gt, s)
  {
    forall i, j | 0 <= i < j < |s| ensures !gt(s[i], s[j]) {
      NeighboursReach(gt, s, i, j);
    }
  }

  lemma {:induction false} NeighboursReach<T(!new)>(gt: (T, T) -> bool, s: seq<T>, i: nat, j: nat)
    requires IsOrder(gt) && forall i :: 0 <= i < |s| - 1 ==> !gt(s[i], s[i + 1])
    requires i < j < |s|
    ensures !gt(s[i], s[j])
    decreases j
  {
    if i + 1 < j {
      NeighboursReach(gt, s, i, j - 1);
      assert !gt(s[j - 1], s[j - 1 + 1]);
    }
  }

  // The first n entries of two tables, side by side.
  ghost function Pairs<A, B>(a: seq<A>, b: seq<B>, n: nat): (r: seq<(A, B)>)
    requires n <= |a| && n <= |b|
    ensures |r| == n && forall i :: 0 <= i < n ==> r[i] == (a[i], b[i])
  {
    seq(n, i requires 0 <= i < n => (a[i], b[i]))
  }

  // Two tables are sorted by the entries of the first; pairs stay together.
  method SortPairs<A(!new), B(!new)>(keys: array<A>, values: array<B>, n: nat, gt: (A, A) -> bool)
    requires IsOrder(gt) && n <= keys.Length && n <= values.Length && keys as object != values as object
    modifies keys, values
    ensures Ordered(gt, keys[..n])
    ensures multiset(Pairs(keys[..], values[..], n)) == multiset(Pairs(old(keys[..]), old(values[..]), n))
    ensures keys[n..] == old(keys[n..]) && values[n..] == old(values[n..])
  {
    ghost var was := Pairs(keys[..], values[..], n);
    var cont := true;
    while cont
      invariant multiset(Pairs(keys[..], values[..], n)) == multiset(was)
      invariant keys[n..] == old(keys[n..]) && values[n..] == old(values[n..])
      invariant !cont ==> forall j :: 0 <= j < n - 1 ==> !gt(keys[j], keys[j + 1])
      decreases Wrong(gt, keys[..n]), if cont then 1 else 0
    {
      cont := false;
      ghost var start := Wrong(gt, keys[..n]);
      var i := 0;
      while i < n - 1
        invariant 0 <= i && (i == 0 || i <= n - 1)
        invariant multiset(Pairs(keys[..], values[..], n)) == multiset(was)
        invariant keys[n..] == old(keys[n..]) && values[n..] == old(values[n..])
        invariant !cont ==> forall j :: 0 <= j < i ==> !gt(keys[j], keys[j + 1])
        invariant if cont then Wrong(gt, keys[..n]) < start else Wrong(gt, keys[..n]) == start
      {
        if gt(keys[i], keys[i + 1]) {
          ExchangePairs(keys, values, n, i, gt);
          cont := true;
        }
        i := i + 1;
      }
    }
    NeighboursOrdered(gt, keys[..n]);
  }

  method ExchangePairs<A(!new), B(!new)>(keys: array<A>, values: array<B>, ghost n: nat, i: nat,
                                         ghost gt: (A, A) -> bool)
    requires n <= keys.Length && n <= values.Length && keys as object != values as object
    requires i + 1 < n && gt(keys[i], keys[i + 1]) && !gt(keys[i + 1], keys[i])
    modifies keys, values
    ensures multiset(Pairs(keys[..], values[..], n)) == multiset(Pairs(old(keys[..]), old(values[..]), n))
    ensures Wrong(gt, keys[..n]) == Wrong(gt, old(keys[..n])) - 1
    ensures keys[n..] == old(keys[n..]) && values[n..] == old(values[n..])
  {
    ghost var was, ks := Pairs(keys[..], values[..], n), keys[..n];
    keys[i], keys[i + 1] := keys[i + 1], keys[i];
    values[i], values[i + 1] := values[i + 1], values[i];
    assert Pairs(keys[..], values[..], n) == Exchanged(was, i);
    ExchangedSame(was, i);
    assert keys[..n] == Exchanged(ks, i);
    WrongExchanged(gt, ks, i);
  }
}
