// Moving entries of an array, as bcopy and memmove do.
module Memory {

  function Moved<T>(l: seq<T>, src: nat, dst: nat, n: nat): seq<T>
    requires src + n <= |l| && dst + n <= |l|
  {
    l[..dst] + l[src..src + n] + l[dst + n..]
  }

  lemma IsMoved<T>(was: seq<T>, now: seq<T>, src: nat, dst: nat, n: nat)
    requires src + n <= |was| == |now| && dst + n <= |was|
    requires forall j :: 0 <= j < |now| && !(dst <= j < dst + n) ==> now[j] == was[j]
    requires forall j :: dst <= j < dst + n ==> now[j] == was[src + (j - dst)]
    ensures now == Moved(was, src, dst, n)
  {
  }

  // The memory of n entries is moved; the two places may overlap.
  method Bcopy<T>(a: array<T>, src: nat, dst: nat, n: nat)
    requires src + n <= a.Length && dst + n <= a.Length
    modifies a
    ensures a[..] == Moved(old(a[..]), src, dst, n)
  {
    if dst <= src {
      MoveDown(a, src, dst, n);
    } else {
      MoveUp(a, src, dst, n);
    }
  }

  method MoveDown<T>(a: array<T>, src: nat, dst: nat, n: nat)
    requires dst <= src && src + n <= a.Length
    modifies a
    ensures a[..] == Moved(old(a[..]), src, dst, n)
  {
    ghost var was := a[..];
    var i := 0;
    while i < n
      invariant 0 <= i <= n
      invariant forall j :: 0 <= j < a.Length && !(dst <= j < dst + i) ==> a[j] == was[j]
      invariant forall j :: dst <= j < dst + i ==> a[j] == was[src + (j - dst)]
    {
      a[dst + i] := a[src + i];
      i := i + 1;
    }
    IsMoved(was, a[..], src, dst, n);
  }

  method MoveUp<T>(a: array<T>, src: nat, dst: nat, n: nat)
    requires src < dst && dst + n <= a.Length
    modifies a
    ensures a[..] == Moved(old(a[..]), src, dst, n)
  {
    ghost var was := a[..];
    var i := n;
    while i > 0
      invariant 0 <= i <= n
      invariant forall j :: 0 <= j < a.Length && !(dst + i <= j < dst + n) ==> a[j] == was[j]
      invariant forall j :: dst + i <= j < dst + n ==> a[j] == was[src + (j - dst)]
    {
      i := i - 1;
      a[dst + i] := a[src + i];
    }
    IsMoved(was, a[..], src, dst, n);
  }

  // realloc: a new array with the entries of the old one and room for n.
  method Realloc<T>(a: array<T>, n: nat, fill: T) returns (b: array<T>)
    requires a.Length <= n
    ensures fresh(b) && b.Length == n && b[..a.Length] == a[..]
  {
    b := new T[n](_ => fill);
    var i := 0;
    while i < a.Length
      invariant i <= a.Length && b[..i] == a[..i]
      modifies b
    {
      b[i] := a[i];
      i := i + 1;
    }
  }

  ghost function Inserted<T>(s: seq<T>, i: nat, x: T): seq<T>
    requires i <= |s|
  {
    s[..i] + [x] + s[i..]
  }

  ghost function Deleted<T>(s: seq<T>, i: nat): seq<T>
    requires i < |s|
  {
    s[..i] + s[i + 1..]
  }

  // An entry is put among the first n, and those behind it move up.
  method InsertAt<T>(a: array<T>, w: nat, n: nat, x: T)
    requires w <= n < a.Length
    modifies a
    ensures a[..n + 1] == Inserted(old(a[..n]), w, x)
  {
    ghost var was := a[..];
    if w < n {
      Bcopy(a, w, w + 1, n - w);
    }
    a[w] := x;
    assert a[..n + 1] == was[..w] + [x] + was[w..n];
    assert was[..n][..w] == was[..w] && was[..n][w..] == was[w..n];
  }

  // An entry is taken out from the first n, and those behind it move down.
  method RemoveAt<T>(a: array<T>, w: nat, n: nat)
    requires w < n <= a.Length
    modifies a
    ensures a[..n - 1] == Deleted(old(a[..n]), w)
  {
    ghost var was := a[..];
    if w < n - 1 {
      Bcopy(a, w + 1, w, n - 1 - w);
    }
    assert a[..n - 1] == was[..w] + was[w + 1..n];
    assert was[..n][..w] == was[..w] && was[..n][w + 1..] == was[w + 1..n];
  }
}
