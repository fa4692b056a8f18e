// The sort that is safe for any comparison function, however inconsistent.
module SaneSort {

  // The rearrangement of the places lo..hi of a sequence; the rest stays.
  ghost predicate Rearranged<T>(s: seq<T>, t: seq<T>, lo: int, hi: int) {
    && |s| == |t| && multiset(s) == multiset(t)
    && forall i :: 0 <= i < |s| && !(lo <= i <= hi) ==> s[i] == t[i]
  }

  lemma RearrangedTwice<T>(r: seq<T>, s: seq<T>, t: seq<T>, lo: int, hi: int, lo': int, hi': int)
    requires Rearranged(r, s, lo, hi) && Rearranged(s, t, lo', hi') && lo <= lo' && hi' <= hi
    ensures Rearranged(r, t, lo, hi)
  {
  }

  lemma SwapRearranges<T>(s: seq<T>, i: nat, j: nat, lo: int, hi: int)
    requires i < |s| && j < |s| && lo <= i <= hi && lo <= j <= hi
    ensures Rearranged(s, s[i := s[j]][j := s[i]], lo, hi)
  {
  }

  lemma MiddlesAgree<T>(a: seq<T>, b: seq<T>, b': seq<T>, c: seq<T>)
    requires multiset(a + b + c) == multiset(a + b' + c)
    ensures multiset(b) == multiset(b')
  {
    assert multiset(b) == multiset(a + b + c) - multiset(a) - multiset(c);
  }

  // What holds of all the elements in the range still does after rearranging it.
  lemma RangeKeeps<T>(s: seq<T>, t: seq<T>, lo: nat, hi: int, p: T -> bool)
    requires Rearranged(s, t, lo, hi) && hi < |s| && lo <= hi + 1
    requires forall i :: lo <= i <= hi ==> p(s[i])
    ensures forall i :: lo <= i <= hi ==> p(t[i])
  {
    var b, b' := s[lo..hi + 1], t[lo..hi + 1];
    assert s == s[..lo] + b + s[hi + 1..];
    assert t == s[..lo] + b' + s[hi + 1..];
    MiddlesAgree(s[..lo], b, b', s[hi + 1..]);
    forall i | lo <= i <= hi ensures p(t[i]) {
      assert b'[i - lo] in multiset(b');
      assert t[i] in b;
    }
  }

  // A comparison that may answer anything, and differently each time; k counts
  // the questions.
  type Compare<!T> = (nat, T, T) -> int

  // It puts the elements in the order of le, a total preorder.
  ghost predicate Orders<T(!new)>(cmp: Compare<T>, le: (T, T) -> bool) {
    && (forall k: nat, x, y :: cmp(k, x, y) < 0 <==> !le(y, x))
    && (forall x, y :: le(x, y) || le(y, x))
    && (forall x, y, z :: le(x, y) && le(y, z) ==> le(x, z))
  }

  lemma Answer<T(!new)>(cmp: Compare<T>, le: (T, T) -> bool, k: nat, x: T, y: T)
    requires Orders(cmp, le)
    ensures cmp(k, x, y) < 0 <==> !le(y, x)
  {
  }

  ghost predicate SortedRange<T>(s: seq<T>, lo: int, hi: int, le: (T, T) -> bool)
    requires 0 <= lo && hi < |s|
  {
    forall i, j :: lo <= i < j <= hi ==> le(s[i], s[j])
  }

  // What the partition leaves: smaller elements, the pivot at `last`, the others.
  ghost predicate Split<T>(s: seq<T>, lo: int, last: int, hi: int, le: (T, T) -> bool)
    requires 0 <= lo <= last <= hi < |s|
  {
    && (forall i :: lo <= i < last ==> !le(s[last], s[i]))
    && (forall i :: last < i <= hi ==> le(s[last], s[i]))
  }

  // The partition half way: the pivot waits in front, smaller elements follow
  // up to `last`, others up to i.
  ghost predicate HalfSplit<T>(s: seq<T>, lo: int, last: int, i: int, le: (T, T) -> bool)
    requires 0 <= lo <= last < i <= |s|
  {
    && (forall k :: lo < k <= last ==> !le(s[lo], s[k]))
    && (forall k :: last < k < i ==> le(s[lo], s[k]))
  }

  lemma HalfSplitSteps<T>(s: seq<T>, lo: int, last: int, i: int, le: (T, T) -> bool)
    requires 0 <= lo <= last < i < |s| && HalfSplit(s, lo, last, i, le)
    ensures le(s[lo], s[i]) ==> HalfSplit(s, lo, last, i + 1, le)
    ensures !le(s[lo], s[i]) ==> HalfSplit(s[last + 1 := s[i]][i := s[last + 1]], lo, last + 1, i + 1, le)
  {
  }

  lemma HalfSplitEnds<T>(s: seq<T>, lo: int, last: int, le: (T, T) -> bool, hi: int)
    requires 0 <= lo <= last <= hi < |s| && HalfSplit(s, lo, last, hi + 1, le)
    ensures Split(s[last := s[lo]][lo := s[last]], lo, last, hi, le)
  {
  }

  function Pow2(n: nat): nat {
    if n == 0 then 1 else 2 * Pow2(n - 1)
  }

  method Swap<T>(a: array<T>, i: int, j: int, ghost lo: int, ghost hi: int)
    requires 0 <= i < a.Length && 0 <= j < a.Length && lo <= i <= hi && lo <= j <= hi
    modifies a
    ensures a[..] == old(a[..])[i := old(a[j])][j := old(a[i])]
    ensures Rearranged(old(a[..]), a[..], lo, hi)
  {
    SwapRearranges(a[..], i, j, lo, hi);
    var tmp := a[i];
    a[i] := a[j];
    a[j] := tmp;
  }

  // A smaller element joins the others of its kind.
  method MoveDown<T>(a: array<T>, last: int, i: int, ghost lo: int, ghost hi: int)
    requires 0 <= last <= i < a.Length && lo <= last && i <= hi
    modifies a
    ensures a[..] == old(a[..])[last := old(a[i])][i := old(a[last])]
    ensures Rearranged(old(a[..]), a[..], lo, hi)
  {
    if last == i {
      return;
    }
    Swap(a, last, i, lo, hi);
  }

  // The walk over the range, with the pivot in its first place.
  method Walk<T(!new)>(a: array<T>, left: int, right: int, cmp: Compare<T>, calls: nat, ghost le: (T, T) -> bool)
      returns (last: int, calls': nat)
    requires 0 <= left < right < a.Length
    modifies a
    ensures left <= last <= right && Rearranged(old(a[..]), a[..], left, right)
    ensures Orders(cmp, le) ==> HalfSplit(a[..], left, last, right + 1, le)
  {
    last, calls' := left, calls;
    var i := left + 1;
    assert HalfSplit(a[..], left, last, i, le);
    hide Rearranged, Orders, HalfSplit;
    while i <= right
      invariant left <= last < i <= right + 1
      invariant Rearranged(old(a[..]), a[..], left, right)
      invariant Orders(cmp, le) ==> HalfSplit(a[..], left, last, i, le)
    {
      if Orders(cmp, le) {
        Answer(cmp, le, calls', a[i], a[left]);
        HalfSplitSteps(a[..], left, last, i, le);
      }
      var c := cmp(calls', a[i], a[left]);
      calls' := calls' + 1;
      if c < 0 {
        last := last + 1;
        ghost var before := a[..];
        MoveDown(a, last, i, left, right);
        RearrangedTwice(old(a[..]), before, a[..], left, right, left, right);
      }
      i := i + 1;
    }
  }

  method Partition<T(!new)>(a: array<T>, left: int, right: int, cmp: Compare<T>, calls: nat, ghost le: (T, T) -> bool)
      returns (last: int, calls': nat)
    requires 0 <= left < right < a.Length
    modifies a
    ensures left <= last <= right && Rearranged(old(a[..]), a[..], left, right)
    ensures Orders(cmp, le) ==> Split(a[..], left, last, right, le)
  {
    hide Rearranged, Orders, HalfSplit, Split;
    // any element will do for the pivot
    var i :| 0 <= i <= right - left;
    Swap(a, left + i, left, left, right);
    ghost var before := a[..];
    last, calls' := Walk(a, left, right, cmp, calls, le);
    RearrangedTwice(old(a[..]), before, a[..], left, right, left, right);
    before := a[..];
    Swap(a, last, left, left, right);
    RearrangedTwice(old(a[..]), before, a[..], left, right, left, right);
    if Orders(cmp, le) {
      HalfSplitEnds(before, left, last, le, right);
    }
  }

  // Sorting a part keeps its distance from a pivot outside it.
  lemma SplitKept<T(!new)>(s: seq<T>, t: seq<T>, lo: int, last: int, hi: int, lo': int, hi': int, le: (T, T) -> bool)
    requires 0 <= lo <= last <= hi < |s| == |t| && Split(s, lo, last, hi, le)
    requires Rearranged(s, t, lo', hi')
    requires (lo' == lo && hi' == last - 1) || (lo' == last + 1 && hi' == hi)
    ensures Split(t, lo, last, hi, le)
  {
    if hi' == last - 1 {
      RangeKeeps(s, t, lo', hi', x => !le(s[last], x));
    } else {
      RangeKeeps(s, t, lo', hi', x => le(s[last], x));
    }
  }

  // Of the range lo..hi all but the places lo'..hi' are settled.
  ghost predicate Settled<T>(s: seq<T>, lo: int, hi: int, lo': int, hi': int, le: (T, T) -> bool)
    requires 0 <= lo && hi < |s|
  {
    forall i, j :: lo <= i < j <= hi && !(lo' <= i && j <= hi') ==> le(s[i], s[j])
  }

  lemma SettledKept<T(!new)>(s: seq<T>, t: seq<T>, lo: int, hi: int, lo': int, hi': int, le: (T, T) -> bool)
    requires 0 <= lo <= lo' <= hi' + 1 && hi' <= hi < |s| == |t|
    requires Settled(s, lo, hi, lo', hi', le) && Rearranged(s, t, lo', hi')
    ensures Settled(t, lo, hi, lo', hi', le)
  {
    forall i, j | lo <= i < j <= hi && !(lo' <= i && j <= hi') ensures le(t[i], t[j]) {
      if i < lo' <= j <= hi' {
        RangeKeeps(s, t, lo', hi', x => le(s[i], x));
      } else if lo' <= i <= hi' < j {
        RangeKeeps(s, t, lo', hi', x => le(x, s[j]));
      }
    }
  }

  lemma SettledLeft<T(!new)>(s: seq<T>, lo: int, hi: int, lo': int, last: int, hi': int, le: (T, T) -> bool)
    requires 0 <= lo <= lo' <= last <= hi' <= hi < |s|
    requires Settled(s, lo, hi, lo', hi', le) && Split(s, lo', last, hi', le) && SortedRange(s, lo', last - 1, le)
    requires forall x, y :: le(x, y) || le(y, x)
    requires forall x, y, z :: le(x, y) && le(y, z) ==> le(x, z)
    ensures Settled(s, lo, hi, last + 1, hi', le)
  {
    forall i, j | lo <= i < j <= hi && !(last + 1 <= i && j <= hi') ensures le(s[i], s[j]) {
      if lo' <= i < last < j <= hi' {
        assert le(s[i], s[last]) && le(s[last], s[j]);
      }
    }
  }

  lemma SettledRight<T(!new)>(s: seq<T>, lo: int, hi: int, lo': int, last: int, hi': int, le: (T, T) -> bool)
    requires 0 <= lo <= lo' <= last <= hi' <= hi < |s|
    requires Settled(s, lo, hi, lo', hi', le) && Split(s, lo', last, hi', le) && SortedRange(s, last + 1, hi', le)
    requires forall x, y :: le(x, y) || le(y, x)
    requires forall x, y, z :: le(x, y) && le(y, z) ==> le(x, z)
    ensures Settled(s, lo, hi, lo', last - 1, le)
  {
    forall i, j | lo <= i < j <= hi && !(lo' <= i && j <= last - 1) ensures le(s[i], s[j]) {
      if lo' <= i < last < j <= hi' {
        assert le(s[i], s[last]) && le(s[last], s[j]);
      }
    }
  }

  // Recursion on a side that is not the larger doubles the room each time.
  lemma SmallerSide(n: int, m: int, depth: nat)
    requires 0 <= m && 2 * m + 1 <= n && Pow2(depth) <= m + 1
    ensures Pow2(depth + 1) <= n + 1
  {
  }

  function Max(a: nat, b: nat): nat {
    if a < b then b else a
  }

  // One round: the range lo..hi is split, its smaller side sorted, and the other
  // side is left to do.
  method Round<T(!new)>(a: array<T>, left: int, right: int, lo: int, hi: int, cmp: Compare<T>, calls: nat,
                        ghost le: (T, T) -> bool)
      returns (lo': int, hi': int, calls': nat, ghost depth: nat)
    requires 0 <= left <= lo < hi <= right < a.Length
    requires Orders(cmp, le) ==> Settled(a[..], left, right, lo, hi, le)
    modifies a
    ensures lo <= lo' <= hi' + 1 && hi' <= hi && hi' - lo' < hi - lo
    ensures Rearranged(old(a[..]), a[..], lo, hi) && Pow2(depth) <= hi - lo + 2
    ensures Orders(cmp, le) ==> Settled(a[..], left, right, lo', hi', le)
    decreases hi - lo, 0
  {
    ghost var s := a[..];
    var last;
    last, calls' := Partition(a, lo, hi, cmp, calls, le);
    ghost var t := a[..];
    var from, to := if last - lo < hi - last then lo else last + 1, if last - lo < hi - last then last - 1 else hi;
    calls', depth := SaneQsort(a, from, to, cmp, calls', le);
    SmallerSide(hi - lo + 1, to - from + 1, depth);
    depth := depth + 1;
    RearrangedTwice(s, t, a[..], lo, hi, from, to);
    if Orders(cmp, le) {
      SettledKept(s, a[..], left, right, lo, hi, le);
      SplitKept(t, a[..], lo, last, hi, from, to, le);
    }
    if last - lo < hi - last {
      lo', hi' := last + 1, hi;
      if Orders(cmp, le) {
        SettledLeft(a[..], left, right, lo, last, hi, le);
      }
    } else {
      lo', hi' := lo, last - 1;
      if Orders(cmp, le) {
        SettledRight(a[..], left, right, lo, last, hi, le);
      }
    }
  }

  // For any comparison the range is rearranged and nothing else touched; for one
  // that orders, it is sorted; calls are nested at most log2(n + 1) deep.
  method SaneQsort<T(!new)>(a: array<T>, left: int, right: int, cmp: Compare<T>, calls: nat, ghost le: (T, T) -> bool)
      returns (calls': nat, ghost depth: nat)
    requires 0 <= left <= right + 1 && right < a.Length
    modifies a
    ensures Rearranged(old(a[..]), a[..], left, right)
    ensures Orders(cmp, le) ==> SortedRange(a[..], left, right, le)
    ensures Pow2(depth) <= right - left + 2
    decreases right - left, 1
  {
    calls', depth := calls, 0;
    var lo, hi := left, right;
    while lo < hi
      invariant left <= lo <= hi + 1 && hi <= right
      invariant Rearranged(old(a[..]), a[..], left, right)
      invariant Orders(cmp, le) ==> Settled(a[..], left, right, lo, hi, le)
      invariant Pow2(depth) <= right - left + 2
      decreases hi - lo
    {
      ghost var d;
      ghost var s, lo0, hi0 := a[..], lo, hi;
      lo, hi, calls', d := Round(a, left, right, lo, hi, cmp, calls', le);
      RearrangedTwice(old(a[..]), s, a[..], left, right, lo0, hi0);
      depth := Max(depth, d);
    }
  }
}
