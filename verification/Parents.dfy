// Parents of objects: an object inherits attributes along the chain of parents,
// which is followed for a limited number of steps.
module Parents {
  import opened Options

  const NOTHING := -1

  type Links = map<int, int>

  // The object k steps up; an object that does not exist has no parent.
  function Up(m: Links, t: int, k: nat): int
    decreases k
  {
    if k == 0 || t !in m then t else Up(m, m[t], k - 1)
  }

  // Going round from t in k steps.
  predicate Circle(m: Links, t: int, k: nat) {
    t in m && k > 0 && Up(m, t, k) == t
  }

  ghost predicate NoShortCircle(m: Links, lim: nat) {
    forall t, k: nat :: k <= lim ==> !Circle(m, t, k)
  }

  // ITER_PARENTS meets `thing` on the way up from p.
  ghost predicate Meets(m: Links, p: int, thing: int, lim: nat) {
    exists k: nat :: k < lim && Up(m, p, k) == thing && thing in m
  }

  // A circle through t within the limit.
  ghost predicate Closes(m: Links, t: int, lim: nat) {
    exists k: nat :: k <= lim && Circle(m, t, k)
  }

  lemma {:induction false} UpUp(m: Links, t: int, i: nat, j: nat)
    ensures Up(m, Up(m, t, i), j) == Up(m, t, i + j)
    decreases i
  {
    if i > 0 && t in m {
      UpUp(m, m[t], i - 1, j);
    } else if t !in m {
      Stuck(m, t, i + j);
      Stuck(m, t, j);
    }
  }

  lemma Stuck(m: Links, t: int, k: nat)
    requires t !in m
    ensures Up(m, t, k) == t
  {
  }

  // Until it comes to thing, a way up is the same whatever parent thing has.
  lemma {:induction false} SameWay(m: Links, thing: int, p: int, t: int, k: nat)
    requires thing in m
    requires forall j: nat :: j < k ==> Up(m, t, j) != thing
    ensures Up(m[thing := p], t, k) == Up(m, t, k)
    decreases k
  {
    if k > 0 && t in m {
      assert Up(m, t, 0) == t;
      forall j: nat | j < k - 1 ensures Up(m, m[t], j) != thing {
        assert Up(m, t, j + 1) == Up(m, m[t], j);
      }
      SameWay(m, thing, p, m[t], k - 1);
    }
  }

  // The first of the steps that come to thing, if any does.
  lemma {:induction false} FirstMeeting(m: Links, t: int, thing: int, k: nat) returns (j: nat)
    requires Up(m, t, k) == thing
    ensures j <= k && Up(m, t, j) == thing && forall i: nat :: i < j ==> Up(m, t, i) != thing
  {
    j := 0;
    while Up(m, t, j) != thing
      invariant j <= k && forall i: nat :: i < j ==> Up(m, t, i) != thing
      decreases k - j
    {
      j := j + 1;
    }
  }

  // The walk finds exactly the circles that the new parent would close within
  // the limit.
  lemma WalkFindsCircles(m: Links, thing: int, p: int, lim: nat)
    requires thing in m
    ensures Meets(m, p, thing, lim) <==> Closes(m[thing := p], thing, lim)
  {
    var m' := m[thing := p];
    if Meets(m, p, thing, lim) {
      var k: nat :| k < lim && Up(m, p, k) == thing;
      var j := FirstMeeting(m, p, thing, k);
      SameWay(m, thing, p, p, j);
      assert Circle(m', thing, j + 1);
    }
    if Closes(m', thing, lim) {
      var k: nat :| k <= lim && Circle(m', thing, k);
      assert Up(m', p, k - 1) == thing;
      var j := FirstMeeting(m', p, thing, k - 1);
      assert m'[thing := m[thing]] == m;
      SameWay(m', thing, m[thing], p, j);
      assert j < lim && Up(m, p, j) == thing;
    }
  }

  // A circle that does not pass thing was there before.
  lemma OldCircle(m: Links, m': Links, thing: int, p: int, t: int, k: nat)
    requires thing in m && m' == m[thing := p] && Circle(m', t, k)
    requires forall j: nat :: j < k ==> Up(m', t, j) != thing
    ensures Circle(m, t, k)
  {
    assert m'[thing := m[thing]] == m;
    SameWay(m', thing, m[thing], t, k);
    assert Up(m', t, 0) != thing;
  }

  // A circle can be entered at any object on it.
  lemma TurnedCircle(m: Links, t: int, k: nat, j: nat)
    requires Circle(m, t, k) && j < k && Up(m, t, j) in m
    ensures Circle(m, Up(m, t, j), k)
  {
    UpUp(m, t, j, k);
    UpUp(m, t, k, j);
    assert j + k == k + j;
  }

  lemma NewParentCloses(m: Links, m': Links, thing: int, p: int, lim: nat, t: int, k: nat)
    requires thing in m && m' == m[thing := p] && NoShortCircle(m, lim) && k <= lim && Circle(m', t, k)
    ensures Closes(m', thing, lim)
  {
    if forall j: nat :: j < k ==> Up(m', t, j) != thing {
      OldCircle(m, m', thing, p, t, k);
    } else {
      var j: nat :| j < k && Up(m', t, j) == thing;
      TurnedCircle(m', t, k, j);
    }
  }

  lemma NewParentKeeps(m: Links, m': Links, thing: int, p: int, lim: nat)
    requires thing in m && m' == m[thing := p] && NoShortCircle(m, lim) && !Meets(m, p, thing, lim)
    ensures NoShortCircle(m', lim)
  {
    WalkFindsCircles(m, thing, p, lim);
    forall t, k: nat | k <= lim && Circle(m', t, k) ensures false {
      NewParentCloses(m, m', thing, p, lim, t, k);
    }
  }

  // Without short circles a walk never meets the same object twice.
  lemma AncestorsDiffer(m: Links, t: int, lim: nat, i: nat, j: nat)
    requires NoShortCircle(m, lim) && i < j < lim && Up(m, t, i) in m
    ensures Up(m, t, i) != Up(m, t, j)
  {
    UpUp(m, t, i, j - i);
    assert !Circle(m, Up(m, t, i), j - i);
  }

  // ---------- the server's side ----------

  // An attribute as an object holds it.
  datatype Attribute = Attribute(text: string, owner: int, isPrivate: bool)

  class Database {
    var parent: Links
    const nestLim: nat
    // The attribute of one number, where it is set and not empty, and the owners.
    const attr: int -> Option<Attribute>
    const owner: int -> int

    constructor (parent: Links, nestLim: nat, attr: int -> Option<Attribute>, owner: int -> int)
      ensures this.parent == parent && this.nestLim == nestLim && this.attr == attr && this.owner == owner
    {
      this.parent, this.nestLim, this.attr, this.owner := parent, nestLim, attr, owner;
    }

    // do_parent, once the two objects are known and the player may do it;
    // `p` is NOTHING to clear the parent.
    method DoParent(thing: int, p: int) returns (ok: bool)
      requires thing in parent && (p in parent || p == NOTHING) && NOTHING !in parent
      modifies `parent
      ensures ok <==> !Closes(old(parent)[thing := p], thing, nestLim)
      ensures parent == if ok then old(parent)[thing := p] else old(parent)
      ensures NoShortCircle(old(parent), nestLim) ==> NoShortCircle(parent, nestLim)
    {
      WalkFindsCircles(parent, thing, p, nestLim);
      if p == NOTHING {
        WalkEnds(parent, p, thing, nestLim, 0);
      } else {
        var curr, lev: nat := p, 0;
        while curr in parent && lev < nestLim
          invariant parent == old(parent) && lev <= nestLim && curr == Up(parent, p, lev)
          invariant forall k: nat :: k < lev ==> Up(parent, p, k) != thing
        {
          if curr == thing {
            assert Meets(parent, p, thing, nestLim);
            return false;
          }
          UpUp(parent, p, lev, 1);
          curr, lev := parent[curr], lev + 1;
        }
        WalkEnds(parent, p, thing, nestLim, lev);
      }
      if NoShortCircle(parent, nestLim) {
        NewParentKeeps(parent, parent[thing := p], thing, p, nestLim);
      }
      parent := parent[thing := p];
      ok := true;
    }

    // Whether the attribute of the object k steps above t is the one that t
    // gets: its own, or one that is not private, if the number is inherited.
    ghost predicate Offers(t: int, k: nat, inherited: bool)
      reads `parent
    {
      var o := Up(parent, t, k);
      && k < nestLim && o in parent && attr(o).Some?
      && (k == 0 || (inherited && !attr(o).value.isPrivate))
    }

    // atr_pget_str: the nearest object within the limit that offers the
    // attribute, or the empty text. `inherited` tells that atr_num knows the
    // number and does not call it private.
    method AtrPget(t: int, inherited: bool) returns (r: Attribute)
      requires NOTHING !in parent
      ensures (exists k: nat :: Offers(t, k, inherited) && (forall j: nat :: j < k ==> !Offers(t, j, inherited))
                           && r == attr(Up(parent, t, k)).value)
              || ((forall k: nat :: !Offers(t, k, inherited)) && r == Attribute("", owner(t), false))
    {
      var p, lev: nat := t, 0;
      while p in parent && lev < nestLim
        invariant lev <= nestLim && p == Up(parent, t, lev) && (lev > 0 && p in parent ==> inherited)
        invariant forall k: nat :: k < lev ==> !Offers(t, k, inherited)
      {
        if attr(p).Some? && (lev == 0 || !attr(p).value.isPrivate) {
          return attr(p).value;
        }
        if lev == 0 && parent[p] in parent && !inherited {
          break;
        }
        UpUp(parent, t, lev, 1);
        p, lev := parent[p], lev + 1;
      }
      forall k: nat ensures !Offers(t, k, inherited) {
        if k >= lev && p !in parent {
          UpUp(parent, t, lev, k - lev);
          Stuck(parent, p, k - lev);
        }
      }
      return Attribute("", owner(t), false);
    }
  }

  lemma WalkEnds(m: Links, p: int, thing: int, lim: nat, lev: nat)
    requires lev <= lim && (lev == lim || Up(m, p, lev) !in m)
    requires forall k: nat :: k < lev ==> Up(m, p, k) != thing
    ensures !Meets(m, p, thing, lim)
  {
    forall k: nat | k < lim && thing in m ensures Up(m, p, k) != thing {
      if k >= lev {
        UpUp(m, p, lev, k - lev);
        Stuck(m, Up(m, p, lev), k - lev);
      }
    }
  }
}
