// Locks: the boolean expressions that guard objects.
module BoolExps {
  import opened Options
  import opened Text

  // `True` is the null lock; it is no part of a larger expression that the
  // parser builds. `thing` of Atr and Eval is an attribute number.
  datatype BoolExp =
    | True
    | And(sub1: BoolExp, sub2: BoolExp)
    | Or(sub1: BoolExp, sub2: BoolExp)
    | Not(sub1: BoolExp)
    | Const(thing: int)
    | Atr(thing: int, key: string)
    | Indir(sub1: BoolExp)
    | Carry(sub1: BoolExp)
    | Is(sub1: BoolExp)
    | Owner(sub1: BoolExp)
    | Eval(thing: int, key: string)

  const NOT_TOKEN := '!'
  const AND_TOKEN := '&'
  const OR_TOKEN := '|'
  const INDIR_TOKEN := '@'
  const CARRY_TOKEN := '+'
  const IS_TOKEN := '='
  const OWNER_TOKEN := '$'

  // The attribute table: the name of a number, and the number that mkattr finds
  // or makes for a name (0 or less when it cannot).
  datatype Attributes = Attributes(name: int -> Option<string>, mkattr: string -> int)

  // A character that ends the text of an attribute lock.
  predicate EndsKey(c: char) {
    c == ')' || c == OR_TOKEN || c == AND_TOKEN
  }

  ghost predicate CleanKey(key: string) {
    forall i :: 0 <= i < |key| ==> !EndsKey(key[i])
  }

  ghost predicate Trimmed(s: string) {
    s != "" ==> !IsSpace(s[|s| - 1])
  }

  // What the lock parser builds: @ and $ stand before an object, = and + before
  // an object or an attribute, numbers have 32 bits, and no attribute text holds
  // an operator or ends with a space.
  ghost predicate Lockable(b: BoolExp) {
    match b
    case True => false
    case And(l, r) => Lockable(l) && Lockable(r)
    case Or(l, r) => Lockable(l) && Lockable(r)
    case Not(s) => Lockable(s)
    case Const(thing) => Int(thing)
    case Atr(n, key) => Int(n) && CleanKey(key) && Trimmed(key)
    case Eval(n, key) => Int(n) && CleanKey(key) && Trimmed(key)
    case Indir(s) => s.Const? && Lockable(s)
    case Owner(s) => s.Const? && Lockable(s)
    case Is(s) => (s.Const? || s.Atr?) && Lockable(s)
    case Carry(s) => (s.Const? || s.Atr?) && Lockable(s)
  }

  // What holds of the objects and attributes in a lock.
  ghost predicate Leaves(b: BoolExp, q: BoolExp -> bool) {
    match b
    case True => true
    case And(l, r) => Leaves(l, q) && Leaves(r, q)
    case Or(l, r) => Leaves(l, q) && Leaves(r, q)
    case Const(_) => q(b)
    case Atr(_, _) => q(b)
    case Eval(_, _) => q(b)
    case Not(s) => Leaves(s, q)
    case Indir(s) => Leaves(s, q)
    case Owner(s) => Leaves(s, q)
    case Is(s) => Leaves(s, q)
    case Carry(s) => Leaves(s, q)
  }

  lemma {:induction false} LeavesWeaker(b: BoolExp, p: BoolExp -> bool, q: BoolExp -> bool)
    requires Leaves(b, p) && forall x :: p(x) ==> q(x)
    ensures Leaves(b, q)
  {
    match b
    case And(l, r) =>
      LeavesWeaker(l, p, q);
      LeavesWeaker(r, p, q);
    case Or(l, r) =>
      LeavesWeaker(l, p, q);
      LeavesWeaker(r, p, q);
    case Not(s) => LeavesWeaker(s, p, q);
    case Indir(s) => LeavesWeaker(s, p, q);
    case Owner(s) => LeavesWeaker(s, p, q);
    case Is(s) => LeavesWeaker(s, p, q);
    case Carry(s) => LeavesWeaker(s, p, q);
    case _ =>
  }
}
