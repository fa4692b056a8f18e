// Where a line of commands or arguments splits: at the delimiter, outside
// brackets, parentheses and braces, and not after an escape.
module SplitText {

  const STACKLIM := 32
  const ESC_CHAR := '\U{1B}'

  // The place after the brace group that was opened `lev` deep, or the end.
  function SkipBraces(s: string, j: nat, lev: nat): (k: nat)
    requires j <= |s| && lev > 0
    ensures j <= k <= |s|
    decreases |s| - j
  {
    if j == |s| then j
    else if s[j] == '\\' || s[j] == '%' then SkipBraces(s, if j + 1 < |s| then j + 2 else j + 1, lev)
    else if s[j] == '{' then SkipBraces(s, j + 1, lev + 1)
    else if s[j] == '}' then if lev == 1 then j + 1 else SkipBraces(s, j + 1, lev - 1)
    else SkipBraces(s, j + 1, lev)
  }

  // The topmost place of c on the stack, or -1.
  function Topmost(stack: seq<char>, c: char): (tp: int)
    ensures -1 <= tp < |stack|
    ensures tp >= 0 ==> stack[tp] == c
  {
    if stack == [] then -1
    else if stack[|stack| - 1] == c then |stack| - 1
    else Topmost(stack[..|stack| - 1], c)
  }

  function Push(stack: seq<char>, c: char): (r: seq<char>)
    ensures |stack| <= STACKLIM ==> |r| <= STACKLIM
  {
    if |stack| < STACKLIM then stack + [c] else stack
  }

  // The closing characters that are awaited after an ordinary character.
  function Opened(s: string, i: nat, stack: seq<char>): seq<char>
    requires i < |s|
  {
    if s[i] == '[' && !(i > 0 && s[i - 1] == ESC_CHAR) then Push(stack, ']')
    else if s[i] == '(' then Push(stack, ')')
    else stack
  }

  // The place of the delimiter, looking from i on, or the end of the text.
  function Find(s: string, i: nat, stack: seq<char>, delim: char): (k: nat)
    requires i <= |s|
    ensures i <= k <= |s|
    ensures k < |s| ==> s[k] == delim
    decreases |s| - i
  {
    if i == |s| then i
    else if s[i] == '\\' || s[i] == '%' then Find(s, if i + 1 < |s| then i + 2 else i + 1, stack, delim)
    else if s[i] == ']' || s[i] == ')' then
      var tp := Topmost(stack, s[i]);
      if tp >= 0 then Find(s, i + 1, stack[..tp], delim)
      else if s[i] == delim then i
      else Find(s, i + 1, stack, delim)
    else if s[i] == '{' then Find(s, SkipBraces(s, i + 1, 1), stack, delim)
    else if s[i] == delim && stack == [] then i
    else Find(s, i + 1, Opened(s, i, stack), delim)
  }

  function FirstSplit(s: string, delim: char): (k: nat)
    ensures k <= |s| && (k < |s| ==> s[k] == delim)
  {
    Find(s, 0, [], delim)
  }

  // The pieces of a line, as the callers take them off one after the other.
  function Pieces(s: string, delim: char): (ps: seq<string>)
    ensures ps != []
    decreases |s|
  {
    var k := FirstSplit(s, delim);
    if k == |s| then [s] else [s[..k]] + Pieces(s[k + 1..], delim)
  }

  function Join(ps: seq<string>, delim: char): string {
    if ps == [] then ""
    else if |ps| == 1 then ps[0]
    else ps[0] + [delim] + Join(ps[1..], delim)
  }

  // Splitting and joining again gives back the line.
  lemma {:induction false} JoinPieces(s: string, delim: char)
    ensures Join(Pieces(s, delim), delim) == s
    decreases |s|
  {
    var k := FirstSplit(s, delim);
    if k < |s| {
      JoinPieces(s[k + 1..], delim);
      var ps := Pieces(s, delim);
      assert ps[1..] == Pieces(s[k + 1..], delim);
      assert s == s[..k] + [delim] + s[k + 1..];
    }
  }

  lemma {:induction false} BracesInFront(s: string, j: nat, lev: nat, k: nat)
    requires j <= |s| && lev > 0 && SkipBraces(s, j, lev) <= k <= |s|
    ensures SkipBraces(s[..k], j, lev) == SkipBraces(s, j, lev)
    decreases |s| - j
  {
    if k == |s| {
      assert s[..k] == s;
    } else if j < |s| {
      if s[j] == '\\' || s[j] == '%' {
        BracesInFront(s, if j + 1 < |s| then j + 2 else j + 1, lev, k);
      } else if s[j] == '{' {
        BracesInFront(s, j + 1, lev + 1, k);
      } else if s[j] == '}' {
        if lev != 1 {
          BracesInFront(s, j + 1, lev - 1, k);
        }
      } else {
        BracesInFront(s, j + 1, lev, k);
      }
    }
  }

  lemma {:induction false} FoundInFront(s: string, i: nat, stack: seq<char>, delim: char)
    requires i <= |s|
    ensures var k := Find(s, i, stack, delim); Find(s[..k], i, stack, delim) == k
    decreases |s| - i
  {
    var k := Find(s, i, stack, delim);
    if k == |s| {
      assert s[..k] == s;
    } else if s[i] == '\\' || s[i] == '%' {
      FoundInFront(s, if i + 1 < |s| then i + 2 else i + 1, stack, delim);
    } else if s[i] == ']' || s[i] == ')' {
      var tp := Topmost(stack, s[i]);
      if tp >= 0 {
        FoundInFront(s, i + 1, stack[..tp], delim);
      } else if s[i] != delim {
        FoundInFront(s, i + 1, stack, delim);
      }
    } else if s[i] == '{' {
      BracesInFront(s, i + 1, 1, k);
      FoundInFront(s, SkipBraces(s, i + 1, 1), stack, delim);
    } else if !(s[i] == delim && stack == []) {
      FoundInFront(s, i + 1, Opened(s, i, stack), delim);
    }
  }

  // Every piece is one piece on its own.
  lemma {:induction false} PiecesAreWhole(s: string, delim: char, n: nat)
    requires n < |Pieces(s, delim)|
    ensures Pieces(Pieces(s, delim)[n], delim) == [Pieces(s, delim)[n]]
    decreases |s|
  {
    var k := FirstSplit(s, delim);
    FoundInFront(s, 0, [], delim);
    if k < |s| && n > 0 {
      PiecesAreWhole(s[k + 1..], delim, n - 1);
    }
  }
}
