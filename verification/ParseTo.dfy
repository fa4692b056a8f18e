// The splitter of command lines, working in place on a buffer: pieces are cut
// off at the delimiter and, when the flags ask for it, freed of spaces, escapes
// and braces on the way.
module ParseTo {
  import opened Options
  import opened PieceText
  import opened SplitText
  import opened Text

  // A C string from `from` to the terminator at n.
  ghost predicate Terminated(s: string, from: nat, n: nat) {
    from <= n < |s| && s[n] == '\0' && forall i :: from <= i < n ==> s[i] != '\0'
  }

  lemma OnlyAtEnd(s: string, from: nat, n: nat, i: nat)
    requires Terminated(s, from, n) && from <= i <= n
    ensures s[i] == '\0' <==> i == n
  {
  }

  // The buffer while it is read at c and written at z: nothing beyond z has been
  // touched, so what is still to be read is as it was.
  ghost predicate Copying(now: string, was: string, start: int, r: int, z: int, c: int, n: int, out: string) {
    && 0 <= start <= r <= z <= c <= n < |was| == |now|
    && now[r..z] == out
    && '\0' !in out
    && (forall i :: 0 <= i < |was| && !(start <= i < z) ==> now[i] == was[i])
    && (z == c ==> now == was)
  }

  lemma AfterCopy(now: string, next: string, was: string, start: int, r: int, z: int, c: int, n: int, out: string)
    requires Copying(now, was, start, r, z, c, n, out) && c < n && was[c] != '\0'
    requires next == if c != z then now[z := now[c]] else now
    ensures Copying(next, was, start, r, z + 1, c + 1, n, out + [was[c]])
  {
    assert next[r..z + 1] == now[r..z] + [was[c]];
  }

  // The characters at the read pointer and around it are the original ones.
  lemma Unread(now: string, was: string, start: int, r: int, z: int, c: int, n: int, out: string)
    requires Copying(now, was, start, r, z, c, n, out)
    ensures 0 <= start <= r <= z <= c <= n < |was| == |now| && now[c] == was[c]
    ensures c < n ==> now[c + 1] == was[c + 1]
    ensures c > start ==> now[c - 1] == was[c - 1]
  {
  }

  // One character is copied down, or stays where it is.
  method NextChar(buf: array<char>, z: int, c: int,
                  ghost was: string, ghost start: int, ghost r: int, ghost n: int, ghost out: string)
      returns (z': int, c': int)
    requires Copying(buf[..], was, start, r, z, c, n, out) && c < n && was[c] != '\0'
    modifies buf
    ensures Copying(buf[..], was, start, r, z', c', n, out + [was[c]]) && c' == c + 1 && z' == z + 1
  {
    ghost var now := buf[..];
    if c != z {
      buf[z] := buf[c];
    }
    AfterCopy(now, buf[..], was, start, r, z, c, n, out);
    c', z' := c + 1, z + 1;
  }

  // Inside a brace group: what has been written, and what is still to come,
  // make up the text of the group.
  ghost predicate Inside(s: string, j: int, lev: int, f: Flags, out: string, end: int, whole: string) {
    && 0 <= lev && 0 <= j <= |s|
    && (lev > 0 ==> end == SkipBraces(s, j, lev) && out + Braced(s, j, lev, f) == whole)
    && (lev == 0 ==> j < |s| && s[j] == '}' && end == j + 1 && out + (if f.strip then "" else "}") == whole)
  }

  lemma InsideEscape(s: string, j: int, lev: int, f: Flags, out: string, end: int, whole: string)
    requires Inside(s, j, lev, f, out, end, whole) && lev > 0 && j + 1 < |s| && IsEscape(s[j])
    ensures Inside(s, j + 2, lev, f, out + Kept(s[j], f) + [s[j + 1]], end, whole)
  {
    Reassociate(out, Kept(s[j], f) + [s[j + 1]], Braced(s, j + 2, lev, f));
    Reassociate(out, Kept(s[j], f), [s[j + 1]]);
  }

  lemma InsideChar(s: string, j: int, lev: int, f: Flags, out: string, end: int, whole: string)
    requires Inside(s, j, lev, f, out, end, whole) && lev > 0 && j < |s|
    requires IsEscape(s[j]) ==> j + 1 == |s|
    ensures
      var lev' := if s[j] == '{' then lev + 1 else if s[j] == '}' then lev - 1 else lev;
      if lev' == 0 then Inside(s, j, 0, f, out, end, whole) else Inside(s, j + 1, lev', f, out + [s[j]], end, whole)
  {
    var lev' := if s[j] == '{' then lev + 1 else if s[j] == '}' then lev - 1 else lev;
    if lev' > 0 {
      if IsEscape(s[j]) {
        assert Braced(s, j + 1, lev, f) == "";
      }
      Reassociate(out, [s[j]], Braced(s, j + 1, lev', f));
    }
  }

  // One character inside braces, or an escape and the character after it.
  method BraceEscape(buf: array<char>, z: int, c: int, lev: int, f: Flags,
                     ghost was: string, ghost start: int, ghost r: int, ghost n: int, ghost out: string,
                     ghost end: int, ghost whole: string)
      returns (z': int, c': int, ghost out': string)
    requires Copying(buf[..], was, start, r, z, c, n, out) && Terminated(was, start, n) && c < n && IsEscape(was[c])
    requires lev > 0 && Inside(was[start..n], c - start, lev, f, out, end, whole)
    modifies buf
    ensures Copying(buf[..], was, start, r, z', c', n, out') && c' > c
    ensures Inside(was[start..n], c' - start, lev, f, out', end, whole)
  {
    Unread(buf[..], was, start, r, z, c, n, out);
    z', c', out' := z, c, out;
    ghost var s := was[start..n];
    assert s[c - start] == was[c];
    if buf[c + 1] != '\0' {
      assert c + 1 < n && s[c + 1 - start] == was[c + 1];
      InsideEscape(s, c - start, lev, f, out, end, whole);
      hide Inside;
      if buf[c] == '\\' && f.stripEsc {
        c' := c + 1;
        assert out + Kept(was[c], f) == out;
      } else {
        z', c' := NextChar(buf, z, c, was, start, r, n, out);
        out' := out + [was[c]];
      }
    } else {
      assert c + 1 == n;
      InsideChar(s, c - start, lev, f, out, end, whole);
      hide Inside;
    }
    hide Inside;
    ghost var c1, out1 := c', out';
    z', c' := NextChar(buf, z', c', was, start, r, n, out');
    out' := out1 + [was[c1]];
  }

  method BraceChar(buf: array<char>, z: int, c: int, lev: int, f: Flags,
                   ghost was: string, ghost start: int, ghost r: int, ghost n: int, ghost out: string,
                   ghost end: int, ghost whole: string)
      returns (z': int, c': int, lev': int, ghost out': string)
    requires Copying(buf[..], was, start, r, z, c, n, out) && Terminated(was, start, n) && c < n && !IsEscape(was[c])
    requires lev > 0 && Inside(was[start..n], c - start, lev, f, out, end, whole)
    modifies buf
    ensures Copying(buf[..], was, start, r, z', c', n, out') && c' >= c && lev' >= 0 && (c' > c || lev' < lev)
    ensures Inside(was[start..n], c' - start, lev', f, out', end, whole)
  {
    Unread(buf[..], was, start, r, z, c, n, out);
    assert was[start..n][c - start] == was[c];
    InsideChar(was[start..n], c - start, lev, f, out, end, whole);
    hide Inside, Braced;
    z', c', lev', out' := z, c, lev, out;
    if buf[c] == '{' {
      lev' := lev + 1;
    } else if buf[c] == '}' {
      lev' := lev - 1;
    }
    if lev' > 0 {
      z', c' := NextChar(buf, z, c, was, start, r, n, out);
      out' := out + [was[c]];
    }
  }

  // The opening brace and the closing one, unless the flags drop them.
  method EndBrace(buf: array<char>, z: int, c: int, f: Flags,
                  ghost was: string, ghost start: int, ghost r: int, ghost n: int, ghost out: string)
      returns (z': int, c': int, ghost out': string)
    requires Copying(buf[..], was, start, r, z, c, n, out) && c < n && (was[c] == '{' || was[c] == '}')
    modifies buf
    ensures Copying(buf[..], was, start, r, z', c', n, out') && c' == c + 1
    ensures out' == out + if f.strip then "" else [was[c]]
  {
    if f.strip {
      c', z', out' := c + 1, z, out;
      assert out + "" == out;
    } else {
      z', c' := NextChar(buf, z, c, was, start, r, n, out);
      out' := out + [was[c]];
    }
  }

  // The group after its opening brace, up to the closing one.
  method CopyInside(buf: array<char>, z: int, c: int, f: Flags,
                    ghost was: string, ghost start: int, ghost r: int, ghost n: int, ghost out: string,
                    ghost end: int, ghost whole: string)
      returns (z': int, c': int, lev: int, ghost out': string)
    requires Copying(buf[..], was, start, r, z, c, n, out) && Terminated(was, start, n)
    requires Inside(was[start..n], c - start, 1, f, out, end, whole)
    modifies buf
    ensures Copying(buf[..], was, start, r, z', c', n, out') && lev >= 0 && (lev == 0 || c' == n)
    ensures Inside(was[start..n], c' - start, lev, f, out', end, whole)
  {
    hide Copying, Inside, Terminated;
    z', c', lev, out' := z, c, 1, out;
    Unread(buf[..], was, start, r, z', c', n, out');
    while buf[c'] != '\0' && lev > 0
      invariant 0 <= start <= c' <= n < buf.Length == |was| && buf[c'] == was[c'] && lev >= 0
      invariant Copying(buf[..], was, start, r, z', c', n, out')
      invariant Inside(was[start..n], c' - start, lev, f, out', end, whole)
      decreases n - c', lev
    {
      OnlyAtEnd(was, start, n, c');
      if IsEscape(buf[c']) {
        z', c', out' := BraceEscape(buf, z', c', lev, f, was, start, r, n, out', end, whole);
      } else {
        z', c', lev, out' := BraceChar(buf, z', c', lev, f, was, start, r, n, out', end, whole);
      }
      Unread(buf[..], was, start, r, z', c', n, out');
    }
    OnlyAtEnd(was, start, n, c');
  }

  // A brace group, from its opening brace.
  method CopyBraces(buf: array<char>, z: int, c: int, f: Flags,
                    ghost was: string, ghost start: int, ghost r: int, ghost n: int, ghost out: string)
      returns (z': int, c': int, ghost out': string)
    requires Copying(buf[..], was, start, r, z, c, n, out) && Terminated(was, start, n) && c < n && was[c] == '{'
    modifies buf
    ensures Copying(buf[..], was, start, r, z', c', n, out')
    ensures c' == start + SkipBraces(was[start..n], c - start + 1, 1)
    ensures out' == out + ((if f.strip then "" else "{") + Braced(was[start..n], c - start + 1, 1, f))
  {
    ghost var s := was[start..n];
    ghost var end := SkipBraces(s, c - start + 1, 1);
    ghost var rest := Braced(s, c - start + 1, 1, f);
    ghost var opening := if f.strip then "" else "{";
    Reassociate(out, opening, rest);
    var lev;
    z', c', out' := EndBrace(buf, z, c, f, was, start, r, n, out);
    z', c', lev, out' := CopyInside(buf, z', c', f, was, start, r, n, out', end, out + opening + rest);
    if lev == 0 {
      z', c', out' := EndBrace(buf, z', c', f, was, start, r, n, out');
    } else {
      assert Braced(s, |s|, lev, f) == "";
      assert out' + "" == out';
    }
  }

  // An escape and the character after it, if there is one.
  method CopyEscape(buf: array<char>, z: int, c: int, f: Flags,
                    ghost was: string, ghost start: int, ghost r: int, ghost n: int, ghost out: string)
      returns (z': int, c': int, ghost out': string)
    requires Copying(buf[..], was, start, r, z, c, n, out) && Terminated(was, start, n) && c < n && IsEscape(was[c])
    modifies buf
    ensures Copying(buf[..], was, start, r, z', c', n, out')
    ensures c + 1 < n ==> c' == c + 2 && out' == out + Kept(was[c], f) + [was[c + 1]]
    ensures c + 1 == n ==> c' == c + 1 && out' == out + Kept(was[c], f)
  {
    Unread(buf[..], was, start, r, z, c, n, out);
    if buf[c] == '\\' && f.stripEsc {
      c', z', out' := c + 1, z, out;
      assert out + Kept(was[c], f) == out;
    } else {
      z', c' := NextChar(buf, z, c, was, start, r, n, out);
      out' := out + [was[c]];
    }
    assert out' == out + Kept(was[c], f);
    hide Copying, Kept;
    Unread(buf[..], was, start, r, z', c', n, out');
    OnlyAtEnd(was, start, n, c + 1);
    if buf[c'] != '\0' {
      z', c' := NextChar(buf, z', c', was, start, r, n, out');
      out' := out' + [was[c + 1]];
    }
  }

  // A space that is dropped: at the front it moves the piece instead.
  method DropSpace(buf: array<char>, r: int, z: int, c: int, first: bool,
                   ghost was: string, ghost start: int, ghost n: int, ghost out: string)
      returns (r': int, z': int, c': int)
    requires Copying(buf[..], was, start, r, z, c, n, out) && c < n && was[c] == ' '
    requires if first then out == "" else EndsBlank(out)
    modifies buf
    ensures Copying(buf[..], was, start, r', z', c', n, out) && c' == c + 1 && (!first ==> r' == r)
  {
    Unread(buf[..], was, start, r, z, c, n, out);
    r', z' := r, z;
    if first {
      r' := r + 1;
    } else {
      assert buf[..][r..z][z - 1 - r] == ' ';
      z' := z - 1;
    }
    ghost var now := buf[..];
    if c != z' {
      buf[z'] := buf[c];
    }
    assert first || buf[..] == now;
    c', z' := c + 1, z' + 1;
    if first {
      assert buf[..][r'..z'] == "";
    }
  }

  // A space: when spaces are squeezed it is dropped at the front and after
  // another one.
  method CopySpace(buf: array<char>, r: int, z: int, c: int, f: Flags, first: bool,
                   ghost was: string, ghost start: int, ghost n: int, ghost out: string)
      returns (r': int, z': int, c': int, ghost out': string)
    requires Copying(buf[..], was, start, r, z, c, n, out) && c < n && was[c] == ' '
    requires !first ==> c > start && (was[c - 1] == ' ' ==> EndsBlank(out))
    requires first && Squeezes(f) ==> out == ""
    modifies buf
    ensures Copying(buf[..], was, start, r', z', c', n, out') && c' == c + 1 && (!first ==> r' == r)
    ensures out' == if Dropped(was[start..n], c - start, f, first) then out else out + [' ']
  {
    Unread(buf[..], was, start, r, z, c, n, out);
    assert was[start..n][c - start] == was[c] && (c > start ==> was[start..n][c - 1 - start] == was[c - 1]);
    hide Copying;
    r', out' := r, out;
    if f.compress && !f.noCompress && (first || buf[c - 1] == ' ') {
      r', z', c' := DropSpace(buf, r, z, c, first, was, start, n, out);
    } else {
      z', c' := NextChar(buf, z, c, was, start, r, n, out);
      out' := out + [' '];
    }
  }

  // What the main loop has to do: the buffer as it was, the text to be split from
  // start to its terminator at n, the place k where it splits, and the whole piece.
  datatype Job = Job(was: string, start: int, n: int, s: string, k: int, whole: string)

  function JobOf(was: string, start: nat, n: nat, delim: char, f: Flags): Job
    requires start <= n <= |was|
  {
    var s := was[start..n];
    Job(was, start, n, s, FirstSplit(s, delim), Treated(s, 0, FirstSplit(s, delim), f, true))
  }

  // The state of the main loop: the buffer is copied and the scan goes on.
  ghost predicate Going(now: string, job: Job, r: int, z: int, c: int, out: string, f: Flags, first: bool) {
    && Copying(now, job.was, job.start, r, z, c, job.n, out)
    && Terminated(job.was, job.start, job.n) && job.s == job.was[job.start..job.n]
    && Progress(job.s, c - job.start, job.k, f, first, out, job.whole)
    && (!first ==> r < c)
  }

  lemma Reading(now: string, job: Job, r: int, z: int, c: int, out: string, f: Flags, first: bool)
    requires Going(now, job, r, z, c, out, f, first)
    ensures 0 <= job.start <= r <= z <= c <= job.n < |job.was| == |now| && |job.s| == job.n - job.start
    ensures now[c] == job.was[c]
    ensures if c < job.n then job.s[c - job.start] == job.was[c] != '\0' else job.was[c] == '\0'
    ensures c + 1 < job.n ==> job.s[c + 1 - job.start] == job.was[c + 1]
    ensures if c > job.start then now[c - 1] == job.was[c - 1] == job.s[c - 1 - job.start] else first
  {
    Unread(now, job.was, job.start, r, z, c, job.n, out);
  }

  // And the delimiter is searched for, with the stack st of awaited characters.
  ghost predicate Scanning(now: string, job: Job, r: int, z: int, c: int, out: string, f: Flags, first: bool,
                           st: seq<char>, delim: char) {
    && Going(now, job, r, z, c, out, f, first)
    && c - job.start <= |job.s|
    && Find(job.s, c - job.start, st, delim) == job.k
  }

  // The step that the character at i asks for.
  lemma FindEscape(s: string, i: nat, st: seq<char>, delim: char)
    requires i < |s| && IsEscape(s[i])
    ensures Find(s, i, st, delim) == Find(s, if i + 1 < |s| then i + 2 else i + 1, st, delim)
  {
  }

  lemma FindCloser(s: string, i: nat, st: seq<char>, delim: char)
    requires i < |s| && (s[i] == ']' || s[i] == ')')
    ensures
      var tp := Topmost(st, s[i]);
      if tp < 0 && s[i] == delim then Find(s, i, st, delim) == i
      else Find(s, i, st, delim) == Find(s, i + 1, if tp >= 0 then st[..tp] else st, delim)
  {
  }

  lemma FindBraces(s: string, i: nat, st: seq<char>, delim: char)
    requires i < |s| && s[i] == '{'
    ensures Find(s, i, st, delim) == Find(s, SkipBraces(s, i + 1, 1), st, delim)
  {
  }

  lemma FindOther(s: string, i: nat, st: seq<char>, delim: char)
    requires i < |s| && !IsEscape(s[i]) && s[i] != ']' && s[i] != ')' && s[i] != '{' && !(s[i] == delim && st == [])
    ensures Find(s, i, st, delim) == Find(s, i + 1, Opened(s, i, st), delim)
    ensures s[i] == ' ' ==> Opened(s, i, st) == st
  {
  }

  // An ordinary character.
  method StepChar(buf: array<char>, z: int, c: int, f: Flags, ghost first: bool,
                  ghost job: Job, ghost r: int, ghost out: string)
      returns (z': int, c': int, ghost out': string)
    requires Going(buf[..], job, r, z, c, out, f, first)
    requires c < job.n && c < job.start + job.k && !IsEscape(job.was[c]) && job.was[c] != '{' && job.was[c] != ' '
    modifies buf
    ensures Going(buf[..], job, r, z', c', out', f, false) && c' == c + 1
  {
    hide Copying, Progress, Terminated;
    Reading(buf[..], job, r, z, c, out, f, first);
    ProgressChar(job.s, c - job.start, job.k, f, first, out, job.whole);
    z', c' := NextChar(buf, z, c, job.was, job.start, r, job.n, out);
    out' := out + [job.was[c]];
  }

  method StepEscape(buf: array<char>, z: int, c: int, f: Flags, ghost first: bool,
                    ghost job: Job, ghost r: int, ghost out: string, ghost st: seq<char>, ghost delim: char)
      returns (z': int, c': int, ghost out': string)
    requires Scanning(buf[..], job, r, z, c, out, f, first, st, delim)
    requires c < job.n && IsEscape(job.was[c])
    modifies buf
    ensures Scanning(buf[..], job, r, z', c', out', f, false, st, delim) && c' > c
  {
    hide Copying, Progress, Terminated, Find;
    Reading(buf[..], job, r, z, c, out, f, first);
    FindEscape(job.s, c - job.start, st, delim);
    ProgressEscape(job.s, c - job.start, job.k, f, first, out, job.whole);
    z', c', out' := CopyEscape(buf, z, c, f, job.was, job.start, r, job.n, out);
  }

  method StepBraces(buf: array<char>, z: int, c: int, f: Flags, ghost first: bool,
                    ghost job: Job, ghost r: int, ghost out: string, ghost st: seq<char>, ghost delim: char)
      returns (z': int, c': int, ghost out': string)
    requires Scanning(buf[..], job, r, z, c, out, f, first, st, delim)
    requires c < job.n && job.was[c] == '{'
    modifies buf
    ensures Scanning(buf[..], job, r, z', c', out', f, false, st, delim) && c' > c
  {
    hide Copying, Progress, Terminated, SkipBraces, Braced, Find;
    Reading(buf[..], job, r, z, c, out, f, first);
    FindBraces(job.s, c - job.start, st, delim);
    ProgressBraces(job.s, c - job.start, job.k, f, first, out, job.whole);
    z', c', out' := CopyBraces(buf, z, c, f, job.was, job.start, r, job.n, out);
  }

  method StepSpace(buf: array<char>, r: int, z: int, c: int, f: Flags, first: bool, ghost job: Job, ghost out: string,
                   ghost st: seq<char>, ghost delim: char)
      returns (r': int, z': int, c': int, ghost out': string)
    requires Scanning(buf[..], job, r, z, c, out, f, first, st, delim)
    requires c < job.n && job.was[c] == ' ' && !(job.was[c] == delim && st == [])
    modifies buf
    ensures Scanning(buf[..], job, r', z', c', out', f, first, st, delim) && c' > c
  {
    hide Copying, Written, Terminated, EndsBlank, Find, Opened;
    Reading(buf[..], job, r, z, c, out, f, first);
    FindOther(job.s, c - job.start, st, delim);
    ProgressChar(job.s, c - job.start, job.k, f, first, out, job.whole);
    assert (first && job.s[c - job.start] == ' ') == first;
    r', z', c', out' := CopySpace(buf, r, z, c, f, first, job.was, job.start, job.n, out);
    hide Progress;
  }

  // The search down the stack for an awaited closing character.
  method FindTop(stack: array<char>, sp: nat, ch: char) returns (tp: int)
    requires sp <= stack.Length
    ensures tp == Topmost(stack[..sp], ch)
  {
    tp := sp - 1;
    while tp >= 0 && stack[tp] != ch
      invariant -1 <= tp < sp && Topmost(stack[..sp], ch) == Topmost(stack[..tp + 1], ch)
    {
      assert stack[..tp + 1][..tp] == stack[..tp];
      tp := tp - 1;
    }
  }

  // An opening character puts the closing one on the stack, if there is room.
  method PushOpened(buf: array<char>, r: int, c: int, stack: array<char>, sp: nat, ghost s: string, ghost start: int)
      returns (sp': nat)
    requires 0 <= start <= r <= c < buf.Length && stack.Length == STACKLIM && sp <= STACKLIM && stack != buf
    requires c - start < |s| && s[c - start] == buf[c] && (c > start ==> s[c - start - 1] == buf[c - 1])
    requires c == r && c > start ==> buf[c - 1] != ESC_CHAR
    modifies stack
    ensures sp' <= STACKLIM && stack[..sp'] == Opened(s, c - start, old(stack[..sp]))
  {
    sp' := sp;
    if buf[c] == '[' {
      if !(c != r && buf[c - 1] == ESC_CHAR) && sp < STACKLIM {
        stack[sp] := ']';
        sp' := sp + 1;
      }
    } else if buf[c] == '(' && sp < STACKLIM {
      stack[sp] := ')';
      sp' := sp + 1;
    }
  }

  // Where the piece starts when nothing has been written, only spaces were read.
  lemma NoEscapeBefore(now: string, job: Job, r: int, z: int, c: int, out: string, f: Flags, first: bool)
    requires Going(now, job, r, z, c, out, f, first)
    ensures c == r && c > job.start ==> now[c - 1] != ESC_CHAR
  {
    Reading(now, job, r, z, c, out, f, first);
    if c == r && c > job.start {
      assert job.s[..c - job.start][c - 1 - job.start] == ' ';
    }
  }

  method Unwind(stack: array<char>, sp: nat, ch: char, delim: char, ghost s: string, ghost i: nat)
      returns (sp': nat, stop: bool)
    requires sp <= stack.Length && i < |s| && s[i] == ch && (ch == ']' || ch == ')')
    ensures sp' <= sp
    ensures if stop then sp' == sp && Find(s, i, stack[..sp], delim) == i
            else Find(s, i + 1, stack[..sp'], delim) == Find(s, i, stack[..sp], delim)
  {
    FindCloser(s, i, stack[..sp], delim);
    hide Find, Topmost;
    var tp := FindTop(stack, sp, ch);
    sp', stop := sp, false;
    if tp >= 0 {
      sp' := tp;
      assert stack[..sp'] == stack[..sp][..tp];
    } else if ch == delim {
      stop := true;
    }
  }

  // A closing character unwinds the stack to its opening one, or is the
  // delimiter, or an ordinary character.
  method StepCloser(buf: array<char>, z: int, c: int, stack: array<char>, sp: nat, delim: char, f: Flags,
                    ghost first: bool, ghost job: Job, ghost r: int, ghost out: string)
      returns (z': int, c': int, sp': nat, stop: bool, ghost out': string)
    requires stack.Length == STACKLIM && sp <= STACKLIM && stack != buf
    requires Scanning(buf[..], job, r, z, c, out, f, first, stack[..sp], delim)
    requires c < job.n && (job.was[c] == ']' || job.was[c] == ')')
    modifies buf
    ensures sp' <= STACKLIM
    ensures Scanning(buf[..], job, r, z', c', out', f, stop && first, stack[..sp'], delim)
    ensures if stop then c' == job.start + job.k && job.k < |job.s| else c' > c
  {
    hide Copying, Progress, Terminated, Find, Going;
    Reading(buf[..], job, r, z, c, out, f, first);
    z', c', out' := z, c, out;
    sp', stop := Unwind(stack, sp, buf[c], delim, job.s, c - job.start);
    if !stop {
      z', c', out' := StepChar(buf, z, c, f, first, job, r, out);
      Reading(buf[..], job, r, z', c', out', f, false);
      assert c' - job.start == c - job.start + 1;
    }
  }

  // An ordinary character that may open a group.
  method StepOpener(buf: array<char>, r: int, z: int, c: int, stack: array<char>, sp: nat, delim: char, f: Flags,
                    ghost first: bool, ghost job: Job, ghost out: string)
      returns (z': int, c': int, sp': nat, ghost out': string)
    requires stack.Length == STACKLIM && sp <= STACKLIM && stack != buf
    requires Scanning(buf[..], job, r, z, c, out, f, first, stack[..sp], delim)
    requires c < job.n && !IsEscape(job.was[c]) && job.was[c] !in {' ', ']', ')', '{'}
    requires !(job.was[c] == delim && sp == 0)
    modifies buf, stack
    ensures sp' <= STACKLIM
    ensures Scanning(buf[..], job, r, z', c', out', f, false, stack[..sp'], delim) && c' > c
  {
    hide Copying, Progress, Terminated;
    Reading(buf[..], job, r, z, c, out, f, first);
    FindOther(job.s, c - job.start, stack[..sp], delim);
    NoEscapeBefore(buf[..], job, r, z, c, out, f, first);
    hide Going, SkipBraces, Topmost, Find, Opened;
    sp' := PushOpened(buf, r, c, stack, sp, job.s, job.start);
    ghost var st' := stack[..sp'];
    z', c', out' := StepChar(buf, z, c, f, first, job, r, out);
    assert stack[..sp'] == st' && c - job.start + 1 == c' - job.start;
  }

  lemma Stops(now: string, job: Job, r: int, z: int, c: int, out: string, f: Flags, first: bool,
              st: seq<char>, delim: char)
    requires Scanning(now, job, r, z, c, out, f, first, st, delim) && c < job.n
    requires st == [] && job.was[c] == delim && !IsEscape(delim) && delim != ']' && delim != ')' && delim != '{'
    ensures c == job.start + job.k && job.k < |job.s|
  {
    Reading(now, job, r, z, c, out, f, first);
  }

  // One step of the main loop: `stop` means that the delimiter job.was met.
  method Step(buf: array<char>, r: int, z: int, c: int, stack: array<char>, sp: nat, first: bool,
              delim: char, f: Flags, ghost job: Job, ghost out: string)
      returns (r': int, z': int, c': int, sp': nat, first': bool, stop: bool, ghost out': string)
    requires 0 <= c < job.n < buf.Length == |job.was| && buf[c] == job.was[c]
    requires stack.Length == STACKLIM && sp <= STACKLIM && stack != buf
    requires Scanning(buf[..], job, r, z, c, out, f, first, stack[..sp], delim)
    modifies buf, stack
    ensures sp' <= STACKLIM
    ensures Scanning(buf[..], job, r', z', c', out', f, first', stack[..sp'], delim)
    ensures if stop then c' == job.start + job.k && job.k < |job.s| else c' > c
  {
    r', z', c', sp', first', stop, out' := r, z, c, sp, first, false, out;
    ghost var st := stack[..sp];
    hide Scanning;
    if IsEscape(buf[c]) {
      z', c', out' := StepEscape(buf, z, c, f, first, job, r, out, st, delim);
      first' := false;
    } else if buf[c] == ']' || buf[c] == ')' {
      z', c', sp', stop, out' := StepCloser(buf, z, c, stack, sp, delim, f, first, job, r, out);
      first' := stop && first;
    } else if buf[c] == '{' {
      z', c', out' := StepBraces(buf, z, c, f, first, job, r, out, st, delim);
      first' := false;
    } else if buf[c] == delim && sp == 0 {
      Stops(buf[..], job, r, z, c, out, f, first, st, delim);
      stop := true;
    } else if buf[c] == ' ' {
      r', z', c', out' := StepSpace(buf, r, z, c, f, first, job, out, st, delim);
    } else {
      z', c', sp', out' := StepOpener(buf, r, z, c, stack, sp, delim, f, first, job, out);
      first' := false;
    }
  }

  // The main loop: it stops at the delimiter or at the end of the text.
  method Scan(buf: array<char>, start: nat, delim: char, f: Flags, ghost n: nat)
      returns (r: int, z: int, c: int, first: bool, ghost out: string)
    requires Terminated(buf[..], start, n)
    modifies buf
    ensures var job := JobOf(old(buf[..]), start, n, delim, f);
            Going(buf[..], job, r, z, c, out, f, first) && c == start + job.k
  {
    ghost var job := JobOf(buf[..], start, n, delim, f);
    var stack, sp, stop := new char[STACKLIM], 0, false;
    r, z, c, first, out := start, start, start, true, "";
    Begins(job, f, delim);
    assert stack[..sp] == [];
    hide Treated, FirstSplit, Find, Going, Terminated;
    Reading(buf[..], job, r, z, c, out, f, first);
    while !stop && buf[c] != '\0'
      invariant sp <= STACKLIM && 0 <= c <= n < |job.was| && buf[c] == job.was[c]
      invariant Scanning(buf[..], job, r, z, c, out, f, first, stack[..sp], delim)
      invariant stop ==> c == start + job.k && job.k < |job.s|
      decreases n - c, if stop then 0 else 1
    {
      Reading(buf[..], job, r, z, c, out, f, first);
      hide Scanning;
      r, z, c, sp, first, stop, out := Step(buf, r, z, c, stack, sp, first, delim, f, job, out);
      Within(buf[..], job, r, z, c, out, f, first, stack[..sp], delim);
    }
    Finds(buf[..], job, r, z, c, out, f, first, stack[..sp], delim);
  }

  lemma Begins(job: Job, f: Flags, delim: char)
    requires 0 <= job.start <= job.n && Terminated(job.was, job.start, job.n)
    requires job == JobOf(job.was, job.start, job.n, delim, f)
    ensures Scanning(job.was, job, job.start, job.start, job.start, "", f, true, [], delim)
  {
    assert "" + job.whole == job.whole;
  }

  lemma Within(now: string, job: Job, r: int, z: int, c: int, out: string, f: Flags, first: bool,
               st: seq<char>, delim: char)
    requires Scanning(now, job, r, z, c, out, f, first, st, delim)
    ensures Going(now, job, r, z, c, out, f, first)
    ensures 0 <= c <= job.n < |job.was| == |now| && now[c] == job.was[c]
  {
    Reading(now, job, r, z, c, out, f, first);
  }

  lemma Finds(now: string, job: Job, r: int, z: int, c: int, out: string, f: Flags, first: bool,
              st: seq<char>, delim: char)
    requires Scanning(now, job, r, z, c, out, f, first, st, delim)
    ensures 0 <= c < |job.was| && (job.was[c] == '\0' ==> c == job.start + job.k)
    ensures Going(now, job, r, z, c, out, f, first)
  {
    Reading(now, job, r, z, c, out, f, first);
  }

  // Over the spaces from r on; `stop` is a character that is none.
  method SkipSpaces(buf: array<char>, r: nat, ghost stop: nat) returns (r': nat)
    requires r <= stop < buf.Length && !IsSpace(buf[stop])
    ensures r' == r + LeadingSpaces(buf[r..stop])
  {
    r' := r;
    while buf[r'] != '\0' && IsSpace(buf[r'])
      invariant r <= r' <= stop && r' + LeadingSpaces(buf[r'..stop]) == r + LeadingSpaces(buf[r..stop])
      decreases stop - r'
    {
      assert r' < stop && buf[r'..stop][1..] == buf[r' + 1..stop];
      r' := r' + 1;
    }
    assert r' < stop ==> buf[r'..stop][0] == buf[r'];
  }

  // Back over the spaces before z; the character before r ends the search.
  method DropSpaces(buf: array<char>, r: nat, z: nat) returns (z': nat)
    requires 0 < r <= z <= buf.Length && buf[r - 1] == '\0'
    ensures z' == r + |WithoutTrailing(buf[r..z])|
  {
    z' := z;
    while buf[z' - 1] != '\0' && IsSpace(buf[z' - 1])
      invariant r <= z' <= z && WithoutTrailing(buf[r..z]) == WithoutTrailing(buf[r..z'])
      decreases z'
    {
      assert buf[r..z'][..z' - 1 - r] == buf[r..z' - 1];
      z' := z' - 1;
    }
    assert z' > r ==> buf[r..z'][|buf[r..z']| - 1] == buf[z' - 1];
  }

  // The spaces after an opening brace at r, which is put out of the way.
  method BareFront(buf: array<char>, r: nat, z: nat, f: Flags) returns (r': nat)
    requires r + 1 < z < buf.Length && buf[z - 1] == '}'
    modifies buf
    ensures r < r' < z && buf[r'..z - 1] == Led(old(buf[r + 1..z - 1]), f) && buf[r' - 1] == '\0'
    ensures forall i :: 0 <= i < buf.Length && !(r <= i < z - 1) ==> buf[i] == old(buf[i])
  {
    ghost var inner := buf[r + 1..z - 1];
    r' := r + 1;
    if f.compress && (!f.noCompress || f.stripLs) {
      r' := SkipSpaces(buf, r', z - 1);
    }
    assert buf[r'..z - 1] == inner[r' - r - 1..];
    ghost var led := buf[r'..z - 1];
    buf[r' - 1] := '\0';
    assert buf[r'..z - 1] == led;
  }

  method BareBack(buf: array<char>, r: nat, z: nat, f: Flags) returns (z': nat)
    requires 0 < r <= z <= buf.Length && buf[r - 1] == '\0'
    ensures r <= z' <= z && buf[r..z'] == Trailed(buf[r..z], f)
  {
    z' := z;
    if f.compress && (!f.noCompress || f.stripTs) {
      z' := DropSpaces(buf, r, z);
      assert buf[r..z'] == buf[r..z][..z' - r];
    }
  }

  method BareBoth(buf: array<char>, r: nat, z: nat, f: Flags) returns (r': nat, z': nat)
    requires r + 1 < z < buf.Length && buf[z - 1] == '}'
    modifies buf
    ensures r < r' <= z' < z && buf[r'..z'] == Trailed(Led(old(buf[r + 1..z - 1]), f), f)
    ensures forall i :: 0 <= i < buf.Length && !(r <= i < z - 1) ==> buf[i] == old(buf[i])
  {
    hide Trailed, Led;
    r' := BareFront(buf, r, z, f);
    z' := BareBack(buf, r', z - 1, f);
  }

  lemma Inner(now: string, r: nat, z: nat)
    requires r + 1 < z <= |now|
    ensures now[r..z][1..|now[r..z]| - 1] == now[r + 1..z - 1]
  {
    var inner := now[r..z][1..|now[r..z]| - 1];
    assert |inner| == z - r - 2;
    assert forall i :: 0 <= i < |inner| ==> inner[i] == now[r..z][i + 1] == now[r + 1 + i];
  }

  lemma BaredAt(now: string, r: nat, z: nat, f: Flags)
    requires r <= z < |now| && (f.stripAround && z == r ==> now[r] != '{')
    ensures
      if f.stripAround && now[r] == '{' && now[z - 1] == '}' then
        r + 1 < z && Bared(now[r..z], f) == Trailed(Led(now[r + 1..z - 1], f), f)
      else Bared(now[r..z], f) == now[r..z]
  {
    var q := now[r..z];
    assert z > r ==> q[0] == now[r] && q[|q| - 1] == now[z - 1];
    if r + 1 < z {
      Inner(now, r, z);
    }
    hide Trailed, Led;
  }

  // The braces around the whole text of a piece.
  method Bare(buf: array<char>, r: nat, z: nat, f: Flags) returns (r': nat, z': nat)
    requires r <= z < buf.Length && (f.stripAround && z == r ==> buf[r] != '{')
    modifies buf
    ensures r <= r' <= z' <= z && buf[..][r'..z'] == Bared(old(buf[..])[r..z], f)
    ensures forall i :: 0 <= i < buf.Length && !(r <= i < z) ==> buf[i] == old(buf[i])
  {
    BaredAt(buf[..], r, z, f);
    hide Bared, Trailed, Led;
    r', z' := r, z;
    if f.stripAround && buf[r] == '{' && buf[z - 1] == '}' {
      assert buf[..][r + 1..z - 1] == buf[r + 1..z - 1];
      r', z' := BareBoth(buf, r, z, f);
      assert buf[..][r'..z'] == buf[r'..z'];
    }
  }

  // The text `piece` was cut off: it stands at p as a C string, and outside
  // [start..end] nothing has changed.
  ghost predicate Cut(now: string, was: string, start: nat, end: nat, p: nat, piece: string) {
    && start <= p && p + |piece| <= end < |was| == |now|
    && now[p..p + |piece|] == piece && '\0' !in piece && now[p + |piece|] == '\0'
    && (forall i :: 0 <= i < |was| && !(start <= i <= end) ==> now[i] == was[i])
  }

  // The scan has come to the end of the piece.
  lemma EndedText(now: string, job: Job, r: int, z: int, c: int, out: string, f: Flags, first: bool)
    requires 0 <= job.k <= |job.s| && job.whole == Treated(job.s, 0, job.k, f, true)
    requires Going(now, job, r, z, c, out, f, first) && c == job.start + job.k
    ensures out == job.whole
    ensures if first then Blank(job.s[..job.k]) else job.k > 0 && !Blank(job.s[..job.k])
    ensures !first && job.s[job.k - 1] == ' ' ==> EndsBlank(out)
    ensures !f.strip && out == "" ==> '{' !in job.s[..job.k]
  {
    hide Copying, Terminated;
    Reading(now, job, r, z, c, out, f, first);
    assert out + "" == out;
  }

  lemma Ended(now: string, job: Job, r: int, z: int, c: int, out: string, f: Flags, first: bool)
    requires 0 <= job.k <= |job.s| && job.whole == Treated(job.s, 0, job.k, f, true)
    requires Going(now, job, r, z, c, out, f, first) && c == job.start + job.k
    ensures 0 <= job.start <= r <= z <= c < |job.was| == |now| && now[r..z] == out == job.whole && '\0' !in out
    ensures forall i :: 0 <= i < |job.was| && !(job.start <= i < c) ==> now[i] == job.was[i]
    ensures if first then Blank(job.s[..job.k])
            else c > job.start && !Blank(job.s[..job.k]) && now[c - 1] == job.s[job.k - 1]
    ensures !first && job.s[job.k - 1] == ' ' ==> z > r && now[z - 1] == ' '
    ensures !f.strip && z == r && job.was[c] != '{' ==> now[r] != '{'
  {
    hide Progress, Treated;
    EndedText(now, job, r, z, c, out, f, first);
    Reading(now, job, r, z, c, out, f, first);
    assert EndsBlank(out) ==> now[r..z][z - 1 - r] == now[z - 1];
    assert r < c ==> job.was[r] == job.s[r - job.start] == job.s[..c - job.start][r - job.start];
  }

  lemma BaredFrom(q: string, f: Flags)
    requires '\0' !in q
    ensures '\0' !in Bared(q, f)
  {
  }

  method TrimTrailing(buf: array<char>, first: bool, c: nat, z: nat, f: Flags, ghost r: nat, ghost trailing: bool)
      returns (z': nat)
    requires r <= z <= c < buf.Length
    requires !first ==> c > 0
    requires trailing == (!first && buf[c - 1] == ' ') && (trailing ==> z > r && buf[z - 1] == ' ')
    ensures r <= z' <= z && buf[r..z'] == Trimmed(buf[r..z], trailing, f)
    ensures z' < z ==> z' == z - 1 && buf[z'] == ' '
  {
    z' := z;
    if (f.compress || f.stripTs) && !f.noCompress && !first && buf[c - 1] == ' ' {
      z' := z - 1;
      assert buf[r..z'] == buf[r..z][..z' - r];
    }
  }

  lemma CutOff(now: string, was: string, start: nat, end: nat, p: nat, z: nat, piece: string)
    requires start <= p <= z <= end < |was| == |now| && now[p..z] == piece && '\0' !in piece
    requires forall i :: 0 <= i < |was| && !(start <= i < end) ==> now[i] == was[i]
    ensures Cut(now[z := '\0'], was, start, end, p, piece)
  {
    assert now[z := '\0'][p..z] == now[p..z];
  }

  // The trailing space goes, then the braces around the whole, and the piece is
  // ended.
  method Cleanup(buf: array<char>, first: bool, c: nat, r: nat, z: nat, f: Flags, ghost job: Job, ghost out: string)
      returns (r': nat)
    requires 0 <= job.start && 0 <= job.k <= |job.s| && buf.Length == |job.was| && c == job.start + job.k
    requires Going(buf[..], job, r, z, c, out, f, first) && job.whole == Treated(job.s, 0, job.k, f, true)
    requires job.was[c] != '{' && !(f.strip && f.stripAround)
    modifies buf
    ensures Cut(buf[..], job.was, job.start, c, r', Piece(job.s, job.k, f))
  {
    hide Going, Treated, Bared, Trimmed, Blank, Piece;
    Ended(buf[..], job, r, z, c, out, f, first);
    ghost var trailing := !Blank(job.s[..job.k]) && job.s[job.k - 1] == ' ';
    var z' := TrimTrailing(buf, first, c, z, f, r, trailing);
    ghost var q := buf[..][r..z'];
    assert q == buf[r..z'] && buf[r..z] == buf[..][r..z];
    TrimmedPiece(job, trailing, f);
    BaredFrom(q, f);
    r', z' := Bare(buf, r, z', f);
    CutOff(buf[..], job.was, job.start, c, r', z', Piece(job.s, job.k, f));
    ghost var now := buf[..];
    buf[z'] := '\0';
    assert buf[..] == now[z' := '\0'];
  }

  lemma TrimmedPiece(job: Job, trailing: bool, f: Flags)
    requires 0 <= job.k <= |job.s| && job.whole == Treated(job.s, 0, job.k, f, true)
    requires trailing == (!Blank(job.s[..job.k]) && job.s[job.k - 1] == ' ')
    ensures Bared(Trimmed(job.whole, trailing, f), f) == Piece(job.s, job.k, f)
    ensures '\0' !in job.whole ==> '\0' !in Trimmed(job.whole, trailing, f)
  {
  }

  // The text that is split: leading spaces may not belong to it.
  function Skipped(s: string, f: Flags): nat {
    if SkipsLeading(f) then LeadingSpaces(s) else 0
  }

  lemma StopsWell(s: string, delim: char, k: nat)
    requires k == FirstSplit(s, delim) && k < |s|
    ensures s[k] != '{'
  {
    NoBraceFound(s, 0, [], delim);
  }

  lemma {:induction false} NoBraceFound(s: string, i: nat, stack: seq<char>, delim: char)
    requires i <= |s|
    ensures var k := Find(s, i, stack, delim); k < |s| ==> s[k] != '{'
    decreases |s| - i
  {
    if i < |s| {
      if IsEscape(s[i]) {
        NoBraceFound(s, if i + 1 < |s| then i + 2 else i + 1, stack, delim);
      } else if s[i] == ']' || s[i] == ')' {
        var tp := Topmost(stack, s[i]);
        NoBraceFound(s, i + 1, if tp >= 0 then stack[..tp] else stack, delim);
      } else if s[i] == '{' {
        NoBraceFound(s, SkipBraces(s, i + 1, 1), stack, delim);
      } else if !(s[i] == delim && stack == []) {
        NoBraceFound(s, i + 1, Opened(s, i, stack), delim);
      }
    }
  }

  method ParseFrom(buf: array<char>, start: nat, delim: char, f: Flags, ghost n: nat)
      returns (rest: Option<nat>, p: nat)
    requires !(f.strip && f.stripAround) && Terminated(buf[..], start, n)
    modifies buf
    ensures
      var t := old(buf[..])[start..n];
      var k := FirstSplit(t, delim);
      && Cut(buf[..], old(buf[..]), start, start + k, p, Piece(t, k, f))
      && rest == if k < |t| then Some(start + k + 1) else None
  {
    hide Going, FirstSplit, Cut, Treated, Piece;
    ghost var job := JobOf(buf[..], start, n, delim, f);
    var r, z, c, first, out := Scan(buf, start, delim, f, n);
    Reading(buf[..], job, r, z, c, out, f, first);
    if c < n {
      StopsWell(job.s, delim, job.k);
    }
    rest := if buf[c] != '\0' then Some(c + 1) else None;
    p := Cleanup(buf, first, c, r, z, f, job, out);
  }

  // In every mode the text splits at the same place, the piece is what the
  // flags make of the text before it, and the rest is left alone.
  method ParseTo(buf: array<char>, dstr: Option<nat>, delim: char, f: Flags, ghost n: nat)
      returns (rest: Option<nat>, piece: Option<nat>)
    requires !(f.strip && f.stripAround)
    requires dstr.Some? ==> Terminated(buf[..], dstr.value, n)
    modifies buf
    ensures dstr.None? ==> rest.None? && piece.None? && buf[..] == old(buf[..])
    ensures dstr.Some? ==>
              var s := old(buf[..])[dstr.value..n];
              var start := dstr.value + Skipped(s, f);
              var t := old(buf[..])[start..n];
              var k := FirstSplit(t, delim);
              && piece.Some? && Cut(buf[..], old(buf[..]), start, start + k, piece.value, Piece(t, k, f))
              && rest == if k < |t| then Some(start + k + 1) else None
  {
    hide Cut, FirstSplit, Piece;
    if dstr.None? {
      return None, None;
    }
    var start := dstr.value;
    if SkipsLeading(f) {
      start := SkipSpaces(buf, start, n);
    }
    ghost var was := buf[..];
    assert was[dstr.value..n] == buf[dstr.value..n];
    assert start == dstr.value + Skipped(was[dstr.value..n], f);
    assert Terminated(was, start, n);
    hide Skipped, Terminated, LeadingSpaces;
    var p;
    rest, p := ParseFrom(buf, start, delim, f, n);
    piece := Some(p);
  }

  // A C string, read out of the buffer.
  method ReadString(buf: array<char>, p: nat, ghost len: nat) returns (s: string)
    requires p + len < buf.Length && buf[p + len] == '\0'
    requires forall i :: p <= i < p + len ==> buf[i] != '\0'
    ensures s == buf[p..p + len]
  {
    s := "";
    var i := p;
    while buf[i] != '\0'
      invariant p <= i <= p + len && s == buf[p..i]
      decreases p + len - i
    {
      s := s + [buf[i]];
      i := i + 1;
    }
  }

  lemma OneTaken(now: string, was: string, at: nat, n: nat, k: nat, p: nat, t: string, delim: char)
    requires Terminated(was, at, n) && t == was[at..n] && k == FirstSplit(t, delim)
    requires Cut(now, was, at, at + k, p, t[..k])
    ensures |now| == |was| && p == at && now[at + k] == '\0' && now[at..at + k] == t[..k]
    ensures forall i :: at <= i < at + k ==> now[i] != '\0'
    ensures k < |t| ==> Terminated(now, at + k + 1, n) && now[at + k + 1..n] == t[k + 1..]
  {
    forall i | at <= i < at + k ensures now[i] != '\0' {
      assert now[i] == now[at..at + k][i - at] == t[..k][i - at] == was[i];
    }
  }

  lemma Regroup<T>(a: seq<T>, b: seq<T>, c: seq<T>)
    ensures a + (b + c) == a + b + c
  {
  }

  lemma NextPieces(t: string, delim: char, before: seq<string>)
    ensures
      var k := FirstSplit(t, delim);
      before + Pieces(t, delim) == (before + [t[..k]]) + if k < |t| then Pieces(t[k + 1..], delim) else []
  {
    var k := FirstSplit(t, delim);
    if k == |t| {
      assert t[..k] == t;
    } else {
      Regroup(before, [t[..k]], Pieces(t[k + 1..], delim));
    }
  }

  // One round of the callers' loop.
  method TakeOne(buf: array<char>, at: nat, delim: char, f: Flags, ghost n: nat)
      returns (rest: Option<nat>, one: string)
    requires Plain(f) && Terminated(buf[..], at, n)
    modifies buf
    ensures
      var t := old(buf[..])[at..n];
      var k := FirstSplit(t, delim);
      && one == t[..k]
      && (if k < |t| then rest == Some(at + k + 1) else rest == None)
      && (k < |t| ==> Terminated(buf[..], at + k + 1, n) && buf[..][at + k + 1..n] == t[k + 1..])
  {
    ghost var was := buf[..];
    ghost var t := was[at..n];
    ghost var k := FirstSplit(t, delim);
    PlainPiece(t, delim, f);
    assert at + Skipped(t, f) == at;
    hide Skipped, Piece, FirstSplit, Plain, Pieces, Cut;
    var piece;
    rest, piece := ParseTo(buf, Some(at), delim, f, n);
    OneTaken(buf[..], was, at, n, k, piece.value, t, delim);
    hide Terminated;
    one := ReadString(buf, piece.value, k);
    assert buf[at..at + k] == buf[..][at..at + k];
  }

  // The callers' loop: pieces are taken off until nothing is left.
  method SplitAll(buf: array<char>, start: nat, delim: char, f: Flags, ghost n: nat) returns (pieces: seq<string>)
    requires Plain(f) && Terminated(buf[..], start, n)
    modifies buf
    ensures pieces == Pieces(old(buf[..])[start..n], delim)
  {
    ghost var all := Pieces(buf[..][start..n], delim);
    pieces := [];
    var rest := Some(start);
    ghost var left := buf[..][start..n];
    while rest.Some?
      invariant rest.Some? ==> Terminated(buf[..], rest.value, n) && buf[..][rest.value..n] == left
      invariant rest.Some? ==> pieces + Pieces(left, delim) == all
      invariant rest.None? ==> pieces == all
      decreases if rest.Some? then n - rest.value + 1 else 0
    {
      NextPieces(left, delim, pieces);
      hide Plain, Pieces, FirstSplit;
      var one;
      rest, one := TakeOne(buf, rest.value, delim, f, n);
      pieces := pieces + [one];
      ghost var k := FirstSplit(left, delim);
      left := if k < |left| then left[k + 1..] else "";
    }
  }
}
