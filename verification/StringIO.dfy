// Strings in the database file: how putstring writes them and getstring_noalloc
// reads them, on the characters that are left in the file.
module StringIO {
  import opened Text

  const LBUF_SIZE := 16384

  function Clip(s: string, n: nat): (r: string)
    ensures |r| <= n && r <= s
  {
    if |s| <= n then s else s[..n]
  }

  // safe_chr: a full buffer drops the character.
  function SafeChr(buf: string, c: char): string {
    if |buf| < LBUF_SIZE - 1 then buf + [c] else buf
  }

  function Escape(s: string): string {
    if s == "" then ""
    else (if s[0] == '\\' || s[0] == '"' then ['\\', s[0]] else [s[0]]) + Escape(s[1..])
  }

  function PutString(s: string): string {
    ['"'] + Escape(s) + ['"', '\n']
  }

  // The file position moves past a newline if there is one.
  function SkipNewline(s: string): string {
    if StartsWith(s, '\n') then s[1..] else s
  }

  // A quoted string, after the opening quote: the text and what is left.
  function GetQuoted(s: string, buf: string): (r: (string, string))
    ensures |r.1| <= |s|
    decreases |s|
  {
    if s == "" then (buf, "")
    else if s[0] == '"' then (buf, SkipNewline(s[1..]))
    else if s[0] == '\\' then
      if s[1..] == "" then (buf, "")
      else if s[1] == '\0' then (buf, s[2..])
      else GetQuoted(s[2..], SafeChr(buf, s[1]))
    else if s[0] == '\0' then (buf, s[1..])
    else GetQuoted(s[1..], SafeChr(buf, s[0]))
  }

  // A string of the older files: up to a newline that no carriage return precedes.
  function GetLine(s: string, buf: string, last: char): (r: (string, string))
    ensures |r.1| <= |s|
  {
    if s == "" then (buf, "")
    else if s[0] == '\0' || (s[0] == '\n' && last != '\r') then (buf, s[1..])
    else GetLine(s[1..], SafeChr(buf, s[0]), s[0])
  }

  function GetString(s: string, newStrings: bool): (r: (string, string))
    ensures |r.1| <= |s|
  {
    if newStrings && StartsWith(s, '"') then GetQuoted(s[1..], "") else GetLine(s, "", '\0')
  }

  // ---------- what is written is read back ----------

  // A C string: no terminator inside.
  ghost predicate Plain(s: string) {
    forall i :: 0 <= i < |s| ==> s[i] != '\0'
  }

  // The buffer after all of s went through safe_chr.
  function Fill(buf: string, s: string): string
    decreases |s|
  {
    if s == "" then buf else Fill(SafeChr(buf, s[0]), s[1..])
  }

  lemma {:induction false} FillCuts(buf: string, s: string)
    requires |buf| < LBUF_SIZE
    ensures Fill(buf, s) == if |buf| + |s| < LBUF_SIZE then buf + s else (buf + s)[..LBUF_SIZE - 1]
    decreases |s|
  {
    if s != "" {
      FillCuts(SafeChr(buf, s[0]), s[1..]);
      assert buf + [s[0]] + s[1..] == buf + s;
    }
  }

  lemma {:induction false} GetEscaped(s: string, buf: string, rest: string)
    requires Plain(s)
    ensures GetQuoted(Escape(s) + ['"', '\n'] + rest, buf) == (Fill(buf, s), rest)
    decreases |s|
  {
    var tail := ['"', '\n'] + rest;
    if s == "" {
      assert Escape(s) + ['"', '\n'] + rest == tail;
      assert tail[1..] == ['\n'] + rest;
    } else {
      var one := if s[0] == '\\' || s[0] == '"' then ['\\', s[0]] else [s[0]];
      var more := Escape(s[1..]) + ['"', '\n'] + rest;
      GetEscaped(s[1..], SafeChr(buf, s[0]), rest);
      hide SafeChr;
      assert Escape(s) + ['"', '\n'] + rest == one + more;
      assert (one + more)[|one|..] == more;
    }
  }

  // Any string is read back as it was written, cut to the size of the buffer,
  // and the rest of the file is left alone.
  lemma StringRoundTrip(s: string, rest: string)
    requires Plain(s)
    ensures GetString(PutString(s) + rest, true) == (if |s| < LBUF_SIZE then s else s[..LBUF_SIZE - 1], rest)
  {
    var written := PutString(s) + rest;
    assert written[1..] == Escape(s) + ['"', '\n'] + rest;
    GetEscaped(s, "", rest);
    FillCuts("", s);
    assert "" + s == s;
  }

  // ---------- strings of the older files ----------

  // Each newline in s follows a carriage return, where `last` is the character before.
  predicate Returned(s: string, last: char) {
    s == "" || ((s[0] == '\n' ==> last == '\r') && Returned(s[1..], s[0]))
  }

  function LastOf(s: string, last: char): char {
    if s == "" then last else s[|s| - 1]
  }

  lemma {:induction false} LineBack(s: string, buf: string, last: char, rest: string)
    requires Plain(s) && Returned(s, last) && LastOf(s, last) != '\r'
    ensures GetLine(s + ("\n" + rest), buf, last) == (Fill(buf, s), rest)
    decreases |s|
  {
    if s == "" {
      assert s + ("\n" + rest) == "\n" + rest;
      assert ("\n" + rest)[1..] == rest;
    } else {
      assert (s + ("\n" + rest))[1..] == s[1..] + ("\n" + rest);
      LineBack(s[1..], SafeChr(buf, s[0]), s[0], rest);
    }
  }

  // A string without quotes ends at the first newline that no carriage return precedes.
  lemma OldStringBack(s: string, rest: string)
    requires Plain(s) && Returned(s, '\0') && LastOf(s, '\0') != '\r'
    ensures GetString(s + ("\n" + rest), false) == (if |s| < LBUF_SIZE then s else s[..LBUF_SIZE - 1], rest)
  {
    LineBack(s, "", '\0', rest);
    FillCuts("", s);
    assert "" + s == s;
  }

  // Quotes around it, and a backslash before each quote and backslash.
  lemma WrittenString()
    ensures PutString("a\"b\\c") == "\"a\\\"b\\\\c\"\n"
  {
    assert Escape("c") == "c";
    assert Escape("\\c") == "\\\\c";
    assert Escape("b\\c") == "b\\\\c";
    assert Escape("\"b\\c") == "\\\"b\\\\c";
  }

  // ---------- the file ----------

  // A file open for reading: the characters not read yet. `None` stands for
  // the end of the file.
  datatype MaybeChar = End | Char(c: char)

  class InFile {
    var rest: string

    constructor (text: string)
      ensures rest == text
    {
      rest := text;
    }

    method Getc() returns (c: MaybeChar)
      modifies this
      ensures old(rest) == "" ==> c == End && rest == ""
      ensures old(rest) != "" ==> c == Char(old(rest)[0]) && rest == old(rest)[1..] && old(rest) == [c.c] + rest
    {
      if rest == "" {
        c := End;
      } else {
        c, rest := Char(rest[0]), rest[1..];
      }
    }

    method Ungetc(c: MaybeChar)
      modifies this
      ensures rest == if c == End then old(rest) else [c.c] + old(rest)
    {
      if c.Char? {
        rest := [c.c] + rest;
      }
    }
  }

  class OutFile {
    var text: string

    constructor ()
      ensures text == ""
    {
      text := "";
    }

    method Putc(c: char)
      modifies this
      ensures text == old(text) + [c]
    {
      text := text + [c];
    }
  }

  method WriteText(f: OutFile, s: string)
    modifies f
    ensures f.text == old(f.text) + s
  {
    for i := 0 to |s|
      invariant f.text == old(f.text) + s[..i]
    {
      f.Putc(s[i]);
    }
  }

  method WriteString(f: OutFile, s: string)
    modifies f
    ensures f.text == old(f.text) + PutString(s)
  {
    f.Putc('"');
    var i := 0;
    while i < |s|
      invariant i <= |s|
      invariant f.text + Escape(s[i..]) == old(f.text) + ['"'] + Escape(s)
    {
      assert s[i..][1..] == s[i + 1..];
      if s[i] == '\\' || s[i] == '"' {
        f.Putc('\\');
      }
      f.Putc(s[i]);
      i := i + 1;
    }
    assert s[|s|..] == "";
    assert f.text == old(f.text) + ['"'] + Escape(s);
    f.Putc('"');
    f.Putc('\n');
  }

  method ReadQuoted(f: InFile) returns (buf: string)
    modifies f
    ensures (buf, f.rest) == GetQuoted(old(f.rest), "")
  {
    buf := "";
    while true
      invariant GetQuoted(f.rest, buf) == GetQuoted(old(f.rest), "")
      decreases |f.rest|
    {
      var c := f.Getc();
      if c == Char('"') {
        c := f.Getc();
        if c != Char('\n') {
          f.Ungetc(c);
        }
        return;
      } else if c == Char('\\') {
        c := f.Getc();
      }
      if c == Char('\0') || c == End {
        return;
      }
      buf := SafeChr(buf, c.c);
    }
  }

  method ReadLine(f: InFile) returns (buf: string)
    modifies f
    ensures (buf, f.rest) == GetLine(old(f.rest), "", '\0')
  {
    buf := "";
    var last := '\0';
    while true
      invariant GetLine(f.rest, buf, last) == GetLine(old(f.rest), "", '\0')
      decreases |f.rest|
    {
      var c := f.Getc();
      if c == End || c == Char('\0') || (c == Char('\n') && last != '\r') {
        return;
      }
      buf := SafeChr(buf, c.c);
      last := c.c;
    }
  }

  method GetStringNoalloc(f: InFile, newStrings: bool) returns (buf: string)
    modifies f
    ensures (buf, f.rest) == GetString(old(f.rest), newStrings)
  {
    var c := f.Getc();
    if !newStrings || c != Char('"') {
      f.Ungetc(c);
      buf := ReadLine(f);
    } else {
      buf := ReadQuoted(f);
    }
  }
}
