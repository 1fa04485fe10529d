/** Names in a file list: how they are printed and how they are read back. */
module FileNames {
  /** What reading from the front of a text gives, and the text left. */
  datatype Parsed<+T> = Fail | Ok(value: T, rest: string) {
    predicate IsFailure() {
      Fail?
    }

    function PropagateFailure<U>(): Parsed<U>
      requires Fail?
    {
      Fail
    }

    function Extract(): (T, string)
      requires Ok?
    {
      (value, rest)
    }
  }

  const FNAME_ROOM := 1023

  // ---- Printing ---------------------------------------------------------------------------------------------

  predicate Plain(c: char) {
    ' ' < c <= '~'
  }

  predicate AllPlain(s: string) {
    forall i :: 0 <= i < |s| ==> Plain(s[i])
  }

  /** A byte of a C string. */
  predicate IsByte(c: char) {
    1 <= c as int < 256
  }

  predicate CString(s: string) {
    forall i :: 0 <= i < |s| ==> IsByte(s[i])
  }

  function HexDigit(d: nat): (c: char)
    requires d < 16
    ensures FromHex(c) == d
  {
    if d < 10 then '0' + d as char else 'a' + (d - 10) as char
  }

  function FromHex(c: char): int {
    if '0' <= c <= '9' then c as int - '0' as int
    else if 'A' <= c <= 'F' then c as int - 'A' as int + 10
    else if 'a' <= c <= 'f' then c as int - 'a' as int + 10
    else -1
  }

  /** A character inside quotes. */
  function Escaped(c: char): string {
    if c as int < 32 || c as int == 127 then ['\\', 'x', HexDigit(c as int / 16), HexDigit(c as int % 16)]
    else if c == '\\' || c == '"' then ['\\', c]
    else [c]
  }

  function EscapedAll(s: string): string {
    if s == "" then "" else Escaped(s[0]) + EscapedAll(s[1..])
  }

  function Printed(s: string): string {
    if AllPlain(s) then s else "\"" + EscapedAll(s) + "\""
  }

  lemma {:induction false} EscapedLonger(s: string)
    ensures |EscapedAll(s)| >= |s|
  {
    if s != "" {
      EscapedLonger(s[1..]);
    }
  }

  /** A name is printed as it is exactly if it has nothing but the characters 33 to 126. */
  lemma PrintedAsIs(s: string)
    ensures Printed(s) == s <==> forall i :: 0 <= i < |s| ==> 33 <= s[i] as int <= 126
  {
    EscapedLonger(s);
    hide EscapedAll;
    assert |"\"" + EscapedAll(s) + "\""| > |s|;
  }

  /** Hexadecimal digits are taken in both cases. */
  lemma HexDigits(c: char)
    ensures 0 <= FromHex(c) < 16 ==> c == "0123456789abcdef"[FromHex(c)] || c == "0123456789ABCDEF"[FromHex(c)]
    ensures FromHex(c) >= 0 <==> c in "0123456789abcdefABCDEF"
    ensures FromHex(c) < 16
  {
  }

  function QuotedStr(s: string): string {
    if s == "" then "\"\"" else Printed(s)
  }

  // ---- Reading ----------------------------------------------------------------------------------------------

  predicate Blank(c: char) {
    c == ' ' || c == '\t'
  }

  function SkipBlanks(s: string): (r: string)
    ensures |r| <= |s|
  {
    if s != "" && Blank(s[0]) then SkipBlanks(s[1..]) else s
  }

  /** A character after a backslash, and how much it takes. */
  function Escape(s: string): Parsed<char> {
    if s == "" then Fail
    else if s[0] == '\'' || s[0] == '"' || s[0] == '\\' then Ok(s[0], s[1..])
    else if s[0] == 'n' then Ok('\n', s[1..])
    else if s[0] == 'r' then Ok('\r', s[1..])
    else if s[0] == 't' then Ok('\t', s[1..])
    else if s[0] == 'x' && |s| >= 3 && FromHex(s[1]) >= 0 && FromHex(s[2]) >= 0
    then Ok((FromHex(s[1]) * 16 + FromHex(s[2])) as char, s[3..])
    else Fail
  }

  function Prepend(c: char, p: Parsed<string>): Parsed<string> {
    if p.Fail? then Fail else Ok([c] + p.value, p.rest)
  }

  /** The characters up to the closing quote, if there are no more than `room`. */
  function Unquote(s: string, room: nat): (p: Parsed<string>)
    ensures p.Ok? ==> |p.rest| < |s|
    decreases |s|
  {
    if s == "" || s[0] == '\n' then Fail
    else if s[0] == '"' then Ok("", s[1..])
    else if s[0] == '\\' then
      var e := Escape(s[1..]);
      if e.Fail? || room == 0 then Fail else Prepend(e.value, Unquote(e.rest, room - 1))
    else if room == 0 then Fail
    else Prepend(s[0], Unquote(s[1..], room - 1))
  }

  /** The characters up to a blank or the end of the line, if there are no more than `room`. */
  function Word(s: string, room: nat): (p: Parsed<string>)
    ensures p.Ok? ==> |p.rest| <= |s|
  {
    if s == "" || Blank(s[0]) || s[0] == '\n' then Ok("", s)
    else if room == 0 then Fail
    else Prepend(s[0], Word(s[1..], room - 1))
  }

  /** A string as C sees it. */
  function UpToNul(s: string): string {
    if s == "" || s[0] == '\0' then "" else [s[0]] + UpToNul(s[1..])
  }

  function CName(p: Parsed<string>): Parsed<string> {
    if p.Fail? then Fail else Ok(UpToNul(p.value), p.rest)
  }

  function ParseFname(s: string): (p: Parsed<string>)
    ensures p.Ok? ==> |p.rest| <= |s|
  {
    var t := SkipBlanks(s);
    if t == "" then Fail
    else if t[0] == '"' then CName(Unquote(t[1..], FNAME_ROOM))
    else CName(Word(t, FNAME_ROOM))
  }

  // ---- What is printed is read back -------------------------------------------------------------------------

  lemma EscapeRead(c: char, rest: string, room: nat)
    requires IsByte(c) && room > 0
    ensures Unquote(Escaped(c) + rest, room) == Prepend(c, Unquote(rest, room - 1))
  {
    var s := Escaped(c) + rest;
    if c as int < 32 || c as int == 127 {
      assert s[1..][3..] == rest;
    } else if c == '\\' || c == '"' {
      assert s[1..][1..] == rest;
    } else {
      assert s[1..] == rest;
    }
  }

  lemma {:induction false} EscapedRead(name: string, rest: string, room: nat)
    requires CString(name) && |name| <= room
    ensures Unquote(EscapedAll(name) + "\"" + rest, room) == Ok(name, rest)
    decreases |name|
  {
    hide Escaped, Unquote;
    if name == "" {
      ClosingQuote(rest, room);
      assert EscapedAll(name) + "\"" + rest == "\"" + rest;
    } else {
      var more := EscapedAll(name[1..]) + "\"" + rest;
      assert EscapedAll(name) + "\"" + rest == Escaped(name[0]) + more;
      EscapedRead(name[1..], rest, room - 1);
      EscapeRead(name[0], more, room);
      assert [name[0]] + name[1..] == name;
    }
  }

  lemma ClosingQuote(rest: string, room: nat)
    ensures Unquote("\"" + rest, room) == Ok("", rest)
  {
  }

  /** After a name comes a blank or the end of the line. */
  predicate Ends(rest: string) {
    rest != "" && (rest[0] == ' ' || rest[0] == '\n')
  }

  lemma {:induction false} WordRead(name: string, rest: string, room: nat)
    requires AllPlain(name) && |name| <= room && Ends(rest)
    ensures Word(name + rest, room) == Ok(name, rest)
    decreases |name|
  {
    if name == "" {
      assert name + rest == rest;
    } else {
      assert (name + rest)[1..] == name[1..] + rest;
      WordRead(name[1..], rest, room - 1);
      assert [name[0]] + name[1..] == name;
    }
  }

  lemma {:induction false} NoNul(s: string)
    requires CString(s)
    ensures UpToNul(s) == s
    decreases |s|
  {
    if s != "" {
      NoNul(s[1..]);
      assert [s[0]] + s[1..] == s;
    }
  }

  lemma BlankSkipped(t: string)
    requires t != "" && !Blank(t[0])
    ensures SkipBlanks(" " + t) == t
  {
    assert (" " + t)[1..] == t;
  }

  /** The one kind of name that does not survive: printed as it is, it begins like a quoted one. */
  predicate Misread(name: string) {
    AllPlain(name) && name != "" && name[0] == '"'
  }

  lemma PlainRead(name: string, rest: string)
    requires CString(name) && 0 < |name| <= FNAME_ROOM && Ends(rest) && AllPlain(name) && name[0] != '"'
    ensures ParseFname(" " + name + rest) == Ok(name, rest)
  {
    hide Word, UpToNul, SkipBlanks;
    var t := name + rest;
    NoNul(name);
    assert " " + name + rest == " " + t;
    BlankSkipped(t);
    WordRead(name, rest, FNAME_ROOM);
  }

  lemma QuotedRead(name: string, u: string, rest: string)
    requires CString(name) && Unquote(u, FNAME_ROOM) == Ok(name, rest)
    ensures ParseFname([' ', '"'] + u) == Ok(name, rest)
  {
    hide Unquote, UpToNul, SkipBlanks;
    NoNul(name);
    var t := ['"'] + u;
    assert [' ', '"'] + u == " " + t;
    BlankSkipped(t);
    assert t[1..] == u;
  }

  lemma EscapedNameRead(name: string, rest: string)
    requires CString(name) && |name| <= FNAME_ROOM
    ensures ParseFname(" \"" + EscapedAll(name) + "\"" + rest) == Ok(name, rest)
  {
    hide Unquote, ParseFname, EscapedAll;
    var u := EscapedAll(name) + "\"" + rest;
    EscapedRead(name, rest, FNAME_ROOM);
    QuotedRead(name, u, rest);
    InFront(" \"", EscapedAll(name), "\"", rest);
    assert " \"" == [' ', '"'];
  }

  lemma InFront(a: string, b: string, c: string, d: string)
    ensures a + b + c + d == a + (b + c + d)
  {
  }

  /** A name that fits and is not `Misread` is read back, whatever follows it. */
  lemma NameRead(name: string, rest: string)
    requires CString(name) && 0 < |name| <= FNAME_ROOM && Ends(rest) && !Misread(name)
    ensures ParseFname(" " + Printed(name) + rest) == Ok(name, rest)
  {
    hide ParseFname, EscapedAll;
    if AllPlain(name) {
      PlainRead(name, rest);
    } else {
      EscapedNameRead(name, rest);
      assert " " + Printed(name) + rest == " \"" + EscapedAll(name) + "\"" + rest;
    }
  }

  // ---- And only then ----------------------------------------------------------------------------------------

  predicate BlankBy(v: string, n: nat) {
    exists i :: 0 <= i < |v| && i <= n && v[i] == ' '
  }

  lemma BlankLater(c: char, v: string, n: nat)
    requires BlankBy(v, n)
    ensures BlankBy([c] + v, n + 1)
  {
    var i :| 0 <= i < |v| && i <= n && v[i] == ' ';
    assert ([c] + v)[i + 1] == ' ';
  }

  /** Reading on from inside plain text either finds the closing quote there or takes in the blank after it. */
  lemma {:induction false} QuoteRunsOn(u: string, rest: string, room: nat)
    requires AllPlain(u) && Ends(rest)
    ensures var p := Unquote(u + rest, room); p.Ok? ==> |p.value| <= |u| || BlankBy(p.value, |u|)
    decreases |u|
  {
    var s := u + rest;
    var p := Unquote(s, room);
    if u == "" {
      assert s == rest;
      assert p.Ok? ==> p.value[0] == ' ';
    } else if u[0] == '\\' {
      assert s[1..] == u[1..] + rest;
      var e := Escape(s[1..]);
      if e.Ok? && room > 0 {
        EscapeInside(u[1..], rest);
        var k := if e.rest == u[1..][1..] + rest then 2 else 4;
        assert e.rest == u[k..] + rest;
        QuoteRunsOn(u[k..], rest, room - 1);
        if p.Ok? && |p.value| > |u| {
          BlankWithin(e.value, Unquote(e.rest, room - 1).value, |u[k..]|, |u|);
        }
      }
    } else if u[0] != '"' && room > 0 {
      assert s[1..] == u[1..] + rest;
      QuoteRunsOn(u[1..], rest, room - 1);
      if p.Ok? && |p.value| > |u| {
        BlankWithin(u[0], Unquote(s[1..], room - 1).value, |u| - 1, |u|);
      }
    }
  }

  lemma BlankWithin(c: char, v: string, n: nat, m: nat)
    requires BlankBy(v, n) && n < m
    ensures BlankBy([c] + v, m)
  {
    BlankLater(c, v, n);
  }

  /** An escape does not reach beyond plain text. */
  lemma EscapeInside(u: string, rest: string)
    requires AllPlain(u) && Ends(rest) && Escape(u + rest).Ok?
    ensures u != ""
    ensures Escape(u + rest).rest == u[1..] + rest || (|u| >= 3 && Escape(u + rest).rest == u[3..] + rest)
  {
    var s := u + rest;
    assert s[|u|] == rest[0];
    if u == "" {
      assert false;
    } else {
      assert s[1..] == u[1..] + rest;
      assert |u| >= 3 ==> s[3..] == u[3..] + rest;
      assert |u| == 2 ==> s[2] == rest[0];
      assert |u| == 1 ==> s[1] == rest[0];
    }
  }

  lemma {:induction false} NulPrefix(v: string)
    ensures |UpToNul(v)| <= |v| && UpToNul(v) == v[..|UpToNul(v)|]
    decreases |v|
  {
    if v != "" && v[0] != '\0' {
      NulPrefix(v[1..]);
      assert v[..|UpToNul(v)|] == [v[0]] + v[1..][..|UpToNul(v)| - 1];
    }
  }

  /** A `Misread` name never comes back. */
  lemma MisreadLost(name: string, rest: string)
    requires Misread(name) && Ends(rest)
    ensures var p := ParseFname(" " + Printed(name) + rest); p.Fail? || p.value != name
  {
    hide Unquote, UpToNul, SkipBlanks;
    var t := name + rest;
    assert " " + Printed(name) + rest == " " + t;
    BlankSkipped(t);
    assert t[1..] == name[1..] + rest;
    QuoteRunsOn(name[1..], rest, FNAME_ROOM);
    var q := Unquote(t[1..], FNAME_ROOM);
    if q.Ok? {
      NulPrefix(q.value);
      if |q.value| > |name| - 1 {
        var i :| 0 <= i < |q.value| && i <= |name| - 1 && q.value[i] == ' ';
        assert Plain(name[i]);
      }
    }
  }

  /** `quoted_str` carries the empty string too. */
  lemma QuotedStrRead(name: string, rest: string)
    requires CString(name) && |name| <= FNAME_ROOM && Ends(rest) && !Misread(name)
    ensures ParseFname(" " + QuotedStr(name) + rest) == Ok(name, rest)
  {
    if name == "" {
      EscapedNameRead(name, rest);
      assert " " + QuotedStr(name) + rest == " \"" + EscapedAll(name) + "\"" + rest;
    } else {
      hide ParseFname, Printed;
      NameRead(name, rest);
    }
  }
}
