/** The programs that print a file list and load one. */
module FileListTools {
  import opened FileNames
  import opened FileNumbers
  import opened FileList

  // ---- Printing ---------------------------------------------------------------------------------------------

  /** Bytes on disk of the files listed, in whole blocks. */
  function BlockAlign(size: nat): nat {
    (size + 4095) / 4096 * 4096
  }

  lemma Aligned(size: nat)
    ensures BlockAlign(size) % 4096 == 0 && size <= BlockAlign(size) < size + 4096
  {
  }

  function SizeOf(e: Entry): nat
    decreases e
  {
    match e.kind
    case Dir(children) => SizeOfAll(children)
    case Reg(size, _) => if size > 0 then BlockAlign(size) else 0
    case _ => 0
  }

  function SizeOfAll(es: seq<Entry>): nat
    decreases es
  {
    if es == [] then 0 else SizeOf(es[0]) + SizeOfAll(es[1..])
  }

  lemma EscapedSplit(s: string, i: nat)
    requires i < |s|
    ensures EscapedAll(s[i..]) == Escaped(s[i]) + EscapedAll(s[i + 1..])
  {
    assert s[i..][1..] == s[i + 1..];
  }

  lemma EscapedEmpty(s: string)
    requires s == ""
    ensures EscapedAll(s) == ""
  {
  }

  class ScanState {
    var nextInodeNum: nat
    var fsSize: nat
    var fsMaxSize: nat
    var f: string

    constructor (firstInode: nat, fsMaxSize: nat)
      ensures nextInodeNum == firstInode && fsSize == 0 && this.fsMaxSize == fsMaxSize && f == ""
    {
      nextInodeNum, fsSize, f := firstInode, 0, "";
      this.fsMaxSize := fsMaxSize;
    }

    /** A character inside quotes. */
    method PrintChar(c: char)
      modifies this`f
      ensures f == old(f) + Escaped(c)
    {
      if c as int < 32 || c as int == 127 {
        f := f + ['\\', 'x', HexDigit(c as int / 16), HexDigit(c as int % 16)];
      } else if c == '\\' || c == '"' {
        f := f + ['\\', c];
      } else {
        f := f + [c];
      }
    }

    method PrintStr(str: string)
      modifies this`f
      ensures f == old(f) + Printed(str)
    {
      hide EscapedAll;
      var plain := IsPlain(str);
      if plain {
        f := f + str;
      } else {
        f := f + "\"";
        PrintEscaped(str);
        f := f + "\"";
        assert f == old(f) + ("\"" + EscapedAll(str) + "\"");
      }
    }

    method PrintEscaped(str: string)
      modifies this`f
      ensures f == old(f) + EscapedAll(str)
    {
      hide EscapedAll, Escaped;
      assert str[0..] == str;
      for i := 0 to |str|
        invariant f + EscapedAll(str[i..]) == old(f) + EscapedAll(str)
      {
        EscapedSplit(str, i);
        ghost var was := f;
        PrintChar(str[i]);
        assert f + EscapedAll(str[i + 1..]) == was + EscapedAll(str[i..]);
      }
      EscapedEmpty(str[|str|..]);
      assert f + "" == f;
    }

    /** The nanoseconds of a time, a digit at a time. */
    method PrintFraction(nsec: nat)
      requires nsec < 1000000000
      modifies this`f
      ensures f == old(f) + Nanoseconds(nsec)
    {
      Billion();
      hide Fraction, PowerOfTen, Digits;
      var v := nsec;
      ghost var x, m, unit: nat := nsec, 1000000000, 1;
      while v != 0
        invariant PowerOfTen(m) && x < m && v == x * unit && m * unit == 1000000000
        invariant f + Fraction(x, m) == old(f) + Fraction(nsec, 1000000000)
        decreases m
      {
        ghost var d, y, k, worth := NextDigit(x, m, unit, v);
        ghost var was := f;
        f := f + Digits(v / 100000000, 10);
        assert f + Fraction(y, k) == was + Fraction(x, m);
        v := (v % 100000000) * 10;
        x, m, unit := y, k, unit * 10;
      }
      NothingLeft(x, m, unit);
      assert f + "" == f;
    }

    /** Account for a file; a list over the quota is not made. */
    method AddFileSize(size: nat) returns (ok: bool)
      modifies this`fsSize
      ensures fsSize == old(fsSize) + BlockAlign(size) && (ok <==> fsSize <= fsMaxSize)
      ensures var d := fsSize - old(fsSize); d % 4096 == 0 && size <= d < size + 4096
    {
      Aligned(size);
      fsSize := fsSize + BlockAlign(size);
      ok := fsSize <= fsMaxSize;
    }

    /** The numbers between the owners and the time. */
    method PrintExtra(k: Kind)
      modifies this`f
      ensures f == old(f) + Extra(k)
    {
      hide Digits;
      match k {
        case Dev(_, major, minor) =>
          f := f + (" " + Digits(major, 10) + " " + Digits(minor, 10));
        case Reg(size, _) =>
          f := f + (" " + Digits(size, 10));
        case _ =>
          assert f + "" == f;
      }
    }

    method PrintTime(sec: nat, nsec: nat)
      requires nsec < 1000000000
      modifies this`f
      ensures f == old(f) + Time(sec, nsec)
    {
      hide Digits, Nanoseconds;
      f := f + Digits(sec, 10);
      if nsec != 0 {
        f := f + ".";
        PrintFraction(nsec);
        assert f == old(f) + (Digits(sec, 10) + ("." + Nanoseconds(nsec)));
      } else {
        assert Digits(sec, 10) + "" == Digits(sec, 10);
      }
    }

    /** The end of a line: a link's target, or a fresh file id for a file with contents, which counts for the quota. */
    method PrintTail(k: Kind) returns (ok: bool)
      requires fsSize <= fsMaxSize
      modifies this`f, this`nextInodeNum, this`fsSize
      ensures f == old(f) + Tail(k, old(nextInodeNum))
      ensures !k.Dir? ==>
                && nextInodeNum == old(nextInodeNum) + (if k.Reg? && k.size > 0 then 1 else 0)
                && fsSize == old(fsSize) + (if k.Reg? && k.size > 0 then BlockAlign(k.size) else 0)
      ensures k.Dir? ==> nextInodeNum == old(nextInodeNum) && fsSize == old(fsSize)
      ensures ok <==> fsSize <= fsMaxSize
    {
      hide Digits, Printed, BlockAlign;
      ok := true;
      match k {
        case Link(target) =>
          f := f + " ";
          PrintStr(target);
          assert f == old(f) + (" " + Printed(target));
        case Reg(size, _) =>
          if size > 0 {
            f := f + (" " + Digits(nextInodeNum, 16));
            nextInodeNum := nextInodeNum + 1;
            ok := AddFileSize(size);
          } else {
            assert f + "" == f;
          }
        case _ =>
          assert f + "" == f;
      }
    }

    method PrintLine(e: Entry) returns (ok: bool)
      requires e.nsec < 1000000000 && fsSize <= fsMaxSize
      modifies this`f, this`nextInodeNum, this`fsSize
      ensures f == old(f) + Line(e, old(nextInodeNum))
      ensures nextInodeNum == old(nextInodeNum) + if e.kind.Dir? then 0 else IdsOf(e)
      ensures fsSize == old(fsSize) + if e.kind.Dir? then 0 else SizeOf(e)
      ensures ok <==> fsSize <= fsMaxSize
    {
      hide Digits, Octal6, Extra, Time, Printed, Tail, BlockAlign, Line;
      ghost var f0, id := f, nextInodeNum;
      var mode := (FileType(e.kind) % 16) * 4096 + e.perm % 4096;
      f := f + (Octal6(mode) + " " + Digits(e.uid, 10) + " " + Digits(e.gid, 10));
      PrintExtra(e.kind);
      f := f + " ";
      PrintTime(e.sec, e.nsec);
      f := f + " ";
      PrintStr(e.name);
      ok := PrintTail(e.kind);
      f := f + "\n";
      LineIs(f0, e, id);
    }

    /** A directory: every entry, a subdirectory's entries after its line, and the end. False if the quota is
        exceeded. */
    method ScanDir(es: seq<Entry>) returns (ok: bool)
      requires TimesOk(es) && fsSize <= fsMaxSize
      modifies this`f, this`nextInodeNum, this`fsSize
      ensures ok <==> old(fsSize) + SizeOfAll(es) <= fsMaxSize
      ensures ok ==> f == old(f) + Text(es, old(nextInodeNum))
      ensures ok ==> nextInodeNum == old(nextInodeNum) + Ids(es) && fsSize == old(fsSize) + SizeOfAll(es)
      decreases es
    {
      hide Text, Ids, IdsOf, SizeOf, SizeOfAll, Line, TimesOk;
      assert es[0..] == es;
      for i := 0 to |es|
        invariant TimesOk(es[i..]) && fsSize <= fsMaxSize
        invariant f + Text(es[i..], nextInodeNum) == old(f) + Text(es, old(nextInodeNum))
        invariant nextInodeNum + Ids(es[i..]) == old(nextInodeNum) + Ids(es)
        invariant fsSize + SizeOfAll(es[i..]) == old(fsSize) + SizeOfAll(es)
      {
        ghost var f0, n0 := f, nextInodeNum;
        ScanStep(es, i, n0);
        var good := ScanEntry(es[i]);
        if !good {
          return false;
        }
        assert f + Text(es[i + 1..], nextInodeNum) == f0 + Text(es[i..], n0);
      }
      ScanEnd(es[|es|..], nextInodeNum);
      f := f + ".\n";
      return true;
    }

    /** One entry of a directory. */
    method ScanEntry(e: Entry) returns (ok: bool)
      requires fsSize <= fsMaxSize && e.nsec < 1000000000 && (e.kind.Dir? ==> TimesOk(e.kind.children))
      modifies this`f, this`nextInodeNum, this`fsSize
      ensures ok <==> old(fsSize) + SizeOf(e) <= fsMaxSize
      ensures ok ==>
              f == old(f) + Line(e, old(nextInodeNum)) + if e.kind.Dir? then Text(e.kind.children, old(nextInodeNum))
                  else ""
      ensures ok ==> nextInodeNum == old(nextInodeNum) + IdsOf(e) && fsSize == old(fsSize) + SizeOf(e)
      decreases e
    {
      hide Text, Line, TimesOk;
      ok := PrintLine(e);
      if ok && e.kind.Dir? {
        ok := ScanDir(e.kind.children);
      }
    }
  }

  method IsPlain(str: string) returns (plain: bool)
    ensures plain <==> AllPlain(str)
  {
    for i := 0 to |str|
      invariant AllPlain(str[..i])
    {
      if !Plain(str[i]) {
        return false;
      }
      assert str[..i + 1] == str[..i] + [str[i]];
    }
    assert str[..|str|] == str;
    return true;
  }

  /** The first of the digits left, and the others moved up by one place. */
  lemma NextDigit(x: nat, m: nat, unit: nat, v: nat) returns (d: nat, y: nat, k: nat, worth: nat)
    requires PowerOfTen(m) && x < m && v == x * unit && m * unit == 1000000000 && v != 0
    ensures 0 < k < m && PowerOfTen(k) && y < k && Fraction(x, m) == Digits(v / 100000000, 10) + Fraction(y, k)
    ensures (v % 100000000) * 10 == y * (unit * 10) && k * (unit * 10) == 1000000000
  {
    hide Fraction, PowerOfTen, Digits;
    d, y, k, worth := FractionStep(x, m);
    Shift(x, unit, v, d, y, k);
  }

  lemma Shift(x: nat, unit: nat, v: nat, d: nat, y: nat, k: nat)
    requires k * 10 * unit == 1000000000 && v == x * unit && x == d * k + y && y < k && d < 10
    ensures v / 100000000 == d && (v % 100000000) * 10 == y * (unit * 10) && k * (unit * 10) == 1000000000
  {
    assert k * unit == 100000000;
    assert v == d * (k * unit) + y * unit;
    assert unit > 0;
    assert y * unit < k * unit;
  }

  lemma NothingLeft(x: nat, m: nat, unit: nat)
    requires PowerOfTen(m) && x < m && x * unit == 0 && m * unit == 1000000000
    ensures Fraction(x, m) == ""
  {
    assert unit > 0;
  }

  lemma LineIs(f0: string, e: Entry, id: nat)
    requires e.nsec < 1000000000
    ensures f0 + (Octal6((FileType(e.kind) % 16) * 4096 + e.perm % 4096) + " " + Digits(e.uid, 10) + " "
            + Digits(e.gid, 10))
            + Extra(e.kind) + " " + Time(e.sec, e.nsec) + " " + Printed(e.name) + Tail(e.kind, id) + "\n"
                == f0 + Line(e, id)
  {
    hide Octal6, Digits, Time, Printed, Extra, Tail, FileType;
  }

  lemma ScanStep(es: seq<Entry>, i: nat, next: nat)
    requires i < |es| && TimesOk(es[i..])
    ensures es[i].nsec < 1000000000 && (es[i].kind.Dir? ==> TimesOk(es[i].kind.children)) && TimesOk(es[i + 1..])
    ensures Text(es[i..], next) ==
              Line(es[i], next) + (if es[i].kind.Dir? then Text(es[i].kind.children, next) else "")
              + Text(es[i + 1..], next + IdsOf(es[i]))
    ensures Ids(es[i..]) == IdsOf(es[i]) + Ids(es[i + 1..])
    ensures SizeOfAll(es[i..]) == SizeOf(es[i]) + SizeOfAll(es[i + 1..])
  {
    hide Line, IdsOf, SizeOf;
    assert es[i..][0] == es[i] && es[i..][1..] == es[i + 1..];
  }

  lemma ScanEnd(es: seq<Entry>, next: nat)
    requires es == []
    ensures Text(es, next) == ".\n" && Ids(es) == 0 && SizeOfAll(es) == 0
  {
  }

  // ---- Loading ----------------------------------------------------------------------------------------------

  lemma Rest(s: string, p: nat, k: nat)
    requires p + k <= |s|
    ensures s[p..][k..] == s[p + k..]
  {
  }

  method SkipLineAt(s: string, p0: nat) returns (p: nat)
    requires p0 <= |s|
    ensures p0 <= p <= |s| && s[p..] == SkipLine(s[p0..])
  {
    p := p0;
    while p < |s| && s[p] != '\n'
      invariant p0 <= p <= |s| && SkipLine(s[p..]) == SkipLine(s[p0..])
    {
      Rest(s, p, 1);
      p := p + 1;
    }
    if p < |s| {
      Rest(s, p, 1);
      p := p + 1;
    }
  }

  method SkipBlanksAt(s: string, p0: nat) returns (p: nat)
    requires p0 <= |s|
    ensures p0 <= p <= |s| && s[p..] == SkipBlanks(s[p0..])
  {
    p := p0;
    while p < |s| && Blank(s[p])
      invariant p0 <= p <= |s| && SkipBlanks(s[p..]) == SkipBlanks(s[p0..])
    {
      Rest(s, p, 1);
      p := p + 1;
    }
  }

  /** Characters already read before the rest of a name. */
  function Before(pre: string, q: Parsed<string>): Parsed<string> {
    if q.Fail? then Fail else Ok(pre + q.value, q.rest)
  }

  lemma BeforeOne(pre: string, c: char, q: Parsed<string>)
    ensures Before(pre, Prepend(c, q)) == Before(pre + [c], q)
  {
    if q.Ok? {
      assert pre + ([c] + q.value) == pre + [c] + q.value;
    }
  }

  lemma BeforeNone(q: Parsed<string>)
    ensures Before("", q) == q
  {
    if q.Ok? {
      assert "" + q.value == q.value;
    }
  }

  /** An escape after the backslash before `p`. */
  method EscapeAt(s: string, p: nat) returns (ok: bool, c: char, p': nat)
    requires p <= |s|
    ensures ok == Escape(s[p..]).Ok?
    ensures ok ==> p < p' <= |s| && Escape(s[p..]) == Ok(c, s[p'..])
  {
    c, p' := ' ', p;
    if p == |s| {
      return false, c, p';
    }
    Rest(s, p, 1);
    c, p' := s[p], p + 1;
    if c == '\'' || c == '"' || c == '\\' {
      return true, c, p';
    } else if c == 'n' {
      return true, '\n', p';
    } else if c == 'r' {
      return true, '\r', p';
    } else if c == 't' {
      return true, '\t', p';
    } else if c == 'x' {
      if p' == |s| || FromHex(s[p']) < 0 || p' + 1 == |s| || FromHex(s[p' + 1]) < 0 {
        return false, c, p';
      }
      Rest(s, p, 3);
      return true, (FromHex(s[p']) * 16 + FromHex(s[p' + 1])) as char, p' + 2;
    }
    return false, c, p';
  }

  /** The name after an opening quote. */
  method UnquoteAt(s: string, p0: nat) returns (ok: bool, q: string, p: nat)
    requires p0 <= |s|
    ensures ok == Unquote(s[p0..], FNAME_ROOM).Ok?
    ensures ok ==> p0 <= p <= |s| && Unquote(s[p0..], FNAME_ROOM) == Ok(q, s[p..])
  {
    hide Escape, Unquote;
    q, p := "", p0;
    BeforeNone(Unquote(s[p0..], FNAME_ROOM));
    while true
      invariant p0 <= p <= |s| && |q| <= FNAME_ROOM
      invariant Unquote(s[p0..], FNAME_ROOM) == Before(q, Unquote(s[p..], FNAME_ROOM - |q|))
      decreases |s| - p
    {
      UnquoteStep(s, p, FNAME_ROOM - |q|);
      if p == |s| || s[p] == '\n' {
        return false, q, p;
      }
      var c := s[p];
      p := p + 1;
      if c == '"' {
        assert q + "" == q;
        return true, q, p;
      }
      if c == '\\' {
        var good, c', p' := EscapeAt(s, p);
        if !good {
          return false, q, p;
        }
        c, p := c', p';
      }
      if |q| >= FNAME_ROOM {
        return false, q, p;
      }
      BeforeOne(q, c, Unquote(s[p..], FNAME_ROOM - |q| - 1));
      q := q + [c];
    }
  }

  lemma UnquoteStep(s: string, p: nat, room: nat)
    requires p <= |s|
    ensures p == |s| || s[p] == '\n' ==> Unquote(s[p..], room) == Fail
    ensures p < |s| && s[p] == '"' ==> Unquote(s[p..], room) == Ok("", s[p + 1..])
    ensures p < |s| && s[p] == '\\' ==>
              var e := Escape(s[p + 1..]);
              Unquote(s[p..], room) == if e.Fail? || room == 0 then Fail
                  else Prepend(e.value, Unquote(e.rest, room - 1))
    ensures p < |s| && s[p] != '\n' && s[p] != '"' && s[p] != '\\' ==>
              Unquote(s[p..], room) == if room == 0 then Fail else Prepend(s[p], Unquote(s[p + 1..], room - 1))
  {
    hide Escape;
    if p < |s| {
      Rest(s, p, 1);
    }
  }

  /** The name that stands without quotes. */
  method WordAt(s: string, p0: nat) returns (ok: bool, q: string, p: nat)
    requires p0 <= |s|
    ensures ok == Word(s[p0..], FNAME_ROOM).Ok?
    ensures ok ==> p0 <= p <= |s| && Word(s[p0..], FNAME_ROOM) == Ok(q, s[p..])
  {
    q, p := "", p0;
    BeforeNone(Word(s[p0..], FNAME_ROOM));
    while p < |s| && !Blank(s[p]) && s[p] != '\n'
      invariant p0 <= p <= |s| && |q| <= FNAME_ROOM
      invariant Word(s[p0..], FNAME_ROOM) == Before(q, Word(s[p..], FNAME_ROOM - |q|))
    {
      Rest(s, p, 1);
      if |q| >= FNAME_ROOM {
        return false, q, p;
      }
      BeforeOne(q, s[p], Word(s[p + 1..], FNAME_ROOM - |q| - 1));
      q := q + [s[p]];
      p := p + 1;
    }
    assert q + "" == q;
    return true, q, p;
  }

  method ParseFnameAt(s: string, p0: nat) returns (ok: bool, name: string, p: nat)
    requires p0 <= |s|
    ensures ok == ParseFname(s[p0..]).Ok?
    ensures ok ==> p0 <= p <= |s| && ParseFname(s[p0..]) == Ok(name, s[p..])
  {
    hide Unquote, Word, SkipBlanks;
    p := SkipBlanksAt(s, p0);
    if p == |s| {
      return false, "", p;
    }
    if s[p] == '"' {
      Rest(s, p, 1);
      ok, name, p := UnquoteAt(s, p + 1);
    } else {
      ok, name, p := WordAt(s, p);
    }
    name := UpToNul(name);
  }

  /** The conversion of the C library, at a cursor. */
  method ParseUintAt(s: string, p0: nat, base: nat, width: nat) returns (ok: bool, v: nat, p: nat)
    requires p0 <= |s| && width > 0
    ensures ok == ParseUint(s[p0..], base, width).Ok?
    ensures ok ==> p0 < p <= |s| && ParseUint(s[p0..], base, width) == Ok(v, s[p..])
  {
    hide StrToUl, SkipBlanks;
    p := SkipBlanksAt(s, p0);
    match StrToUl(s[p..], base) {
      case Fail =>
        return false, 0, p;
      case Ok(n, rest) =>
        StrToUlSuffix(s[p..], base);
        Rest(s, p, |s[p..]| - |rest|);
        return true, n % width, |s| - |rest|;
    }
  }

  ghost predicate IsSuffix(r: string, s: string) {
    |r| <= |s| && r == s[|s| - |r|..]
  }

  lemma SuffixOn(r: string, s: string, t: string)
    requires IsSuffix(r, s) && IsSuffix(s, t)
    ensures IsSuffix(r, t)
  {
    assert t[|t| - |s|..][|s| - |r|..] == t[|t| - |r|..];
  }

  lemma {:induction false} SpaceSuffix(s: string)
    ensures IsSuffix(SkipSpace(s), s)
    decreases |s|
  {
    if s != "" && IsSpace(s[0]) {
      SpaceSuffix(s[1..]);
      SuffixOn(SkipSpace(s), s[1..], s);
    }
  }

  lemma {:induction false} DigitsSuffix(s: string, base: nat, acc: nat)
    ensures IsSuffix(Accumulate(s, base, acc).1, s)
    decreases |s|
  {
    if s != "" && IsDigit(s[0], base) {
      DigitsSuffix(s[1..], base, acc * base + FromHex(s[0]));
      SuffixOn(Accumulate(s, base, acc).1, s[1..], s);
    }
  }

  lemma StrToUlSuffix(s: string, base: nat)
    ensures StrToUl(s, base).Ok? ==> IsSuffix(StrToUl(s, base).rest, s)
  {
    hide Accumulate, SkipSpace, Unsigned, Unprefixed, BaseOf, IsDigit, IsSuffix;
    var t := SkipSpace(s);
    var u := Unsigned(t);
    var w := Unprefixed(u, base);
    SpaceSuffix(s);
    SignSuffix(t);
    PrefixSuffix(u, base);
    SuffixOn(u, t, s);
    SuffixOn(w, u, s);
    DigitsSuffix(w, BaseOf(u, base), 0);
    SuffixOn(Accumulate(w, BaseOf(u, base), 0).1, w, s);
  }

  lemma SignSuffix(t: string)
    ensures IsSuffix(Unsigned(t), t)
  {
  }

  lemma PrefixSuffix(u: string, base: nat)
    ensures IsSuffix(Unprefixed(u, base), u)
  {
  }

  /** A time: seconds and perhaps a fraction. */
  method ParseTimeAt(s: string, p0: nat) returns (ok: bool, sec: nat, nsec: nat, p: nat)
    requires p0 <= |s|
    ensures ok == ParseTime(s[p0..]).Ok?
    ensures ok ==> p0 <= p <= |s| && ParseTime(s[p0..]) == Ok((sec, nsec), s[p..])
  {
    hide ParseUint, ParseFraction;
    nsec := 0;
    ok, sec, p := ParseUintAt(s, p0, 0, U32);
    if !ok {
      return;
    }
    if p < |s| && s[p] == '.' {
      Rest(s, p, 1);
      nsec, p := ParseFractionAt(s, p + 1);
    }
  }

  method ParseFractionAt(s: string, p0: nat) returns (v: nat, p: nat)
    requires p0 <= |s|
    ensures p0 <= p <= |s| && ParseFraction(s[p0..], 1000000000, 0) == (v, s[p..])
  {
    var m := 1000000000;
    v, p := 0, p0;
    while p < |s| && '0' <= s[p] <= '9'
      invariant p0 <= p <= |s| && m >= 0
      invariant ParseFraction(s[p..], m, v) == ParseFraction(s[p0..], 1000000000, 0)
    {
      Rest(s, p, 1);
      m := m / 10;
      v := (v + (s[p] as int - '0' as int) * m) % U32;
      p := p + 1;
    }
  }

  method ParseExtraAt(fileType: nat, s: string, p0: nat) returns (ok: bool, k: Kind, p: nat)
    requires p0 <= |s|
    ensures ok == ParseExtra(fileType, s[p0..]).Ok?
    ensures ok ==> p0 <= p <= |s| && ParseExtra(fileType, s[p0..]) == Ok(k, s[p..])
  {
    hide ParseUint;
    ok, k, p := true, Other(fileType), p0;
    if fileType == FT_CHR || fileType == FT_BLK {
      var major, minor: nat;
      ok, major, p := ParseUintAt(s, p, 0, U32);
      if ok {
        ok, minor, p := ParseUintAt(s, p, 0, U32);
        k := Dev(fileType, major, minor);
      }
    } else if fileType == FT_REG {
      var size: nat;
      ok, size, p := ParseUintAt(s, p, 0, U64);
      k := Reg(size, 0);
    } else if fileType == FT_DIR {
      k := Dir([]);
    } else if fileType == FT_LNK {
      k := Link("");
    }
  }

  method ParseTailAt(k0: Kind, s: string, p0: nat) returns (ok: bool, k: Kind, p: nat)
    requires p0 <= |s|
    ensures ok == ParseTail(k0, s[p0..]).Ok?
    ensures ok ==> p0 <= p <= |s| && ParseTail(k0, s[p0..]) == Ok(k, s[p..])
  {
    hide ParseUint, ParseFname;
    ok, k, p := true, k0, p0;
    if k0.Link? {
      var target: string;
      ok, target, p := ParseFnameAt(s, p);
      k := Link(target);
    } else if k0.Reg? && k0.size > 0 {
      var id: nat;
      ok, id, p := ParseUintAt(s, p, 16, U64);
      k := Reg(k0.size, id);
    }
  }

  /** One line of the list, up to the next. */
  method ParseLineAt(s: string, p0: nat) returns (ok: bool, e: Entry, p: nat)
    requires p0 <= |s|
    ensures ok == ParseLine(s[p0..]).Ok?
    ensures ok ==> p0 < p <= |s| && ParseLine(s[p0..]) == Ok(e, s[p..])
  {
    hide ParseUint, ParseFname, ParseExtra, ParseTime, ParseTail, SkipLine;
    e := Entry("", 0, 0, 0, 0, 0, Dir([]));
    var mode, uid, gid, sec, nsec: nat;
    var kind: Kind, name: string;
    ok, mode, p := ParseUintAt(s, p0, 8, U32);
    if !ok { return; }
    ok, uid, p := ParseUintAt(s, p, 0, U32);
    if !ok { return; }
    ok, gid, p := ParseUintAt(s, p, 0, U32);
    if !ok { return; }
    ok, kind, p := ParseExtraAt(mode / 4096, s, p);
    if !ok { return; }
    ok, sec, nsec, p := ParseTimeAt(s, p);
    if !ok { return; }
    ok, name, p := ParseFnameAt(s, p);
    if !ok { return; }
    ok, kind, p := ParseTailAt(kind, s, p);
    if !ok { return; }
    e := Entry(name, mode % 4096, uid, gid, sec, nsec, kind);
    p := SkipLineAt(s, p);
  }

  /** Entries already read before the rest of a directory. */
  function Earlier(pre: seq<Entry>, q: Parsed<seq<Entry>>): Parsed<seq<Entry>> {
    if q.Fail? then Fail else Ok(pre + q.value, q.rest)
  }

  lemma EarlierOne(pre: seq<Entry>, e: Entry, q: Parsed<seq<Entry>>)
    ensures Earlier(pre, Earlier([e], q)) == Earlier(pre + [e], q)
  {
    if q.Ok? {
      assert pre + ([e] + q.value) == pre + [e] + q.value;
    }
  }

  /** The rules of `Load` at a cursor. */
  lemma LoadStep(s: string, p: nat)
    requires p <= |s|
    ensures p == |s| ==> Load(s[p..]) == Ok([], s[p..])
    ensures p < |s| && s[p] == '#' ==> Load(s[p..]) == Load(SkipLine(s[p..]))
    ensures p < |s| && s[p] == '.' ==> Load(s[p..]) == Ok([], SkipLine(s[p + 1..]))
    ensures p < |s| && s[p] != '#' && s[p] != '.' ==>
              match ParseLine(s[p..])
              case Fail => Load(s[p..]) == Fail
              case Ok(e, s1) =>
                if e.kind.Dir? then
                  match Load(s1)
                  case Fail => Load(s[p..]) == Fail
                  case Ok(children, s2) => Load(s[p..]) == Earlier([e.(kind := Dir(children))], Load(s2))
                else Load(s[p..]) == Earlier([e], Load(s1))
  {
    hide ParseLine;
    if p < |s| {
      Rest(s, p, 1);
    }
  }

  /** The entries of a directory. False at the first line that cannot be read. */
  method LoadRec(s: string, p0: nat) returns (ok: bool, es: seq<Entry>, p: nat)
    requires p0 <= |s|
    ensures ok == Load(s[p0..]).Ok?
    ensures ok ==> p0 <= p <= |s| && Load(s[p0..]) == Ok(es, s[p..])
    decreases |s| - p0
  {
    hide Load, ParseLine, SkipLine;
    es, p := [], p0;
    assert Load(s[p0..]) == Earlier([], Load(s[p..])) by {
      if Load(s[p0..]).Ok? {
        assert [] + Load(s[p0..]).value == Load(s[p0..]).value;
      }
    }
    while true
      invariant p0 <= p <= |s| && Load(s[p0..]) == Earlier(es, Load(s[p..]))
      decreases |s| - p
    {
      LoadStep(s, p);
      assert es + [] == es;
      if p == |s| {
        return true, es, p;
      }
      if s[p] == '#' {
        p := CommentAt(s, p);
        continue;
      }
      if s[p] == '.' {
        p := SkipLineAt(s, p + 1);
        return true, es, p;
      }
      var e: Entry, children: seq<Entry>;
      ok, e, p := ParseLineAt(s, p);
      if !ok {
        return;
      }
      if e.kind.Dir? {
        ok, children, p := LoadRec(s, p);
        if !ok {
          return;
        }
        e := e.(kind := Dir(children));
      }
      EarlierOne(es, e, Load(s[p..]));
      es := es + [e];
    }
  }

  method CommentAt(s: string, p0: nat) returns (p: nat)
    requires p0 < |s| && s[p0] == '#'
    ensures p0 < p <= |s| && s[p..] == SkipLine(s[p0..])
  {
    Rest(s, p0, 1);
    p := SkipLineAt(s, p0 + 1);
  }

  /** Both programs, one after the other: the tree comes back, unless the quota stopped the first. */
  method PrintAndLoad(es: seq<Entry>, firstInode: nat, fsMaxSize: nat) returns (ok: bool, loaded: seq<Entry>)
    requires TreeOk(es) && firstInode + Ids(es) < U64
    ensures ok <==> SizeOfAll(es) <= fsMaxSize
    ensures ok ==> loaded == Numbered(es, firstInode)
  {
    hide TreeOk, Ids, Text, Load, Numbered, SizeOfAll, TimesOk;
    TreeTimes(es);
    var s := new ScanState(firstInode, fsMaxSize);
    var printed := s.ScanDir(es);
    if !printed {
      return false, [];
    }
    var p: nat;
    RoundTrip(es, firstInode, "");
    assert Text(es, firstInode) + "" == Text(es, firstInode) && "" + Text(es, firstInode) == Text(es, firstInode);
    assert s.f[0..] == s.f;
    ok, loaded, p := LoadRec(s.f, 0);
  }
}
