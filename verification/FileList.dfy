/** File lists: a directory tree as text, and the tree read from a text. */
module FileList {
  import opened FileNames
  import opened FileNumbers

  const FT_CHR := 2
  const FT_DIR := 4
  const FT_BLK := 6
  const FT_REG := 8
  const FT_LNK := 10

  datatype Kind =
    | Dir(children: seq<Entry>)
    | Reg(size: nat, fileId: nat)
    | Link(target: string)
    | Dev(fileType: nat, major: nat, minor: nat)
    | Other(fileType: nat)

  datatype Entry = Entry(name: string, perm: nat, uid: nat, gid: nat, sec: nat, nsec: nat, kind: Kind)

  // ---- What is listed ---------------------------------------------------------------------------------------

  function FileType(k: Kind): nat {
    match k
    case Dir(_) => FT_DIR
    case Reg(_, _) => FT_REG
    case Link(_) => FT_LNK
    case Dev(t, _, _) => t
    case Other(t) => t
  }

  /** File ids are given out in the order of the list to the files that have contents. */
  function IdsOf(e: Entry): nat
    decreases e
  {
    match e.kind
    case Dir(children) => Ids(children)
    case Reg(size, _) => if size > 0 then 1 else 0
    case _ => 0
  }

  function Ids(es: seq<Entry>): nat
    decreases es
  {
    if es == [] then 0 else IdsOf(es[0]) + Ids(es[1..])
  }

  /** The entries with their file ids, `next` being the first. */
  function NumberedEntry(e: Entry, next: nat): Entry
    decreases e
  {
    match e.kind
    case Dir(children) => e.(kind := Dir(Numbered(children, next)))
    case Reg(size, _) => e.(kind := Reg(size, if size > 0 then next else 0))
    case _ => e
  }

  function Numbered(es: seq<Entry>, next: nat): seq<Entry>
    decreases es
  {
    if es == [] then [] else [NumberedEntry(es[0], next)] + Numbered(es[1..], next + IdsOf(es[0]))
  }

  // ---- Printing ---------------------------------------------------------------------------------------------

  /** What a line has between the owners and the time. */
  function Extra(k: Kind): string {
    match k
    case Dev(_, major, minor) => " " + Digits(major, 10) + " " + Digits(minor, 10)
    case Reg(size, _) => " " + Digits(size, 10)
    case _ => ""
  }

  /** What a line has after the name. */
  function Tail(k: Kind, id: nat): string {
    match k
    case Link(target) => " " + Printed(target)
    case Reg(size, _) => if size > 0 then " " + Digits(id, 16) else ""
    case _ => ""
  }

  function Line(e: Entry, id: nat): string
    requires e.nsec < 1000000000
  {
    Octal6((FileType(e.kind) % 16) * 4096 + e.perm % 4096) + " " + Digits(e.uid, 10) + " " + Digits(e.gid, 10)
    + Extra(e.kind) + " " + Time(e.sec, e.nsec) + " " + Printed(e.name) + Tail(e.kind, id) + "\n"
  }

  predicate TimesOk(es: seq<Entry>)
    decreases es
  {
    es != [] ==> es[0].nsec < 1000000000 && (es[0].kind.Dir? ==> TimesOk(es[0].kind.children)) && TimesOk(es[1..])
  }

  /** A directory: its entries, each subdirectory's following its line, and a line that ends it. */
  function Text(es: seq<Entry>, next: nat): string
    requires TimesOk(es)
    decreases es
  {
    if es == [] then ".\n"
    else
      Line(es[0], next) + (if es[0].kind.Dir? then Text(es[0].kind.children, next) else "")
      + Text(es[1..], next + IdsOf(es[0]))
  }

  // ---- Reading ----------------------------------------------------------------------------------------------

  function SkipLine(s: string): (r: string)
    ensures |r| <= |s|
  {
    if s == "" then "" else if s[0] == '\n' then s[1..] else SkipLine(s[1..])
  }

  function ParseExtra(fileType: nat, s: string): (p: Parsed<Kind>)
    ensures p.Ok? ==> |p.rest| <= |s|
  {
    if fileType == FT_CHR || fileType == FT_BLK then
      var (major, s1) :- ParseUint(s, 0, U32);
      var (minor, s2) :- ParseUint(s1, 0, U32);
      Ok(Dev(fileType, major, minor), s2)
    else if fileType == FT_REG then
      var (size, s1) :- ParseUint(s, 0, U64);
      Ok(Reg(size, 0), s1)
    else Ok(if fileType == FT_DIR then Dir([]) else if fileType == FT_LNK then Link("") else Other(fileType), s)
  }

  function ParseTail(k: Kind, s: string): (p: Parsed<Kind>)
    ensures p.Ok? ==> |p.rest| <= |s|
  {
    if k.Link? then
      var (target, s1) :- ParseFname(s);
      Ok(Link(target), s1)
    else if k.Reg? && k.size > 0 then
      var (id, s1) :- ParseUint(s, 16, U64);
      Ok(Reg(k.size, id), s1)
    else Ok(k, s)
  }

  /** One line; a directory's entries are yet to come. */
  function ParseLine(s: string): (p: Parsed<Entry>)
    ensures p.Ok? ==> |p.rest| < |s|
  {
    var (mode, s1) :- ParseUint(s, 8, U32);
    var (uid, s2) :- ParseUint(s1, 0, U32);
    var (gid, s3) :- ParseUint(s2, 0, U32);
    var (kind, s4) :- ParseExtra(mode / 4096, s3);
    var (time, s5) :- ParseTime(s4);
    var (name, s6) :- ParseFname(s5);
    var (kind', s7) :- ParseTail(kind, s6);
    Ok(Entry(name, mode % 4096, uid, gid, time.0, time.1, kind'), SkipLine(s7))
  }

  /** A directory's entries, to its end or that of the text. */
  function Load(s: string): (p: Parsed<seq<Entry>>)
    ensures p.Ok? ==> |p.rest| <= |s|
    decreases |s|
  {
    if s == "" then Ok([], "")
    else if s[0] == '#' then Load(SkipLine(s[1..]))
    else if s[0] == '.' then Ok([], SkipLine(s[1..]))
    else
      var (e, s1) :- ParseLine(s);
      if e.kind.Dir? then
        var (children, s2) :- Load(s1);
        var (es, s3) :- Load(s2);
        Ok([e.(kind := Dir(children))] + es, s3)
      else
        var (es, s2) :- Load(s1);
        Ok([e] + es, s2)
  }

  lemma OneDigit(n: nat, base: nat)
    requires Base(base) && n < base
    ensures Digits(n, base) == [HexDigit(n)]
  {
  }

  lemma OneMoreDigit(n: nat, base: nat, front: string)
    requires Base(base) && n >= base && Digits(n / base, base) == front
    ensures Digits(n, base) == front + [HexDigit(n % base)]
  {
  }

  lemma SampleMode()
    ensures Octal6(33188) == "100644"
  {
    hide Digits;
    OneDigit(1, 8);
    OneMoreDigit(8, 8, "1");
    OneMoreDigit(64, 8, "10");
    OneMoreDigit(518, 8, "100");
    OneMoreDigit(4148, 8, "1006");
    OneMoreDigit(33188, 8, "10064");
  }

  lemma SampleTime()
    ensures Time(3, 0) == "3"
  {
    hide Digits;
    OneDigit(3, 10);
  }

  lemma SampleName(c: char)
    requires Plain(c)
    ensures Printed([c]) == [c]
  {
  }

  /** A line as it looks: mode, owner, group, size, time, name and file id. */
  lemma SampleLine()
    ensures Line(Entry("a", 420, 1, 2, 3, 0, Reg(4, 0)), 26) == "100644 1 2 4 3 a 1a\n"
  {
    hide Digits, Octal6, Time, Printed;
    SampleMode();
    OneDigit(1, 10);
    OneDigit(2, 10);
    OneDigit(4, 10);
    SampleTime();
    SampleName('a');
    OneDigit(1, 16);
    OneMoreDigit(26, 16, "1");
  }

  lemma SampleDeviceMode()
    ensures Octal6(8576) == "020600"
  {
    hide Digits;
    OneDigit(2, 8);
    OneMoreDigit(16, 8, "2");
    OneMoreDigit(134, 8, "20");
    OneMoreDigit(1072, 8, "206");
    OneMoreDigit(8576, 8, "2060");
    assert Zeros(1) == "0";
  }

  /** A device has its two numbers in place of a size. */
  lemma SampleDeviceLine()
    ensures Line(Entry("a", 384, 1, 2, 3, 0, Dev(FT_CHR, 4, 5)), 0) == "020600 1 2 4 5 3 a\n"
  {
    hide Digits, Octal6, Time, Printed;
    SampleDeviceMode();
    OneDigit(1, 10);
    OneDigit(2, 10);
    OneDigit(4, 10);
    OneDigit(5, 10);
    SampleTime();
    SampleName('a');
  }

  // ---- Empty lines ------------------------------------------------------------------------------------------

  lemma {:induction false} BlanksAreSpace(s: string)
    ensures SkipSpace(SkipBlanks(s)) == SkipSpace(s)
  {
    if s != "" && (s[0] == ' ' || s[0] == '\t') {
      BlanksAreSpace(s[1..]);
    }
  }

  lemma NewlineNumber(s: string)
    ensures ParseUint("\n" + s, 8, U32) == ParseUint(s, 8, U32)
  {
    var l := "\n" + s;
    assert l[1..] == s;
    assert SkipSpace(l) == SkipSpace(s);
    BlanksAreSpace(s);
    assert StrToUl(SkipBlanks(l), 8) == StrToUl(SkipBlanks(s), 8);
  }

  lemma NewlineLine(s: string)
    ensures ParseLine("\n" + s) == ParseLine(s)
  {
    NewlineNumber(s);
    hide ParseUint, ParseExtra, ParseTime, ParseFname, ParseTail;
  }

  /** An empty line is skipped as blank space before the mode, so it must not be followed by a comment, by the end of
      the directory or by that of the text. */
  lemma EmptyLine(s: string)
    ensures Load("\n" + s) == if s == "" || s[0] == '#' || s[0] == '.' then Fail else Load(s)
  {
    NewlineLine(s);
    hide ParseLine;
    if s == "" || s[0] == '#' || s[0] == '.' {
      NoMode(s);
    }
  }

  lemma {:induction false} LineSkipped(c: string, rest: string)
    requires '\n' !in c
    ensures SkipLine(c + "\n" + rest) == rest
  {
    if c == "" {
      assert c + "\n" + rest == "\n" + rest;
    } else {
      LineSkipped(c[1..], rest);
      assert (c + "\n" + rest)[1..] == c[1..] + "\n" + rest;
    }
  }

  /** A comment is passed over, whatever it says; a line that begins with a dot ends the directory. */
  lemma CommentLine(c: string, rest: string)
    requires '\n' !in c
    ensures Load("#" + c + "\n" + rest) == Load(rest) && Load("." + c + "\n" + rest) == Ok([], rest)
  {
    LineSkipped(c, rest);
    assert ("#" + c + "\n" + rest)[1..] == c + "\n" + rest == ("." + c + "\n" + rest)[1..];
    hide ParseLine;
  }

  lemma NoMode(s: string)
    requires s == "" || s[0] == '#' || s[0] == '.'
    ensures ParseLine(s).Fail?
  {
  }

  // ---- What is printed is read back -------------------------------------------------------------------------

  /** A name the format can carry. */
  predicate NameOk(name: string) {
    CString(name) && |name| <= FNAME_ROOM && !Misread(name)
  }

  predicate KindOk(k: Kind) {
    match k
    case Dir(_) => true
    case Reg(size, _) => size < U64
    case Link(target) => NameOk(target)
    case Dev(t, major, minor) => (t == FT_CHR || t == FT_BLK) && major < U32 && minor < U32
    case Other(t) => t < 16 && t != FT_CHR && t != FT_DIR && t != FT_BLK && t != FT_REG && t != FT_LNK
  }

  /** An entry as a host filesystem has it, with a name the format can carry. */
  predicate EntryOk(e: Entry) {
    && NameOk(e.name) && e.name != "" && e.perm < 4096 && e.uid < U32 && e.gid < U32
    && e.sec < U32 && e.nsec < 1000000000 && KindOk(e.kind)
  }

  predicate TreeOk(es: seq<Entry>)
    decreases es
  {
    es != [] ==> EntryOk(es[0]) && (es[0].kind.Dir? ==> TreeOk(es[0].kind.children)) && TreeOk(es[1..])
  }

  lemma {:induction false} TreeTimes(es: seq<Entry>)
    requires TreeOk(es)
    ensures TimesOk(es)
    decreases es
  {
    if es != [] {
      if es[0].kind.Dir? {
        TreeTimes(es[0].kind.children);
      }
      TreeTimes(es[1..]);
    }
  }

  /** What the front of a line says of the kind. */
  function Announced(k: Kind): Kind {
    match k
    case Dir(_) => Dir([])
    case Reg(size, _) => Reg(size, 0)
    case Link(_) => Link("")
    case _ => k
  }

  function WithTail(k: Kind, id: nat): Kind {
    match k
    case Dir(_) => Dir([])
    case Reg(size, _) => Reg(size, if size > 0 then id else 0)
    case _ => k
  }

  lemma TailRead(k: Kind, id: nat, rest: string)
    requires KindOk(k) && id < U64
    ensures ParseTail(Announced(k), Tail(k, id) + ("\n" + rest)) == Ok(WithTail(k, id), "\n" + rest)
    ensures Ends(Tail(k, id) + ("\n" + rest))
  {
    hide ParseFname, ParseUint, Digits, Printed, CString, Misread;
    var end := "\n" + rest;
    match k {
      case Link(target) => LinkRead(target, end);
      case Reg(size, _) => SizeTailRead(size, id, end);
      case _ => NothingRead(end);
    }
  }

  lemma NothingRead(end: string)
    ensures "" + end == end
  {
  }

  /** A file with contents has its id. */
  lemma SizeTailRead(size: nat, id: nat, end: string)
    requires id < U64 && end != "" && end[0] == '\n'
    ensures var t := (if size > 0 then " " + Digits(id, 16) else "") + end;
            Ends(t) && ParseTail(Reg(size, 0), t) == Ok(Reg(size, if size > 0 then id else 0), end)
  {
    hide ParseUint, Digits;
    if size > 0 {
      FileIdRead(id, end);
      assert " " + Digits(id, 16) + end == " " + (Digits(id, 16) + end);
    } else {
      NothingRead(end);
    }
  }

  /** A link's target ends its line, so that it may be empty. */
  lemma LinkRead(target: string, end: string)
    requires NameOk(target) && end != "" && end[0] == '\n'
    ensures ParseFname(" " + Printed(target) + end) == Ok(target, end)
  {
    if target == "" {
      assert " " + Printed(target) + end == " " + end;
      BlankSkipped(end);
    } else {
      NameRead(target, end);
    }
  }

  lemma DevRead(t: nat, major: nat, minor: nat, more: string)
    requires (t == FT_CHR || t == FT_BLK) && major < U32 && minor < U32 && more != "" && more[0] == ' '
    ensures ParseExtra(t, " " + Digits(major, 10) + " " + Digits(minor, 10) + more) == Ok(Dev(t, major, minor), more)
  {
    hide ParseUint, Digits;
    var m := " " + (Digits(minor, 10) + more);
    TwoNumbers(Digits(major, 10), Digits(minor, 10), more);
    UintRead(major, m, U32);
    UintRead(minor, more, U32);
  }

  lemma TwoNumbers(a: string, b: string, more: string)
    ensures " " + a + " " + b + more == " " + (a + (" " + (b + more)))
  {
  }

  lemma SizeRead(size: nat, more: string)
    requires size < U64 && more != "" && more[0] == ' '
    ensures ParseExtra(FT_REG, " " + Digits(size, 10) + more) == Ok(Reg(size, 0), more)
  {
    hide ParseUint, Digits;
    UintRead(size, more, U64);
    assert " " + Digits(size, 10) + more == " " + (Digits(size, 10) + more);
  }

  lemma ExtraRead(k: Kind, more: string)
    requires KindOk(k) && more != "" && more[0] == ' '
    ensures ParseExtra(FileType(k), Extra(k) + more) == Ok(Announced(k), more)
    ensures Extra(k) + more != "" && (Extra(k) + more)[0] == ' '
  {
    match k {
      case Dev(t, major, minor) =>
        hide ParseUint, Digits, ParseExtra;
        DevRead(t, major, minor, more);
      case Reg(size, _) =>
        hide ParseUint, Digits, ParseExtra;
        SizeRead(size, more);
      case _ =>
        hide ParseUint, Digits, NameOk;
        assert "" + more == more;
    }
  }

  lemma ModeBits(t: nat, perm: nat)
    requires t < 16 && perm < 4096
    ensures (t % 16 * 4096 + perm % 4096) / 4096 == t && (t % 16 * 4096 + perm % 4096) % 4096 == perm
    ensures t % 16 * 4096 + perm % 4096 < U32
  {
  }

  /** A line from the kind's numbers on. */
  function LineEnd(e: Entry, id: nat, rest: string): string
    requires e.nsec < 1000000000
  {
    Extra(e.kind) + (" " + (Time(e.sec, e.nsec) + (" " + Printed(e.name) + (Tail(e.kind, id) + ("\n" + rest)))))
  }

  lemma LineParts(e: Entry, id: nat, rest: string)
    requires e.nsec < 1000000000
    ensures Line(e, id) + rest ==
              Octal6((FileType(e.kind) % 16) * 4096 + e.perm % 4096)
              + (" " + (Digits(e.uid, 10) + (" " + (Digits(e.gid, 10) + LineEnd(e, id, rest)))))
  {
    hide Octal6, Digits, Time, Printed, Extra, Tail, FileType;
  }

  lemma LineRead(e: Entry, id: nat, rest: string)
    requires EntryOk(e) && id < U64
    ensures ParseLine(Line(e, id) + rest) == Ok(e.(kind := WithTail(e.kind, id)), rest)
  {
    hide Octal6, Digits, Time, Printed, Extra, Tail, ParseUint, ParseExtra, ParseTime, ParseFname, ParseTail, NameOk,
        Line;
    LineParts(e, id, rest);
    var t7 := Tail(e.kind, id) + ("\n" + rest);
    TailRead(e.kind, id, rest);
    NameBack(e.name, t7);
    var t6 := " " + Printed(e.name) + t7;
    TimeRead(e.sec, e.nsec, t6);
    var t5 := " " + (Time(e.sec, e.nsec) + t6);
    ExtraRead(e.kind, t5);
    var t4 := Extra(e.kind) + t5;
    UintRead(e.gid, t4, U32);
    var t3 := " " + (Digits(e.gid, 10) + t4);
    UintRead(e.uid, t3, U32);
    TypeFits(e.kind);
    ModeBits(FileType(e.kind), e.perm);
    ModeRead((FileType(e.kind) % 16) * 4096 + e.perm % 4096, " " + (Digits(e.uid, 10) + t3));
    assert SkipLine("\n" + rest) == rest;
  }

  lemma NameBack(name: string, rest: string)
    requires NameOk(name) && name != "" && Ends(rest)
    ensures ParseFname(" " + Printed(name) + rest) == Ok(name, rest)
  {
    NameRead(name, rest);
  }

  lemma TypeFits(k: Kind)
    requires KindOk(k)
    ensures FileType(k) < 16
  {
  }

  lemma LineStart(e: Entry, id: nat, more: string)
    requires e.nsec < 1000000000
    ensures var s := Line(e, id) + more; s != "" && s[0] != '#' && s[0] != '.'
  {
    LineParts(e, id, more);
    OctalStart((FileType(e.kind) % 16) * 4096 + e.perm % 4096, " "
        + (Digits(e.uid, 10) + (" " + (Digits(e.gid, 10) + LineEnd(e, id, more)))));
  }

  lemma TextStep(es: seq<Entry>, next: nat, rest: string)
    requires TimesOk(es) && es != []
    ensures var l := Text(es[1..], next + IdsOf(es[0])) + rest;
            Text(es, next) + rest ==
              Line(es[0], next) + if es[0].kind.Dir? then Text(es[0].kind.children, next) + l else l
  {
    hide Line, IdsOf;
  }

  lemma NumberedDir(es: seq<Entry>, next: nat)
    requires es != [] && es[0].kind.Dir?
    ensures Numbered(es, next) ==
              [es[0].(kind := Dir(Numbered(es[0].kind.children, next)))] + Numbered(es[1..], next + IdsOf(es[0]))
  {
    hide IdsOf;
  }

  lemma NumberedFile(es: seq<Entry>, next: nat)
    requires es != [] && !es[0].kind.Dir?
    ensures Numbered(es, next) == [es[0].(kind := WithTail(es[0].kind, next))] + Numbered(es[1..], next + IdsOf(es[0]))
  {
    hide IdsOf;
  }

  lemma IdsStep(es: seq<Entry>)
    requires es != []
    ensures Ids(es) == IdsOf(es[0]) + Ids(es[1..])
    ensures es[0].kind.Dir? ==> IdsOf(es[0]) == Ids(es[0].kind.children)
  {
  }

  lemma LoadsDir(s: string, e: Entry, s1: string, children: seq<Entry>, s2: string, es: seq<Entry>, s3: string)
    requires s != "" && s[0] != '#' && s[0] != '.' && ParseLine(s) == Ok(e, s1) && e.kind.Dir?
    requires Load(s1) == Ok(children, s2) && Load(s2) == Ok(es, s3)
    ensures Load(s) == Ok([e.(kind := Dir(children))] + es, s3)
  {
    hide ParseLine;
  }

  lemma LoadsFile(s: string, e: Entry, s1: string, es: seq<Entry>, s2: string)
    requires s != "" && s[0] != '#' && s[0] != '.' && ParseLine(s) == Ok(e, s1) && !e.kind.Dir?
    requires Load(s1) == Ok(es, s2)
    ensures Load(s) == Ok([e] + es, s2)
  {
    hide ParseLine;
  }

  lemma EndRead(rest: string)
    ensures Load(".\n" + rest) == Ok([], rest)
  {
    hide ParseLine;
    assert (".\n" + rest)[1..] == "\n" + rest && ("\n" + rest)[1..] == rest;
  }

  lemma TreeStep(es: seq<Entry>)
    requires TreeOk(es) && es != []
    ensures EntryOk(es[0]) && es[0].nsec < 1000000000 && TreeOk(es[1..])
    ensures es[0].kind.Dir? ==> TreeOk(es[0].kind.children)
  {
  }

  lemma TextEmpty(next: nat)
    ensures Text([], next) == ".\n" && Numbered([], next) == []
  {
  }

  /** Loading what was printed rebuilds the tree, with the file ids that were given out. */
  lemma {:induction false} RoundTrip(es: seq<Entry>, next: nat, rest: string)
    requires TreeOk(es) && next + Ids(es) < U64
    ensures TimesOk(es) && Load(Text(es, next) + rest) == Ok(Numbered(es, next), rest)
    decreases es
  {
    hide TreeOk, Ids, IdsOf, Text, Load, ParseLine, Line, Numbered, WithTail, EntryOk, TimesOk;
    TreeTimes(es);
    if es == [] {
      TextEmpty(next);
      EndRead(rest);
    } else {
      TreeStep(es);
      TreeTimes(es[1..]);
      IdsStep(es);
      var e, n := es[0], next + IdsOf(es[0]);
      var l := Text(es[1..], n) + rest;
      RoundTrip(es[1..], n, rest);
      TextStep(es, next, rest);
      if e.kind.Dir? {
        TreeTimes(e.kind.children);
        RoundTrip(e.kind.children, next, l);
        var more := Text(e.kind.children, next) + l;
        LineRead(e, next, more);
        LineStart(e, next, more);
        DirTail(e.kind, next);
        LoadsDir(Line(e, next) + more, e.(kind := Dir([])), more, Numbered(e.kind.children, next), l,
                 Numbered(es[1..], n), rest);
        NumberedDir(es, next);
      } else {
        LineRead(e, next, l);
        LineStart(e, next, l);
        FileTail(e.kind, next);
        LoadsFile(Line(e, next) + l, e.(kind := WithTail(e.kind, next)), l, Numbered(es[1..], n), rest);
        NumberedFile(es, next);
      }
    }
  }

  lemma DirTail(k: Kind, id: nat)
    requires k.Dir?
    ensures WithTail(k, id) == Dir([])
  {
  }

  lemma FileTail(k: Kind, id: nat)
    requires !k.Dir?
    ensures !WithTail(k, id).Dir?
  {
  }
}
