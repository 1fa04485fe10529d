/** Numbers and times in a file list. */
module FileNumbers {
  import opened FileNames

  const U32 := 0x1_0000_0000
  const U64 := 0x1_0000_0000_0000_0000

  // ---- Printing ---------------------------------------------------------------------------------------------

  predicate Base(base: nat) {
    base == 8 || base == 10 || base == 16
  }

  function Digits(n: nat, base: nat): (s: string)
    requires Base(base)
    ensures |s| > 0
  {
    if n < base then [HexDigit(n)] else Digits(n / base, base) + [HexDigit(n % base)]
  }

  function Zeros(k: nat): string {
    if k == 0 then "" else "0" + Zeros(k - 1)
  }

  /** At least six octal digits. */
  function Octal6(n: nat): string {
    var s := Digits(n, 8);
    Zeros(if |s| < 6 then 6 - |s| else 0) + s
  }

  predicate PowerOfTen(m: nat) {
    m == 1 || (m > 1 && m % 10 == 0 && PowerOfTen(m / 10))
  }

  /** The digits of the fraction `x / m`, as many as it takes. */
  function Fraction(x: nat, m: nat): string
    requires PowerOfTen(m) && x < m
    decreases m
  {
    if x == 0 then "" else Digits(x / (m / 10), 10) + Fraction(x % (m / 10), m / 10)
  }

  function Nanoseconds(nsec: nat): string
    requires nsec < 1000000000
  {
    Billion();
    Fraction(nsec, 1000000000)
  }

  function Time(sec: nat, nsec: nat): string
    requires nsec < 1000000000
  {
    Digits(sec, 10) + if nsec == 0 then "" else "." + Nanoseconds(nsec)
  }

  lemma Billion()
    ensures PowerOfTen(1000000000)
  {
    assert PowerOfTen(1) && PowerOfTen(10) && PowerOfTen(100) && PowerOfTen(1000) && PowerOfTen(10000);
    assert PowerOfTen(100000) && PowerOfTen(1000000) && PowerOfTen(10000000) && PowerOfTen(100000000);
  }

  // ---- Reading ----------------------------------------------------------------------------------------------

  predicate IsSpace(c: char) {
    c == ' ' || 9 <= c as int <= 13
  }

  predicate IsDigit(c: char, base: nat) {
    0 <= FromHex(c) < base
  }

  function SkipSpace(s: string): (r: string)
    ensures |r| <= |s|
  {
    if s != "" && IsSpace(s[0]) then SkipSpace(s[1..]) else s
  }

  /** The number the digits at the front of `s` continue, and the text after them. */
  function Accumulate(s: string, base: nat, acc: nat): (p: (nat, string))
    ensures |p.1| <= |s|
  {
    if s != "" && IsDigit(s[0], base) then Accumulate(s[1..], base, acc * base + FromHex(s[0])) else (acc, s)
  }

  predicate HexPrefix(s: string) {
    |s| >= 3 && s[0] == '0' && (s[1] == 'x' || s[1] == 'X') && IsDigit(s[2], 16)
  }

  function Unsigned(t: string): string {
    if t != "" && (t[0] == '-' || t[0] == '+') then t[1..] else t
  }

  predicate Prefixed(u: string, base: nat) {
    (base == 0 || base == 16) && HexPrefix(u)
  }

  function Unprefixed(u: string, base: nat): string {
    if Prefixed(u, base) then u[2..] else u
  }

  function BaseOf(u: string, base: nat): nat {
    if base != 0 then base else if Prefixed(u, base) then 16 else if u != "" && u[0] == '0' then 8 else 10
  }

  /** The C library's conversion to an unsigned 64-bit number: blanks, a sign, and for base 0 or 16 a prefix are
      allowed; a number too large gives the largest. */
  function StrToUl(s: string, base: nat): (p: Parsed<nat>)
    ensures p.Ok? ==> |p.rest| < |s|
  {
    var t := SkipSpace(s);
    var b := BaseOf(Unsigned(t), base);
    var w := Unprefixed(Unsigned(t), base);
    if w == "" || !IsDigit(w[0], b) then Fail
    else
      var (v, rest) := Accumulate(w, b, 0);
      Ok(if v >= U64 then U64 - 1 else if t[0] == '-' then (U64 - v) % U64 else v, rest)
  }

  /** `parse_uint32_base` and `parse_uint64_base`, for the given width. */
  function ParseUint(s: string, base: nat, width: nat): (p: Parsed<nat>)
    requires width > 0
    ensures p.Ok? ==> |p.rest| < |s|
  {
    var p := StrToUl(SkipBlanks(s), base);
    if p.Fail? then Fail else Ok(p.value % width, p.rest)
  }

  /** Digits of a fraction, each worth a tenth of `m`, in 32 bits. */
  function ParseFraction(s: string, m: nat, acc: nat): (p: (nat, string))
    ensures |p.1| <= |s|
  {
    if s != "" && '0' <= s[0] <= '9'
    then ParseFraction(s[1..], m / 10, (acc + (s[0] as int - '0' as int) * (m / 10)) % U32)
    else (acc, s)
  }

  function ParseTime(s: string): (p: Parsed<(nat, nat)>)
    ensures p.Ok? ==> |p.rest| < |s|
  {
    var p := ParseUint(s, 0, U32);
    if p.Fail? then Fail
    else if p.rest != "" && p.rest[0] == '.'
    then
      var (v, rest) := ParseFraction(p.rest[1..], 1000000000, 0);
      Ok((p.value, v), rest)
    else Ok((p.value, 0), p.rest)
  }

  // ---- What is printed is read back -------------------------------------------------------------------------

  lemma DigitsLast(n: nat, base: nat)
    requires Base(base) && n >= base
    ensures n / base * base + n % base == n && 0 < n / base < n
    ensures Digits(n, base) == Digits(n / base, base) + [HexDigit(n % base)]
  {
    Quotient(n, base);
  }

  lemma Quotient(n: nat, base: nat)
    requires Base(base) && base <= n
    ensures n / base * base + n % base == n && 0 < n / base < n
  {
    if base == 8 {
      assert n / 8 * 8 + n % 8 == n;
    } else if base == 10 {
      assert n / 10 * 10 + n % 10 == n;
    } else {
      assert n / 16 * 16 + n % 16 == n;
    }
  }

  lemma OneDigit(d: nat, base: nat, rest: string, acc: nat)
    requires d < base <= 16
    ensures Accumulate([HexDigit(d)] + rest, base, acc) == Accumulate(rest, base, acc * base + d)
  {
    assert ([HexDigit(d)] + rest)[1..] == rest;
  }

  lemma {:induction false} DigitsRead(n: nat, base: nat, rest: string)
    requires Base(base)
    ensures Accumulate(Digits(n, base) + rest, base, 0) == Accumulate(rest, base, n)
    decreases n
  {
    hide Accumulate, HexDigit;
    if n < base {
      OneDigit(n, base, rest, 0);
    } else {
      DigitsLast(n, base);
      hide Digits;
      var q, d := n / base, n % base;
      var more := [HexDigit(d)] + rest;
      assert Digits(q, base) + [HexDigit(d)] + rest == Digits(q, base) + more;
      DigitsRead(q, base, more);
      OneDigit(d, base, rest, q);
    }
  }

  lemma {:induction false} ZerosRead(k: nat, s: string, base: nat)
    requires base > 1
    ensures Accumulate(Zeros(k) + s, base, 0) == Accumulate(s, base, 0)
  {
    if k == 0 {
      assert Zeros(k) + s == s;
    } else {
      ZerosRead(k - 1, s, base);
      assert (Zeros(k) + s)[1..] == Zeros(k - 1) + s;
    }
  }

  /** A printed number starts with a digit that is not 0, unless it is "0". */
  lemma {:induction false} DigitsStart(n: nat, base: nat)
    requires Base(base)
    ensures var c := Digits(n, base)[0]; IsDigit(c, base) && !IsSpace(c) && c != '-' && c != '+' && c != '#' && c != '.'
    ensures n > 0 ==> Digits(n, base)[0] != '0'
    ensures n == 0 ==> Digits(n, base) == "0"
    decreases n
  {
    if n >= base {
      DigitsLast(n, base);
      hide Digits, HexDigit, FromHex;
      DigitsStart(n / base, base);
      assert Digits(n, base)[0] == Digits(n / base, base)[0];
    }
  }

  /** What follows a number in a line. */
  predicate After(rest: string) {
    rest != "" && (rest[0] == ' ' || rest[0] == '\n' || rest[0] == '.')
  }

  lemma Stops(rest: string, base: nat, acc: nat)
    requires After(rest)
    ensures Accumulate(rest, base, acc) == (acc, rest)
  {
  }

  /** Text that is a number, without blanks, sign or prefix. */
  lemma NumberRead(t: string, base: nat, b: nat, n: nat, rest: string)
    requires t != "" && !IsSpace(t[0]) && t[0] != '-' && t[0] != '+' && !HexPrefix(t) && IsDigit(t[0], b)
    requires b == if base != 0 then base else if t[0] == '0' then 8 else 10
    requires Accumulate(t, b, 0) == (n, rest) && n < U64
    ensures StrToUl(t, base) == Ok(n, rest)
  {
    hide Accumulate, HexPrefix, IsDigit;
  }

  lemma BlankNumber(t: string, base: nat, n: nat, rest: string, width: nat)
    requires t != "" && !IsSpace(t[0]) && StrToUl(t, base) == Ok(n, rest) && n < width
    ensures ParseUint(" " + t, base, width) == Ok(n, rest) == ParseUint(t, base, width)
  {
    hide StrToUl;
    BlankSkipped(t);
  }

  lemma PlainNumber(n: nat, base: nat, rest: string)
    requires Base(base) && After(rest)
    ensures var t := Digits(n, base) + rest;
            && t[0] == Digits(n, base)[0] && IsDigit(t[0], base) && !IsSpace(t[0]) && t[0] != '-' && t[0] != '+'
            && t[0] != '#' && t[0] != '.'
            && !HexPrefix(t) && Accumulate(t, base, 0) == (n, rest)
            && (t[0] == '0' ==> t == "0" + rest && n == 0)
  {
    DigitsStart(n, base);
    DigitsRead(n, base, rest);
    Stops(rest, base, n);
    hide Digits, Accumulate;
    var t := Digits(n, base) + rest;
    assert t[0] == Digits(n, base)[0];
    if n == 0 {
      assert t == "0" + rest && t[1] == rest[0];
    }
  }

  /** A decimal number in a line: base 0 takes it as octal only when it is 0. */
  lemma UintRead(n: nat, rest: string, width: nat)
    requires After(rest) && n < width <= U64
    ensures ParseUint(" " + (Digits(n, 10) + rest), 0, width) == Ok(n, rest)
  {
    PlainNumber(n, 10, rest);
    hide Digits, StrToUl, ParseUint, Accumulate, HexPrefix;
    var t := Digits(n, 10) + rest;
    if n == 0 {
      Zero(rest);
      NumberRead(t, 0, 8, 0, rest);
    } else {
      DigitsStart(n, 10);
      NumberRead(t, 0, 10, n, rest);
    }
    BlankNumber(t, 0, n, rest, width);
  }

  lemma Zero(rest: string)
    requires After(rest)
    ensures Accumulate("0" + rest, 8, 0) == (0, rest) && IsDigit('0', 8)
  {
    OneDigit(0, 8, rest, 0);
    Stops(rest, 8, 0);
  }

  lemma FileIdRead(n: nat, rest: string)
    requires After(rest) && n < U64
    ensures ParseUint(" " + (Digits(n, 16) + rest), 16, U64) == Ok(n, rest)
  {
    PlainNumber(n, 16, rest);
    hide Digits, StrToUl, ParseUint, Accumulate, HexPrefix;
    var t := Digits(n, 16) + rest;
    NumberRead(t, 16, 16, n, rest);
    BlankNumber(t, 16, n, rest, U64);
  }

  lemma OctalStart(n: nat, rest: string)
    requires After(rest)
    ensures var t := Octal6(n) + rest;
            && t != "" && IsDigit(t[0], 8) && !IsSpace(t[0]) && t[0] != '-' && t[0] != '+' && t[0] != '#' && t[0] != '.'
  {
    PlainNumber(n, 8, rest);
    var k := if |Digits(n, 8)| < 6 then 6 - |Digits(n, 8)| else 0;
    assert k == 0 ==> Octal6(n) == Digits(n, 8);
    assert k > 0 ==> Octal6(n)[0] == '0';
  }

  lemma ModeRead(n: nat, rest: string)
    requires After(rest) && n < U32
    ensures ParseUint(Octal6(n) + rest, 8, U32) == Ok(n, rest)
  {
    OctalStart(n, rest);
    PlainNumber(n, 8, rest);
    hide Digits, StrToUl, ParseUint, Accumulate, Zeros;
    var t := Digits(n, 8) + rest;
    var k := if |Digits(n, 8)| < 6 then 6 - |Digits(n, 8)| else 0;
    ZerosRead(k, t, 8);
    var u := Octal6(n) + rest;
    assert u == Zeros(k) + t;
    NumberRead(u, 8, 8, n, rest);
    BlankNumber(u, 8, n, rest, U32);
  }

  // ---- Fractions --------------------------------------------------------------------------------------------

  lemma Tenth(m: nat)
    requires PowerOfTen(m) && m > 1
    ensures m == m / 10 * 10 && PowerOfTen(m / 10) && 0 < m / 10 < m
  {
  }

  lemma TopDigit(x: nat, k: nat)
    requires 0 < k && x < 10 * k
    ensures x / k < 10 && x % k < k && x / k * k + x % k == x
  {
    assert x / k * k + x % k == x;
  }

  lemma DigitIn(d: nat, s: string, m: nat, k: nat, acc: nat, worth: nat)
    requires d < 10 && k == m / 10 && worth == d * k && acc + worth < U32
    ensures ParseFraction(Digits(d, 10) + s, m, acc) == ParseFraction(s, k, acc + worth)
  {
    assert ([HexDigit(d)] + s)[1..] == s;
    assert (acc + worth) % U32 == acc + worth;
  }

  /** The first digit of a fraction, and the fraction that is left. */
  lemma FractionStep(x: nat, m: nat) returns (d: nat, y: nat, k: nat, worth: nat)
    requires PowerOfTen(m) && 0 < x < m
    ensures k == m / 10 && m == k * 10 && 0 < k < m && PowerOfTen(k) && d < 10 && y < k && worth == d * k
            && worth + y == x
    ensures Fraction(x, m) == Digits(d, 10) + Fraction(y, k)
  {
    Tenth(m);
    k := m / 10;
    TopDigit(x, k);
    d, y := x / k, x % k;
    worth := d * k;
    hide PowerOfTen, Digits;
  }

  /** Reading the first digit leaves the rest of the fraction to be read. */
  lemma FractionDigit(x: nat, m: nat, rest: string, acc: nat) returns (y: nat, k: nat, worth: nat)
    requires PowerOfTen(m) && 0 < x < m && acc + x < U32
    ensures 0 < k < m && PowerOfTen(k) && y < k && worth + y == x
    ensures ParseFraction(Fraction(x, m) + rest, m, acc) == ParseFraction(Fraction(y, k) + rest, k, acc + worth)
  {
    hide Fraction, ParseFraction, Digits, PowerOfTen;
    var d;
    d, y, k, worth := FractionStep(x, m);
    DigitIn(d, Fraction(y, k) + rest, m, k, acc, worth);
    assert Fraction(x, m) + rest == Digits(d, 10) + (Fraction(y, k) + rest);
  }

  lemma {:induction false} FractionRead(x: nat, m: nat, rest: string, acc: nat)
    requires PowerOfTen(m) && x < m && After(rest) && acc + x < U32
    ensures ParseFraction(Fraction(x, m) + rest, m, acc) == (acc + x, rest)
    decreases m
  {
    if x == 0 {
      assert Fraction(x, m) + rest == rest;
    } else {
      hide Fraction, ParseFraction, PowerOfTen;
      var y, k, worth := FractionDigit(x, m, rest, acc);
      FractionRead(y, k, rest, acc + worth);
    }
  }

  /** A time is read back to the nanosecond. */
  lemma TimeRead(sec: nat, nsec: nat, rest: string)
    requires sec < U32 && nsec < 1000000000 && Ends(rest)
    ensures ParseTime(" " + (Time(sec, nsec) + rest)) == Ok((sec, nsec), rest)
  {
    Billion();
    hide Digits, ParseUint, Fraction, ParseFraction, PowerOfTen;
    if nsec == 0 {
      UintRead(sec, rest, U32);
      assert Time(sec, nsec) == Digits(sec, 10);
    } else {
      var f := "." + (Fraction(nsec, 1000000000) + rest);
      UintRead(sec, f, U32);
      assert Time(sec, nsec) + rest == Digits(sec, 10) + f;
      FractionRead(nsec, 1000000000, rest, 0);
      assert f[1..] == Fraction(nsec, 1000000000) + rest;
    }
  }

  // ---- Numbers written as in C ------------------------------------------------------------------------------

  lemma SpaceSkipped(c: char, t: string, base: nat)
    requires c as int in {9, 10, 11, 12, 13, 32}
    ensures StrToUl([c] + t, base) == StrToUl(t, base)
  {
    assert ([c] + t)[1..] == t;
  }

  /** A prefix says that a number is hexadecimal, where the base is 16 or left open. */
  lemma PrefixedRead(n: nat, x: char, rest: string, base: nat)
    requires After(rest) && n < U64 && (x == 'x' || x == 'X') && (base == 0 || base == 16)
    ensures StrToUl(['0', x] + (Digits(n, 16) + rest), base) == Ok(n, rest)
  {
    PlainNumber(n, 16, rest);
    hide Digits, Accumulate;
    var d := Digits(n, 16) + rest;
    var t := ['0', x] + d;
    assert t[0] == '0' && t[1] == x && t[2] == d[0] && t[2..] == d;
    assert SkipSpace(t) == t == Unsigned(t) && HexPrefix(t);
  }

  /** Where the base is left open a 0 in front says that a number is octal. */
  lemma OctalRead(n: nat, rest: string)
    requires After(rest) && n < U64
    ensures StrToUl("0" + (Digits(n, 8) + rest), 0) == Ok(n, rest)
  {
    PlainNumber(n, 8, rest);
    hide Digits;
    var d := Digits(n, 8) + rest;
    var t := "0" + d;
    assert t[0] == '0' && t[1] == d[0] && t[1..] == d;
    assert Accumulate(t, 8, 0) == Accumulate(d, 8, 0);
    hide Accumulate;
    assert SkipSpace(t) == t == Unsigned(t) && !HexPrefix(t);
  }

  /** A sign is taken, and a negative number wraps around 64 bits; one that is too large becomes the largest. */
  lemma SignedRead(n: nat, sign: char, rest: string)
    requires After(rest) && (sign == '-' || sign == '+')
    ensures StrToUl([sign] + (Digits(n, 10) + rest), 10)
            == Ok(if n >= U64 then U64 - 1 else if sign == '-' && n > 0 then U64 - n else n, rest)
  {
    PlainNumber(n, 10, rest);
    hide Digits, Accumulate, HexPrefix;
    var d := Digits(n, 10) + rest;
    var t := [sign] + d;
    assert t[0] == sign && t[1..] == d;
    assert SkipSpace(t) == t && Unsigned(t) == d;
  }
}
