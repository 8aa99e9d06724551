/** skip_atoi and number of ee_printf.c: formatting into a buffer, and reading it back. */
module Numbers {
  import opened Modulus

  datatype Flags = Flags(zeropad: bool, sign: bool, plus: bool, space: bool, left: bool, hexPrep: bool, uppercase: bool)

  datatype Option<T> = None | Some(value: T)

  // ----- digits

  const DIGITS := "0123456789abcdefghijklmnopqrstuvwxyz"
  const UPPER_DIGITS := "0123456789ABCDEFGHIJKLMNOPQRSTUVWXYZ"

  function DigitChar(d: nat, upper: bool): char
    requires d < 36
  {
    if d < 10 then ('0' as int + d) as char
    else if upper then ('A' as int + d - 10) as char
    else ('a' as int + d - 10) as char
  }

  /** What the two digit tables hold. */
  lemma TablesHoldDigits(d: nat)
    requires d < 36
    ensures DIGITS[d] == DigitChar(d, false) && UPPER_DIGITS[d] == DigitChar(d, true)
  {
  }

  /** The value of a digit character, 36 for any other character. */
  function CharValue(c: char): nat {
    if '0' <= c <= '9' then c as int - '0' as int
    else if 'a' <= c <= 'z' then c as int - 'a' as int + 10
    else if 'A' <= c <= 'Z' then c as int - 'A' as int + 10
    else 36
  }

  lemma CharRoundTrip(d: nat, upper: bool)
    requires d < 36
    ensures CharValue(DigitChar(d, upper)) == d
  {
  }

  /** The numeral of m in a base, most significant digit first. */
  function Numeral(m: nat, base: nat, upper: bool): (s: string)
    requires 2 <= base <= 36
    ensures s != []
    decreases m
  {
    if m < base then [DigitChar(m, upper)]
    else HalfAtMost(m, base); Numeral(m / base, base, upper) + [DigitChar(m % base, upper)]
  }

  function Pow(base: nat, k: nat): nat { if k == 0 then 1 else base * Pow(base, k - 1) }

  /** A numeral has no superfluous digit. */
  lemma {:induction false} NumeralLength(m: nat, base: nat, upper: bool)
    requires 2 <= base <= 36
    ensures var k := |Numeral(m, base, upper)|; m < Pow(base, k) && (m > 0 ==> Pow(base, k - 1) <= m)
    decreases m
  {
    if m < base {
      assert Pow(base, 1) == base * Pow(base, 0);
    } else {
      NumeralLength(m / base, base, upper);
      var k := |Numeral(m / base, base, upper)|;
      Quotient(m, base, Pow(base, k), Pow(base, k - 1));
      assert Pow(base, k) == base * Pow(base, k - 1);
    }
  }

  lemma Quotient(m: nat, base: nat, hi: nat, lo: nat)
    requires base > 0 && lo <= m / base < hi
    ensures base * lo <= m < base * hi
  {
    var q := m / base;
    assert m == base * q + m % base;
    Grows(base, lo, q);
    Grows(base, q + 1, hi);
    assert base * (q + 1) == base * q + base;
  }

  lemma Grows(base: nat, a: nat, b: nat)
    requires a <= b
    ensures base * a <= base * b
  {
    assert base * b == base * a + base * (b - a);
  }

  lemma {:induction false} NumeralBits(m: nat, base: nat, upper: bool, w: nat)
    requires 2 <= base <= 36 && m < Pow(2, w) && w > 0
    ensures |Numeral(m, base, upper)| <= w
    decreases w
  {
    if m >= base {
      assert Pow(2, w) == 2 * Pow(2, w - 1);
      HalfAtMost(m, base);
      NumeralBits(m / base, base, upper, w - 1);
    }
  }

  lemma HalfAtMost(m: nat, base: nat)
    requires base >= 2
    ensures 2 * (m / base) <= m
  {
    var q := m / base;
    assert m == base * q + m % base;
    Grows(q, 2, base);
  }

  // ----- what number writes

  function Max(a: int, b: int): int { if a >= b then a else b }

  function Rep(c: char, n: int): (s: string)
    ensures |s| == Max(n, 0) && forall i :: 0 <= i < |s| ==> s[i] == c
  {
    if n <= 0 then [] else [c] + Rep(c, n - 1)
  }

  /** A w-bit signed argument. */
  predicate InWord(num: int, w: nat) { 1 <= w <= 64 && 0 <= num + Pow(2, w - 1) < Pow(2, w) }

  /** What is printed: the absolute value, or the argument as an unsigned word. */
  function Magnitude(num: int, signed: bool, w: nat): (m: nat)
    requires InWord(num, w)
    ensures m < Pow(2, w)
  {
    assert Pow(2, w) == 2 * Pow(2, w - 1);
    if num >= 0 then num else if signed then -num else num + Pow(2, w)
  }

  function SignText(num: int, f: Flags): string {
    if !f.sign then "" else if num < 0 then "-" else if f.plus then "+" else if f.space then " " else ""
  }

  function PrefixText(base: int, f: Flags): string {
    if !f.hexPrep then "" else if base == 16 then "0x" else if base == 8 then "0" else ""
  }

  function Body(m: nat, base: nat, precision: int, upper: bool): string
    requires 2 <= base <= 36
  {
    var ds := Numeral(m, base, upper);
    Rep('0', precision - |ds|) + ds
  }

  /** Head and body filled up with `room` characters: on the left with blanks, between them with zeros,
      or on the right with blanks. */
  function Field(head: string, body: string, room: int, f: Flags): string {
    if f.left then head + body + Rep(' ', room)
    else if f.zeropad then head + Rep('0', room) + body
    else Rep(' ', room) + head + body
  }

  /** The output of number. */
  function Rendered(num: int, base: int, size: int, precision: int, f: Flags, w: nat): string
    requires InWord(num, w) && 2 <= base <= 36
  {
    var head := SignText(num, f) + PrefixText(base, f);
    var body := Body(Magnitude(num, f.sign, w), base, precision, f.uppercase);
    Field(head, body, size - |head| - |body|, f)
  }

  /** Exactly the width, unless sign, prefix and digits (or the precision) need more. */
  lemma RenderedLength(num: int, base: int, size: int, precision: int, f: Flags, w: nat)
    requires InWord(num, w) && 2 <= base <= 36
    ensures var ds := Numeral(Magnitude(num, f.sign, w), base, f.uppercase);
      |Rendered(num, base, size, precision, f, w)| ==
        Max(size, |SignText(num, f)| + |PrefixText(base, f)| + Max(precision, |ds|))
  {
  }

  // ----- reading it back

  /** The number at the front of a text, in a base, continuing from acc; what skip_atoi computes in base ten. */
  function ReadDigits(s: string, base: nat, acc: nat): nat
    decreases |s|
  {
    if s == [] || CharValue(s[0]) >= base then acc
    else ReadDigits(s[1..], base, acc * base + CharValue(s[0]))
  }

  lemma {:induction false} ReadNumeral(m: nat, base: nat, upper: bool, rest: string)
    requires 2 <= base <= 36
    ensures ReadDigits(Numeral(m, base, upper) + rest, base, 0) == ReadDigits(rest, base, m)
    decreases m
  {
    if m < base {
      CharRoundTrip(m, upper);
      ReadOne(DigitChar(m, upper), rest, base, 0);
    } else {
      var q, c := m / base, DigitChar(m % base, upper);
      HalfAtMost(m, base);
      ReadNumeral(q, base, upper, [c] + rest);
      assert Numeral(m, base, upper) + rest == Numeral(q, base, upper) + ([c] + rest);
      CharRoundTrip(m % base, upper);
      ReadOne(c, rest, base, q);
      Recombine(m, base);
    }
  }

  lemma Recombine(m: nat, base: nat)
    requires base > 0
    ensures m / base * base + m % base == m
  {
  }

  lemma ReadOne(c: char, rest: string, base: nat, acc: nat)
    requires CharValue(c) < base
    ensures ReadDigits([c] + rest, base, acc) == ReadDigits(rest, base, acc * base + CharValue(c))
  {
    assert ([c] + rest)[1..] == rest;
  }

  lemma {:induction false} ReadZeros(n: int, base: nat, rest: string)
    requires base >= 2
    ensures ReadDigits(Rep('0', n) + rest, base, 0) == ReadDigits(rest, base, 0)
    decreases n
  {
    if n <= 0 {
      assert Rep('0', n) + rest == rest;
    } else {
      assert (Rep('0', n) + rest)[1..] == Rep('0', n - 1) + rest;
      ReadZeros(n - 1, base, rest);
    }
  }

  function DropSpaces(s: string): string {
    if s != [] && s[0] == ' ' then DropSpaces(s[1..]) else s
  }

  /** Reading a field: skip blanks, a sign, the 0x of base 16, and take the digits. */
  function Read(s: string, base: nat, prefixed: bool): (bool, nat) {
    var t := DropSpaces(s);
    var signed := t != [] && (t[0] == '-' || t[0] == '+');
    var u := if signed then t[1..] else t;
    (signed && t[0] == '-', ReadDigits(if prefixed && base == 16 && |u| >= 2 then u[2..] else u, base, 0))
  }

  lemma {:induction false} DropRep(n: int, s: string)
    ensures DropSpaces(Rep(' ', n) + s) == DropSpaces(s)
    decreases n
  {
    if n <= 0 {
      assert Rep(' ', n) + s == s;
    } else {
      assert (Rep(' ', n) + s)[1..] == Rep(' ', n - 1) + s;
      DropRep(n - 1, s);
    }
  }

  lemma {:induction false} NumeralFirst(m: nat, base: nat, upper: bool)
    requires 2 <= base <= 36
    ensures CharValue(Numeral(m, base, upper)[0]) < 36
    decreases m
  {
    if m < base {
      CharRoundTrip(m, upper);
    } else {
      NumeralFirst(m / base, base, upper);
    }
  }

  /** A run of zeros and a numeral, behind nothing but digits: what the reader makes of it. */
  lemma ReadBody(m: nat, base: nat, precision: int, upper: bool, zeros: int, blanks: int)
    requires 2 <= base <= 36
    ensures ReadDigits(Rep('0', zeros) + Body(m, base, precision, upper) + Rep(' ', blanks), base, 0) == m
  {
    var ds := Numeral(m, base, upper);
    var p := precision - |ds|;
    Regroup(Rep('0', zeros), Rep('0', p), ds, Rep(' ', blanks));
    ReadZeros(zeros, base, Rep('0', p) + (ds + Rep(' ', blanks)));
    ReadZeros(p, base, ds + Rep(' ', blanks));
    ReadNumeral(m, base, upper, Rep(' ', blanks));
  }

  lemma Regroup(a: string, b: string, c: string, d: string)
    ensures a + (b + c) + d == a + (b + (c + d)) && a + b + c + d == a + (b + (c + d))
  {
  }

  /** How many blanks lead a field. */
  function LeadOf(room: int, f: Flags): int { if f.left || f.zeropad then 0 else Max(0, room) }

  /** What follows the prefix. */
  function TailOf(body: string, room: int, f: Flags): string {
    Rep('0', if f.zeropad && !f.left then room else 0) + body + Rep(' ', if f.left then room else 0)
  }

  lemma Assembled(sign: string, prefix: string, body: string, room: int, f: Flags)
    ensures Field(sign + prefix, body, room, f) == Rep(' ', LeadOf(room, f)) + (sign + (prefix + TailOf(body, room, f)))
  {
    assert Rep(' ', 0) == "" && Rep('0', 0) == "" && (room <= 0 ==> Rep(' ', room) == "");
  }

  /** The digit reader takes the tail for the magnitude. */
  lemma TailReads(m: nat, base: nat, precision: int, upper: bool, room: int, f: Flags)
    requires 2 <= base <= 36
    ensures var tail := TailOf(Body(m, base, precision, upper), room, f);
      tail != [] && CharValue(tail[0]) < 36 && ReadDigits(tail, base, 0) == m
  {
    NumeralFirst(m, base, upper);
    ReadBody(m, base, precision, upper, if f.zeropad && !f.left then room else 0, if f.left then room else 0);
  }

  /** Every field is blanks, the head, and a text the digit reader takes for the magnitude. */
  lemma Anatomy(num: int, base: int, size: int, precision: int, f: Flags, w: nat)
    returns (lead: int, tail: string)
    requires InWord(num, w) && 2 <= base <= 36
    ensures Rendered(num, base, size, precision, f, w) ==
      Rep(' ', lead) + (SignText(num, f) + (PrefixText(base, f) + tail))
    ensures tail != [] && CharValue(tail[0]) < 36
    ensures ReadDigits(tail, base, 0) == Magnitude(num, f.sign, w)
    ensures lead == LeadOf(size - |SignText(num, f)| - |PrefixText(base, f)|
                           - |Body(Magnitude(num, f.sign, w), base, precision, f.uppercase)|, f)
  {
    var m := Magnitude(num, f.sign, w);
    var body := Body(m, base, precision, f.uppercase);
    var sign, prefix := SignText(num, f), PrefixText(base, f);
    var room := size - |sign + prefix| - |body|;
    lead, tail := LeadOf(room, f), TailOf(body, room, f);
    TailReads(m, base, precision, f.uppercase, room, f);
    Assembled(sign, prefix, body, room, f);
  }

  /** The reader gets past blanks and sign. */
  lemma ReadPastSign(lead: int, sign: string, rest: string, base: nat, prefixed: bool)
    requires sign == "" || sign == "-" || sign == "+" || sign == " "
    requires rest != [] && rest[0] != ' ' && rest[0] != '-' && rest[0] != '+'
    ensures Read(Rep(' ', lead) + (sign + rest), base, prefixed) ==
      (sign == "-", ReadDigits(if prefixed && base == 16 && |rest| >= 2 then rest[2..] else rest, base, 0))
  {
    DropRep(lead, sign + rest);
    if sign == "" {
      assert sign + rest == rest;
    } else {
      assert (sign + rest)[1..] == rest;
      assert DropSpaces(rest) == rest;
    }
  }

  /** ... and past the prefix. */
  lemma ReadPastPrefix(base: nat, f: Flags, tail: string)
    requires 2 <= base <= 36 && tail != []
    ensures var rest := PrefixText(base, f) + tail;
      ReadDigits(if f.hexPrep && base == 16 && |rest| >= 2 then rest[2..] else rest, base, 0) == ReadDigits(tail, base, 0)
  {
    var rest := PrefixText(base, f) + tail;
    if f.hexPrep && base == 16 {
      assert rest[2..] == tail;
    } else if f.hexPrep && base == 8 {
      assert rest == ['0'] + tail && CharValue('0') == 0;
      ReadOne('0', tail, base, 0);
    } else {
      assert rest == tail;
    }
  }

  /** Printing loses nothing: reading the field back gives the sign and the magnitude, for every base,
      width, precision and flag combination. */
  lemma ReadBack(num: int, base: int, size: int, precision: int, f: Flags, w: nat)
    requires InWord(num, w) && 2 <= base <= 36
    ensures Read(Rendered(num, base, size, precision, f, w), base, f.hexPrep)
      == (f.sign && num < 0, Magnitude(num, f.sign, w))
  {
    var lead, tail := Anatomy(num, base, size, precision, f, w);
    var rest := PrefixText(base, f) + tail;
    assert rest[0] == if PrefixText(base, f) == "" then tail[0] else '0';
    ReadPastSign(lead, SignText(num, f), rest, base, f.hexPrep);
    ReadPastPrefix(base, f, tail);
  }

  /** So the argument itself can be told from the text: a signed field reads as the number, an unsigned one as the
      number modulo 2^w. */
  lemma PrintedValue(num: int, base: int, size: int, precision: int, f: Flags, w: nat)
    requires InWord(num, w) && 2 <= base <= 36
    ensures var (negative, m) := Read(Rendered(num, base, size, precision, f, w), base, f.hexPrep);
      && (f.sign ==> num == if negative then 0 - m else m)
      && (!f.sign ==> !negative && m == num % Pow(2, w))
  {
    ReadBack(num, base, size, precision, f, w);
    var p := Pow(2, w);
    assert p == 2 * Pow(2, w - 1);
    if num >= 0 {
      ModUnique(num, p, 0, num);
    } else {
      ModUnique(num, p, -1, num + p);
    }
  }

  // ----- skip_atoi

  lemma WrapStep(a: int, d: int)
    ensures Wrap32(Wrap32(a) * 10 + d) == Wrap32(a * 10 + d)
  {
    var k := (a + 0x8000_0000) / 0x1_0000_0000;
    assert Wrap32(a) == a - k * 0x1_0000_0000;
    assert Wrap32(a) * 10 + d == a * 10 + d - 10 * k * 0x1_0000_0000;
  }

  /** skip_atoi from position p; the end of s stands for the terminating NUL. */
  method SkipAtoi(s: string, p: nat) returns (i: int, q: nat)
    requires p <= |s|
    ensures p <= q <= |s| && (q < |s| ==> CharValue(s[q]) >= 10)
    ensures forall j :: p <= j < q ==> CharValue(s[j]) < 10
    ensures i == Wrap32(ReadDigits(s[p..], 10, 0))
  {
    i, q := 0, p;
    ghost var acc: nat := 0;
    while q < |s| && '0' <= s[q] <= '9'
      invariant p <= q <= |s| && forall j :: p <= j < q ==> CharValue(s[j]) < 10
      invariant i == Wrap32(acc) && ReadDigits(s[q..], 10, acc) == ReadDigits(s[p..], 10, 0)
    {
      var d := s[q] as int - '0' as int;
      assert s[q..][1..] == s[q + 1..];
      WrapStep(acc, d);
      acc := acc * 10 + d;
      i := Wrap32(i * 10 + d);
      q := q + 1;
    }
  }

  /** Nothing that is not a digit stands in front of a printed non-negative decimal number. */
  predicate DigitsFirst(num: nat, size: int, precision: int, f: Flags) {
    && (f.sign ==> !f.plus && !f.space)
    && (f.left || f.zeropad || size <= Max(precision, |Numeral(num, 10, f.uppercase)|))
  }

  lemma AtoiReads(num: int, size: int, precision: int, f: Flags, w: nat)
    requires InWord(num, w) && 0 <= num
    ensures ReadDigits(Rendered(num, 10, size, precision, f, w), 10, 0) ==
      if DigitsFirst(num, size, precision, f) then num else 0
  {
    var lead, tail := Anatomy(num, 10, size, precision, f, w);
    NoPrefix(SignText(num, f), tail, f);
    AtoiOf(lead, SignText(num, f), tail, num);
    BodyLength(num, 10, precision, f.uppercase);
  }

  /** skip_atoi on printed output, 32-bit wrap included: it recovers a non-negative decimal number exactly
      when the number fits a signed int and nothing but digits stands in front of it (or it is zero). */
  lemma AtoiRecoversIff(num: int, size: int, precision: int, f: Flags, w: nat)
    requires InWord(num, w) && 0 <= num
    ensures Wrap32(ReadDigits(Rendered(num, 10, size, precision, f, w), 10, 0)) == num <==>
      num == 0 || (num < 0x8000_0000 && DigitsFirst(num, size, precision, f))
  {
    var text := Rendered(num, 10, size, precision, f, w);
    var first := DigitsFirst(num, size, precision, f);
    var read := ReadDigits(text, 10, 0);
    assert read == if first then num else 0 by {
      AtoiReads(num, size, precision, f, w);
    }
    WrapFixed(num, read, first);
  }

  lemma WrapFixed(x: nat, read: nat, first: bool)
    requires read == if first then x else 0
    ensures Wrap32(read) == x <==> x == 0 || (x < 0x8000_0000 && first)
  {
  }

  lemma NoPrefix(sign: string, tail: string, f: Flags)
    ensures sign + (PrefixText(10, f) + tail) == sign + tail
  {
    assert PrefixText(10, f) + tail == tail;
  }

  lemma BodyLength(m: nat, base: nat, precision: int, upper: bool)
    requires 2 <= base <= 36
    ensures |Body(m, base, precision, upper)| == Max(precision, |Numeral(m, base, upper)|)
  {
  }

  lemma AtoiOf(lead: int, sign: string, tail: string, num: nat)
    requires lead >= 0 && (sign == "" || sign == "+" || sign == " ") && tail != [] && ReadDigits(tail, 10, 0) == num
    ensures ReadDigits(Rep(' ', lead) + (sign + tail), 10, 0) == if lead == 0 && sign == "" then num else 0
  {
    var text := Rep(' ', lead) + (sign + tail);
    if lead > 0 {
      assert text[0] == ' ';
    } else if sign != "" {
      assert text[0] == sign[0];
    } else {
      assert text == tail;
    }
  }

  // ----- number

  /** A buffer into which `text` has been written at position str. */
  ghost predicate Wrote(before: string, after: string, str: nat, text: string) {
    && |after| == |before| && str + |text| <= |before|
    && after == before[..str] + text + before[str + |text|..]
  }

  lemma WroteBoth(a: string, b: string, c: string, str: nat, t: string, u: string)
    requires Wrote(a, b, str, t) && Wrote(b, c, str + |t|, u)
    ensures Wrote(a, c, str, t + u)
  {
    assert b[..str + |t|] == a[..str] + t;
    assert b[str + |t| + |u|..] == a[str + |t| + |u|..];
    assert c == a[..str] + t + u + a[str + |t| + |u|..];
  }

  lemma WroteNothing(a: string, str: nat)
    requires str <= |a|
    ensures Wrote(a, a, str, "")
  {
  }

  method Put(buf: array<char>, str0: nat, c: char) returns (str: nat)
    requires str0 < buf.Length
    modifies buf
    ensures str == str0 + 1 && Wrote(old(buf[..]), buf[..], str0, [c])
  {
    buf[str0] := c;
    str := str0 + 1;
  }

  /** The padding loop: size0 characters if that is positive, and size ends below zero. */
  method PadOut(buf: array<char>, str0: nat, size0: int, c: char) returns (str: nat, size: int)
    requires str0 + Max(size0, 0) <= buf.Length
    modifies buf
    ensures str == str0 + Max(size0, 0) && size < 0 && Wrote(old(buf[..]), buf[..], str0, Rep(c, size0))
  {
    str, size := str0, size0;
    while size > 0
      invariant size <= Max(size0, 0) && str == str0 + Max(size0, 0) - Max(size, 0) && (size0 <= 0 ==> size == size0)
      invariant str + Max(size, 0) <= buf.Length
      invariant forall j :: 0 <= j < str0 ==> buf[j] == old(buf[j])
      invariant forall j :: str0 <= j < str ==> buf[j] == c
      invariant forall j :: str <= j < buf.Length ==> buf[j] == old(buf[j])
    {
      buf[str] := c;
      str, size := str + 1, size - 1;
    }
    size := size - 1;
  }

  /** dig[d], from the table the UPPERCASE flag selects. */
  method TableDigit(d: nat, upper: bool) returns (c: char)
    requires d < 36
    ensures c == DigitChar(d, upper)
  {
    var dig := DIGITS;
    if upper {
      dig := UPPER_DIGITS;
    }
    TablesHoldDigits(d);
    c := dig[d];
  }

  /** s is what is still to be converted when the quotient is m. */
  ghost predicate Remaining(s: string, m: nat, base: nat, upper: bool)
    requires 2 <= base <= 36
  {
    if m == 0 then s == "" else s == Numeral(m, base, upper)
  }

  /** One division: the last digit of what remains, and the rest. */
  method NextDigit(m0: nat, base: int, upper: bool, ghost s: string) returns (c: char, m: nat)
    requires 2 <= base <= 36 && m0 != 0 && Remaining(s, m0, base, upper)
    ensures s != "" && c == s[|s| - 1] && Remaining(s[..|s| - 1], m, base, upper)
  {
    NumeralStep(m0, base, upper, s);
    c := TableDigit(m0 % base, upper);
    m := m0 / base;
  }

  /** The division loop, least significant digit first. */
  method Divide(tmp: array<char>, m0: nat, base: int, upper: bool, ghost goal: string) returns (i: nat)
    requires 2 <= base <= 36 && Remaining(goal, m0, base, upper) && |goal| <= tmp.Length
    modifies tmp
    ensures i == |goal| && forall j :: 0 <= j < i ==> tmp[j] == goal[i - 1 - j]
  {
    var m: nat := m0;
    i := 0;
    ghost var rest := goal;
    while m != 0
      invariant i + |rest| == |goal| && rest == goal[..|rest|] && Remaining(rest, m, base, upper)
      invariant forall j :: 0 <= j < i ==> tmp[j] == goal[|goal| - 1 - j]
      decreases |rest|
    {
      var c;
      c, m := NextDigit(m, base, upper, rest);
      tmp[i] := c;
      i, rest := i + 1, rest[..|rest| - 1];
    }
  }

  /** The digits, least significant first, in the local array of 66 characters. */
  method Convert(m: nat, base: int, upper: bool, ghost w: nat) returns (tmp: array<char>, i: nat)
    requires 2 <= base <= 36 && m < Pow(2, w) && 1 <= w <= 64
    ensures fresh(tmp) && tmp.Length == 66 && i == |Numeral(m, base, upper)| <= 64
    ensures forall j :: 0 <= j < i ==> tmp[j] == Numeral(m, base, upper)[i - 1 - j]
  {
    NumeralBits(m, base, upper, w);
    tmp := new char[66];
    if m == 0 {
      tmp[0] := '0';
      i := 1;
    } else {
      i := Divide(tmp, m, base, upper, Numeral(m, base, upper));
    }
  }

  lemma NumeralStep(m: nat, base: nat, upper: bool, s: string)
    requires 2 <= base <= 36 && m != 0 && s == Numeral(m, base, upper)
    ensures s[|s| - 1] == DigitChar(m % base, upper) && m / base < m
    ensures m / base == 0 <==> |s| == 1
    ensures m / base != 0 ==> s[..|s| - 1] == Numeral(m / base, base, upper)
  {
    HalfAtMost(m, base);
    if m < base {
      SmallQuotient(m, base);
    } else {
      Recombine(m, base);
    }
  }

  lemma SmallQuotient(m: nat, base: nat)
    requires m < base
    ensures m / base == 0 && m % base == m
  {
  }

  /** Copying the digits out in reverse. */
  method PutDigits(buf: array<char>, str0: nat, tmp: array<char>, i0: nat, ghost ds: string) returns (str: nat)
    requires buf != tmp && i0 == |ds| <= tmp.Length && str0 + i0 <= buf.Length
    requires forall j :: 0 <= j < i0 ==> tmp[j] == ds[i0 - 1 - j]
    modifies buf
    ensures str == str0 + i0 && Wrote(old(buf[..]), buf[..], str0, ds)
  {
    var i := i0;
    str := str0;
    while i > 0
      invariant 0 <= i <= i0 && str == str0 + i0 - i
      invariant forall j :: 0 <= j < str0 ==> buf[j] == old(buf[j])
      invariant forall j :: 0 <= j < i0 - i ==> buf[str0 + j] == ds[j]
      invariant forall j :: str <= j < buf.Length ==> buf[j] == old(buf[j])
    {
      i := i - 1;
      buf[str] := tmp[i];
      str := str + 1;
    }
  }

  method PutSign(buf: array<char>, str0: nat, sign: string) returns (str: nat)
    requires |sign| <= 1 && str0 + |sign| <= buf.Length
    modifies buf
    ensures str == str0 + |sign| && Wrote(old(buf[..]), buf[..], str0, sign)
  {
    str := str0;
    WroteNothing(buf[..], str);
    if sign != "" {
      assert sign == [sign[0]];
      str := Put(buf, str, sign[0]);
    }
  }

  method PutPrefix(buf: array<char>, str0: nat, base: int, f: Flags) returns (str: nat)
    requires str0 + |PrefixText(base, f)| <= buf.Length
    modifies buf
    ensures str == str0 + |PrefixText(base, f)| && Wrote(old(buf[..]), buf[..], str0, PrefixText(base, f))
  {
    str := str0;
    ghost var a := buf[..];
    WroteNothing(a, str);
    if f.hexPrep {
      if base == 8 {
        str := Put(buf, str, '0');
      } else if base == 16 {
        str := Put(buf, str, '0');
        ghost var b := buf[..];
        str := Put(buf, str, 'x');
        WroteBoth(a, b, buf[..], str0, ['0'], ['x']);
        assert ['0'] + ['x'] == "0x";
      }
    }
  }

  /** The last part of number: zeros up to the precision, the digits, and blanks on the right. */
  method PutBody(buf: array<char>, str0: nat, tmp: array<char>, i: nat, precision: int, size: int, ghost ds: string)
    returns (str: nat)
    requires buf != tmp && i == |ds| <= tmp.Length && precision >= i
    requires forall j :: 0 <= j < i ==> tmp[j] == ds[i - 1 - j]
    requires str0 + precision + Max(size, 0) <= buf.Length
    modifies buf
    ensures str == str0 + precision + Max(size, 0)
    ensures Wrote(old(buf[..]), buf[..], str0, Rep('0', precision - i) + ds + Rep(' ', size))
  {
    var rest;
    ghost var a, zeros := buf[..], Rep('0', precision - i);
    str, rest := PadOut(buf, str0, precision - i, '0');
    ghost var b := buf[..];
    str := PutDigits(buf, str, tmp, i, ds);
    WroteBoth(a, b, buf[..], str0, zeros, ds);
    b := buf[..];
    str, rest := PadOut(buf, str, size, ' ');
    WroteBoth(a, b, buf[..], str0, zeros + ds, Rep(' ', size));
  }

  /** Padding that is done only under a condition; otherwise size stays. */
  method PadIf(cond: bool, buf: array<char>, str0: nat, size0: int, c: char) returns (str: nat, size: int)
    requires cond ==> str0 + Max(size0, 0) <= buf.Length
    requires str0 <= buf.Length
    modifies buf
    ensures var text := if cond then Rep(c, size0) else ""; str == str0 + |text| && Wrote(old(buf[..]), buf[..], str0, text)
    ensures if cond then size < 0 else size == size0
  {
    str, size := str0, size0;
    WroteNothing(buf[..], str);
    if cond {
      str, size := PadOut(buf, str, size, c);
    }
  }

  /** The three places where `room` characters can go; two of them stay empty. */
  function Lead(room: int, f: Flags): string { if f.left || f.zeropad then "" else Rep(' ', room) }
  function Inner(room: int, f: Flags): string { if !f.left && f.zeropad then Rep('0', room) else "" }
  function Trail(room: int, f: Flags): string { if f.left then Rep(' ', room) else "" }

  lemma FieldParts(head: string, body: string, room: int, f: Flags)
    ensures Lead(room, f) + head + Inner(room, f) + (body + Trail(room, f)) == Field(head, body, room, f)
    ensures |Lead(room, f)| + |Inner(room, f)| + |Trail(room, f)| == Max(room, 0)
  {
    if f.left {
      assert "" + head + "" + (body + Rep(' ', room)) == head + body + Rep(' ', room);
    } else if f.zeropad {
      assert "" + head + Rep('0', room) + (body + "") == head + Rep('0', room) + body;
    } else {
      assert Rep(' ', room) + head + "" + (body + "") == Rep(' ', room) + head + body;
    }
  }

  /** Sign and prefix characters. */
  method PutHead(buf: array<char>, str0: nat, sign: string, base: int, f: Flags) returns (str: nat)
    requires |sign| <= 1 && str0 + |sign| + |PrefixText(base, f)| <= buf.Length
    modifies buf
    ensures str == str0 + |sign| + |PrefixText(base, f)|
    ensures Wrote(old(buf[..]), buf[..], str0, sign + PrefixText(base, f))
  {
    ghost var a := buf[..];
    str := PutSign(buf, str0, sign);
    ghost var b := buf[..];
    str := PutPrefix(buf, str, base, f);
    WroteBoth(a, b, buf[..], str0, sign, PrefixText(base, f));
  }

  /** Everything before the body. */
  method PutFront(buf: array<char>, str0: nat, sign: string, base: int, f: Flags, room: int)
    returns (str: nat, size: int)
    requires |sign| <= 1 && str0 + |sign| + |PrefixText(base, f)| + Max(room, 0) <= buf.Length
    modifies buf
    ensures var text := Lead(room, f) + (sign + PrefixText(base, f)) + Inner(room, f);
      str == str0 + |text| && Wrote(old(buf[..]), buf[..], str0, text)
    ensures if f.left then size == room else size < 0
  {
    ghost var a := buf[..];
    OneFilled(room, f);
    var str1, str2;
    str1, size := PutLead(buf, str0, room, f);
    ghost var b := buf[..];
    str2 := PutHead(buf, str1, sign, base, f);
    ghost var c := buf[..];
    str, size := PutInner(buf, str2, size, room, f);
    WroteThree(a, b, c, buf[..], str0, str1, str2, Lead(room, f), sign + PrefixText(base, f), Inner(room, f));
  }

  lemma WroteThree(a: string, b: string, c: string, d: string, p: nat, q: nat, r: nat, t: string, u: string, v: string)
    requires q == p + |t| && r == q + |u| && Wrote(a, b, p, t) && Wrote(b, c, q, u) && Wrote(c, d, r, v)
    ensures Wrote(a, d, p, t + u + v)
  {
    WroteBoth(a, b, c, p, t, u);
    WroteBoth(a, c, d, p, t + u, v);
  }

  lemma OneFilled(room: int, f: Flags)
    ensures |Lead(room, f)| + |Inner(room, f)| <= Max(room, 0)
  {
  }

  /** The blanks in front. */
  method PutLead(buf: array<char>, str0: nat, room: int, f: Flags) returns (str: nat, size: int)
    requires str0 + |Lead(room, f)| <= buf.Length
    modifies buf
    ensures str == str0 + |Lead(room, f)| && Wrote(old(buf[..]), buf[..], str0, Lead(room, f))
    ensures if f.left || f.zeropad then size == room else size < 0
  {
    str, size := PadIf(!(f.zeropad || f.left), buf, str0, room, ' ');
  }

  /** The zeros behind the prefix. */
  method PutInner(buf: array<char>, str0: nat, size0: int, ghost room: int, f: Flags) returns (str: nat, size: int)
    requires if f.left || f.zeropad then size0 == room else size0 < 0
    requires str0 + |Inner(room, f)| <= buf.Length
    modifies buf
    ensures str == str0 + |Inner(room, f)| && Wrote(old(buf[..]), buf[..], str0, Inner(room, f))
    ensures if f.left then size == room else size < 0
  {
    str, size := PadIf(!f.left, buf, str0, size0, if f.zeropad then '0' else ' ');
  }

  /** The output half of number: what is left of the width is `room`. */
  method Layout(buf: array<char>, str0: nat, sign: string, base: int, f: Flags,
                tmp: array<char>, i: nat, precision: int, room: int, ghost ds: string)
    returns (str: nat)
    requires |sign| <= 1 && buf != tmp && i == |ds| <= tmp.Length && precision >= i
    requires forall j :: 0 <= j < i ==> tmp[j] == ds[i - 1 - j]
    requires str0 + |sign| + |PrefixText(base, f)| + precision + Max(room, 0) <= buf.Length
    modifies buf
    ensures str == str0 + |sign| + |PrefixText(base, f)| + precision + Max(room, 0)
    ensures Wrote(old(buf[..]), buf[..], str0, Field(sign + PrefixText(base, f), Rep('0', precision - i) + ds, room, f))
  {
    ghost var a, body, head := buf[..], Rep('0', precision - i) + ds, sign + PrefixText(base, f);
    FieldParts(head, body, room, f);
    var size;
    str, size := PutFront(buf, str0, sign, base, f, room);
    ghost var b := buf[..];
    str := PutBody(buf, str, tmp, i, precision, size, ds);
    WroteBoth(a, b, buf[..], str0, Lead(room, f) + head + Inner(room, f), body + Trail(room, f));
  }

  /** The sign character of a signed field. */
  method ChooseSign(num: int, f: Flags) returns (sign: string)
    ensures sign == SignText(num, f) && |sign| <= 1
  {
    sign := "";
    if f.sign {
      if num < 0 {
        sign := "-";
      } else if f.plus {
        sign := "+";
      } else if f.space {
        sign := " ";
      }
    }
  }

  /** number.  The result is the position behind the output, or None (a null pointer) for a bad base. */
  method Number(buf: array<char>, str: nat, num: int, base: int, size0: int, precision0: int, flags: Flags, w: nat)
    returns (r: Option<nat>)
    requires InWord(num, w)
    requires 2 <= base <= 36 ==> str + |Rendered(num, base, size0, precision0, flags, w)| <= buf.Length
    modifies buf
    ensures r.None? <==> base < 2 || base > 36
    ensures r.None? ==> buf[..] == old(buf[..])
    ensures r.Some? ==>
      var text := Rendered(num, base, size0, precision0, flags, w);
      r.value == str + |text| && Wrote(old(buf[..]), buf[..], str, text)
  {
    if base < 2 || base > 36 {
      return None;
    }
    var m := Magnitude(num, flags.sign, w);
    var sign := ChooseSign(num, flags);
    var size := TakePrefix(size0 - |sign|, base, flags);
    ghost var ds := Numeral(m, base, flags.uppercase);
    var tmp, i := Convert(m, base, flags.uppercase, w);
    var precision := precision0;
    if i > precision {
      precision := i;
    }
    size := size - precision;
    RenderedAs(num, base, size0, precision0, flags, w, precision);
    var end := Layout(buf, str, sign, base, flags, tmp, i, precision, size, ds);
    r := Some(end);
  }

  /** The prefix comes off the width. */
  method TakePrefix(size0: int, base: int, f: Flags) returns (size: int)
    ensures size == size0 - |PrefixText(base, f)|
  {
    size := size0;
    if f.hexPrep {
      if base == 16 {
        size := size - 2;
      } else if base == 8 {
        size := size - 1;
      }
    }
  }

  /** The rendered text in the terms the code has when it starts to write. */
  lemma RenderedAs(num: int, base: int, size: int, precision0: int, f: Flags, w: nat, precision: int)
    requires InWord(num, w) && 2 <= base <= 36
    requires precision == Max(precision0, |Numeral(Magnitude(num, f.sign, w), base, f.uppercase)|)
    ensures var ds := Numeral(Magnitude(num, f.sign, w), base, f.uppercase);
      var head := SignText(num, f) + PrefixText(base, f);
      && Rendered(num, base, size, precision0, f, w)
         == Field(head, Rep('0', precision - |ds|) + ds, size - |SignText(num, f)| - |PrefixText(base, f)| - precision, f)
      && |Rendered(num, base, size, precision0, f, w)|
         == |head| + precision + Max(size - |SignText(num, f)| - |PrefixText(base, f)| - precision, 0)
  {
    BodyText(Magnitude(num, f.sign, w), base, precision0, precision, f.uppercase);
    RenderedLength(num, base, size, precision0, f, w);
  }

  lemma BodyText(m: nat, base: nat, precision0: int, precision: int, upper: bool)
    requires 2 <= base <= 36 && precision == Max(precision0, |Numeral(m, base, upper)|)
    ensures var ds := Numeral(m, base, upper);
      Body(m, base, precision0, upper) == Rep('0', precision - |ds|) + ds && |Body(m, base, precision0, upper)| == precision
  {
    var k := |Numeral(m, base, upper)|;
    assert precision0 < k ==> Rep('0', precision0 - k) == Rep('0', 0);
  }
}
