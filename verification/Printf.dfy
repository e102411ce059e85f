/** Integer formatting of kernel/lib/printf.c. */
module Printf {
  import opened Arithmetic

  const BUFFER_SIZE: nat := 64  // PRINTF_INTEGER_BUFFER_SIZE

  datatype Flags = Flags(zeroPad: bool, left: bool, plus: bool, space: bool, hash: bool, uppercase: bool, precision: bool,
                         pointer: bool)

  // ---- digits ----

  function DigitChar(d: nat, upper: bool): char
    requires d < 16
  {
    if d < 10 then '0' + d as char else (if upper then 'A' else 'a') + (d - 10) as char
  }

  function DigitValue(c: char): nat {
    if '0' <= c <= '9' then c as nat - '0' as nat
    else if 'a' <= c <= 'f' then c as nat - 'a' as nat + 10
    else if 'A' <= c <= 'F' then c as nat - 'A' as nat + 10
    else 0
  }

  datatype Base = Binary | Octal | Decimal | Hex

  function Radix(base: Base): nat {
    match base case Binary => 2 case Octal => 8 case Decimal => 10 case Hex => 16
  }

  predicate IsDigit(c: char, base: Base) {
    ('0' <= c <= '9' || 'a' <= c <= 'f' || 'A' <= c <= 'F') && DigitValue(c) < Radix(base)
  }

  lemma DigitBack(d: nat, base: Base, upper: bool)
    requires d < Radix(base)
    ensures DigitValue(DigitChar(d, upper)) == d && IsDigit(DigitChar(d, upper), base)
  {
  }

  function Quotient(v: nat, base: Base): nat {
    match base case Binary => v / 2 case Octal => v / 8 case Decimal => v / 10 case Hex => v / 16
  }

  function Digit(v: nat, base: Base): (d: nat)
    ensures d < Radix(base) <= 16
  {
    match base case Binary => v % 2 case Octal => v % 8 case Decimal => v % 10 case Hex => v % 16
  }

  /** The digits of a value, lowest first, none for zero. */
  function RevDigits(v: nat, base: Base, upper: bool): seq<char> {
    if v == 0 then [] else [DigitChar(Digit(v, base), upper)] + RevDigits(Quotient(v, base), base, upper)
  }

  /** A value with n binary digits has at most n digits in any base. */
  lemma {:induction false} DigitsFit(v: nat, base: Base, upper: bool, n: nat)
    requires v < Shl(n)
    ensures |RevDigits(v, base, upper)| <= n
    decreases v
  {
    if v > 0 {
      DigitsFit(Quotient(v, base), base, upper, n - 1);
    }
  }

  /** Only binary digits can be as many as the bits. */
  lemma {:induction false} DigitsFew(v: nat, base: Base, upper: bool, n: nat)
    requires v < Shl(n) && !base.Binary?
    ensures 3 * |RevDigits(v, base, upper)| <= n + 2
    decreases v
  {
    if v > 0 {
      if n > 3 {
        assert Shl(n) == 2 * Shl(n - 1) && Shl(n - 1) == 2 * Shl(n - 2) && Shl(n - 2) == 2 * Shl(n - 3);
        DigitsFew(Quotient(v, base), base, upper, n - 3);
      } else {
        assert Shl(1) == 2 && Shl(2) == 4 && Shl(3) == 8 && Shl(n) <= 8;
        assert Quotient(v, base) == 0;
      }
    }
  }

  lemma {:induction false} DigitsMany(v: nat, upper: bool, n: nat)
    requires v >= Shl(n)
    ensures |RevDigits(v, Binary, upper)| > n
    decreases v
  {
    if n > 0 {
      DigitsMany(v / 2, upper, n - 1);
    }
  }

  /** A value has 64 digits only in binary, with its highest bit set. */
  lemma Digits64(v: nat, base: Base, flags: Flags)
    requires v < Shl(64)
    ensures |StartDigits(v, base, flags)| <= 64
    ensures |StartDigits(v, base, flags)| == 64 <==> base.Binary? && v >= Shl(63)
  {
    DigitsFit(v, base, flags.uppercase, 64);
    if base.Binary? {
      if v >= Shl(63) {
        DigitsMany(v, flags.uppercase, 63);
      } else {
        DigitsFit(v, base, flags.uppercase, 63);
      }
    } else {
      DigitsFew(v, base, flags.uppercase, 64);
    }
  }

  function Times(x: nat, base: Base): nat {
    match base case Binary => 2 * x case Octal => 8 * x case Decimal => 10 * x case Hex => 16 * x
  }

  /** Reading digits from the highest to the lowest. */
  function Parse(s: seq<char>, base: Base): nat {
    if s == [] then 0 else Times(Parse(s[..|s| - 1], base), base) + DigitValue(s[|s| - 1])
  }

  function Reverse(s: seq<char>): (r: seq<char>)
    ensures |r| == |s|
  {
    if s == [] then [] else Reverse(s[1..]) + [s[0]]
  }

  function Repeat(c: char, n: nat): (r: seq<char>)
    ensures |r| == n
  {
    seq(n, _ => c)
  }

  lemma ParseStep(s: seq<char>, base: Base)
    requires s != []
    ensures Parse(Reverse(s), base) == Times(Parse(Reverse(s[1..]), base), base) + DigitValue(s[0])
  {
    assert Reverse(s)[..|s| - 1] == Reverse(s[1..]);
  }

  /** Digits with leading zeros read back to the value. */
  lemma {:induction false} ReadsBack(v: nat, base: Base, upper: bool, zeros: nat)
    ensures Parse(Reverse(RevDigits(v, base, upper) + Repeat('0', zeros)), base) == v
    decreases v, zeros
  {
    var s := RevDigits(v, base, upper) + Repeat('0', zeros);
    if v > 0 {
      var q, d := Quotient(v, base), Digit(v, base);
      DigitBack(d, base, upper);
      assert s[0] == DigitChar(d, upper) && s[1..] == RevDigits(q, base, upper) + Repeat('0', zeros);
      ReadsBack(q, base, upper, zeros);
      ParseStep(s, base);
      assert v == Times(q, base) + d;
    } else if zeros > 0 {
      assert s[0] == '0' && s[1..] == RevDigits(0, base, upper) + Repeat('0', zeros - 1);
      ReadsBack(0, base, upper, zeros - 1);
      ParseStep(s, base);
    }
  }

  lemma {:induction false} DigitsOnly(v: nat, base: Base, upper: bool)
    ensures forall c :: c in RevDigits(v, base, upper) ==> IsDigit(c, base)
    decreases v
  {
    if v > 0 {
      DigitBack(Digit(v, base), base, upper);
      DigitsOnly(Quotient(v, base), base, upper);
    }
  }

  lemma {:induction false} ReverseIn(s: seq<char>, c: char)
    ensures c in Reverse(s) <==> c in s
  {
    if s != [] {
      ReverseIn(s[1..], c);
    }
  }

  // ---- the output gadget ----

  /** A buffer of max characters; characters beyond it are counted only. */
  class Gadget {
    const buffer: array<char>
    const max: nat
    var pos: nat
    ghost var text: seq<char>  // everything put so far

    ghost predicate Valid()
      reads this, buffer
    {
      && max <= buffer.Length && pos == |text|
      && buffer[..if pos < max then pos else max] == text[..if pos < max then pos else max]
    }

    /** putchar_via_gadget: the buffer holds what fits of the text, and is never overrun. */
    method PutChar(c: char)
      requires Valid()
      modifies this`pos, this`text, buffer
      ensures Valid() && text == old(text) + [c]
      ensures forall i :: 0 <= i < buffer.Length && i != old(pos) ==> buffer[i] == old(buffer[i])
    {
      var at := pos;
      pos := pos + 1;
      text := text + [c];
      if at >= max {
        return;
      }
      buffer[at] := c;
    }

    method PutMany(c: char, n: nat)
      requires Valid()
      modifies this`pos, this`text, buffer
      ensures Valid() && text == old(text) + Repeat(c, n)
    {
      for i := 0 to n
        invariant Valid() && text == old(text) + Repeat(c, i)
      {
        PutChar(c);
      }
    }
  }

  // ---- what is printed ----

  function SignOf(negative: bool, flags: Flags): seq<char> {
    if negative then ['-'] else if flags.plus then ['+'] else if flags.space then [' '] else []
  }

  /** A field padded with zeros keeps a place for the sign. */
  function FieldWidth(width: nat, negative: bool, flags: Flags): nat {
    if !flags.left && width > 0 && flags.zeroPad && SignOf(negative, flags) != [] then width - 1 else width
  }

  function Max(a: nat, b: nat): nat { if a < b then b else a }
  function Min(a: nat, b: nat): nat { if a < b then a else b }

  /** How many digits there are once the leading zeros have been added. */
  function Filled(n: nat, field: nat, precision: nat, flags: Flags): (r: nat)
    ensures r >= n
  {
    Max(if flags.zeroPad && !flags.left then Max(n, Min(field, BUFFER_SIZE)) else n, Min(precision, BUFFER_SIZE))
  }

  /** A prefix is due; leading zeros serve as that of an octal number. */
  predicate Alternative(n: nat, filled: nat, base: Base, flags: Flags) {
    flags.pointer || (flags.hash && !(base.Octal? && filled > n))
  }

  /** The letter of a prefix. */
  function Letter(base: Base, upper: bool): seq<char> {
    if base.Hex? then (if upper then ['X'] else ['x']) else if base.Binary? then ['b'] else []
  }

  /** The leading zeros that make room for the prefix. */
  function TakenBack(n: nat, filled: nat, base: Base, field: nat, precision: nat, flags: Flags): (r: nat)
    requires n <= filled
    ensures r <= filled - n
  {
    if !flags.precision && filled > 0 && (filled == precision || filled == field)
    then Min(filled - n, 1 + |Letter(base, flags.uppercase)|) else 0
  }

  /** What fits of the prefix behind l digits, the letter first. */
  function PrefixAt(l: nat, base: Base, upper: bool): seq<char> {
    var letter := if l < BUFFER_SIZE then Letter(base, upper) else [];
    letter + if l + |letter| < BUFFER_SIZE then ['0'] else []
  }

  /** How many digits and leading zeros are printed. */
  function DigitCount(n: nat, base: Base, field: nat, precision: nat, flags: Flags): (r: nat)
    ensures r >= n
  {
    var filled := Filled(n, field, precision, flags);
    filled - if Alternative(n, filled, base, flags) then TakenBack(n, filled, base, field, precision, flags) else 0
  }

  /** The prefix that is printed. */
  function PrefixOf(n: nat, base: Base, field: nat, precision: nat, flags: Flags): seq<char> {
    if Alternative(n, Filled(n, field, precision, flags), base, flags)
    then PrefixAt(DigitCount(n, base, field, precision, flags), base, flags.uppercase) else []
  }

  /** The digits lowest first, with leading zeros and a prefix. */
  function Unsigned(digits: seq<char>, base: Base, field: nat, precision: nat, flags: Flags): seq<char> {
    var l := DigitCount(|digits|, base, field, precision, flags);
    digits + Repeat('0', l - |digits|) + PrefixOf(|digits|, base, field, precision, flags)
  }

  /** And, if the buffer has room, the sign. */
  function Reversed(digits: seq<char>, base: Base, field: nat, precision: nat, negative: bool, flags: Flags): seq<char> {
    var s := Unsigned(digits, base, field, precision, flags);
    s + if |s| < BUFFER_SIZE then SignOf(negative, flags) else []
  }

  function Padded(s: seq<char>, field: nat, flags: Flags): seq<char> {
    var spaces := Repeat(' ', Max(field, |s|) - |s|);
    if flags.left then s + spaces else if flags.zeroPad then s else spaces + s
  }

  function Printed(digits: seq<char>, base: Base, width: nat, precision: nat, negative: bool, flags: Flags): seq<char> {
    var field := FieldWidth(width, negative, flags);
    Padded(Reverse(Reversed(digits, base, field, precision, negative, flags)), field, flags)
  }

  /** The digits print_integer starts with: none for a zero with a precision. */
  function StartDigits(value: nat, base: Base, flags: Flags): seq<char> {
    if value == 0 && !flags.precision then ['0'] else RevDigits(value, base, flags.uppercase)
  }

  /** A zero has no alternative form, except for one that is printed without digits in a base other than 16. */
  function StartFlags(value: nat, base: Base, flags: Flags): Flags {
    if value == 0 && (!flags.precision || base.Hex?) then flags.(hash := false) else flags
  }

  /** The text of a number. */
  function Text(value: nat, base: Base, width: nat, precision: nat, negative: bool, flags: Flags): seq<char> {
    Printed(StartDigits(value, base, flags), base, width, precision, negative, StartFlags(value, base, flags))
  }

  // ---- printing it ----

  /** out_rev_. */
  method OutRev(g: Gadget, buf: array<char>, len: nat, width: nat, flags: Flags)
    requires g.Valid() && len <= buf.Length && buf != g.buffer
    modifies g`pos, g`text, g.buffer
    ensures g.Valid() && g.text == old(g.text) + Padded(Reverse(buf[..len]), width, flags)
  {
    var start := g.pos;
    ghost var t0 := g.text;
    if !flags.left && !flags.zeroPad {
      g.PutMany(' ', if len < width then width - len else 0);
    }
    PutReversed(g, buf, len);
    if flags.left {
      g.PutMany(' ', if g.pos - start < width then width - (g.pos - start) else 0);
    }
    PaddedText(t0, Reverse(buf[..len]), width, flags);
  }

  method PutReversed(g: Gadget, buf: array<char>, len: nat)
    requires g.Valid() && len <= buf.Length && buf != g.buffer
    modifies g`pos, g`text, g.buffer
    ensures g.Valid() && g.text == old(g.text) + Reverse(buf[..len])
  {
    ghost var t0, s := g.text, Reverse(buf[..len]);
    var left := len;
    while left > 0
      invariant 0 <= left <= len && g.Valid() && g.text + Reverse(buf[..left]) == t0 + s
    {
      left := left - 1;
      ReverseLast(buf[..left + 1]);
      assert buf[..left + 1][..left] == buf[..left];
      g.PutChar(buf[left]);
    }
    assert buf[..0] == [] && g.text + [] == g.text;
  }

  lemma PaddedText(t: seq<char>, s: seq<char>, width: nat, flags: Flags)
    ensures var spaces := Repeat(' ', if |s| < width then width - |s| else 0);
            t + Padded(s, width, flags) == if flags.left then t + s + spaces
                                           else if flags.zeroPad then t + s else t + spaces + s
  {
  }

  lemma {:induction false} ReverseLast(s: seq<char>)
    requires s != []
    ensures Reverse(s) == [s[|s| - 1]] + Reverse(s[..|s| - 1])
  {
    if |s| > 1 {
      ReverseLast(s[1..]);
      assert s[1..][..|s| - 2] == s[..|s| - 1][1..];
    }
  }

  /** Appends c until the buffer holds n characters, or is full. */
  method Fill(buf: array<char>, len: nat, n: nat, c: char) returns (r: nat)
    requires len <= buf.Length == BUFFER_SIZE
    modifies buf
    ensures r == Max(len, Min(n, BUFFER_SIZE)) && buf[..r] == old(buf[..len]) + Repeat(c, r - len)
  {
    r := len;
    while r < n && r < BUFFER_SIZE
      invariant len <= r <= Max(len, Min(n, BUFFER_SIZE)) && buf[..r] == old(buf[..len]) + Repeat(c, r - len)
    {
      buf[r] := c;
      r := r + 1;
      assert buf[..r] == buf[..r - 1] + [c];
    }
  }

  method Append(buf: array<char>, len: nat, c: char) returns (r: nat)
    requires len < buf.Length
    modifies buf
    ensures r == len + 1 && buf[..r] == old(buf[..len]) + [c]
  {
    buf[len] := c;
    r := len + 1;
  }

  /** The prefix of the alternative form. */
  method Prefix(buf: array<char>, len0: nat, base: Base, upper: bool) returns (len: nat)
    requires len0 <= buf.Length == BUFFER_SIZE
    modifies buf
    ensures len <= BUFFER_SIZE && buf[..len] == old(buf[..len0]) + PrefixAt(len0, base, upper)
  {
    len := len0;
    if base.Hex? && !upper && len < BUFFER_SIZE {
      len := Append(buf, len, 'x');
    } else if base.Hex? && upper && len < BUFFER_SIZE {
      len := Append(buf, len, 'X');
    } else if base.Binary? && len < BUFFER_SIZE {
      len := Append(buf, len, 'b');
    }
    if len < BUFFER_SIZE {
      len := Append(buf, len, '0');
    }
  }

  /** The padding digits that are taken back for the prefix. */
  method TakeBack(len0: nat, unpadded: nat, base: Base, field: nat, precision: nat, flags: Flags) returns (len: nat)
    requires unpadded <= len0
    ensures len == len0 - TakenBack(unpadded, len0, base, field, precision, flags)
  {
    len := len0;
    if !flags.precision && len > 0 && (len == precision || len == field) {
      if unpadded < len {
        len := len - 1;
      }
      if len > 0 && (base.Hex? || base.Binary?) && unpadded < len {
        len := len - 1;
      }
    }
  }

  /** print_integer_finalization: the buffer is never overrun, and the text is as Printed says. */
  method Finalize(g: Gadget, buf: array<char>, len0: nat, negative: bool, base: Base, precision: nat, width0: nat,
                  flags0: Flags)
    requires g.Valid() && len0 <= buf.Length == BUFFER_SIZE && buf != g.buffer
    modifies g`pos, g`text, g.buffer, buf
    ensures g.Valid() && g.text == old(g.text) + Printed(old(buf[..len0]), base, width0, precision, negative, flags0)
  {
    var width, flags := width0, flags0;
    if !flags.left && width > 0 && flags.zeroPad && (negative || flags.plus || flags.space) {
      width := width - 1;
    }
    ghost var digits := buf[..len0];
    var len := PutUnsigned(buf, len0, base, width, precision, flags);
    len := PutSign(buf, len, negative, flags);
    assert buf[..len] == Reversed(digits, base, width, precision, negative, flags);
    OutRev(g, buf, len, width, flags);
    assert width == FieldWidth(width0, negative, flags0);
  }

  /** The leading zeros and the prefix. */
  method PutUnsigned(buf: array<char>, len0: nat, base: Base, field: nat, precision: nat, flags: Flags) returns (len: nat)
    requires len0 <= buf.Length == BUFFER_SIZE
    modifies buf
    ensures len <= BUFFER_SIZE && buf[..len] == Unsigned(old(buf[..len0]), base, field, precision, flags)
  {
    ghost var digits := buf[..len0];
    len := FillZeros(buf, len0, field, precision, flags);
    var hash := flags.hash;
    if base.Octal? && len > len0 {
      hash := false;
    }
    if hash || flags.pointer {
      len := PutPrefix(buf, len0, len, base, field, precision, flags, digits);
    } else {
      PlainIs(digits, base, field, precision, flags, len);
    }
  }

  method PutPrefix(buf: array<char>, len0: nat, filled: nat, base: Base, field: nat, precision: nat, flags: Flags,
                   ghost digits: seq<char>) returns (len: nat)
    requires len0 == |digits| <= filled <= buf.Length == BUFFER_SIZE
    requires buf[..filled] == digits + Repeat('0', filled - len0)
    requires filled == Filled(len0, field, precision, flags) && Alternative(len0, filled, base, flags)
    modifies buf
    ensures len <= BUFFER_SIZE && buf[..len] == Unsigned(digits, base, field, precision, flags)
  {
    AlternativeIs(digits, base, field, precision, flags, filled);
    len := TakeBack(filled, len0, base, field, precision, flags);
    FewerZeros(digits, len, buf[..filled]);
    assert buf[..len] == buf[..filled][..len];
    len := Prefix(buf, len, base, flags.uppercase);
  }

  lemma AlternativeIs(digits: seq<char>, base: Base, field: nat, precision: nat, flags: Flags, filled: nat)
    requires filled == Filled(|digits|, field, precision, flags) && Alternative(|digits|, filled, base, flags)
    ensures var l := filled - TakenBack(|digits|, filled, base, field, precision, flags);
            Unsigned(digits, base, field, precision, flags)
            == digits + Repeat('0', l - |digits|) + PrefixAt(l, base, flags.uppercase)
  {
  }

  lemma PlainIs(digits: seq<char>, base: Base, field: nat, precision: nat, flags: Flags, filled: nat)
    requires filled == Filled(|digits|, field, precision, flags) && !Alternative(|digits|, filled, base, flags)
    ensures Unsigned(digits, base, field, precision, flags) == digits + Repeat('0', filled - |digits|)
  {
  }

  lemma FewerZeros(digits: seq<char>, l: nat, s: seq<char>)
    requires |digits| <= l <= |s| && s == digits + Repeat('0', |s| - |digits|)
    ensures s[..l] == digits + Repeat('0', l - |digits|)
  {
  }

  method FillZeros(buf: array<char>, len0: nat, field: nat, precision: nat, flags: Flags) returns (len: nat)
    requires len0 <= buf.Length == BUFFER_SIZE
    modifies buf
    ensures len == Filled(len0, field, precision, flags) <= BUFFER_SIZE
    ensures buf[..len] == old(buf[..len0]) + Repeat('0', len - len0)
  {
    len := len0;
    if !flags.left && flags.zeroPad {
      len := Fill(buf, len, field, '0');
    }
    ghost var len1 := len;
    assert buf[..len] == old(buf[..len0]) + Repeat('0', len - len0);
    len := Fill(buf, len, precision, '0');
    assert Repeat('0', len1 - len0) + Repeat('0', len - len1) == Repeat('0', len - len0);
  }

  method PutSign(buf: array<char>, len: nat, negative: bool, flags: Flags) returns (r: nat)
    requires len <= buf.Length == BUFFER_SIZE
    modifies buf
    ensures r <= BUFFER_SIZE && buf[..r] == old(buf[..len]) + if len < BUFFER_SIZE then SignOf(negative, flags) else []
  {
    r := len;
    if len < BUFFER_SIZE {
      if negative {
        r := Append(buf, len, '-');
      } else if flags.plus {
        r := Append(buf, len, '+');
      } else if flags.space {
        r := Append(buf, len, ' ');
      }
    }
  }

  /** print_integer, for any 64-bit value. */
  method PrintInteger(g: Gadget, value0: nat, negative: bool, base: Base, precision: nat, width: nat, flags0: Flags)
    requires g.Valid() && value0 < Shl(64)
    modifies g`pos, g`text, g.buffer
    ensures g.Valid() && g.text == old(g.text) + Text(value0, base, width, precision, negative, flags0)
  {
    var buf := new char[BUFFER_SIZE];
    var len, flags := 0, flags0;
    if value0 == 0 {
      if !flags.precision {
        buf[0] := '0';
        len := 1;
        flags := flags.(hash := false);
      } else if base.Hex? {
        flags := flags.(hash := false);
      }
      assert buf[..len] == StartDigits(value0, base, flags0) && flags == StartFlags(value0, base, flags0);
    } else {
      len := PutDigits(buf, value0, base, flags.uppercase);
    }
    Finalize(g, buf, len, negative, base, precision, width, flags);
  }

  /** The digit loop; a 64-bit value fits the buffer in every base. */
  method PutDigits(buf: array<char>, value0: nat, base: Base, upper: bool) returns (len: nat)
    requires buf.Length == BUFFER_SIZE && 0 < value0 < Shl(64)
    modifies buf
    ensures len <= BUFFER_SIZE && buf[..len] == RevDigits(value0, base, upper)
  {
    var value := value0;
    len := 0;
    ghost var digits := RevDigits(value0, base, upper);
    DigitsFit(value, base, upper, BUFFER_SIZE);
    while true
      invariant value > 0 && len < BUFFER_SIZE && buf[..len] + RevDigits(value, base, upper) == digits
      decreases value
    {
      DigitMoved(buf[..len], value, base, upper);
      len := Append(buf, len, DigitChar(Digit(value, base), upper));
      value := Quotient(value, base);
      if !(value > 0 && len < BUFFER_SIZE) {
        break;
      }
    }
  }

  lemma DigitMoved(before: seq<char>, value: nat, base: Base, upper: bool)
    requires value > 0
    ensures before + [DigitChar(Digit(value, base), upper)] + RevDigits(Quotient(value, base), base, upper)
            == before + RevDigits(value, base, upper)
    ensures Quotient(value, base) < value
  {
  }

  // ---- reading it back ----

  function SkipSpaces(s: seq<char>): seq<char> { if s != [] && s[0] == ' ' then SkipSpaces(s[1..]) else s }

  function SkipSign(s: seq<char>): seq<char> { if s != [] && (s[0] == '-' || s[0] == '+') then s[1..] else s }

  predicate IsLetter(c: char, base: Base) { (base.Hex? && (c == 'x' || c == 'X')) || (base.Binary? && c == 'b') }

  function SkipPrefix(s: seq<char>, base: Base): seq<char> {
    if |s| >= 2 && s[0] == '0' && IsLetter(s[1], base) then s[2..] else s
  }

  function TakeDigits(s: seq<char>, base: Base): seq<char> {
    if s != [] && IsDigit(s[0], base) then [s[0]] + TakeDigits(s[1..], base) else []
  }

  /** The number a reader finds behind spaces, a sign and a prefix. */
  function ReadValue(s: seq<char>, base: Base): nat {
    Parse(TakeDigits(SkipPrefix(SkipSign(SkipSpaces(s)), base), base), base)
  }

  function ReadNegative(s: seq<char>): bool { SkipSpaces(s) != [] && SkipSpaces(s)[0] == '-' }

  lemma {:induction false} SkipsAll(n: nat, s: seq<char>)
    requires s == [] || s[0] != ' '
    ensures SkipSpaces(Repeat(' ', n) + s) == s
  {
    if n > 0 {
      assert (Repeat(' ', n) + s)[1..] == Repeat(' ', n - 1) + s;
      SkipsAll(n - 1, s);
    } else {
      assert Repeat(' ', 0) + s == s;
    }
  }

  lemma {:induction false} TakesAll(s: seq<char>, n: nat, base: Base)
    requires AllDigits(s, base)
    ensures TakeDigits(s + Repeat(' ', n), base) == s
  {
    if s != [] {
      assert (s + Repeat(' ', n))[1..] == s[1..] + Repeat(' ', n);
      TakesAll(s[1..], n, base);
    } else {
      assert s + Repeat(' ', n) == Repeat(' ', n);
    }
  }

  /** A prefix that is whole, or none. */
  predicate Readable(prefix: seq<char>, base: Base) {
    prefix == [] || (|prefix| == 2 && prefix[0] == '0' && IsLetter(prefix[1], base))
  }

  predicate IsSign(sign: seq<char>) { sign == [] || sign == ['-'] || sign == ['+'] || sign == [' '] }

  predicate AllDigits(s: seq<char>, base: Base) { forall c :: c in s ==> IsDigit(c, base) }

  /** Spaces, sign, prefix, digits and spaces read back to the digits' value. */
  lemma ReadsThrough(a: nat, sign: seq<char>, prefix: seq<char>, digits: seq<char>, b: nat, base: Base)
    requires IsSign(sign) && Readable(prefix, base) && AllDigits(digits, base)
    ensures var text := Repeat(' ', a) + (sign + (prefix + digits)) + Repeat(' ', b);
            ReadValue(text, base) == Parse(digits, base) && (ReadNegative(text) <==> sign == ['-'])
  {
    var tail := prefix + digits + Repeat(' ', b);
    var text := Repeat(' ', a) + (sign + (prefix + digits)) + Repeat(' ', b);
    if sign == [] || sign == [' '] {
      assert text == Repeat(' ', a + |sign|) + tail;
      ReadsUnsigned(a + |sign|, prefix, digits, b, base);
    } else {
      assert text == Repeat(' ', a) + (sign + tail);
      ReadsSigned(a, sign, prefix, digits, b, base);
    }
  }

  lemma ReadsUnsigned(a: nat, prefix: seq<char>, digits: seq<char>, b: nat, base: Base)
    requires Readable(prefix, base) && AllDigits(digits, base)
    ensures var text := Repeat(' ', a) + (prefix + digits + Repeat(' ', b));
            ReadValue(text, base) == Parse(digits, base) && !ReadNegative(text)
  {
    PrefixSkipped(prefix, digits, b, base);
    if prefix + digits == [] {
      assert prefix == [] && digits == [];
      ReadsBlank(a, b, base);
    } else {
      SkipsAll(a, prefix + digits + Repeat(' ', b));
    }
  }

  lemma ReadsBlank(a: nat, b: nat, base: Base)
    ensures var text := Repeat(' ', a) + ([] + [] + Repeat(' ', b));
            ReadValue(text, base) == 0 && !ReadNegative(text)
  {
    assert Repeat(' ', a) + ([] + [] + Repeat(' ', b)) == Repeat(' ', a + b) + [];
    SkipsAll(a + b, []);
  }

  lemma ReadsSigned(a: nat, sign: seq<char>, prefix: seq<char>, digits: seq<char>, b: nat, base: Base)
    requires (sign == ['-'] || sign == ['+']) && Readable(prefix, base) && AllDigits(digits, base)
    ensures var text := Repeat(' ', a) + (sign + (prefix + digits + Repeat(' ', b)));
            ReadValue(text, base) == Parse(digits, base) && (ReadNegative(text) <==> sign == ['-'])
  {
    var tail := prefix + digits + Repeat(' ', b);
    PrefixSkipped(prefix, digits, b, base);
    SkipsAll(a, sign + tail);
    assert SkipSign(sign + tail) == tail;
  }

  lemma PrefixSkipped(prefix: seq<char>, digits: seq<char>, b: nat, base: Base)
    requires Readable(prefix, base) && AllDigits(digits, base)
    ensures var tail := prefix + digits + Repeat(' ', b);
            && TakeDigits(SkipPrefix(tail, base), base) == digits
            && (prefix + digits != [] ==> tail[0] != '-' && tail[0] != '+' && tail[0] != ' ')
  {
    var tail := prefix + digits + Repeat(' ', b);
    TakesAll(digits, b, base);
    if prefix == [] {
      assert tail == digits + Repeat(' ', b);
      assert digits != [] ==> tail[0] in digits;
      assert |digits| > 1 ==> tail[1] in digits;
    } else {
      assert tail[2..] == digits + Repeat(' ', b);
    }
  }

  /** A text that starts with the letter of a prefix reads as zero. */
  lemma ReadsNothing(a: nat, letter: char, rest: seq<char>, base: Base)
    requires IsLetter(letter, base)
    ensures var text := Repeat(' ', a) + ([letter] + rest);
            ReadValue(text, base) == 0 && !ReadNegative(text)
  {
    SkipsAll(a, [letter] + rest);
  }

  /** The printed text: padding, sign, prefix, leading zeros and digits. */
  lemma PrintedShape(digits: seq<char>, base: Base, width: nat, precision: nat, negative: bool, flags: Flags)
    returns (a: nat, b: nat)
    ensures var field := FieldWidth(width, negative, flags);
            var l := DigitCount(|digits|, base, field, precision, flags);
            var prefix := PrefixOf(|digits|, base, field, precision, flags);
            var sign := if l + |prefix| < BUFFER_SIZE then SignOf(negative, flags) else [];
            Printed(digits, base, width, precision, negative, flags)
            == Repeat(' ', a) + (sign + (Reverse(prefix) + Reverse(digits + Repeat('0', l - |digits|)))) + Repeat(' ', b)
    ensures a > 0 ==> !flags.left && !flags.zeroPad && |Printed(digits, base, width, precision, negative, flags)| == width
    ensures b > 0 ==> flags.left && |Printed(digits, base, width, precision, negative, flags)| == width
  {
    var field := FieldWidth(width, negative, flags);
    var l := DigitCount(|digits|, base, field, precision, flags);
    var prefix := PrefixOf(|digits|, base, field, precision, flags);
    var sign := if l + |prefix| < BUFFER_SIZE then SignOf(negative, flags) else [];
    ReverseJoin(digits + Repeat('0', l - |digits|), prefix);
    ReverseSigned(Unsigned(digits, base, field, precision, flags), sign);
    a, b := PaddedShape(Reverse(Reversed(digits, base, field, precision, negative, flags)), field, flags);
  }

  lemma {:induction false} ReverseJoin(s: seq<char>, t: seq<char>)
    ensures Reverse(s + t) == Reverse(t) + Reverse(s)
  {
    if s == [] {
      assert s + t == t;
    } else {
      assert (s + t)[1..] == s[1..] + t;
      ReverseJoin(s[1..], t);
    }
  }

  lemma ReverseSigned(core: seq<char>, sign: seq<char>)
    requires |sign| <= 1
    ensures Reverse(core + sign) == sign + Reverse(core)
  {
    if sign != [] {
      ReverseLast(core + sign);
      assert (core + sign)[..|core|] == core;
    } else {
      assert core + sign == core;
    }
  }

  lemma PaddedShape(s: seq<char>, field: nat, flags: Flags) returns (a: nat, b: nat)
    ensures Padded(s, field, flags) == Repeat(' ', a) + s + Repeat(' ', b)
    ensures a > 0 ==> !flags.left && !flags.zeroPad && a + |s| == field
    ensures b > 0 ==> flags.left && |s| + b == field
    ensures a == b == 0 && (flags.left || !flags.zeroPad) ==> |s| >= field
  {
    var spaces := Max(field, |s|) - |s|;
    a, b := if flags.left || flags.zeroPad then 0 else spaces, if flags.left then spaces else 0;
    assert Repeat(' ', 0) == [];
  }

  /** How many digits and leading zeros the text has. */
  function TextDigits(value: nat, base: Base, width: nat, precision: nat, negative: bool, flags: Flags): nat {
    var f := StartFlags(value, base, flags);
    DigitCount(|StartDigits(value, base, flags)|, base, FieldWidth(width, negative, f), precision, f)
  }

  /** The prefix in the text, lowest character first. */
  function TextPrefix(value: nat, base: Base, width: nat, precision: nat, negative: bool, flags: Flags): seq<char> {
    var f := StartFlags(value, base, flags);
    PrefixOf(|StartDigits(value, base, flags)|, base, FieldWidth(width, negative, f), precision, f)
  }

  /** The letter of a prefix takes the last place of the buffer, and the zero in front of it finds none. */
  predicate PrefixCut(value: nat, base: Base, width: nat, precision: nat, negative: bool, flags: Flags) {
    && (base.Hex? || base.Binary?) && TextPrefix(value, base, width, precision, negative, flags) != []
    && TextDigits(value, base, width, precision, negative, flags) == BUFFER_SIZE - 1
  }

  /** Digits, leading zeros and prefix leave room for a sign. */
  predicate SignFits(value: nat, base: Base, width: nat, precision: nat, negative: bool, flags: Flags) {
    TextDigits(value, base, width, precision, negative, flags)
    + |TextPrefix(value, base, width, precision, negative, flags)| < BUFFER_SIZE
  }

  /** For every 64-bit value, every width, precision and combination of flags, the printed text reads back to the value
      exactly unless the prefix is cut in two, and its sign can be told exactly if there was room for one. */
  lemma PrintReads(value: nat, base: Base, width: nat, precision: nat, negative: bool, flags: Flags)
    requires value < Shl(64)
    ensures var text := Text(value, base, width, precision, negative, flags);
            && (ReadValue(text, base) == value <==> value == 0 || !PrefixCut(value, base, width, precision, negative, flags))
            && ((ReadNegative(text) <==> negative) <==>
                !negative || SignFits(value, base, width, precision, negative, flags))
  {
    var l, prefix := TextDigits(value, base, width, precision, negative, flags),
                     TextPrefix(value, base, width, precision, negative, flags);
    var a, sign, b := TextShape(value, base, width, precision, negative, flags, l, prefix);
    ReadsBackText(value, base, flags, a, sign, prefix, l, b);
  }

  lemma TextShape(value: nat, base: Base, width: nat, precision: nat, negative: bool, flags: Flags, l: nat,
                  prefix: seq<char>) returns (a: nat, sign: seq<char>, b: nat)
    requires l == TextDigits(value, base, width, precision, negative, flags)
    requires prefix == TextPrefix(value, base, width, precision, negative, flags)
    ensures |StartDigits(value, base, flags)| <= l && (prefix == [] || prefix == PrefixAt(l, base, flags.uppercase))
    ensures Text(value, base, width, precision, negative, flags)
            == Repeat(' ', a) + (sign + (Reverse(prefix) + DigitText(value, base, flags, l))) + Repeat(' ', b)
    ensures IsSign(sign) && (l + |prefix| >= BUFFER_SIZE ==> sign == [])
    ensures sign == ['-'] <==> negative && l + |prefix| < BUFFER_SIZE
    ensures l + |prefix| < BUFFER_SIZE ==>
              sign == if negative then ['-'] else if flags.plus then ['+'] else if flags.space then [' '] else []
    ensures a > 0 ==> !flags.left && !flags.zeroPad && |Text(value, base, width, precision, negative, flags)| == width
    ensures b > 0 ==> flags.left && |Text(value, base, width, precision, negative, flags)| == width
  {
    var f := StartFlags(value, base, flags);
    sign := if l + |prefix| < BUFFER_SIZE then SignOf(negative, f) else [];
    a, b := PrintedShape(StartDigits(value, base, flags), base, width, precision, negative, f);
    WhichPrefix(|StartDigits(value, base, flags)|, base, FieldWidth(width, negative, f), precision, f);
    WhichSign(negative, flags, f);
  }

  lemma WhichPrefix(n: nat, base: Base, field: nat, precision: nat, f: Flags)
    ensures var l, prefix := DigitCount(n, base, field, precision, f), PrefixOf(n, base, field, precision, f);
            prefix == [] || prefix == PrefixAt(l, base, f.uppercase)
  {
  }

  lemma WhichSign(negative: bool, flags: Flags, f: Flags)
    requires f == flags || f == flags.(hash := false)
    ensures SignOf(negative, f) == SignOf(negative, flags) && IsSign(SignOf(negative, f))
    ensures SignOf(negative, f) == ['-'] <==> negative
  {
  }

  /** The digits as they are printed, with leading zeros up to a length of l. */
  function DigitText(value: nat, base: Base, flags: Flags, l: nat): seq<char>
    requires |StartDigits(value, base, flags)| <= l
  {
    Reverse(StartDigits(value, base, flags) + Repeat('0', l - |StartDigits(value, base, flags)|))
  }

  lemma ReadsBackText(value: nat, base: Base, flags: Flags, a: nat, sign: seq<char>, prefix: seq<char>, l: nat, b: nat)
    requires |StartDigits(value, base, flags)| <= l && IsSign(sign)
    requires prefix == [] || prefix == PrefixAt(l, base, flags.uppercase)
    requires l + |prefix| >= BUFFER_SIZE ==> sign == []
    ensures var text := Repeat(' ', a) + (sign + (Reverse(prefix) + DigitText(value, base, flags, l))) + Repeat(' ', b);
            && (ReadValue(text, base) == value <==>
                value == 0 || prefix == [] || l != BUFFER_SIZE - 1 || !(base.Hex? || base.Binary?))
            && (ReadNegative(text) <==> sign == ['-'])
  {
    DigitString(value, base, flags, l);
    if prefix == [] {
      assert Reverse(prefix) == [];
      ReadsThrough(a, sign, [], DigitText(value, base, flags, l), b, base);
    } else if !(base.Hex? || base.Binary?) {
      ReadsZero(value, base, flags, a, sign, prefix, l, b);
    } else if l == BUFFER_SIZE - 1 {
      ReadsCut(DigitText(value, base, flags, l), base, flags, a, prefix, b);
    } else {
      WholePrefix(prefix, l, base, flags.uppercase);
      ReadsThrough(a, sign, Reverse(prefix), DigitText(value, base, flags, l), b, base);
    }
  }

  lemma WholePrefix(prefix: seq<char>, l: nat, base: Base, upper: bool)
    requires prefix != [] && prefix == PrefixAt(l, base, upper) && l != BUFFER_SIZE - 1 && (base.Hex? || base.Binary?)
    ensures Readable(Reverse(prefix), base)
  {
    assert prefix == [prefix[0], '0'] && prefix[1..] == ['0'] && Reverse(['0']) == ['0'];
  }

  /** A prefix without a letter is one more leading zero. */
  lemma ReadsZero(value: nat, base: Base, flags: Flags, a: nat, sign: seq<char>, prefix: seq<char>, l: nat, b: nat)
    requires |StartDigits(value, base, flags)| <= l && IsSign(sign) && !(base.Hex? || base.Binary?)
    requires prefix != [] && prefix == PrefixAt(l, base, flags.uppercase)
    ensures var text := Repeat(' ', a) + (sign + (Reverse(prefix) + DigitText(value, base, flags, l))) + Repeat(' ', b);
            ReadValue(text, base) == value && (ReadNegative(text) <==> sign == ['-'])
  {
    DigitString(value, base, flags, l + 1);
    OneMoreZero(value, base, flags, l);
    assert prefix == ['0'] && Reverse(prefix) == ['0'];
    ReadsThrough(a, sign, [], DigitText(value, base, flags, l + 1), b, base);
  }

  lemma OneMoreZero(value: nat, base: Base, flags: Flags, l: nat)
    requires |StartDigits(value, base, flags)| <= l
    ensures ['0'] + DigitText(value, base, flags, l) == [] + DigitText(value, base, flags, l + 1)
  {
    var s := StartDigits(value, base, flags);
    assert s + Repeat('0', l + 1 - |s|) == s + Repeat('0', l - |s|) + ['0'];
    ReverseSigned(s + Repeat('0', l - |s|), ['0']);
  }

  /** A prefix without its zero hides the digits. */
  lemma ReadsCut(digits: seq<char>, base: Base, flags: Flags, a: nat, prefix: seq<char>, b: nat)
    requires (base.Hex? || base.Binary?) && prefix == PrefixAt(BUFFER_SIZE - 1, base, flags.uppercase)
    ensures var text := Repeat(' ', a) + ([] + (Reverse(prefix) + digits)) + Repeat(' ', b);
            ReadValue(text, base) == 0 && !ReadNegative(text)
  {
    assert prefix == Letter(base, flags.uppercase) == [prefix[0]] && Reverse(prefix) == prefix;
    ReadsNothing(a, prefix[0], digits + Repeat(' ', b), base);
    Reassociate(Repeat(' ', a), prefix, digits, Repeat(' ', b));
  }

  lemma Reassociate(a: seq<char>, p: seq<char>, d: seq<char>, b: seq<char>)
    ensures a + ([] + (p + d)) + b == a + (p + (d + b))
  {
  }

  /** The characters of a text, one by one: a sign only where one is due and fits, and letters of the case that the flags
      ask for. */
  lemma TextChars(value: nat, base: Base, width: nat, precision: nat, negative: bool, flags: Flags, c: char)
    requires c in Text(value, base, width, precision, negative, flags)
    ensures c == '-' ==> negative && SignFits(value, base, width, precision, negative, flags)
    ensures c == '+' ==> !negative && flags.plus && SignFits(value, base, width, precision, negative, flags)
    ensures base.Hex? && ('A' <= c <= 'F' || c == 'X') ==> flags.uppercase
    ensures base.Hex? && ('a' <= c <= 'f' || c == 'x') ==> !flags.uppercase
    ensures !base.Hex? ==> c == ' ' || c == '-' || c == '+' || '0' <= c <= '9' || (base.Binary? && c == 'b')
  {
    var l, prefix := TextDigits(value, base, width, precision, negative, flags),
                     TextPrefix(value, base, width, precision, negative, flags);
    var a, sign, b := TextShape(value, base, width, precision, negative, flags, l, prefix);
    WhereIn(a, sign, Reverse(prefix), DigitText(value, base, flags, l), b, c);
    if c in DigitText(value, base, flags, l) {
      DigitCase(value, base, flags, l, c);
    } else if c in Reverse(prefix) {
      ReverseIn(prefix, c);
      PrefixChars(l, base, flags.uppercase, c);
    }
  }

  lemma WhereIn(a: nat, sign: seq<char>, prefix: seq<char>, digits: seq<char>, b: nat, c: char)
    requires c in Repeat(' ', a) + (sign + (prefix + digits)) + Repeat(' ', b)
    ensures c == ' ' || c in sign || c in prefix || c in digits
  {
  }

  lemma PrefixChars(l: nat, base: Base, upper: bool, c: char)
    requires c in PrefixAt(l, base, upper)
    ensures c == '0' || (base.Hex? && c == if upper then 'X' else 'x') || (base.Binary? && c == 'b')
  {
  }

  lemma DigitCase(value: nat, base: Base, flags: Flags, l: nat, c: char)
    requires |StartDigits(value, base, flags)| <= l && c in DigitText(value, base, flags, l)
    ensures '0' <= c <= '9' || (base.Hex? && if flags.uppercase then 'A' <= c <= 'F' else 'a' <= c <= 'f')
  {
    var s := StartDigits(value, base, flags);
    ReverseIn(s + Repeat('0', l - |s|), c);
    RevDigitCase(value, base, flags.uppercase);
  }

  lemma {:induction false} RevDigitCase(v: nat, base: Base, upper: bool)
    ensures forall c :: c in RevDigits(v, base, upper) ==>
                          '0' <= c <= '9' || (base.Hex? && if upper then 'A' <= c <= 'F' else 'a' <= c <= 'f')
    decreases v
  {
    if v > 0 {
      RevDigitCase(Quotient(v, base), base, upper);
      DigitCharCase(Digit(v, base), base, upper);
    }
  }

  lemma DigitCharCase(d: nat, base: Base, upper: bool)
    requires d < Radix(base)
    ensures var c := DigitChar(d, upper);
            '0' <= c <= '9' || (base.Hex? && if upper then 'A' <= c <= 'F' else 'a' <= c <= 'f')
  {
  }

  /** A sign that is due and fits stands in front of the number, behind the padding; spaces stand on the side that the
      flags ask for, and only as many as the width wants. */
  lemma TextForm(value: nat, base: Base, width: nat, precision: nat, negative: bool, flags: Flags)
    returns (a: nat, sign: seq<char>, number: seq<char>, b: nat)
    ensures Text(value, base, width, precision, negative, flags) == Repeat(' ', a) + (sign + number) + Repeat(' ', b)
    ensures SignFits(value, base, width, precision, negative, flags) ==>
              sign == if negative then ['-'] else if flags.plus then ['+'] else if flags.space then [' '] else []
    ensures !SignFits(value, base, width, precision, negative, flags) ==> sign == []
    ensures number != [] ==> number[0] != ' ' && number[|number| - 1] != ' '
    ensures a > 0 ==> !flags.left && !flags.zeroPad && |Text(value, base, width, precision, negative, flags)| == width
    ensures b > 0 ==> flags.left && |Text(value, base, width, precision, negative, flags)| == width
  {
    var l, prefix := TextDigits(value, base, width, precision, negative, flags),
                     TextPrefix(value, base, width, precision, negative, flags);
    a, sign, b := TextShape(value, base, width, precision, negative, flags, l, prefix);
    number := Reverse(prefix) + DigitText(value, base, flags, l);
    if number != [] {
      NoSpaces(value, base, flags, l, prefix, number[0]);
      NoSpaces(value, base, flags, l, prefix, number[|number| - 1]);
    }
  }

  lemma NoSpaces(value: nat, base: Base, flags: Flags, l: nat, prefix: seq<char>, c: char)
    requires |StartDigits(value, base, flags)| <= l && (prefix == [] || prefix == PrefixAt(l, base, flags.uppercase))
    requires c in Reverse(prefix) + DigitText(value, base, flags, l)
    ensures c != ' '
  {
    if c in Reverse(prefix) {
      ReverseIn(prefix, c);
    } else {
      DigitCase(value, base, flags, l, c);
    }
  }

  /** In particular, numbers without a prefix in fields and precisions below 64 read back, and of the signs only that
      of a binary number with its highest bit set is lost. */
  lemma PlainReads(value: nat, base: Base, width: nat, precision: nat, negative: bool, flags: Flags)
    requires value < Shl(64) && width < BUFFER_SIZE && precision < BUFFER_SIZE && !flags.hash && !flags.pointer
    ensures var text := Text(value, base, width, precision, negative, flags);
            && ReadValue(text, base) == value
            && ((ReadNegative(text) <==> negative) <==> !(negative && base.Binary? && value >= Shl(63)))
  {
    PrintReads(value, base, width, precision, negative, flags);
    Digits64(value, base, flags);
  }

  lemma DigitString(value: nat, base: Base, flags: Flags, l: nat)
    requires |StartDigits(value, base, flags)| <= l
    ensures Parse(DigitText(value, base, flags, l), base) == value && AllDigits(DigitText(value, base, flags, l), base)
  {
    DigitsAsZeros(value, base, flags, l);
    var n := |RevDigits(value, base, flags.uppercase)|;
    ReadsBack(value, base, flags.uppercase, l - n);
    DigitsOnly(value, base, flags.uppercase);
    OnlyDigits(RevDigits(value, base, flags.uppercase), l - n, base);
  }

  /** The lone digit of a zero is a leading zero. */
  lemma DigitsAsZeros(value: nat, base: Base, flags: Flags, l: nat)
    requires |StartDigits(value, base, flags)| <= l
    ensures var s := RevDigits(value, base, flags.uppercase);
            |s| <= l && DigitText(value, base, flags, l) == Reverse(s + Repeat('0', l - |s|))
  {
    if value == 0 && !flags.precision {
      assert ['0'] + Repeat('0', l - 1) == [] + Repeat('0', l);
    }
  }

  lemma OnlyDigits(s: seq<char>, z: nat, base: Base)
    requires AllDigits(s, base)
    ensures AllDigits(Reverse(s + Repeat('0', z)), base)
  {
    forall c | c in Reverse(s + Repeat('0', z)) ensures IsDigit(c, base) {
      ReverseIn(s + Repeat('0', z), c);
    }
  }

  /** The text of a number without a prefix is as long as the width or the signed digits with their precision,
      whichever is longer, exactly if everything fits the buffer; spaces do not go through the buffer and may make up
      for what is cut. */
  lemma PrintLength(value: nat, base: Base, width: nat, precision: nat, negative: bool, flags: Flags)
    requires value < Shl(64) && !flags.hash && !flags.pointer
    ensures var need := |SignOf(negative, flags)| + Max(|StartDigits(value, base, flags)|, precision);
            |Text(value, base, width, precision, negative, flags)| == Max(width, need)
            <==> if flags.zeroPad && !flags.left then Max(width, need) <= BUFFER_SIZE else need <= BUFFER_SIZE || need <= width
  {
    Digits64(value, base, flags);
    TextLength(StartDigits(value, base, flags), base, width, precision, negative, flags);
    assert StartFlags(value, base, flags) == flags;
  }

  lemma TextLength(digits: seq<char>, base: Base, width: nat, precision: nat, negative: bool, flags: Flags)
    requires |digits| <= BUFFER_SIZE && !flags.hash && !flags.pointer
    ensures var need := |SignOf(negative, flags)| + Max(|digits|, precision);
            |Printed(digits, base, width, precision, negative, flags)| == Max(width, need)
            <==> if flags.zeroPad && !flags.left then Max(width, need) <= BUFFER_SIZE else need <= BUFFER_SIZE || need <= width
  {
    LengthOf(digits, base, FieldWidth(width, negative, flags), precision, negative, flags);
    LengthRight(|digits|, width, FieldWidth(width, negative, flags), precision, |SignOf(negative, flags)|, flags);
  }

  lemma LengthRight(d: nat, width: nat, field: nat, precision: nat, sign: nat, flags: Flags)
    requires d <= BUFFER_SIZE && sign <= 1
    requires field == if !flags.left && width > 0 && flags.zeroPad && sign > 0 then width - 1 else width
    ensures var n := Filled(d, field, precision, flags);
            var s := if n < BUFFER_SIZE then n + sign else n;
            var need := sign + Max(d, precision);
            (if flags.zeroPad && !flags.left then s else Max(field, s)) == Max(width, need)
            <==> if flags.zeroPad && !flags.left then Max(width, need) <= BUFFER_SIZE else need <= BUFFER_SIZE || need <= width
  {
  }

  /** In fields and precisions below 64 the only exception is a sign in front of 64 binary digits. */
  lemma PlainLength(value: nat, base: Base, width: nat, precision: nat, negative: bool, flags: Flags)
    requires value < Shl(64) && width < BUFFER_SIZE && precision < BUFFER_SIZE && !flags.hash && !flags.pointer
    ensures var sign := SignOf(negative, flags);
            |Text(value, base, width, precision, negative, flags)|
            == Max(width, |sign| + Max(|StartDigits(value, base, flags)|, precision))
            <==> sign == [] || !(base.Binary? && value >= Shl(63))
  {
    PrintLength(value, base, width, precision, negative, flags);
    Digits64(value, base, flags);
  }

  lemma LengthOf(digits: seq<char>, base: Base, field: nat, precision: nat, negative: bool, flags: Flags)
    requires |digits| <= BUFFER_SIZE && !flags.hash && !flags.pointer
    ensures var n := Filled(|digits|, field, precision, flags);
            var s := if n < BUFFER_SIZE then n + |SignOf(negative, flags)| else n;
            |Padded(Reverse(Reversed(digits, base, field, precision, negative, flags)), field, flags)|
            == if flags.zeroPad && !flags.left then s else Max(field, s)
  {
  }
}
