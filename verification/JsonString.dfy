/** String literals: escapes, UTF-16 escapes to UTF-8, and the space the two-pass reader sets aside. */
module JsonString {
  import opened Bytes
  import opened JsonText

  const LETTER_U: byte := 117

  // Four hexadecimal digits.

  predicate IsHex(b: byte) { 48 <= b <= 57 || 65 <= b <= 70 || 97 <= b <= 102 }

  function HexValue(b: byte): (v: nat)
    requires IsHex(b)
    ensures v < 16
  {
    if b <= 57 then b - 48 else if b <= 70 then 10 + (b - 65) else 10 + (b - 97)
  }

  predicate HexOk(t: Text) { |t| >= 4 && IsHex(t[0]) && IsHex(t[1]) && IsHex(t[2]) && IsHex(t[3]) }

  /** Zero when one of the four is not a hexadecimal digit. */
  function ParseHex4(t: Text): (u: nat)
    ensures u < 0x1_0000
  {
    if HexOk(t) then ((HexValue(t[0]) * 16 + HexValue(t[1])) * 16 + HexValue(t[2])) * 16 + HexValue(t[3]) else 0
  }

  // UTF-8.

  predicate IsScalar(c: int) { 0 < c < 0xD800 || 0xDFFF < c < 0x11_0000 }

  function Utf8Length(c: nat): (n: nat)
    ensures 1 <= n <= 4
  {
    if c < 0x80 then 1 else if c < 0x800 then 2 else if c < 0x1_0000 then 3 else 4
  }

  function FirstByteMark(len: nat): byte {
    if len == 2 then 0xC0 else if len == 3 then 0xE0 else if len == 4 then 0xF0 else 0
  }

  /** The continuation bytes for the low 6 * n bits of c. */
  function Continuation(c: nat, n: nat): (t: Text)
    ensures |t| == n
    decreases n
  {
    if n == 0 then [] else Continuation(c / 64, n - 1) + [0x80 + c % 64]
  }

  function ShiftedBy6(c: nat, n: nat): nat
    decreases n
  {
    if n == 0 then c else ShiftedBy6(c / 64, n - 1)
  }

  function Utf8(c: nat): (t: Text)
    requires c < 0x11_0000
    ensures |t| == Utf8Length(c)
  {
    var n := Utf8Length(c) - 1;
    LeadFits(c);
    [FirstByteMark(n + 1) + ShiftedBy6(c, n)] + Continuation(c, n)
  }

  lemma LeadFits(c: nat)
    requires c < 0x11_0000
    ensures var n := Utf8Length(c) - 1; FirstByteMark(n + 1) + ShiftedBy6(c, n) < 256
  {
    assert ShiftedBy6(c, 1) == ShiftedBy6(c / 64, 0);
    assert ShiftedBy6(c, 2) == ShiftedBy6(c / 64, 1) == ShiftedBy6(c / 64 / 64, 0);
    assert ShiftedBy6(c, 3) == ShiftedBy6(c / 64, 2) == ShiftedBy6(c / 64 / 64, 1) == ShiftedBy6(c / 64 / 64 / 64, 0);
  }

  predicate Cont(b: byte) { 0x80 <= b <= 0xBF }

  /** The table of well-formed byte sequences of section 3 and 4 of RFC 3629, and the code point each
      stands for; -1 for everything else. */
  function CodePoint(t: Text): int {
    if |t| == 1 && t[0] < 0x80 then t[0]
    else if |t| == 2 && 0xC2 <= t[0] <= 0xDF && Cont(t[1]) then (t[0] - 0xC0) as int * 64 + (t[1] - 0x80)
    else if |t| == 3 && 0xE0 <= t[0] <= 0xEF && Cont(t[1]) && Cont(t[2])
            && (t[0] == 0xE0 ==> t[1] >= 0xA0) && (t[0] == 0xED ==> t[1] <= 0x9F) then
      ((t[0] - 0xE0) as int * 64 + (t[1] - 0x80)) * 64 + (t[2] - 0x80)
    else if |t| == 4 && 0xF0 <= t[0] <= 0xF4 && Cont(t[1]) && Cont(t[2]) && Cont(t[3])
            && (t[0] == 0xF0 ==> t[1] >= 0x90) && (t[0] == 0xF4 ==> t[1] <= 0x8F) then
      (((t[0] - 0xF0) as int * 64 + (t[1] - 0x80)) * 64 + (t[2] - 0x80)) * 64 + (t[3] - 0x80)
    else -1
  }

  lemma Utf8Shape(c: nat)
    requires c < 0x11_0000
    ensures Utf8(c) ==
            if c < 0x80 then [c]
            else if c < 0x800 then [0xC0 + c / 64, 0x80 + c % 64]
            else if c < 0x1_0000 then [0xE0 + c / 4096, 0x80 + c / 64 % 64, 0x80 + c % 64]
            else [0xF0 + c / 262144, 0x80 + c / 4096 % 64, 0x80 + c / 64 % 64, 0x80 + c % 64]
  {
    LeadFits(c);
    assert ShiftedBy6(c, 1) == ShiftedBy6(c / 64, 0);
    assert ShiftedBy6(c, 2) == ShiftedBy6(c / 64, 1) == ShiftedBy6(c / 64 / 64, 0);
    assert ShiftedBy6(c, 3) == ShiftedBy6(c / 64, 2) == ShiftedBy6(c / 64 / 64, 1) == ShiftedBy6(c / 64 / 64 / 64, 0);
    assert Continuation(c, 1) == Continuation(c / 64, 0) + [0x80 + c % 64];
    assert Continuation(c, 2) == Continuation(c / 64, 1) + [0x80 + c % 64];
    assert Continuation(c / 64, 1) == Continuation(c / 64 / 64, 0) + [0x80 + c / 64 % 64];
    assert Continuation(c, 3) == Continuation(c / 64, 2) + [0x80 + c % 64];
    assert Continuation(c / 64, 2) == Continuation(c / 64 / 64, 1) + [0x80 + c / 64 % 64];
    assert Continuation(c / 64 / 64, 1) == Continuation(c / 64 / 64 / 64, 0) + [0x80 + c / 64 / 64 % 64];
    assert c / 64 / 64 == c / 4096 && c / 64 / 64 / 64 == c / 262144;
  }

  lemma SixBits(h: nat, l: nat)
    requires l < 64
    ensures (h * 64 + l) / 64 == h && (h * 64 + l) % 64 == l
  {
  }

  lemma OnlyTwoBytes(t: Text)
    requires |t| == 2 && CodePoint(t) >= 0
    ensures CodePoint(t) < 0x11_0000 && t == Utf8(CodePoint(t))
  {
    SixBits(t[0] - 0xC0, t[1] - 0x80);
    Utf8Shape(CodePoint(t));
  }

  lemma OnlyThreeBytes(t: Text)
    requires |t| == 3 && CodePoint(t) >= 0
    ensures CodePoint(t) < 0x11_0000 && t == Utf8(CodePoint(t))
  {
    hide Utf8;
    var c, h := CodePoint(t), (t[0] - 0xE0) as int * 64 + (t[1] - 0x80);
    SixBits(h, t[2] - 0x80);
    SixBits(t[0] - 0xE0, t[1] - 0x80);
    assert c / 4096 == c / 64 / 64;
    Utf8Shape(c);
  }

  lemma OnlyFourBytes(t: Text)
    requires |t| == 4 && CodePoint(t) >= 0
    ensures CodePoint(t) < 0x11_0000 && t == Utf8(CodePoint(t))
  {
    hide Utf8;
    var c, g := CodePoint(t), (t[0] - 0xF0) as int * 64 + (t[1] - 0x80);
    SixBits(g * 64 + (t[2] - 0x80), t[3] - 0x80);
    SixBits(g, t[2] - 0x80);
    SixBits(t[0] - 0xF0, t[1] - 0x80);
    assert c / 4096 == c / 64 / 64 && c / 262144 == c / 64 / 64 / 64;
    Utf8Shape(c);
  }

  /** What the reader emits is well-formed for the code point, and nothing else is. */
  lemma Utf8IsStandard(c: nat, t: Text)
    requires IsScalar(c)
    ensures CodePoint(t) == c <==> t == Utf8(c)
  {
    Utf8Shape(c);
    if CodePoint(t) == c {
      if |t| == 2 {
        OnlyTwoBytes(t);
      } else if |t| == 3 {
        OnlyThreeBytes(t);
      } else if |t| == 4 {
        OnlyFourBytes(t);
      }
    }
  }

  // Reading a literal, from behind its opening quote.

  datatype Scan = Scanned(text: Text, rest: Text) | Broken

  function Cons(bs: Text, s: Scan): Scan {
    if s.Broken? then Broken else Scanned(bs + s.text, s.rest)
  }

  function SimpleEscape(b: byte): byte {
    match b
    case 98 => 8
    case 102 => 12
    case 110 => 10
    case 114 => 13
    case 116 => 9
    case _ => b
  }

  predicate HighSurrogate(u: nat) { 0xD800 <= u <= 0xDBFF }

  predicate LowSurrogate(u: nat) { 0xDC00 <= u <= 0xDFFF }

  function Combine(hi: nat, lo: nat): nat { 0x1_0000 + hi % 0x400 * 0x400 + lo % 0x400 }

  predicate AnotherEscape(t: Text) { |t| >= 8 && t[6] == BACKSLASH && t[7] == LETTER_U }

  /** The bytes a \\u escape stands for, and how many characters it takes up; an unpaired or wrongly
      paired surrogate, and zero, stand for nothing. */
  function UnicodeEscape(t: Text): (r: (Text, nat))
    requires |t| >= 6
    ensures r.1 == 6 || r.1 == 12
  {
    var u := ParseHex4(t[2..]);
    if LowSurrogate(u) || u == 0 then ([], 6)
    else if !HighSurrogate(u) then (Utf8(u), 6)
    else if !AnotherEscape(t) then ([], 6)
    else
      var u2 := ParseHex4(t[8..]);
      if !LowSurrogate(u2) then ([], 12) else (Utf8(Combine(u, u2)), 12)
  }

  /** Broken where the source would run past the terminator. */
  function Unescape(t: Text): Scan
    decreases |t|
  {
    if t == [] then Scanned([], [])
    else if t[0] == QUOTE then Scanned([], t[1..])
    else if t[0] != BACKSLASH then Cons([t[0]], Unescape(t[1..]))
    else if |t| < 2 then Broken
    else if t[1] != LETTER_U then Cons([SimpleEscape(t[1])], Unescape(t[2..]))
    else if |t| < 6 then Broken
    else
      var (bs, n) := UnicodeEscape(t);
      if |t| < n then Broken else Cons(bs, Unescape(t[n..]))
  }

  // Reading undoes escaping.

  lemma HexDigitValue(d: nat)
    requires d < 16
    ensures IsHex(HexDigit(d)) && HexValue(HexDigit(d)) == d
  {
  }

  lemma UnescapeControl(b: byte, t: Text)
    requires 0 < b < 32
    ensures Unescape([BACKSLASH, LETTER_U, 48, 48, HexDigit(b / 16), HexDigit(b % 16)] + t) == Cons([b], Unescape(t))
  {
    var e := [BACKSLASH, LETTER_U, 48, 48, HexDigit(b / 16), HexDigit(b % 16)];
    HexDigitValue(b / 16);
    HexDigitValue(b % 16);
    assert (e + t)[2..] == [48, 48, HexDigit(b / 16), HexDigit(b % 16)] + t;
    assert ParseHex4((e + t)[2..]) == b;
    Utf8Shape(b);
    assert (e + t)[6..] == t;
  }

  lemma UnescapeByte(b: byte, t: Text)
    requires b != 0
    ensures Unescape(EscapeByte(b) + t) == Cons([b], Unescape(t))
  {
    var e := EscapeByte(b);
    if !NeedsEscape(b) {
      assert (e + t)[1..] == t;
    } else if b in {92, 34, 8, 12, 10, 13, 9} {
      assert |e| == 2 && e[0] == BACKSLASH && e[1] != LETTER_U && SimpleEscape(e[1]) == b;
      assert (e + t)[2..] == t;
    } else {
      UnescapeControl(b, t);
      assert e == [BACKSLASH, LETTER_U, 48, 48, HexDigit(b / 16), HexDigit(b % 16)];
    }
  }

  /** Every C string survives escaping and reading, whatever follows its closing quote. */
  lemma {:induction false} StringRoundTrip(s: Text, rest: Text)
    requires NulFree(s)
    ensures Unescape(Escape(s) + [QUOTE] + rest) == Scanned(s, rest)
  {
    if s == [] {
      assert Escape(s) + [QUOTE] + rest == [QUOTE] + rest;
      assert ([QUOTE] + rest)[1..] == rest;
    } else {
      var later := Escape(s[1..]) + [QUOTE] + rest;
      assert Escape(s) + [QUOTE] + rest == EscapeByte(s[0]) + later;
      UnescapeByte(s[0], later);
      StringRoundTrip(s[1..], rest);
      assert [s[0]] + s[1..] == s;
    }
  }

  // Every scalar value can be written as an escape.

  /** Digits in either case. */
  predicate Hex4For(t: Text, u: nat) { |t| == 4 && HexOk(t) && ParseHex4(t) == u }

  lemma EscapedUnit(h: Text, u: nat, rest: Text)
    requires Hex4For(h, u)
    ensures var t := [BACKSLASH, LETTER_U] + h + rest;
            |t| >= 6 && ParseHex4(t[2..]) == u && t[6..] == rest
  {
    var t := [BACKSLASH, LETTER_U] + h + rest;
    assert t[2..] == h + rest;
  }

  /** One escape for a scalar value of the basic plane. */
  lemma BasicPlane(c: nat, h: Text, rest: Text)
    requires IsScalar(c) && c < 0x1_0000 && Hex4For(h, c)
    ensures Unescape([BACKSLASH, LETTER_U] + h + rest) == Cons(Utf8(c), Unescape(rest))
  {
    EscapedUnit(h, c, rest);
  }

  lemma SurrogatesOf(c: nat)
    requires 0x1_0000 <= c < 0x11_0000
    ensures var hi, lo := 0xD800 + (c - 0x1_0000) / 0x400, 0xDC00 + (c - 0x1_0000) % 0x400;
            HighSurrogate(hi) && LowSurrogate(lo) && Combine(hi, lo) == c
  {
    var d := c - 0x1_0000;
    assert (0xD800 + d / 0x400) % 0x400 == d / 0x400;
    assert (0xDC00 + d % 0x400) % 0x400 == d % 0x400;
  }

  /** A surrogate pair, split as in section 2.1 of RFC 2781, for every other scalar value. */
  lemma SupplementaryPlanes(c: nat, h: Text, l: Text, rest: Text)
    requires 0x1_0000 <= c < 0x11_0000
    requires Hex4For(h, 0xD800 + (c - 0x1_0000) / 0x400) && Hex4For(l, 0xDC00 + (c - 0x1_0000) % 0x400)
    ensures Unescape([BACKSLASH, LETTER_U] + h + ([BACKSLASH, LETTER_U] + l + rest)) == Cons(Utf8(c), Unescape(rest))
  {
    SurrogatesOf(c);
    var second := [BACKSLASH, LETTER_U] + l + rest;
    var t := [BACKSLASH, LETTER_U] + h + second;
    EscapedUnit(h, 0xD800 + (c - 0x1_0000) / 0x400, second);
    EscapedUnit(l, 0xDC00 + (c - 0x1_0000) % 0x400, rest);
    assert t[6] == second[0] && t[7] == second[1];
    assert t[8..] == second[2..];
    assert t[12..] == second[6..];
  }

  // The space counted by the first pass.

  predicate Special(b: byte) { b == QUOTE || b == BACKSLASH }

  predicate FourPlain(t: Text) {
    |t| >= 4 && !Special(t[0]) && !Special(t[1]) && !Special(t[2]) && !Special(t[3])
  }

  /** No escape is cut short by the terminator, by a quote or by another escape. */
  predicate Safe(t: Text)
    decreases |t|
  {
    if t == [] || t[0] == QUOTE then true
    else if t[0] != BACKSLASH then Safe(t[1..])
    else if |t| < 2 then false
    else if t[1] != LETTER_U then Safe(t[2..])
    else FourPlain(t[2..]) && Safe(t[6..])
  }

  /** Characters of the literal, an escape's first two counting as one. */
  function CharCount(t: Text): nat
    decreases |t|
  {
    if t == [] || t[0] == QUOTE then 0
    else if t[0] == BACKSLASH && |t| >= 2 then 1 + CharCount(t[2..])
    else 1 + CharCount(t[1..])
  }

  lemma PlainCount(t: Text)
    requires FourPlain(t)
    ensures CharCount(t) == 4 + CharCount(t[4..])
  {
    assert t[1..][0] == t[1] && t[2..][0] == t[2] && t[3..][0] == t[3];
    assert t[1..][1..] == t[2..] && t[2..][1..] == t[3..] && t[3..][1..] == t[4..];
    assert CharCount(t[2..]) == 2 + CharCount(t[4..]);
  }

  lemma UnicodeCount(t: Text)
    requires Safe(t) && |t| >= 6 && t[0] == BACKSLASH && t[1] == LETTER_U
    ensures CharCount(t) == 5 + CharCount(t[6..])
    ensures var (bs, n) := UnicodeEscape(t);
            n <= |t| && Safe(t[n..]) && |bs| + CharCount(t[n..]) <= CharCount(t)
  {
    PlainCount(t[2..]);
    assert t[2..][4..] == t[6..];
    var (bs, n) := UnicodeEscape(t);
    if n == 12 {
      var s := t[6..];
      assert s[0] == t[6] && s[1] == t[7];
      PlainCount(s[2..]);
      assert s[2..][4..] == s[6..] && s[6..] == t[12..];
    }
  }

  /** On a safe literal the reader stays within the text and the bytes it writes fit the space
      the first pass counted. */
  lemma {:induction false} SpaceSuffices(t: Text)
    requires Safe(t)
    ensures Unescape(t).Scanned? && |Unescape(t).text| <= CharCount(t)
    decreases |t|
  {
    if t == [] || t[0] == QUOTE {
    } else if t[0] != BACKSLASH {
      SpaceSuffices(t[1..]);
    } else if t[1] != LETTER_U {
      SpaceSuffices(t[2..]);
    } else {
      UnicodeCount(t);
      SpaceSuffices(t[UnicodeEscape(t).1..]);
    }
  }

  lemma {:induction false} SafeAfterEscape(t: Text)
    requires Safe(t) && t != [] && t[0] == BACKSLASH
    ensures |t| >= 2 && Safe(t[2..])
  {
    if t[1] == LETTER_U {
      var d := t[2..];
      assert d[1..][1..] == d[2..] && d[2..][1..] == d[3..] && d[3..][1..] == d[4..] == t[6..];
      assert Safe(d[4..]) && Safe(d[3..]) && Safe(d[2..]) && Safe(d[1..]);
    }
  }

  // Exactly when the two passes stay within the text and within the space.

  /** The first pass meets no backslash right before the terminator. */
  predicate FirstPassStays(t: Text)
    decreases |t|
  {
    if t == [] || t[0] == QUOTE then true
    else if t[0] == BACKSLASH then |t| >= 2 && FirstPassStays(t[2..])
    else FirstPassStays(t[1..])
  }

  /** How far the second pass moves at one character or escape. */
  function Jump(t: Text): (n: nat)
    requires t != []
    ensures n > 0
  {
    if t[0] != BACKSLASH then 1
    else if |t| < 2 || t[1] != LETTER_U then 2
    else if |t| < 6 then 6
    else UnicodeEscape(t).1
  }

  /** Where the second pass stops; beyond the text if an escape takes it past the terminator. */
  function Stop(t: Text): nat
    decreases |t|
  {
    if t == [] then 0
    else if t[0] == QUOTE then 1
    else if Jump(t) > |t| then Jump(t)
    else Jump(t) + Stop(t[Jump(t)..])
  }

  lemma {:induction false} StaysIff(t: Text)
    ensures Unescape(t).Scanned? <==> Stop(t) <= |t|
    ensures Unescape(t).Scanned? ==> Unescape(t).rest == t[Stop(t)..]
    decreases |t|
  {
    if t != [] && t[0] != QUOTE && Jump(t) <= |t| {
      var n := Jump(t);
      StaysIff(t[n..]);
      if Stop(t) <= |t| {
        assert t[n..][Stop(t[n..])..] == t[Stop(t)..];
      }
    }
  }

  /** Both passes stay within the text, and what is written fits the space. */
  predicate Defined(t: Text) {
    FirstPassStays(t) && Stop(t) <= |t| && (StaysIff(t); |Unescape(t).text| <= CharCount(t))
  }

  lemma {:induction false} SafeFirstPass(t: Text)
    requires Safe(t)
    ensures FirstPassStays(t)
    decreases |t|
  {
    if t == [] || t[0] == QUOTE {
    } else if t[0] == BACKSLASH {
      SafeAfterEscape(t);
      SafeFirstPass(t[2..]);
    } else {
      SafeFirstPass(t[1..]);
    }
  }

  lemma SafeIsDefined(t: Text)
    requires Safe(t)
    ensures Defined(t)
  {
    SafeFirstPass(t);
    SpaceSuffices(t);
    StaysIff(t);
  }

  /** An escape right before the terminator takes the second pass past it. */
  lemma CutShort()
    ensures Unescape([BACKSLASH, LETTER_U]) == Broken && !Defined([BACKSLASH, LETTER_U])
  {
    StaysIff([BACKSLASH, LETTER_U]);
  }

  /** Here the second pass is fine, but the first one steps over the terminator. */
  lemma FirstPassLeaves()
    ensures var t := [BACKSLASH, LETTER_U, 49, 50, 51, BACKSLASH];
            Unescape(t) == Scanned([], []) && !FirstPassStays(t)
  {
    var t := [BACKSLASH, LETTER_U, 49, 50, 51, BACKSLASH];
    assert t[2..] == [49, 50, 51, BACKSLASH] && t[6..] == [];
    assert !FirstPassStays([51, BACKSLASH]) by {
      assert [51, BACKSLASH][1..] == [BACKSLASH];
    }
    assert !FirstPassStays([50, 51, BACKSLASH]) by {
      assert [50, 51, BACKSLASH][1..] == [51, BACKSLASH];
    }
    assert t[2..][1..] == [50, 51, BACKSLASH];
  }

  function Letters(n: nat): (t: Text)
    ensures |t| == n && forall i :: 0 <= i < n ==> t[i] == 120
  {
    seq(n, i => 120)
  }

  lemma {:induction false} LettersScan(n: nat)
    ensures Unescape(Letters(n) + [QUOTE]) == Scanned(Letters(n), [])
  {
    var t := Letters(n) + [QUOTE];
    if n == 0 {
      assert t == [QUOTE];
    } else {
      assert t[1..] == Letters(n - 1) + [QUOTE];
      LettersScan(n - 1);
      assert [t[0]] + Letters(n - 1) == Letters(n);
    }
  }

  /** An escape that swallows the closing quote: the first pass counts three characters, the second reads on to
      the next quote. With up to four letters between the quotes it stays in bounds although the literal is
      not safe; with more it writes past the space. */
  lemma SwallowedQuote(n: nat)
    requires n > 0
    ensures var t := [BACKSLASH, LETTER_U, 49, 50, QUOTE] + Letters(n) + [QUOTE];
            && !Safe(t) && CharCount(t) == 3
            && Unescape(t) == Scanned(Letters(n - 1), [])
            && (Defined(t) <==> n <= 4)
  {
    var t := [BACKSLASH, LETTER_U, 49, 50, QUOTE] + Letters(n) + [QUOTE];
    assert t[6..] == Letters(n - 1) + [QUOTE];
    LettersScan(n - 1);
    SwallowedCount(t);
    StaysIff(t);
    assert Unescape(t) == Cons([], Unescape(t[6..]));
    assert [] + Letters(n - 1) == Letters(n - 1);
  }

  lemma SwallowedCount(t: Text)
    requires |t| >= 6 && t[..5] == [BACKSLASH, LETTER_U, 49, 50, QUOTE]
    ensures !Safe(t) && CharCount(t) == 3 && FirstPassStays(t) && UnicodeEscape(t) == ([], 6)
  {
    assert t[0] == t[..5][0] && t[1] == t[..5][1] && t[2] == t[..5][2] && t[3] == t[..5][3] && t[4] == t[..5][4];
    var d := t[2..];
    assert d[1..] == t[3..] && d[1..][1..] == t[4..];
    assert CharCount(t[3..]) == 1 + CharCount(t[4..]) && FirstPassStays(t[3..]);
  }

  // Both passes stop at the same quote.

  /** The text behind the quote the first pass stops at. */
  function Closing(t: Text): Text
    decreases |t|
  {
    if t == [] then []
    else if t[0] == QUOTE then t[1..]
    else if t[0] == BACKSLASH && |t| >= 2 then Closing(t[2..])
    else Closing(t[1..])
  }

  lemma PlainClosing(t: Text)
    requires FourPlain(t)
    ensures Closing(t) == Closing(t[4..])
  {
    assert t[1..][0] == t[1] && t[2..][0] == t[2] && t[3..][0] == t[3];
    assert t[1..][1..] == t[2..] && t[2..][1..] == t[3..] && t[3..][1..] == t[4..];
    assert Closing(t[2..]) == Closing(t[4..]);
  }

  lemma UnicodeClosing(t: Text)
    requires Safe(t) && |t| >= 6 && t[0] == BACKSLASH && t[1] == LETTER_U
    ensures var n := UnicodeEscape(t).1; n <= |t| && Closing(t[n..]) == Closing(t)
  {
    UnicodeCount(t);
    PlainClosing(t[2..]);
    assert t[2..][4..] == t[6..];
    if UnicodeEscape(t).1 == 12 {
      var s := t[6..];
      assert s[0] == t[6] && s[1] == t[7];
      PlainClosing(s[2..]);
      assert s[2..][4..] == s[6..] && s[6..] == t[12..];
    }
  }

  lemma {:induction false} PassesAgree(t: Text)
    requires Safe(t)
    ensures Unescape(t).Scanned? && Unescape(t).rest == Closing(t)
    decreases |t|
  {
    if t == [] || t[0] == QUOTE {
    } else if t[0] != BACKSLASH {
      PassesAgree(t[1..]);
    } else if t[1] != LETTER_U {
      PassesAgree(t[2..]);
    } else {
      UnicodeCount(t);
      UnicodeClosing(t);
      PassesAgree(t[UnicodeEscape(t).1..]);
    }
  }

  // What a literal is read as is again a C string.

  lemma Utf8NulFree(c: nat)
    requires 0 < c < 0x11_0000
    ensures NulFree(Utf8(c))
  {
    Utf8Shape(c);
  }

  lemma UnicodeNulFree(t: Text)
    requires |t| >= 6
    ensures NulFree(UnicodeEscape(t).0)
  {
    var u := ParseHex4(t[2..]);
    if 0 < u {
      Utf8NulFree(u);
    }
    if AnotherEscape(t) {
      Utf8NulFree(Combine(u, ParseHex4(t[8..])));
    }
  }

  lemma {:induction false} UnescapeNulFree(t: Text)
    requires NulFree(t) && Unescape(t).Scanned?
    ensures NulFree(Unescape(t).text)
    decreases |t|
  {
    if t == [] || t[0] == QUOTE {
    } else if t[0] != BACKSLASH {
      UnescapeNulFree(t[1..]);
    } else if t[1] != LETTER_U {
      UnescapeNulFree(t[2..]);
    } else {
      UnicodeNulFree(t);
      UnescapeNulFree(t[UnicodeEscape(t).1..]);
    }
  }

  // The grammar of section 7 of RFC 8259, the text between the quotes, over the bytes of its UTF-8 form.

  predicate Unescaped(b: byte) { b >= 0x20 && !Special(b) }

  predicate EscapeLetter(b: byte) { b in {34, 92, 47, 98, 102, 110, 114, 116} }

  predicate Chars(t: Text)
    decreases |t|
  {
    t == [] ||
    (Unescaped(t[0]) && Chars(t[1..])) ||
    (t[0] == BACKSLASH && |t| >= 2 && EscapeLetter(t[1]) && Chars(t[2..])) ||
    (t[0] == BACKSLASH && |t| >= 6 && t[1] == LETTER_U && HexOk(t[2..]) && Chars(t[6..]))
  }

  lemma CharsAfter(e: Text, t: Text)
    requires Chars(t)
    requires (|e| == 1 && Unescaped(e[0])) || (|e| == 2 && e[0] == BACKSLASH && EscapeLetter(e[1])) ||
             (|e| == 6 && e[0] == BACKSLASH && e[1] == LETTER_U && HexOk(e[2..]))
    ensures Chars(e + t)
  {
    DropOfSum(e, t, |e|);
    assert e[|e|..] + t == t;
    if |e| == 6 {
      DropOfSum(e, t, 2);
    }
  }

  /** Every printed literal is one the standard allows. */
  lemma {:induction false} EscapeIsChars(s: Text)
    ensures Chars(Escape(s))
  {
    if s != [] {
      EscapeIsChars(s[1..]);
      HexDigitValue(s[0] / 16);
      HexDigitValue(s[0] % 16);
      CharsAfter(EscapeByte(s[0]), Escape(s[1..]));
    }
  }

  lemma DropOfSum(a: Text, b: Text, n: nat)
    requires n <= |a|
    ensures (a + b)[n..] == a[n..] + b
    ensures forall i :: 0 <= i < |a| ==> (a + b)[i] == a[i]
  {
  }

  /** Every literal the standard allows is safe. */
  lemma {:induction false} StandardIsSafe(t: Text, tail: Text)
    requires Chars(t) && tail != [] && tail[0] == QUOTE
    ensures Safe(t + tail) && Closing(t + tail) == tail[1..]
    decreases |t|
  {
    var l := t + tail;
    if t == [] {
      assert l == tail;
    } else if Unescaped(t[0]) {
      DropOfSum(t, tail, 1);
      StandardIsSafe(t[1..], tail);
    } else if t[1] != LETTER_U {
      DropOfSum(t, tail, 2);
      StandardIsSafe(t[2..], tail);
    } else {
      DropOfSum(t, tail, 2);
      DropOfSum(t, tail, 6);
      StandardIsSafe(t[6..], tail);
      PlainClosing(l[2..]);
      assert l[2..][4..] == l[6..];
    }
  }

  /** Every literal the standard allows is read up to its own closing quote. */
  lemma StandardLiteral(t: Text, rest: Text)
    requires Chars(t)
    ensures var r := Unescape(t + [QUOTE] + rest); r.Scanned? && r.rest == rest
  {
    assert t + [QUOTE] + rest == t + ([QUOTE] + rest);
    StandardIsSafe(t, [QUOTE] + rest);
    PassesAgree(t + [QUOTE] + rest);
  }
}
