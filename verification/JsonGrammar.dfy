/** Texts that spell a value, by the grammar of RFC 8259 as far as the parser follows it: white space wherever it
    is allowed, every escape, every form of number. Nothing here looks at how the parser goes about it. */
module JsonGrammar {
  import opened Bytes
  import opened JsonText
  import opened JsonString
  import opened JsonParse
  import opened JsonSteps

  // String literals, piece by piece.

  /** Unit is one UTF-16 escape, Pair a high surrogate and the escape behind it. */
  datatype Piece = Raw(b: byte) | Short(letter: byte) | Unit(h: Text) | Pair(h: Text, l: Text)

  function Nibble(b: byte): int {
    if 48 <= b <= 57 then b - 48 else if 65 <= b <= 70 then b - 55 else if 97 <= b <= 102 then b - 87 else -1
  }

  predicate FourDigits(h: Text) { |h| == 4 && forall i :: 0 <= i < 4 ==> Nibble(h[i]) >= 0 }

  /** Anything but four hexadecimal digits counts as 0. */
  function UnitValue(h: Text): (u: nat)
    ensures u < 0x1_0000
  {
    if FourDigits(h) then 4096 * Nibble(h[0]) + 256 * Nibble(h[1]) + 16 * Nibble(h[2]) + Nibble(h[3]) else 0
  }

  function StandsFor(letter: byte): byte {
    match letter
    case 34 => 34
    case 92 => 92
    case 47 => 47
    case 98 => 8
    case 102 => 12
    case 110 => 10
    case 114 => 13
    case 116 => 9
    case _ => letter
  }

  function SpellPiece(p: Piece): (t: Text)
    ensures t != []
  {
    match p
    case Raw(b) => [b]
    case Short(c) => [92, c]
    case Unit(h) => [92, 117] + h
    case Pair(h, l) => [92, 117] + h + ([92, 117] + l)
  }

  /** A surrogate without its partner, and the terminator, stand for nothing. */
  function MeanPiece(p: Piece): Text {
    match p
    case Raw(b) => [b]
    case Short(c) => [StandsFor(c)]
    case Unit(h) =>
      var u := UnitValue(h);
      if u == 0 || 0xD800 <= u < 0xE000 then [] else Utf8(u)
    case Pair(h, l) =>
      var u, v := UnitValue(h), UnitValue(l);
      if 0xD800 <= u < 0xDC00 && 0xDC00 <= v < 0xE000 then Utf8(0x1_0000 + (u - 0xD800) * 0x400 + (v - 0xDC00)) else []
  }

  predicate OpensUnit(t: Text) { |t| >= 2 && t[0] == 92 && t[1] == 117 }

  /** The piece can stand before the text that follows: a high surrogate takes a following escape with it. */
  predicate FitsPiece(p: Piece, next: Text) {
    match p
    case Raw(b) => b != 34 && b != 92
    case Short(c) => c != 117
    case Unit(h) => |h| == 4 && (0xD800 <= UnitValue(h) < 0xDC00 ==> !OpensUnit(next))
    case Pair(h, l) => |h| == 4 && |l| == 4 && 0xD800 <= UnitValue(h) < 0xDC00
  }

  function SpellPieces(ps: seq<Piece>): Text { if ps == [] then [] else SpellPiece(ps[0]) + SpellPieces(ps[1..]) }

  function MeanPieces(ps: seq<Piece>): Text { if ps == [] then [] else MeanPiece(ps[0]) + MeanPieces(ps[1..]) }

  /** Behind the pieces comes the closing quote, or the end of the text. */
  predicate Pieces(ps: seq<Piece>, end: Text) {
    ps == [] || (FitsPiece(ps[0], SpellPieces(ps[1..]) + end) && Pieces(ps[1..], end))
  }

  /** No escape holds a quote or a backslash where its digits should be. */
  predicate Clean(p: Piece) {
    (p.Unit? || p.Pair? ==> FourPlain(p.h)) && (p.Pair? ==> FourPlain(p.l))
  }

  predicate AllClean(ps: seq<Piece>) { forall i :: 0 <= i < |ps| ==> Clean(ps[i]) }

  lemma UnitIsParsed(h: Text, rest: Text)
    requires |h| == 4
    ensures ParseHex4(h + rest) == UnitValue(h)
  {
    hide Nibble, IsHex, HexValue;
    NibbleIsHex(h[0]);
    NibbleIsHex(h[1]);
    NibbleIsHex(h[2]);
    NibbleIsHex(h[3]);
    assert (h + rest)[..4] == h;
    assert FourDigits(h) <==> HexOk(h + rest);
  }

  lemma NibbleIsHex(b: byte)
    ensures Nibble(b) >= 0 <==> IsHex(b)
    ensures IsHex(b) ==> Nibble(b) == HexValue(b)
  {
  }

  lemma UnitRead(h: Text, next: Text)
    requires FitsPiece(Unit(h), next)
    ensures var t := SpellPiece(Unit(h)) + next;
            |t| >= 6 && t[0] == 92 && t[1] == 117 && UnicodeEscape(t) == (MeanPiece(Unit(h)), 6) && t[6..] == next
  {
    var t := SpellPiece(Unit(h)) + next;
    assert t[2..] == h + next && t[6..] == next;
    UnitIsParsed(h, next);
    assert AnotherEscape(t) <==> OpensUnit(next);
  }

  lemma PairValue(u: nat, v: nat)
    requires 0xD800 <= u < 0xDC00 && 0xDC00 <= v < 0xE000
    ensures Combine(u, v) == 0x1_0000 + (u - 0xD800) * 0x400 + (v - 0xDC00)
  {
    assert u % 0x400 == u - 0xD800 && v % 0x400 == v - 0xDC00;
  }

  lemma PairRead(h: Text, l: Text, next: Text)
    requires FitsPiece(Pair(h, l), next)
    ensures var t := SpellPiece(Pair(h, l)) + next;
            |t| >= 12 && t[0] == 92 && t[1] == 117 && UnicodeEscape(t) == (MeanPiece(Pair(h, l)), 12) && t[12..] == next
  {
    var t := SpellPiece(Pair(h, l)) + next;
    assert t[2..] == h + ([92, 117] + l + next) && t[8..] == l + next && t[12..] == next;
    assert t[6] == 92 && t[7] == 117;
    UnitIsParsed(h, [92, 117] + l + next);
    UnitIsParsed(l, next);
    if 0xDC00 <= UnitValue(l) < 0xE000 {
      PairValue(UnitValue(h), UnitValue(l));
    }
  }

  lemma ShortRead(c: byte)
    ensures SimpleEscape(c) == StandsFor(c)
  {
  }

  /** One piece in front of the rest of a literal. */
  lemma PieceRead(p: Piece, next: Text)
    requires FitsPiece(p, next)
    ensures Unescape(SpellPiece(p) + next) == Cons(MeanPiece(p), Unescape(next))
    ensures Clean(p) && Safe(next) ==> Safe(SpellPiece(p) + next)
  {
    var t := SpellPiece(p) + next;
    match p {
      case Raw(b) => assert t[1..] == next;
      case Short(c) => ShortRead(c); assert t[2..] == next;
      case Unit(h) => UnitRead(h, next); UnitSafe(h, next);
      case Pair(h, l) =>
        PairRead(h, l, next);
        UnitSafe(l, next);
        UnitSafe(h, [92, 117] + l + next);
        assert t == [92, 117] + h + ([92, 117] + l + next);
    }
  }

  lemma UnitSafe(h: Text, next: Text)
    requires |h| == 4
    ensures FourPlain(h) && Safe(next) ==> Safe([92, 117] + h + next)
  {
    var t := [92, 117] + h + next;
    assert t[2..] == h + next && t[6..] == next;
  }

  lemma OpensTheSame(u: Text, end: Text, rest: Text)
    requires end == [34] || (end == [] && rest == [])
    ensures OpensUnit(u + end + rest) <==> OpensUnit(u + end)
  {
    assert |u + end| >= 2 ==> (u + end + rest)[..2] == (u + end)[..2];
  }

  lemma FitsTheSame(p: Piece, u: Text, end: Text, rest: Text)
    requires FitsPiece(p, u + end) && (end == [34] || (end == [] && rest == []))
    ensures FitsPiece(p, u + end + rest)
  {
    OpensTheSame(u, end, rest);
  }

  /** A literal is read as what its pieces stand for, up to its closing quote. */
  lemma {:induction false} PiecesRead(ps: seq<Piece>, rest: Text)
    requires Pieces(ps, [34])
    ensures Unescape(SpellPieces(ps) + [34] + rest) == Scanned(MeanPieces(ps), rest)
    ensures AllClean(ps) ==> Safe(SpellPieces(ps) + [34] + rest)
    decreases |ps|
  {
    if ps == [] {
      assert [] + [34] + rest == [34] + rest && ([34] + rest)[1..] == rest;
    } else {
      var later := SpellPieces(ps[1..]) + [34] + rest;
      FitsTheSame(ps[0], SpellPieces(ps[1..]), [34], rest);
      assert SpellPieces(ps) + [34] + rest == SpellPiece(ps[0]) + later;
      hide FitsPiece, SpellPiece, MeanPiece, Clean, Unescape, Safe;
      PiecesRead(ps[1..], rest);
      PieceRead(ps[0], later);
    }
  }

  // Numbers.

  datatype Digits = Digits(minus: bool, zero: bool, whole: Text, fraction: Text, power: Power)

  datatype Sign = NoSign | Plus | Minus

  datatype Power = NoPower | Power(letter: byte, sign: Sign, digits: Text)

  /** The grammar asks for a zero or a whole part without leading zero, not both, and for digits in the power;
      the parser does not insist on either. */
  predicate NumberForm(n: Digits) {
    && AllDigits(n.whole) && AllDigits(n.fraction) && (n.whole != [] ==> n.whole[0] != 48)
    && (n.minus || n.zero || n.whole != [])
    && PowerForm(n.power)
  }

  predicate PowerForm(p: Power) { p.Power? ==> (p.letter == 101 || p.letter == 69) && AllDigits(p.digits) }

  function SpellSign(s: Sign): Text {
    match s
    case NoSign => []
    case Plus => [43]
    case Minus => [45]
  }

  function SpellPower(p: Power): Text { if p.NoPower? then [] else [p.letter] + (SpellSign(p.sign) + p.digits) }

  function SpellFraction(f: Text): Text { if f == [] then [] else [46] + f }

  function SpellWhole(n: Digits): Text { (if n.zero then [48] else []) + n.whole }

  function SpellNumber(n: Digits): Text {
    (if n.minus then [45] else []) + (SpellWhole(n) + (SpellFraction(n.fraction) + SpellPower(n.power)))
  }

  function MeanPower(p: Power): int
    requires PowerForm(p)
  {
    if p.NoPower? then 0 else if p.sign.Minus? then 0 - Fold(0, p.digits) else Fold(0, p.digits)
  }

  function MeanNumber(n: Digits): Json
    requires NumberForm(n)
  {
    var m: int := Fold(Fold(0, n.whole), n.fraction);
    Number(if n.minus then -m else m, MeanPower(n.power) - |n.fraction|)
  }

  // What may follow a number without being taken for part of it.

  predicate WholeEnds(n: Digits, next: Text) {
    if n.whole != [] then !StartsDigit(next)
    else !(next != [] && 49 <= next[0] <= 57) && (!n.zero ==> !StartsWith(next, 48))
  }

  predicate FractionEnds(f: Text, next: Text) {
    if f != [] then !StartsDigit(next) else !(StartsWith(next, 46) && StartsDigit(next[1..]))
  }

  predicate PowerEnds(p: Power, next: Text) {
    if p.NoPower? then !StartsWith(next, 101) && !StartsWith(next, 69)
    else !StartsDigit(next) && (p.sign.NoSign? && p.digits == [] ==> !StartsWith(next, 43) && !StartsWith(next, 45))
  }

  predicate Follows(n: Digits, rest: Text) {
    && WholeEnds(n, SpellFraction(n.fraction) + (SpellPower(n.power) + rest))
    && FractionEnds(n.fraction, SpellPower(n.power) + rest)
    && PowerEnds(n.power, rest)
  }

  /** Nothing that could be read as more of any number. */
  predicate Delimited(rest: Text) { rest != [] ==> !IsDigit(rest[0]) && rest[0] !in {43, 45, 46, 69, 101} }

  lemma DelimitedFollows(n: Digits, rest: Text)
    requires NumberForm(n) && Delimited(rest)
    ensures Follows(n, rest)
  {
    hide Fold;
    assert n.power.NoPower? ==> SpellPower(n.power) + rest == rest;
    assert n.fraction == [] ==> SpellFraction(n.fraction) + (SpellPower(n.power) + rest) == SpellPower(n.power) + rest;
  }

  lemma AllRead(n: nat, ds: Text, rest: Text)
    requires AllDigits(ds) && !StartsDigit(rest)
    ensures ReadDigits(n, ds + rest) == (Fold(n, ds), rest)
  {
    ReadAllDigits(n, ds, rest);
  }

  lemma WholeRead(n: Digits, next: Text)
    requires NumberForm(n) && WholeEnds(n, next)
    ensures WholePart(SpellWhole(n) + next) == (Fold(0, n.whole), next)
  {
    hide ReadDigits, Fold, NumberForm, AllDigits;
    var t := SpellWhole(n) + next;
    var u := n.whole + next;
    WholeHead(n);
    assert n.zero ==> t[1..] == u;
    assert !n.zero ==> t == u;
    if n.whole == [] {
      assert u == next;
      NothingFolded(0);
    } else {
      AllRead(0, n.whole, next);
      assert u[0] == n.whole[0];
    }
  }

  lemma WholeHead(n: Digits)
    requires NumberForm(n)
    ensures AllDigits(n.whole) && (n.whole != [] ==> 49 <= n.whole[0] <= 57)
  {
  }

  lemma NothingFolded(n: nat)
    ensures Fold(n, []) == n
  {
  }

  lemma FractionRead(n: nat, f: Text, next: Text)
    requires AllDigits(f) && FractionEnds(f, next)
    ensures FractionPart(n, SpellFraction(f) + next) == (Fold(n, f), -|f|, next)
  {
    hide ReadDigits, Fold;
    var t := SpellFraction(f) + next;
    if f == [] {
      assert t == next;
      NothingFolded(n);
    } else {
      assert t[1..] == f + next;
      AllRead(n, f, next);
    }
  }

  lemma PowerRead(p: Power, next: Text)
    requires PowerForm(p) && PowerEnds(p, next)
    ensures ExponentPart(SpellPower(p) + next) == (MeanPower(p), next)
  {
    hide ReadDigits, Fold, AllDigits;
    if p.NoPower? {
      assert SpellPower(p) + next == next;
    } else {
      AllRead(0, p.digits, next);
      if p.sign.NoSign? {
        UnsignedHead(p, next);
      }
      PowerCut(p, next);
    }
  }

  lemma UnsignedHead(p: Power, next: Text)
    requires p.Power? && AllDigits(p.digits) && PowerEnds(p, next) && p.sign.NoSign?
    ensures !StartsWith(p.digits + next, 43) && !StartsWith(p.digits + next, 45)
  {
    assert p.digits == [] ==> p.digits + next == next;
    assert p.digits != [] ==> (p.digits + next)[0] == p.digits[0];
  }

  lemma PowerCut(p: Power, next: Text)
    requires p.Power?
    ensures var t := SpellPower(p) + next;
            && StartsWith(t, p.letter) && t[1..] == SpellSign(p.sign) + (p.digits + next)
            && (p.sign.NoSign? ==> t[1..] == p.digits + next)
            && (!p.sign.NoSign? ==> |t| >= 2 && t[1..][1..] == p.digits + next)
  {
    TwoParts([p.letter], SpellSign(p.sign) + p.digits, next);
    TwoParts(SpellSign(p.sign), p.digits, next);
    DropFirst(p.letter, SpellSign(p.sign) + (p.digits + next));
    match p.sign {
      case NoSign => assert [] + (p.digits + next) == p.digits + next;
      case Plus => DropFirst(43, p.digits + next);
      case Minus => DropFirst(45, p.digits + next);
    }
  }

  lemma DropFirst(b: byte, t: Text)
    ensures ([b] + t)[1..] == t
  {
  }

  lemma TwoParts(a: Text, b: Text, rest: Text)
    ensures a + b + rest == a + (b + rest)
  {
  }

  lemma FiveParts(a: Text, b: Text, c: Text, d: Text, rest: Text)
    ensures a + (b + (c + d)) + rest == a + (b + (c + (d + rest)))
  {
  }

  lemma WholeDigit(n: Digits, next: Text)
    requires NumberForm(n) && !n.minus
    ensures StartsDigit(SpellWhole(n) + next)
  {
    hide Fold;
  }

  lemma NumberHead(n: Digits, rest: Text)
    requires NumberForm(n)
    ensures var t := SpellNumber(n) + rest; t != [] && (t[0] == 45 <==> n.minus) && (t[0] == 45 || IsDigit(t[0]))
    ensures SpellNumber(n) + rest ==
            (if n.minus then [45] else [])
            + (SpellWhole(n) + (SpellFraction(n.fraction) + (SpellPower(n.power) + rest)))
  {
    hide NumberForm, SpellWhole, SpellFraction, SpellPower;
    var a := SpellWhole(n) + (SpellFraction(n.fraction) + (SpellPower(n.power) + rest));
    FiveParts(if n.minus then [45] else [], SpellWhole(n), SpellFraction(n.fraction), SpellPower(n.power), rest);
    if !n.minus {
      WholeDigit(n, SpellFraction(n.fraction) + (SpellPower(n.power) + rest));
      assert [] + a == a;
    }
  }

  lemma NumberParts(n: Digits)
    requires NumberForm(n)
    ensures AllDigits(n.whole) && AllDigits(n.fraction) && PowerForm(n.power)
  {
  }

  /** A number is read to its end and keeps its exact decimal value. */
  lemma NumberRead(n: Digits, rest: Text)
    requires NumberForm(n) && Follows(n, rest)
    ensures ParseNumber(SpellNumber(n) + rest) == Ok(MeanNumber(n), rest)
  {
    hide NumberForm, AllDigits, PowerForm, WholeEnds, FractionEnds, PowerEnds;
    hide SpellWhole, SpellFraction, SpellPower, SpellNumber, WholePart, FractionPart, ExponentPart, Fold, MeanPower;
    NumberParts(n);
    var c := SpellPower(n.power) + rest;
    var b := SpellFraction(n.fraction) + c;
    var a := SpellWhole(n) + b;
    var t := SpellNumber(n) + rest;
    NumberHead(n, rest);
    assert n.minus ==> t[1..] == a;
    assert !n.minus ==> t == a;
    WholeRead(n, b);
    FractionRead(Fold(0, n.whole), n.fraction, c);
    PowerRead(n.power, rest);
  }

  // Values.

  datatype Form =
    | NullForm
    | FalseForm
    | TrueForm
    | NumForm(n: Digits)
    | StringForm(ps: seq<Piece>)
    | ArrayForm(gap: Text, slots: seq<Slot>)
    | ObjectForm(gap: Text, entries: seq<Entry>)

  /** An item with the white space around it. */
  datatype Slot = Slot(before: Text, value: Form, after: Text)

  /** A member with the white space before its name, before and behind its colon, and behind its value. */
  datatype Entry = Entry(before: Text, name: seq<Piece>, middle: Text, gap: Text, value: Form, after: Text)

  function SpellString(ps: seq<Piece>): Text { [34] + SpellPieces(ps) + [34] }

  function Spell(f: Form): Text
    decreases f, 0
  {
    match f
    case NullForm => [110, 117, 108, 108]
    case FalseForm => [102, 97, 108, 115, 101]
    case TrueForm => [116, 114, 117, 101]
    case NumForm(n) => SpellNumber(n)
    case StringForm(ps) => SpellString(ps)
    case ArrayForm(gap, slots) => [91] + if slots == [] then gap + [93] else SpellSlots(slots)
    case ObjectForm(gap, entries) => [123] + if entries == [] then gap + [125] else SpellEntries(entries)
  }

  /** One or more items, commas between them, and the closing bracket. */
  function SpellSlots(slots: seq<Slot>): Text
    requires slots != []
    decreases slots, 1
  {
    var later := if |slots| == 1 then [93] else [44] + SpellSlots(slots[1..]);
    slots[0].before + (Spell(slots[0].value) + (slots[0].after + later))
  }

  function SpellEntry(e: Entry): Text
    decreases e, 1
  {
    e.before + (SpellString(e.name) + (e.middle + ([58] + (e.gap + (Spell(e.value) + e.after)))))
  }

  function SpellEntries(entries: seq<Entry>): Text
    requires entries != []
    decreases entries, 1
  {
    SpellEntry(entries[0]) + if |entries| == 1 then [125] else [44] + SpellEntries(entries[1..])
  }

  predicate Good(f: Form)
    decreases f, 0
  {
    match f
    case NumForm(n) => NumberForm(n)
    case StringForm(ps) => Pieces(ps, [34])
    case ArrayForm(gap, slots) => Blank(gap) && GoodSlots(slots)
    case ObjectForm(gap, entries) => Blank(gap) && GoodEntries(entries)
    case _ => true
  }

  predicate GoodSlots(slots: seq<Slot>)
    decreases slots, 1
  {
    slots == [] || (Blank(slots[0].before) && Good(slots[0].value) && Blank(slots[0].after) && GoodSlots(slots[1..]))
  }

  predicate GoodEntry(e: Entry)
    decreases e, 1
  {
    && Blank(e.before) && Pieces(e.name, [34]) && Blank(e.middle) && Blank(e.gap) && Good(e.value) && Blank(e.after)
  }

  predicate GoodEntries(entries: seq<Entry>)
    decreases entries, 1
  {
    entries == [] || (GoodEntry(entries[0]) && GoodEntries(entries[1..]))
  }

  /** Every literal in the form is clean. */
  predicate CleanForm(f: Form)
    decreases f, 0
  {
    match f
    case StringForm(ps) => AllClean(ps)
    case ArrayForm(_, slots) => CleanSlots(slots)
    case ObjectForm(_, entries) => CleanEntries(entries)
    case _ => true
  }

  predicate CleanSlots(slots: seq<Slot>)
    decreases slots, 1
  {
    slots == [] || (CleanForm(slots[0].value) && CleanSlots(slots[1..]))
  }

  predicate CleanEntries(entries: seq<Entry>)
    decreases entries, 1
  {
    entries == [] || (AllClean(entries[0].name) && CleanForm(entries[0].value) && CleanEntries(entries[1..]))
  }

  function Mean(f: Form): Json
    requires Good(f)
    decreases f, 0
  {
    match f
    case NullForm => Null
    case FalseForm => False
    case TrueForm => True
    case NumForm(n) => MeanNumber(n)
    case StringForm(ps) => String(MeanPieces(ps))
    case ArrayForm(_, slots) => Array(MeanSlots(slots))
    case ObjectForm(_, entries) => Object(MeanEntries(entries))
  }

  function MeanSlots(slots: seq<Slot>): seq<Json>
    requires GoodSlots(slots)
    decreases slots, 1
  {
    if slots == [] then [] else [Mean(slots[0].value)] + MeanSlots(slots[1..])
  }

  function MeanEntry(e: Entry): Member
    requires GoodEntry(e)
    decreases e, 1
  {
    Member(MeanPieces(e.name), Mean(e.value))
  }

  function MeanEntries(entries: seq<Entry>): seq<Member>
    requires GoodEntries(entries)
    decreases entries, 1
  {
    if entries == [] then [] else [MeanEntry(entries[0])] + MeanEntries(entries[1..])
  }

  /** What is behind the value does not continue it; only a number can be continued. */
  predicate Bounded(f: Form, rest: Text) { f.NumForm? ==> Follows(f.n, rest) }

  lemma DelimitedBounds(f: Form, rest: Text)
    requires Good(f) && Delimited(rest)
    ensures Bounded(f, rest)
  {
    if f.NumForm? {
      DelimitedFollows(f.n, rest);
    }
  }
}
