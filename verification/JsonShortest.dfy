/** The unformatted text of a tree is the shortest of all standard texts that spell it. */
module JsonShortest {
  import opened Bytes
  import opened JsonText
  import opened JsonString
  import opened JsonParse
  import opened JsonSteps
  import opened JsonGrammar

  // Section 7 of RFC 8259: control characters are escaped, and a backslash is followed by one of nine letters.

  predicate StandardPiece(p: Piece) {
    match p
    case Raw(b) => b >= 32 && b != 34 && b != 92
    case Short(c) => c in {34, 92, 47, 98, 102, 110, 114, 116}
    case Unit(h) => FourDigits(h)
    case Pair(h, l) => FourDigits(h) && FourDigits(l)
  }

  predicate StandardPieces(ps: seq<Piece>) { forall i :: 0 <= i < |ps| ==> StandardPiece(ps[i]) }

  predicate Standard(f: Form)
    decreases f, 0
  {
    match f
    case StringForm(ps) => StandardPieces(ps)
    case ArrayForm(_, slots) => StandardSlots(slots)
    case ObjectForm(_, entries) => StandardEntries(entries)
    case _ => true
  }

  predicate StandardSlots(slots: seq<Slot>)
    decreases slots, 1
  {
    slots == [] || (Standard(slots[0].value) && StandardSlots(slots[1..]))
  }

  predicate StandardEntries(entries: seq<Entry>)
    decreases entries, 1
  {
    entries == []
    || (StandardPieces(entries[0].name) && Standard(entries[0].value) && StandardEntries(entries[1..]))
  }

  // Strings.

  lemma {:induction false} EscapeConcat(a: Text, b: Text)
    ensures Escape(a + b) == Escape(a) + Escape(b)
  {
    if a == [] {
      assert a + b == b;
    } else {
      assert (a + b)[1..] == a[1..] + b;
      EscapeConcat(a[1..], b);
      TwoParts(EscapeByte(a[0]), Escape(a[1..]), Escape(b));
    }
  }

  lemma {:induction false} HighBytesKept(t: Text)
    requires forall i :: 0 <= i < |t| ==> t[i] >= 0x80
    ensures Escape(t) == t
  {
    if t != [] {
      HighBytesKept(t[1..]);
    }
  }

  lemma OneByte(b: byte)
    ensures Escape([b]) == EscapeByte(b)
  {
    assert [b][1..] == [];
    assert Escape([]) == [];
  }

  lemma Utf8Escaped(c: nat)
    requires c < 0x11_0000
    ensures |Escape(Utf8(c))| <= 6
  {
    Utf8Shape(c);
    if c < 0x80 {
      OneByte(c);
    } else {
      HighBytesKept(Utf8(c));
    }
  }

  lemma NothingEscaped()
    ensures Escape([]) == []
  {
  }

  lemma PieceShortest(p: Piece)
    requires StandardPiece(p)
    ensures |Escape(MeanPiece(p))| <= |SpellPiece(p)|
  {
    hide Escape, Utf8, UnitValue;
    NothingEscaped();
    match p {
      case Raw(b) => OneByte(b);
      case Short(c) => OneByte(StandsFor(c));
      case Unit(h) => Utf8Escaped(UnitValue(h));
      case Pair(h, l) =>
        var u, v := UnitValue(h), UnitValue(l);
        if 0xD800 <= u < 0xDC00 && 0xDC00 <= v < 0xE000 {
          Utf8Escaped(0x1_0000 + (u - 0xD800) * 0x400 + (v - 0xDC00));
        }
    }
  }

  lemma {:induction false} PiecesShortest(ps: seq<Piece>)
    requires StandardPieces(ps)
    ensures |Escape(MeanPieces(ps))| <= |SpellPieces(ps)|
  {
    hide StandardPiece, MeanPiece, SpellPiece, Escape;
    if ps == [] {
      NothingEscaped();
    } else {
      PieceShortest(ps[0]);
      PiecesShortest(ps[1..]);
      EscapeConcat(MeanPiece(ps[0]), MeanPieces(ps[1..]));
    }
  }

  // Numbers.

  lemma {:induction false} DecimalGrows(n: nat, d: nat)
    requires d < 10
    ensures |Decimal(n * 10 + d)| <= |Decimal(n)| + 1
    ensures n == 0 ==> |Decimal(n * 10 + d)| == 1
  {
    assert n > 0 ==> (n * 10 + d) / 10 == n;
  }

  lemma {:induction false} FoldedShortest(n: nat, ds: Text)
    requires AllDigits(ds)
    ensures |Decimal(Fold(n, ds))| <= |Decimal(n)| + |ds|
    ensures n == 0 && ds != [] ==> |Decimal(Fold(n, ds))| <= |ds|
    decreases |ds|
  {
    hide Decimal;
    if ds != [] {
      var k := |ds| - 1;
      FoldedShortest(n, ds[..k]);
      DecimalGrows(Fold(n, ds[..k]), (ds[k] - 48) as nat);
      assert k == 0 ==> ds[..k] == [];
      assert k == 0 ==> Fold(n, ds[..k]) == n;
    }
  }

  lemma MantissaShortest(whole: Text, fraction: Text)
    requires AllDigits(whole) && AllDigits(fraction)
    ensures var m := Fold(Fold(0, whole), fraction);
            |Decimal(m)| <= |whole| + |fraction| || (whole == [] && fraction == [] && m == 0)
  {
    hide Decimal;
    if whole != [] {
      FoldedShortest(0, whole);
      FoldedShortest(Fold(0, whole), fraction);
    } else if fraction != [] {
      FoldedShortest(0, fraction);
    }
  }

  lemma NumberShortest(n: Digits)
    requires NumberForm(n)
    ensures |Print(MeanNumber(n), 0, false)| <= |SpellNumber(n)|
  {
    hide Fold, MeanPower, AllDigits, PowerForm, SpellPower;
    MantissaShortest(n.whole, n.fraction);
    assert |Decimal(0)| == 1;
    assert |SpellNumber(n)| >= (if n.minus then 1 else 0) + (if n.zero then 1 else 0) + |n.whole| + |n.fraction|;
  }

  // Trees.

  /** No standard text of a value is shorter than its unformatted text. */
  lemma {:induction false} TextShortest(f: Form, depth: int)
    requires Good(f) && Standard(f)
    ensures |Print(Mean(f), depth, false)| <= |Spell(f)|
    decreases f, 0
  {
    hide NumberForm, Pieces, MeanPieces, SpellPieces, StandardPieces, MeanNumber, SpellNumber, Escape, PrintItems;
    hide PrintMembers, SpellSlots, SpellEntries, Tabs;
    match f {
      case NumForm(n) => NumberShortest(n); NumberAnyDepth(n, depth);
      case StringForm(ps) => PiecesShortest(ps);
      case ArrayForm(gap, slots) => SlotsShortest(slots, depth + 1);
      case ObjectForm(gap, entries) => EntriesShortest(entries, depth + 1);
      case _ =>
    }
  }

  lemma NumberAnyDepth(n: Digits, depth: int)
    requires NumberForm(n)
    ensures Print(MeanNumber(n), depth, false) == Print(MeanNumber(n), 0, false)
  {
  }

  lemma {:induction false} SlotsShortest(slots: seq<Slot>, depth: int)
    requires GoodSlots(slots) && StandardSlots(slots)
    ensures slots == [] ==> PrintItems(MeanSlots(slots), depth, false) == []
    ensures slots != [] ==> |PrintItems(MeanSlots(slots), depth, false)| < |SpellSlots(slots)|
    decreases slots, 1
  {
    hide Good, Standard, Mean, Spell, Print;
    if slots != [] {
      TextShortest(slots[0].value, depth);
      SlotsShortest(slots[1..], depth);
      var items := MeanSlots(slots);
      assert items[0] == Mean(slots[0].value) && items[1..] == MeanSlots(slots[1..]);
    }
  }

  lemma {:induction false} EntriesShortest(entries: seq<Entry>, depth: int)
    requires GoodEntries(entries) && StandardEntries(entries)
    ensures entries == [] ==> MeanEntries(entries) == []
    ensures entries != [] ==> |PrintMembers(MeanEntries(entries), depth, false)| < |SpellEntries(entries)|
    decreases entries, 1
  {
    hide Good, Standard, Mean, Spell, Print, StandardPieces, Tabs, Escape, SpellPieces, Pieces, MeanPieces;
    if entries != [] {
      var e := entries[0];
      TextShortest(e.value, depth);
      PiecesShortest(e.name);
      EntriesShortest(entries[1..], depth);
      var ms := MeanEntries(entries);
      assert ms[0] == MeanEntry(e) && ms[1..] == MeanEntries(entries[1..]);
      assert |entries| == 1 ==> PrintMembers(ms[1..], depth, false) == [];
    }
  }
}
