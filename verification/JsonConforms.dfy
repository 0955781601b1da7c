/** What the printer writes is a standard text of the tree, formatted or not. */
module JsonConforms {
  import opened Bytes
  import opened JsonText
  import opened JsonString
  import opened JsonParse
  import opened JsonSteps
  import opened JsonGrammar
  import opened JsonSpelled
  import opened JsonShortest

  // Strings.

  function PieceOf(b: byte): Piece {
    if !NeedsEscape(b) then Raw(b)
    else if |EscapeByte(b)| == 2 then Short(EscapeByte(b)[1])
    else Unit(EscapeByte(b)[2..])
  }

  function PiecesFor(s: Text): seq<Piece> { if s == [] then [] else [PieceOf(s[0])] + PiecesFor(s[1..]) }

  lemma PieceWritten(b: byte, next: Text)
    requires b != 0
    ensures var p := PieceOf(b);
            SpellPiece(p) == EscapeByte(b) && MeanPiece(p) == [b] && StandardPiece(p) && FitsPiece(p, next)
  {
    if NeedsEscape(b) && |EscapeByte(b)| != 2 {
      var h := EscapeByte(b)[2..];
      assert h == [48, 48, HexDigit(b / 16), HexDigit(b % 16)];
      assert UnitValue(h) == b;
      Utf8Shape(b);
    }
  }

  lemma {:induction false} StringWritten(s: Text)
    requires NulFree(s)
    ensures var ps := PiecesFor(s);
            Pieces(ps, [34]) && MeanPieces(ps) == s && StandardPieces(ps) && SpellString(ps) == Quoted(s)
  {
    hide SpellPiece, MeanPiece, FitsPiece, EscapeByte, PieceOf, StandardPiece;
    if s != [] {
      var more := PiecesFor(s[1..]);
      StringWritten(s[1..]);
      SpelledEscape(s[1..]);
      PieceWritten(s[0], SpellPieces(more) + [34]);
      var ps := [PieceOf(s[0])] + more;
      assert ps[1..] == more;
      assert [s[0]] + s[1..] == s;
      SpelledEscape(s);
    }
  }

  lemma {:induction false} SpelledEscape(s: Text)
    requires NulFree(s)
    ensures SpellPieces(PiecesFor(s)) == Escape(s)
  {
    hide SpellPiece, EscapeByte, PieceOf, FitsPiece, MeanPiece, StandardPiece;
    if s != [] {
      SpelledEscape(s[1..]);
      PieceWritten(s[0], []);
      var ps := [PieceOf(s[0])] + PiecesFor(s[1..]);
      assert ps[1..] == PiecesFor(s[1..]);
    }
  }

  // Numbers.

  function DigitsFor(m: int): Digits {
    Digits(m < 0, m == 0, if m == 0 then [] else Decimal(if m < 0 then -m else m), [], NoPower)
  }

  lemma NumberWritten(m: int)
    ensures var n := DigitsFor(m); NumberForm(n) && MeanNumber(n) == Number(m, 0) && SpellNumber(n) == Integer(m)
  {
    hide Decimal, Fold;
    var k := if m < 0 then -m else m;
    var n := DigitsFor(m);
    FoldDecimal(k);
    NothingFolded(0);
    NothingFolded(k);
    assert Decimal(0) == [48] by {
      ZeroText();
    }
    assert SpellFraction([]) + SpellPower(NoPower) == [];
    assert SpellWhole(n) + [] == Decimal(k);
  }

  lemma ZeroText()
    ensures Decimal(0) == [48]
  {
  }

  // Trees.

  function FormFor(v: Json, depth: int, fmt: bool): Form
    decreases v, 0
  {
    match v
    case Null => NullForm
    case False => FalseForm
    case True => TrueForm
    case Number(m, _) => NumForm(DigitsFor(m))
    case Double(_) => NullForm
    case String(s) => StringForm(PiecesFor(s))
    case Array(items) => ArrayForm([], SlotsFor(items, depth + 1, fmt, true))
    case Object(ms) => ObjectForm(When(fmt, [NEWLINE] + Tabs(depth - 1)), EntriesFor(ms, depth, fmt))
  }

  function SlotsFor(items: seq<Json>, depth: int, fmt: bool, first: bool): (slots: seq<Slot>)
    ensures |slots| == |items|
    decreases items, 1
  {
    if items == [] then []
    else [Slot(When(fmt && !first, [SPACE]), FormFor(items[0], depth, fmt), [])]
         + SlotsFor(items[1..], depth, fmt, false)
  }

  function EntriesFor(ms: seq<Member>, depth: int, fmt: bool): (entries: seq<Entry>)
    ensures |entries| == |ms|
    decreases ms, 1
  {
    if ms == [] then []
    else [Entry(When(fmt, [NEWLINE] + Tabs(depth + 1)), PiecesFor(ms[0].name), [], When(fmt, [TAB]),
                FormFor(ms[0].value, depth + 1, fmt),
                if |ms| == 1 then When(fmt, [NEWLINE] + Tabs(depth)) else [])]
         + EntriesFor(ms[1..], depth, fmt)
  }

  /** The printed text, in either format and at any depth, is a standard spelling of the tree. */
  lemma {:induction false} TextWritten(v: Json, depth: int, fmt: bool)
    requires Printable(v)
    ensures var f := FormFor(v, depth, fmt);
            Good(f) && Standard(f) && Mean(f) == v && Spell(f) == Print(v, depth, fmt)
    decreases v, 0
  {
    hide NumberForm, Pieces, MeanPieces, SpellString, StandardPieces, MeanNumber, SpellNumber, Quoted, Integer;
    hide PrintItems, PrintMembers, SpellSlots, SpellEntries, Tabs, DigitsFor, PiecesFor;
    match v {
      case Number(m, _) => NumberWritten(m);
      case String(s) => StringWritten(s);
      case Array(items) =>
        SlotsWritten(items, depth + 1, fmt, true);
        NothingPrinted(depth + 1, fmt);
        TwoParts([91], PrintItems(items, depth + 1, fmt), [93]);
        assert [] + (PrintItems(items, depth + 1, fmt) + [93]) == PrintItems(items, depth + 1, fmt) + [93];
      case Object(ms) => ObjectWritten(ms, depth, fmt);
      case _ =>
    }
  }

  lemma NothingPrinted(depth: int, fmt: bool)
    ensures PrintItems([], depth, fmt) == [] && PrintMembers([], depth, fmt) == []
  {
  }

  lemma MoreItems(b: Text, v: Text, comma: Text, blank: Text, more: Text, close: Text)
    ensures b + (v + ([] + (comma + (blank + (more + close))))) == b + (v + (comma + blank) + more + close)
  {
  }

  lemma {:induction false} SlotsWritten(items: seq<Json>, depth: int, fmt: bool, first: bool)
    requires AllPrintable(items)
    ensures var slots := SlotsFor(items, depth, fmt, first);
            && GoodSlots(slots) && StandardSlots(slots) && MeanSlots(slots) == items
            && (items != [] ==>
                SpellSlots(slots) == When(fmt && !first, [SPACE]) + (PrintItems(items, depth, fmt) + [93]))
    decreases items, 1
  {
    hide Good, Standard, Mean, Spell, Print, FormFor, Printable;
    if items != [] {
      FirstAndRest(items);
      TextWritten(items[0], depth, fmt);
      SlotsWritten(items[1..], depth, fmt, false);
      var more := SlotsFor(items[1..], depth, fmt, false);
      var b := When(fmt && !first, [SPACE]);
      var s := Slot(b, FormFor(items[0], depth, fmt), []);
      var slots := [s] + more;
      assert slots[1..] == more && [items[0]] + items[1..] == items;
      if |items| == 1 {
        assert Print(items[0], depth, fmt) + ([] + [93]) == Print(items[0], depth, fmt) + [93];
      } else {
        MoreItems(b, Print(items[0], depth, fmt), [44], When(fmt, [SPACE]), PrintItems(items[1..], depth, fmt), [93]);
      }
    }
  }

  lemma {:induction false} ObjectWritten(ms: seq<Member>, depth: int, fmt: bool)
    requires AllMembersPrintable(ms)
    ensures var f := FormFor(Object(ms), depth, fmt);
            Good(f) && Standard(f) && Mean(f) == Object(ms) && Spell(f) == Print(Object(ms), depth, fmt)
    decreases ms, 3
  {
    hide PrintMembers, SpellEntries, GoodEntries, StandardEntries, MeanEntries;
    LayoutBlank(fmt, depth - 1);
    if ms == [] {
      NoSlots();
      NoEntries();
      assert [123] + (When(fmt, [NEWLINE] + Tabs(depth - 1)) + [125])
          == Opening(fmt) + When(fmt, Tabs(depth - 1)) + [CLOSE_OBJECT];
    } else {
      EntriesWritten(ms, depth, fmt);
      var p := PrintMembers(ms, depth + 1, fmt);
      assert [123] + (When(fmt, [NEWLINE]) + (p + (When(fmt, Tabs(depth)) + [125])))
          == Opening(fmt) + p + When(fmt, Tabs(depth)) + [CLOSE_OBJECT];
    }
  }

  lemma NoEntries()
    ensures StandardEntries([])
  {
  }

  lemma LayoutBlank(fmt: bool, n: int)
    ensures Blank(When(fmt, [NEWLINE] + Tabs(n))) && Blank(When(fmt, [TAB])) && Blank([])
  {
  }

  lemma LastMember(nl: Text, tabs: Text, q: Text, gap: Text, v: Text, outer: Text, close: Text)
    ensures nl + tabs + (q + ([] + ([58] + (gap + (v + (nl + outer)))))) + close
         == nl + (tabs + q + ([58] + gap) + v + ([] + nl) + [] + (outer + close))
  {
  }

  lemma MoreMembers(nl: Text, tabs: Text, q: Text, gap: Text, v: Text, more: Text, close: Text)
    ensures nl + tabs + (q + ([] + ([58] + (gap + (v + []))))) + ([44] + (nl + (more + close)))
         == nl + (tabs + q + ([58] + gap) + v + ([44] + nl) + more + close)
  {
  }

  lemma EntryWritten(e: Entry, m: Member, depth: int, fmt: bool)
    requires NulFree(m.name) && e.name == PiecesFor(m.name) && Blank(e.before) && Blank(e.after)
    requires e.middle == [] && e.gap == When(fmt, [TAB])
    requires Good(e.value) && Mean(e.value) == m.value && Spell(e.value) == Print(m.value, depth, fmt)
    ensures GoodEntry(e) && MeanEntry(e) == m && StandardPieces(e.name)
    ensures SpellEntry(e) ==
            e.before + (Quoted(m.name) + ([] + ([58] + (e.gap + (Print(m.value, depth, fmt) + e.after)))))
  {
    hide Good, Mean, Spell, Print, Pieces, MeanPieces, SpellString, Quoted, PiecesFor, StandardPieces;
    StringWritten(m.name);
    LayoutBlank(fmt, 0);
  }

  lemma {:induction false} EntriesWritten(ms: seq<Member>, depth: int, fmt: bool)
    requires ms != [] && AllMembersPrintable(ms)
    ensures var entries := EntriesFor(ms, depth, fmt);
            && GoodEntries(entries) && StandardEntries(entries) && MeanEntries(entries) == ms
            && SpellEntries(entries) ==
               When(fmt, [NEWLINE]) + (PrintMembers(ms, depth + 1, fmt) + (When(fmt, Tabs(depth)) + [125]))
    decreases ms, 2
  {
    hide Good, Standard, Mean, Spell, Print, FormFor, Printable, GoodEntry, MeanEntry, SpellEntry, StandardPieces;
    hide Quoted, Tabs, Blank, PiecesFor, NulFree;
    FirstAndRestMembers(ms);
    var m := ms[0];
    TextWritten(m.value, depth + 1, fmt);
    LayoutBlank(fmt, depth + 1);
    LayoutBlank(fmt, depth);
    var nl, tabs := When(fmt, [NEWLINE]), When(fmt, Tabs(depth + 1));
    var gap, text := When(fmt, [TAB]), Print(m.value, depth + 1, fmt);
    var outer := When(fmt, Tabs(depth));
    var entries := EntriesFor(ms, depth, fmt);
    var e, more := entries[0], EntriesFor(ms[1..], depth, fmt);
    EntryWritten(e, m, depth + 1, fmt);
    assert entries[1..] == more && [m] + ms[1..] == ms;
    assert e.before == nl + tabs;
    if |ms| == 1 {
      NoSlots();
      NoEntries();
      NothingPrinted(depth + 1, fmt);
      assert e.after == nl + outer;
      LastMember(nl, tabs, Quoted(m.name), gap, text, outer, [125]);
    } else {
      EntriesWritten(ms[1..], depth, fmt);
      MoreMembers(nl, tabs, Quoted(m.name), gap, text, PrintMembers(ms[1..], depth + 1, fmt), outer + [125]);
    }
  }

  /** The printed text of a tree is among its standard texts, and the unformatted one is the shortest of them. */
  lemma ShortestOfAll(v: Json, depth: int, f: Form)
    requires Printable(v) && Good(f) && Standard(f) && Mean(f) == v
    ensures var p := FormFor(v, depth, false);
            && Good(p) && Standard(p) && Mean(p) == v && Spell(p) == Print(v, depth, false)
            && |Spell(p)| <= |Spell(f)|
  {
    hide Print, Good, Standard, Mean, Spell, FormFor, Printable;
    TextWritten(v, depth, false);
    TextShortest(f, depth);
  }
}
