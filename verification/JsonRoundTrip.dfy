/** Parsing what the printer prints gives the tree back and consumes the whole text. */
module JsonRoundTrip {
  import opened Bytes
  import opened JsonText
  import opened JsonString
  import opened JsonParse
  import opened JsonSteps
  import opened JsonGrammar
  import opened JsonSpelled
  import opened JsonShortest
  import opened JsonConforms

  lemma DigitsArePlain(h: Text)
    requires FourDigits(h)
    ensures FourPlain(h)
  {
    assert Nibble(h[0]) >= 0 && Nibble(h[1]) >= 0 && Nibble(h[2]) >= 0 && Nibble(h[3]) >= 0;
  }

  lemma StandardIsClean(ps: seq<Piece>)
    requires StandardPieces(ps)
    ensures AllClean(ps)
  {
    forall i | 0 <= i < |ps|
      ensures Clean(ps[i])
    {
      var p := ps[i];
      if p.Unit? || p.Pair? {
        DigitsArePlain(p.h);
      }
      if p.Pair? {
        DigitsArePlain(p.l);
      }
    }
  }

  /** No standard text has an escape that is cut short. */
  lemma {:induction false} CleanText(f: Form)
    requires Standard(f)
    ensures CleanForm(f)
    decreases f, 0
  {
    hide StandardPieces, AllClean;
    match f {
      case StringForm(ps) => StandardIsClean(ps);
      case ArrayForm(_, slots) => CleanItems(slots);
      case ObjectForm(_, entries) => CleanMembers(entries);
      case _ =>
    }
  }

  lemma {:induction false} CleanItems(slots: seq<Slot>)
    requires StandardSlots(slots)
    ensures CleanSlots(slots)
    decreases slots, 1
  {
    if slots != [] {
      CleanText(slots[0].value);
      CleanItems(slots[1..]);
    }
  }

  lemma {:induction false} CleanMembers(entries: seq<Entry>)
    requires StandardEntries(entries)
    ensures CleanEntries(entries)
    decreases entries, 1
  {
    hide StandardPieces, AllClean;
    if entries != [] {
      StandardIsClean(entries[0].name);
      CleanText(entries[0].value);
      CleanMembers(entries[1..]);
    }
  }

  /** A literal of any C string. */
  lemma LiteralRoundTrip(s: Text, rest: Text)
    requires NulFree(s)
    ensures ParseString(Quoted(s) + rest) == Ok(s, rest)
  {
    hide ParseString, Quoted, SpellString, Pieces, MeanPieces, StandardPieces, AllClean;
    StringWritten(s);
    StandardIsClean(PiecesFor(s));
    StringRead(PiecesFor(s), rest);
  }

  /** What may follow a printed number without being taken for part of it. */
  predicate Ends(rest: Text) { rest != [] ==> !IsDigit(rest[0]) && rest[0] !in {46, 101, 69} }

  lemma EndsBounds(m: int, rest: Text)
    requires Ends(rest)
    ensures Follows(DigitsFor(m), rest)
  {
    hide Decimal;
    assert SpellPower(NoPower) + rest == rest;
    assert SpellFraction([]) + rest == rest;
  }

  /** A printed tree in any context, at any depth, in either format. */
  lemma ValueRoundTrip(v: Json, depth: int, fmt: bool, rest: Text)
    requires Printable(v) && Ends(rest)
    ensures ParseValue(Print(v, depth, fmt) + rest) == Ok(v, rest)
  {
    hide ParseValue, Print, Good, Standard, CleanForm, Mean, Spell, Printable, Ends, Follows, DigitsFor;
    var f := FormFor(v, depth, fmt);
    TextWritten(v, depth, fmt);
    CleanText(f);
    if v.Number? {
      EndsBounds(v.mantissa, rest);
    }
    ValueRead(f, rest);
  }

  lemma NumberRoundTrip(n: int, rest: Text)
    requires Ends(rest)
    ensures ParseValue(Integer(n) + rest) == Ok(Number(n, 0), rest)
  {
    hide ParseValue, ParseNumber, Integer, NumberForm, MeanNumber, SpellNumber, Follows, DigitsFor, Ends;
    NumberWritten(n);
    EndsBounds(n, rest);
    NumberRead(DigitsFor(n), rest);
    NumberHead(DigitsFor(n), rest);
    ValueIsNumber(Integer(n) + rest);
  }

  /** Every tree of null, booleans, 32-bit integers, C strings, arrays and objects comes back, from the
      formatted and from the unformatted text, and nothing is left over. */
  lemma RoundTrip(v: Json, fmt: bool, strict: bool)
    requires Printable(v)
    ensures ParseText(Print(v, 0, fmt), strict) == Ok(v, [])
  {
    hide ParseText, Print, Good, Standard, CleanForm, Mean, Spell, Printable, Follows, DigitsFor;
    var f := FormFor(v, 0, fmt);
    TextWritten(v, 0, fmt);
    CleanText(f);
    if v.Number? {
      EndsBounds(v.mantissa, []);
    }
    DocumentRead([], f, []);
    assert [] + (Spell(f) + []) == Spell(f);
  }
}
