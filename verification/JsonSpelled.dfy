/** Every text that spells a value by the grammar is read as that value and used up. */
module JsonSpelled {
  import opened Bytes
  import opened JsonText
  import opened JsonString
  import opened JsonParse
  import opened JsonSteps
  import opened JsonGrammar

  // One step of each reading function, with white space wherever it may stand.

  lemma SkipTo(ws: Text, t: Text)
    requires Blank(ws) && t != [] && t[0] > 32
    ensures Skip(ws + t) == t
  {
    SkipBlank(ws, t);
  }

  lemma ItemsStep(t: Text, v: Json, rest: Text)
    requires ParseValue(Skip(t)) == Ok(v, rest)
    ensures var u := Skip(rest);
            && (StartsWith(u, COMMA) ==> ParseItems(t) == Prepend(v, ParseItems(u[1..])))
            && (StartsWith(u, CLOSE_ARRAY) ==> ParseItems(t) == Ok([v], u[1..]))
  {
    hide ParseValue, Skip;
  }

  lemma MembersStep(t: Text, m: Member, rest: Text)
    requires ParseMember(t) == Ok(m, rest)
    ensures var u := Skip(rest);
            && (StartsWith(u, COMMA) ==> ParseMembers(t) == Prepend(m, ParseMembers(u[1..])))
            && (StartsWith(u, CLOSE_OBJECT) ==> ParseMembers(t) == Ok([m], u[1..]))
  {
    hide ParseMember, Skip;
  }

  lemma OneMember(t: Text, name: Text, rest: Text, v: Json, after: Text)
    requires ParseString(Skip(t)) == Ok(name, rest) && StartsWith(Skip(rest), COLON)
    requires ParseValue(Skip(Skip(rest)[1..])) == Ok(v, after)
    ensures ParseMember(t) == Ok(Member(name, v), after)
  {
    hide ParseValue, ParseString, Skip;
  }

  lemma StringRead(ps: seq<Piece>, rest: Text)
    requires Pieces(ps, [34]) && AllClean(ps)
    ensures var t := SpellString(ps) + rest;
            StartsWith(t, QUOTE) && ParseString(t) == Ok(MeanPieces(ps), rest)
  {
    hide Unescape, Defined, Pieces, AllClean, MeanPieces, SpellPieces, Safe;
    var t := SpellString(ps) + rest;
    assert t[1..] == SpellPieces(ps) + [34] + rest;
    PiecesRead(ps, rest);
    SafeIsDefined(t[1..]);
  }

  /** No value starts with white space, a separator or a closing bracket. */
  lemma FormHead(f: Form, t: Text)
    requires Good(f)
    ensures Spell(f) + t != [] && ValueHead((Spell(f) + t)[0])
  {
    hide SpellNumber, SpellPieces, SpellSlots, SpellEntries, NumberForm, Pieces, GoodSlots, GoodEntries;
    if f.NumForm? {
      NumberHead(f.n, t);
    }
  }

  /** What is behind a value inside an array or object: white space, then a separator or a closing bracket. */
  lemma BlankThenDelimits(ws: Text, t: Text)
    requires Blank(ws) && t != [] && t[0] in {COMMA, CLOSE_ARRAY, CLOSE_OBJECT}
    ensures Delimited(ws + t)
  {
    assert ws == [] ==> ws + t == t;
  }

  // Whole values.

  lemma {:induction false} ValueRead(f: Form, rest: Text)
    requires Good(f) && CleanForm(f) && Bounded(f, rest)
    ensures ParseValue(Spell(f) + rest) == Ok(Mean(f), rest)
    decreases f, 0
  {
    hide ParseValue, ParseString, ParseNumber, SpellNumber, SpellString, SpellSlots, SpellEntries, NumberForm, Pieces;
    hide AllClean, MeanPieces, MeanNumber, Follows;
    match f {
      case NullForm => KeywordRead(rest);
      case FalseForm => KeywordRead(rest);
      case TrueForm => KeywordRead(rest);
      case NumForm(n) =>
        NumberRead(n, rest);
        NumberHead(n, rest);
        ValueIsNumber(SpellNumber(n) + rest);
      case StringForm(ps) =>
        StringRead(ps, rest);
        ValueIsString(SpellString(ps) + rest, MeanPieces(ps), rest);
      case ArrayForm(gap, slots) => ArrayRead(gap, slots, rest);
      case ObjectForm(gap, entries) => ObjectRead(gap, entries, rest);
    }
  }

  lemma {:induction false} ArrayRead(gap: Text, slots: seq<Slot>, rest: Text)
    requires Blank(gap) && GoodSlots(slots) && CleanSlots(slots)
    ensures ParseValue(Spell(ArrayForm(gap, slots)) + rest) == Ok(Array(MeanSlots(slots)), rest)
    decreases slots, 3
  {
    hide ParseValue, SpellSlots, GoodSlots, CleanSlots, MeanSlots;
    if slots == [] {
      EmptyArrayRead(gap, rest);
      NoSlots();
    } else {
      var body := SpellSlots(slots) + rest;
      assert Spell(ArrayForm(gap, slots)) + rest == [OPEN_ARRAY] + body;
      ValueIsArray(body);
      SlotsRead(slots, rest);
      SlotsHead(slots, rest);
    }
  }

  lemma EmptyArrayRead(gap: Text, rest: Text)
    requires Blank(gap)
    ensures ParseValue(Spell(ArrayForm(gap, [])) + rest) == Ok(Array([]), rest)
  {
    hide ParseValue;
    var close := [93] + rest;
    assert Spell(ArrayForm(gap, [])) + rest == [OPEN_ARRAY] + (gap + close);
    ValueIsArray(gap + close);
    SkipTo(gap, close);
    assert close[1..] == rest;
  }

  lemma NoSlots()
    ensures GoodSlots([]) && MeanSlots([]) == [] && GoodEntries([]) && MeanEntries([]) == []
  {
  }

  function AfterSlot(slots: seq<Slot>): Text
    requires slots != []
  {
    if |slots| == 1 then [93] else [44] + SpellSlots(slots[1..])
  }

  lemma SlotsCut(slots: seq<Slot>, rest: Text)
    requires slots != []
    ensures SpellSlots(slots) + rest ==
            slots[0].before + (Spell(slots[0].value) + (slots[0].after + (AfterSlot(slots) + rest)))
  {
    hide Spell;
    var s := slots[0];
    assert SpellSlots(slots) == s.before + (Spell(s.value) + (s.after + AfterSlot(slots)));
    FiveParts(s.before, Spell(s.value), s.after, AfterSlot(slots), rest);
  }

  /** The first item, as far as the white space in front of it goes. */
  lemma SlotsHead(slots: seq<Slot>, rest: Text)
    requires slots != [] && GoodSlots(slots)
    ensures var t := SpellSlots(slots) + rest;
            && ParseItems(Skip(t)) == ParseItems(t) && !StartsWith(Skip(t), CLOSE_ARRAY)
            && Skip(t) == Spell(slots[0].value) + (slots[0].after + (AfterSlot(slots) + rest))
  {
    hide ParseValue, Spell, SpellSlots, Good;
    var t := SpellSlots(slots) + rest;
    var u := Spell(slots[0].value) + (slots[0].after + (AfterSlot(slots) + rest));
    SlotsCut(slots, rest);
    FormHead(slots[0].value, slots[0].after + (AfterSlot(slots) + rest));
    SkipTo(slots[0].before, u);
    SkipTwice(t);
  }

  lemma AfterSlotHead(slots: seq<Slot>, rest: Text)
    requires slots != []
    ensures var tail := AfterSlot(slots) + rest;
            if |slots| == 1 then tail == [CLOSE_ARRAY] + rest else tail == [COMMA] + (SpellSlots(slots[1..]) + rest)
  {
    hide SpellSlots;
    if |slots| > 1 {
      TwoParts([44], SpellSlots(slots[1..]), rest);
    }
  }

  lemma {:induction false} SlotsRead(slots: seq<Slot>, rest: Text)
    requires slots != [] && GoodSlots(slots) && CleanSlots(slots)
    ensures ParseItems(SpellSlots(slots) + rest) == Ok(MeanSlots(slots), rest)
    decreases slots, 2
  {
    hide ParseValue, ParseItems, Spell, SpellSlots, Good, CleanForm, Bounded, Delimited, Mean;
    var t, s := SpellSlots(slots) + rest, slots[0];
    var tail := AfterSlot(slots) + rest;
    SlotsHead(slots, rest);
    AfterSlotHead(slots, rest);
    BlankThenDelimits(s.after, tail);
    DelimitedBounds(s.value, s.after + tail);
    ValueRead(s.value, s.after + tail);
    SkipTo(s.after, tail);
    ItemsStep(t, Mean(s.value), s.after + tail);
    if |slots| == 1 {
      assert tail[1..] == rest;
      NoSlots();
      assert MeanSlots(slots) == [Mean(s.value)];
    } else {
      assert tail[1..] == SpellSlots(slots[1..]) + rest;
      SlotsRead(slots[1..], rest);
    }
  }

  lemma {:induction false} ObjectRead(gap: Text, entries: seq<Entry>, rest: Text)
    requires Blank(gap) && GoodEntries(entries) && CleanEntries(entries)
    ensures ParseValue(Spell(ObjectForm(gap, entries)) + rest) == Ok(Object(MeanEntries(entries)), rest)
    decreases entries, 3
  {
    hide ParseValue, SpellEntries, GoodEntries, CleanEntries, MeanEntries;
    if entries == [] {
      EmptyObjectRead(gap, rest);
      NoSlots();
    } else {
      var body := SpellEntries(entries) + rest;
      assert Spell(ObjectForm(gap, entries)) + rest == [OPEN_OBJECT] + body;
      ValueIsObject(body);
      EntriesRead(entries, rest);
      EntriesHead(entries, rest);
    }
  }

  lemma EmptyObjectRead(gap: Text, rest: Text)
    requires Blank(gap)
    ensures ParseValue(Spell(ObjectForm(gap, [])) + rest) == Ok(Object([]), rest)
  {
    hide ParseValue;
    var close := [125] + rest;
    assert Spell(ObjectForm(gap, [])) + rest == [OPEN_OBJECT] + (gap + close);
    ValueIsObject(gap + close);
    SkipTo(gap, close);
    assert close[1..] == rest;
  }

  function AfterEntry(entries: seq<Entry>): Text
    requires entries != []
  {
    if |entries| == 1 then [125] else [44] + SpellEntries(entries[1..])
  }

  lemma EntryCut(e: Entry, tail: Text)
    ensures SpellEntry(e) + tail ==
            e.before + (SpellString(e.name) + (e.middle + ([58] + (e.gap + (Spell(e.value) + (e.after + tail))))))
  {
    hide Spell, SpellString;
    FiveParts(e.gap, Spell(e.value), e.after, [], tail);
    var v := e.gap + (Spell(e.value) + e.after);
    assert v + tail == e.gap + (Spell(e.value) + (e.after + tail));
    FiveParts(e.before, SpellString(e.name), e.middle, [58] + v, tail);
    assert [58] + v + tail == [58] + (v + tail);
  }

  lemma EntryHead(e: Entry, tail: Text)
    requires GoodEntry(e)
    ensures var t := SpellEntry(e) + tail;
            Skip(t) == SpellString(e.name) + (e.middle + ([58] + (e.gap + (Spell(e.value) + (e.after + tail)))))
            && StartsWith(Skip(t), QUOTE)
  {
    hide Spell, SpellPieces, Pieces, Good;
    EntryCut(e, tail);
    var u := SpellString(e.name) + (e.middle + ([58] + (e.gap + (Spell(e.value) + (e.after + tail)))));
    SkipTo(e.before, u);
  }

  /** One member with white space at every place where it is allowed. */
  lemma {:induction false} EntryRead(e: Entry, tail: Text)
    requires GoodEntry(e) && AllClean(e.name) && CleanForm(e.value)
    requires tail != [] && tail[0] in {COMMA, CLOSE_OBJECT}
    ensures ParseMember(SpellEntry(e) + tail) == Ok(MeanEntry(e), e.after + tail)
    decreases e, 1
  {
    hide ParseValue, ParseString, ParseMember, Spell, SpellString, SpellEntry, Pieces, Good, CleanForm, Bounded;
    hide Delimited, Mean, AllClean, MeanPieces;
    var u := Spell(e.value) + (e.after + tail);
    var colon := [58] + (e.gap + u);
    EntryHead(e, tail);
    StringRead(e.name, e.middle + colon);
    SkipTo(e.middle, colon);
    assert colon[1..] == e.gap + u;
    FormHead(e.value, e.after + tail);
    SkipTo(e.gap, u);
    BlankThenDelimits(e.after, tail);
    DelimitedBounds(e.value, e.after + tail);
    ValueRead(e.value, e.after + tail);
    OneMember(SpellEntry(e) + tail, MeanPieces(e.name), e.middle + colon, Mean(e.value), e.after + tail);
  }

  lemma EntriesCut(entries: seq<Entry>, rest: Text)
    requires entries != []
    ensures SpellEntries(entries) + rest == SpellEntry(entries[0]) + (AfterEntry(entries) + rest)
    ensures var tail := AfterEntry(entries) + rest;
            if |entries| == 1 then tail == [CLOSE_OBJECT] + rest
            else tail == [COMMA] + (SpellEntries(entries[1..]) + rest)
  {
    hide SpellEntry;
    TwoParts(SpellEntry(entries[0]), AfterEntry(entries), rest);
    if |entries| > 1 {
      TwoParts([44], SpellEntries(entries[1..]), rest);
    }
  }

  lemma EntriesHead(entries: seq<Entry>, rest: Text)
    requires entries != [] && GoodEntries(entries)
    ensures var t := SpellEntries(entries) + rest;
            ParseMembers(Skip(t)) == ParseMembers(t) && !StartsWith(Skip(t), CLOSE_OBJECT)
  {
    hide ParseMembers, SpellEntries, SpellEntry, GoodEntry;
    var t := SpellEntries(entries) + rest;
    EntriesCut(entries, rest);
    EntryHead(entries[0], AfterEntry(entries) + rest);
    SkipTwice(t);
    MembersSkip(Skip(t), t);
  }

  lemma {:induction false} EntriesRead(entries: seq<Entry>, rest: Text)
    requires entries != [] && GoodEntries(entries) && CleanEntries(entries)
    ensures ParseMembers(SpellEntries(entries) + rest) == Ok(MeanEntries(entries), rest)
    decreases entries, 2
  {
    hide ParseMember, ParseMembers, SpellEntries, SpellEntry, GoodEntry, CleanForm, AllClean, MeanEntry;
    var t, e := SpellEntries(entries) + rest, entries[0];
    var tail := AfterEntry(entries) + rest;
    EntriesCut(entries, rest);
    EntryRead(e, tail);
    EntryBlank(e);
    SkipTo(e.after, tail);
    MembersStep(t, MeanEntry(e), e.after + tail);
    if |entries| == 1 {
      assert tail[1..] == rest;
      NoSlots();
      assert MeanEntries(entries) == [MeanEntry(e)];
    } else {
      assert tail[1..] == SpellEntries(entries[1..]) + rest;
      EntriesRead(entries[1..], rest);
    }
  }

  lemma EntryBlank(e: Entry)
    requires GoodEntry(e)
    ensures Blank(e.after)
  {
  }

  // Documents.

  lemma {:induction false} SkipsAllIff(t: Text)
    ensures Skip(t) == [] <==> Blank(t)
  {
    if t != [] && t[0] <= 32 {
      SkipsAllIff(t[1..]);
      assert Blank(t) <==> Blank(t[1..]) by {
        assert t == [t[0]] + t[1..];
      }
    }
  }

  /** A value with white space in front of it. Read leniently, the value and what is behind it come back; read
      strictly, the document is accepted if and only if nothing but white space is behind the value. */
  lemma DocumentRead(before: Text, f: Form, after: Text)
    requires Blank(before) && Good(f) && CleanForm(f) && Bounded(f, after)
    ensures ParseText(before + (Spell(f) + after), false) == Ok(Mean(f), after)
    ensures ParseText(before + (Spell(f) + after), true) == if Blank(after) then Ok(Mean(f), []) else Fail
  {
    hide ParseValue, Spell, Mean, Good, CleanForm, Bounded, Skip, Blank;
    FormHead(f, after);
    SkipTo(before, Spell(f) + after);
    ValueRead(f, after);
    SkipsAllIff(after);
  }
}
