/** Every text the parser accepts is one the grammar spells, and the value is the one it spells. */
module JsonAccepted {
  import opened Bytes
  import opened JsonText
  import opened JsonString
  import opened JsonParse
  import opened JsonSteps
  import opened JsonGrammar
  import opened JsonSpelled

  lemma {:induction false} BlankOf(t: Text) returns (ws: Text)
    ensures Blank(ws) && t == ws + Skip(t)
  {
    if t != [] && t[0] <= 32 {
      var more := BlankOf(t[1..]);
      ws := [t[0]] + more;
    } else {
      ws := [];
    }
  }

  // String literals.

  lemma FirstEscape(t: Text) returns (p: Piece, next: Text)
    requires |t| >= 6 && t[0] == 92 && t[1] == 117 && |t| >= UnicodeEscape(t).1
    ensures FitsPiece(p, next) && t == SpellPiece(p) + next
  {
    hide Utf8, UnitValue, ParseHex4;
    var h := t[2..6];
    assert t[2..] == h + t[6..];
    UnitIsParsed(h, t[6..]);
    if HighSurrogate(UnitValue(h)) && AnotherEscape(t) {
      p, next := Pair(h, t[8..12]), t[12..];
    } else {
      p, next := Unit(h), t[6..];
    }
  }

  lemma FirstPiece(t: Text) returns (p: Piece, next: Text)
    requires t != [] && t[0] != 34 && Unescape(t).Scanned?
    ensures FitsPiece(p, next) && t == SpellPiece(p) + next
  {
    hide UnicodeEscape, UnitValue;
    if t[0] != 92 {
      p, next := Raw(t[0]), t[1..];
    } else if t[1] != 117 {
      p, next := Short(t[1]), t[2..];
    } else {
      p, next := FirstEscape(t);
    }
  }

  lemma NoPieces(t: Text) returns (end: Text)
    requires StartsWith(t, 34) || t == []
    ensures var s := Unescape(t);
            s.Scanned? && s.text == [] && t == end + s.rest && (end == [34] || (end == [] && s.rest == []))
    ensures Pieces([], end) && MeanPieces([]) == [] && SpellPieces([]) == []
  {
    end := if t == [] then [] else [34];
  }

  lemma OneMorePiece(p: Piece, more: seq<Piece>, end: Text, rest: Text)
    requires Pieces(more, end) && FitsPiece(p, SpellPieces(more) + end + rest)
    requires end == [34] || (end == [] && rest == [])
    ensures Pieces([p] + more, end) && MeanPieces([p] + more) == MeanPiece(p) + MeanPieces(more)
    ensures SpellPieces([p] + more) + end + rest == SpellPiece(p) + (SpellPieces(more) + end + rest)
  {
    hide FitsPiece, SpellPiece, MeanPiece;
    FitsBefore(p, SpellPieces(more), end, rest);
    assert ([p] + more)[1..] == more;
    TwoParts(SpellPiece(p), SpellPieces(more), end);
    TwoParts(SpellPiece(p), SpellPieces(more) + end, rest);
  }

  /** The pieces of a literal, up to its closing quote or, failing that, the end of the text. */
  lemma {:induction false} PiecesOf(t: Text) returns (ps: seq<Piece>, end: Text)
    requires Unescape(t).Scanned?
    ensures var s := Unescape(t);
            && Pieces(ps, end) && MeanPieces(ps) == s.text && t == SpellPieces(ps) + end + s.rest
            && (end == [34] || (end == [] && s.rest == []))
    decreases |t|
  {
    hide Unescape, FitsPiece, SpellPiece, MeanPiece, Pieces, MeanPieces, SpellPieces;
    if t == [] || t[0] == 34 {
      ps := [];
      end := NoPieces(t);
      assert [] + end == end;
    } else {
      var p, next := FirstPiece(t);
      PieceRead(p, next);
      var more, e := PiecesOf(next);
      OneMorePiece(p, more, e, Unescape(next).rest);
      ps, end := [p] + more, e;
    }
  }

  lemma FitsBefore(p: Piece, u: Text, end: Text, rest: Text)
    requires FitsPiece(p, u + end + rest) && (end == [34] || (end == [] && rest == []))
    ensures FitsPiece(p, u + end)
  {
    OpensTheSame(u, end, rest);
  }

  lemma StringOf(t: Text) returns (ps: seq<Piece>, end: Text)
    requires ParseString(t).Ok?
    ensures var r := ParseString(t);
            && Pieces(ps, end) && MeanPieces(ps) == r.value && t == [34] + SpellPieces(ps) + end + r.rest
            && (end == [34] || (end == [] && r.rest == []))
  {
    hide Unescape, Defined, Pieces, MeanPieces, SpellPieces;
    RestIsShorter(t[1..]);
    ps, end := PiecesOf(t[1..]);
    assert t == [34] + t[1..];
    TwoParts([34], SpellPieces(ps) + end, Unescape(t[1..]).rest);
    TwoParts([34], SpellPieces(ps), end);
  }

  // Numbers.

  lemma {:induction false} DigitsOf(t: Text) returns (ds: Text, next: Text)
    ensures AllDigits(ds) && t == ds + next && !StartsDigit(next)
    ensures StartsDigit(t) ==> ds != [] && ds[0] == t[0]
    ensures !StartsDigit(t) ==> ds == []
  {
    if StartsDigit(t) {
      var more, n := DigitsOf(t[1..]);
      ds, next := [t[0]] + more, n;
    } else {
      ds, next := [], t;
    }
  }

  lemma SignOf(t: Text) returns (s: Sign, next: Text)
    ensures t == SpellSign(s) + next
    ensures s.NoSign? ==> !StartsWith(t, 43) && !StartsWith(t, 45)
  {
    if StartsWith(t, 43) {
      s, next := Plus, t[1..];
    } else if StartsWith(t, 45) {
      s, next := Minus, t[1..];
    } else {
      s, next := NoSign, t;
    }
  }

  lemma PowerOf(t: Text) returns (p: Power, next: Text)
    ensures PowerForm(p) && PowerEnds(p, next) && t == SpellPower(p) + next
  {
    if StartsWith(t, 101) || StartsWith(t, 69) {
      var sign, u := SignOf(t[1..]);
      var ds, n := DigitsOf(u);
      p, next := Power(t[0], sign, ds), n;
      TwoParts(SpellSign(sign), ds, n);
      TwoParts([t[0]], SpellSign(sign) + ds, n);
      assert t == [t[0]] + t[1..];
      assert sign.NoSign? && ds == [] ==> t[1..] == n;
    } else {
      p, next := NoPower, t;
    }
  }

  lemma FractionOf(t: Text) returns (f: Text, next: Text)
    ensures AllDigits(f) && FractionEnds(f, next) && t == SpellFraction(f) + next
  {
    if StartsWith(t, 46) && StartsDigit(t[1..]) {
      f, next := DigitsOf(t[1..]);
      TwoParts([46], f, next);
      assert t == [46] + t[1..];
    } else {
      f, next := [], t;
    }
  }

  lemma WholeOf(t: Text, minus: bool) returns (n: Digits, next: Text)
    requires minus || StartsDigit(t)
    ensures n.minus == minus && n.fraction == [] && n.power == NoPower
    ensures NumberForm(n) && WholeEnds(n, next) && t == SpellWhole(n) + next
  {
    var zero := StartsWith(t, 48);
    var u := if zero then t[1..] else t;
    var whole: Text := [];
    next := u;
    if u != [] && 49 <= u[0] <= 57 {
      whole, next := DigitsOf(u);
    }
    n := Digits(minus, zero, whole, [], NoPower);
    assert zero ==> t == [48] + u;
    TwoParts(if zero then [48] else [], whole, next);
  }

  lemma NumberOf(t: Text) returns (n: Digits, rest: Text)
    requires t != [] && (t[0] == MINUS || IsDigit(t[0]))
    ensures NumberForm(n) && Follows(n, rest) && t == SpellNumber(n) + rest
    ensures ParseNumber(t) == Ok(MeanNumber(n), rest)
  {
    hide ParseNumber, SpellWhole, SpellFraction, SpellPower, WholeEnds, FractionEnds, PowerEnds, MeanNumber, AllDigits;
    var minus := t[0] == MINUS;
    var w, b := WholeOf(if minus then t[1..] else t, minus);
    var f, c := FractionOf(b);
    var p, r := PowerOf(c);
    n, rest := w.(fraction := f, power := p), r;
    SameWhole(w, n, b);
    assert minus ==> t == [45] + t[1..];
    FiveParts(if minus then [45] else [], SpellWhole(n), SpellFraction(f), SpellPower(p), r);
    assert !minus ==> [] + t == t;
    NumberRead(n, rest);
  }

  lemma SameWhole(w: Digits, n: Digits, next: Text)
    requires w.zero == n.zero && w.whole == n.whole
    ensures SpellWhole(w) == SpellWhole(n) && WholeEnds(w, next) == WholeEnds(n, next)
  {
  }

  // Values.

  /** The text is the form's spelling and what is left. */
  predicate Closed(t: Text, f: Form, v: Json, rest: Text) {
    Good(f) && Bounded(f, rest) && Mean(f) == v && t == Spell(f) + rest
  }

  /** A string whose closing quote is missing takes up the whole text. */
  predicate Unclosed(t: Text, ps: seq<Piece>, v: Json, rest: Text) {
    rest == [] && Pieces(ps, []) && v == String(MeanPieces(ps)) && t == [34] + SpellPieces(ps)
  }

  lemma KeywordOf(t: Text) returns (f: Form)
    requires NULL_TEXT <= t || FALSE_TEXT <= t || TRUE_TEXT <= t
    ensures var r := ParseValue(t); r.Ok? && Closed(t, f, r.value, r.rest)
  {
    hide ParseNumber, ParseItems, ParseMembers, ParseString;
    f := if NULL_TEXT <= t then NullForm else if FALSE_TEXT <= t then FalseForm else TrueForm;
  }

  lemma StringValueOf(t: Text) returns (f: Form, ps: seq<Piece>)
    requires StartsWith(t, QUOTE) && ParseValue(t).Ok?
    ensures var r := ParseValue(t); Closed(t, f, r.value, r.rest) || Unclosed(t, ps, r.value, r.rest)
  {
    hide ParseString, ParseNumber, ParseItems, ParseMembers, Pieces, MeanPieces, SpellPieces;
    var end;
    ps, end := StringOf(t);
    f := StringForm(ps);
    assert end == [] ==> [34] + SpellPieces(ps) + [] + [] == [34] + SpellPieces(ps);
  }

  lemma OnlyBrackets(t: Text)
    requires ParseValue(t).Ok? && !(NULL_TEXT <= t || FALSE_TEXT <= t || TRUE_TEXT <= t)
    ensures t != [] && (t[0] in {QUOTE, MINUS, OPEN_ARRAY, OPEN_OBJECT} || IsDigit(t[0]))
  {
    hide ParseNumber, ParseItems, ParseMembers, ParseString, Skip;
  }

  lemma {:induction false} ValueOf(t: Text) returns (f: Form, ps: seq<Piece>)
    requires ParseValue(t).Ok?
    ensures var r := ParseValue(t); Closed(t, f, r.value, r.rest) || Unclosed(t, ps, r.value, r.rest)
    decreases |t|, 1
  {
    hide ParseValue, ParseNumber;
    f, ps := NullForm, [];
    if NULL_TEXT <= t || FALSE_TEXT <= t || TRUE_TEXT <= t {
      f := KeywordOf(t);
    } else if StartsWith(t, QUOTE) {
      f, ps := StringValueOf(t);
    } else if StartsWith(t, MINUS) || StartsDigit(t) {
      hide NumberForm, Follows, MeanNumber, SpellNumber;
      var n, rest := NumberOf(t);
      ValueIsNumber(t);
      f := NumForm(n);
    } else {
      hide Closed;
      OnlyBrackets(t);
      assert t == [t[0]] + t[1..];
      if t[0] == OPEN_ARRAY {
        f := ArrayOf(t[1..]);
      } else {
        f := ObjectOf(t[1..]);
      }
    }
  }

  lemma {:induction false} ArrayOf(body: Text) returns (f: Form)
    requires ParseValue([OPEN_ARRAY] + body).Ok?
    ensures var t := [OPEN_ARRAY] + body; Closed(t, f, ParseValue(t).value, ParseValue(t).rest)
    decreases |body| + 1, 0
  {
    hide ParseValue, ParseItems, Skip, SpellSlots, GoodSlots, MeanSlots;
    ValueIsArray(body);
    var u := Skip(body);
    if StartsWith(u, CLOSE_ARRAY) {
      var gap := BlankOf(body);
      f := ArrayForm(gap, []);
      NoSlots();
      assert u == [93] + u[1..];
      assert [91] + (gap + [93]) + u[1..] == [91] + (gap + ([93] + u[1..]));
    } else {
      ItemsFromBlank(body);
      var slots := ItemsOf(body);
      f := ArrayForm([], slots);
      TwoParts([91], SpellSlots(slots), ParseItems(body).rest);
    }
  }

  lemma ItemsFromBlank(t: Text)
    ensures ParseItems(Skip(t)) == ParseItems(t)
  {
    hide ParseValue, Skip;
    SkipTwice(t);
  }

  /** The text in front of the next separator or bracket. */
  lemma SlotOf(t: Text, f: Form, rest: Text) returns (s: Slot)
    requires Good(f) && Skip(t) == Spell(f) + rest
    ensures s.value == f && Blank(s.before) && Blank(s.after)
    ensures t == s.before + (Spell(f) + (s.after + Skip(rest)))
  {
    hide Good, Spell, Skip;
    var before := BlankOf(t);
    var after := BlankOf(rest);
    s := Slot(before, f, after);
  }

  lemma LastSlot(s: Slot, w: Text)
    requires StartsWith(w, CLOSE_ARRAY) && Good(s.value) && Blank(s.before) && Blank(s.after)
    ensures GoodSlots([s]) && MeanSlots([s]) == [Mean(s.value)]
    ensures s.before + (Spell(s.value) + (s.after + w)) == SpellSlots([s]) + w[1..]
  {
    hide Good, Mean, Spell;
    NoSlots();
    assert [s][1..] == [];
    FiveParts(s.before, Spell(s.value), s.after, [93], w[1..]);
    assert w == [93] + w[1..];
  }

  lemma OneMoreSlot(s: Slot, more: seq<Slot>, w: Text, rest: Text)
    requires StartsWith(w, COMMA) && Good(s.value) && Blank(s.before) && Blank(s.after)
    requires more != [] && GoodSlots(more) && w[1..] == SpellSlots(more) + rest
    ensures GoodSlots([s] + more) && MeanSlots([s] + more) == [Mean(s.value)] + MeanSlots(more)
    ensures s.before + (Spell(s.value) + (s.after + w)) == SpellSlots([s] + more) + rest
  {
    hide Good, Mean, Spell;
    assert ([s] + more)[1..] == more;
    TwoParts([44], SpellSlots(more), rest);
    FiveParts(s.before, Spell(s.value), s.after, [44] + SpellSlots(more), rest);
    assert w == [44] + w[1..];
  }

  lemma {:induction false} ItemsOf(t: Text) returns (slots: seq<Slot>)
    requires ParseItems(t).Ok?
    ensures var r := ParseItems(t);
            slots != [] && GoodSlots(slots) && MeanSlots(slots) == r.value && t == SpellSlots(slots) + r.rest
    decreases |t|, 2
  {
    var u := Skip(t);
    var r := ParseValue(u);
    assert ParseItems(t) == var w := Skip(r.rest);
                            if StartsWith(w, COMMA) then Prepend(r.value, ParseItems(w[1..]))
                            else if StartsWith(w, CLOSE_ARRAY) then Ok([r.value], w[1..])
                            else Fail;
    var w := Skip(r.rest);
    assert r.rest != [];
    hide ParseValue, ParseItems, Good, Bounded, Spell, Mean, Skip, SpellSlots, GoodSlots, MeanSlots, Unclosed;
    var f, ps := ValueOf(u);
    NotUnclosed(u, ps, r.value, r.rest);
    var s := SlotOf(t, f, r.rest);
    if StartsWith(w, COMMA) {
      var more := ItemsOf(w[1..]);
      slots := [s] + more;
      OneMoreSlot(s, more, w, ParseItems(w[1..]).rest);
    } else {
      slots := [s];
      LastSlot(s, w);
    }
  }

  lemma NotUnclosed(t: Text, ps: seq<Piece>, v: Json, rest: Text)
    requires rest != []
    ensures !Unclosed(t, ps, v, rest)
  {
  }

  lemma {:induction false} ObjectOf(body: Text) returns (f: Form)
    requires ParseValue([OPEN_OBJECT] + body).Ok?
    ensures var t := [OPEN_OBJECT] + body; Closed(t, f, ParseValue(t).value, ParseValue(t).rest)
    decreases |body| + 1, 0
  {
    hide ParseValue, ParseMembers, Skip, SpellEntries, GoodEntries, MeanEntries;
    ValueIsObject(body);
    var u := Skip(body);
    if StartsWith(u, CLOSE_OBJECT) {
      var gap := BlankOf(body);
      f := ObjectForm(gap, []);
      NoSlots();
      assert u == [125] + u[1..];
      assert [123] + (gap + [125]) + u[1..] == [123] + (gap + ([125] + u[1..]));
    } else {
      SkipTwice(body);
      MembersSkip(u, body);
      var entries := MembersOf(body);
      f := ObjectForm([], entries);
      TwoParts([123], SpellEntries(entries), ParseMembers(body).rest);
    }
  }

  lemma NameOf(t: Text) returns (ps: seq<Piece>)
    requires ParseString(t).Ok? && ParseString(t).rest != []
    ensures var r := ParseString(t); Pieces(ps, [34]) && MeanPieces(ps) == r.value && t == SpellString(ps) + r.rest
  {
    hide ParseString, Pieces, MeanPieces, SpellPieces;
    var end;
    ps, end := StringOf(t);
  }

  lemma MemberParts(t: Text)
    requires ParseMember(t).Ok?
    ensures var name := ParseString(Skip(t));
            && name.Ok? && StartsWith(Skip(name.rest), COLON)
            && var r := ParseValue(Skip(Skip(name.rest)[1..]));
            r.Ok? && ParseMember(t) == Ok(Member(name.value, r.value), r.rest)
  {
    hide ParseValue, ParseString, Skip;
  }

  lemma SkippedSome(t: Text)
    requires Skip(t) != []
    ensures t != []
  {
  }

  lemma {:induction false} MemberOf(t: Text) returns (e: Entry)
    requires ParseMember(t).Ok? && ParseMember(t).rest != []
    ensures var r := ParseMember(t);
            GoodEntry(e) && MeanEntry(e) == r.value && t == SpellEntry(e) + Skip(r.rest)
    decreases |t|, 2
  {
    hide ParseValue, ParseMember, ParseString, Good, Bounded, Spell, Mean, Skip, Unclosed, Pieces, SpellString;
    hide MeanPieces, Blank, SpellEntry;
    MemberParts(t);
    var name := ParseString(Skip(t));
    var w := Skip(name.rest);
    var r := ParseValue(Skip(w[1..]));
    SkippedSome(name.rest);
    var ps := NameOf(Skip(t));
    var f, unused := ValueOf(Skip(w[1..]));
    NotUnclosed(Skip(w[1..]), unused, r.value, r.rest);
    var before := BlankOf(t);
    var middle := BlankOf(name.rest);
    var gap := BlankOf(w[1..]);
    var after := BlankOf(r.rest);
    e := Entry(before, ps, middle, gap, f, after);
    assert w == [58] + w[1..];
    EntryCut(e, Skip(r.rest));
  }

  lemma LastEntry(e: Entry, w: Text)
    requires StartsWith(w, CLOSE_OBJECT) && GoodEntry(e)
    ensures GoodEntries([e]) && MeanEntries([e]) == [MeanEntry(e)] && SpellEntry(e) + w == SpellEntries([e]) + w[1..]
  {
    hide GoodEntry, MeanEntry, SpellEntry;
    NoSlots();
    assert [e][1..] == [];
    TwoParts(SpellEntry(e), [125], w[1..]);
    assert w == [125] + w[1..];
  }

  lemma OneMoreEntry(e: Entry, more: seq<Entry>, w: Text, rest: Text)
    requires StartsWith(w, COMMA) && GoodEntry(e)
    requires more != [] && GoodEntries(more) && w[1..] == SpellEntries(more) + rest
    ensures GoodEntries([e] + more) && MeanEntries([e] + more) == [MeanEntry(e)] + MeanEntries(more)
    ensures SpellEntry(e) + w == SpellEntries([e] + more) + rest
  {
    hide GoodEntry, MeanEntry, SpellEntry;
    assert ([e] + more)[1..] == more;
    TwoParts([44], SpellEntries(more), rest);
    TwoParts(SpellEntry(e), [44] + SpellEntries(more), rest);
    assert w == [44] + w[1..];
  }

  lemma {:induction false} MembersOf(t: Text) returns (entries: seq<Entry>)
    requires ParseMembers(t).Ok?
    ensures var r := ParseMembers(t);
            && entries != [] && GoodEntries(entries) && MeanEntries(entries) == r.value
            && t == SpellEntries(entries) + r.rest
    decreases |t|, 3
  {
    var r := ParseMember(t);
    assert ParseMembers(t) == var w := Skip(r.rest);
                              if StartsWith(w, COMMA) then Prepend(r.value, ParseMembers(w[1..]))
                              else if StartsWith(w, CLOSE_OBJECT) then Ok([r.value], w[1..])
                              else Fail;
    var w := Skip(r.rest);
    assert r.rest != [];
    hide ParseMember, ParseMembers, GoodEntry, MeanEntry, SpellEntry, Skip, SpellEntries, GoodEntries;
    hide MeanEntries;
    var e := MemberOf(t);
    if StartsWith(w, COMMA) {
      var more := MembersOf(w[1..]);
      entries := [e] + more;
      OneMoreEntry(e, more, w, ParseMembers(w[1..]).rest);
    } else {
      entries := [e];
      LastEntry(e, w);
    }
  }

  /** An accepted document is white space, the spelling of its value, and what is left: nothing but white space when
      read strictly. The one exception is a string that is never closed. */
  lemma AcceptedIsSpelled(t: Text, strict: bool)
    returns (before: Text, body: Text, f: Form, ps: seq<Piece>, after: Text)
    requires ParseText(t, strict).Ok?
    ensures var r := ParseText(t, strict);
            && Blank(before) && t == before + body
            && (Closed(body, f, r.value, after) || Unclosed(body, ps, r.value, after))
            && (if strict then Blank(after) && r.rest == [] else r.rest == after)
  {
    hide ParseValue, Closed, Unclosed, Skip, Blank;
    before := BlankOf(t);
    body := Skip(t);
    f, ps := ValueOf(body);
    after := ParseValue(body).rest;
    SkipsAllIff(after);
  }
}
