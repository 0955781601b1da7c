/** One step of each reading function. */
module JsonSteps {
  import opened Bytes
  import opened JsonText
  import opened JsonString
  import opened JsonParse

  predicate Blank(t: Text) { forall i :: 0 <= i < |t| ==> t[i] <= 32 }

  lemma {:induction false} SkipBlank(ws: Text, t: Text)
    requires Blank(ws)
    ensures Skip(ws + t) == Skip(t)
  {
    if ws == [] {
      assert ws + t == t;
    } else {
      assert (ws + t)[1..] == ws[1..] + t;
      SkipBlank(ws[1..], t);
    }
  }

  lemma {:induction false} SkipTwice(t: Text)
    ensures Skip(Skip(t)) == Skip(t)
  {
    if t != [] && t[0] <= 32 {
      SkipTwice(t[1..]);
    }
  }

  predicate AllDigits(ds: Text) { forall i :: 0 <= i < |ds| ==> IsDigit(ds[i]) }

  function Fold(n: nat, ds: Text): nat
    requires AllDigits(ds)
  {
    if ds == [] then n else Fold(n, ds[..|ds| - 1]) * 10 + (ds[|ds| - 1] - 48) as nat
  }

  lemma {:induction false} ReadAllDigits(n: nat, ds: Text, rest: Text)
    requires AllDigits(ds)
    ensures ReadDigits(n, ds + rest) == ReadDigits(Fold(n, ds), rest)
    decreases |ds|
  {
    if ds == [] {
      assert ds + rest == rest;
    } else {
      var k := |ds| - 1;
      assert ds + rest == ds[..k] + ([ds[k]] + rest);
      ReadAllDigits(n, ds[..k], [ds[k]] + rest);
      assert ([ds[k]] + rest)[1..] == rest;
    }
  }

  lemma {:induction false} FoldDecimal(n: nat)
    ensures AllDigits(Decimal(n)) && Fold(0, Decimal(n)) == n
    ensures n > 0 ==> Decimal(n)[0] > 48
  {
    var ds := Decimal(n);
    if n >= 10 {
      FoldDecimal(n / 10);
      assert ds[..|ds| - 1] == Decimal(n / 10);
    } else {
      assert ds[..0] == [];
      assert Fold(0, ds) == Fold(0, ds[..0]) * 10 + n;
    }
  }

  lemma ValueIsNumber(t: Text)
    requires t != [] && (t[0] == MINUS || IsDigit(t[0]))
    ensures ParseValue(t) == ParseNumber(t)
  {
    hide ParseNumber, ParseItems, ParseMembers;
  }

  /** No value starts with white space, a separator or a closing bracket. */
  predicate ValueHead(b: byte) {
    b > 32 && b !in {COMMA, COLON, CLOSE_ARRAY, CLOSE_OBJECT}
  }

  lemma KeywordRead(rest: Text)
    ensures ParseValue(NULL_TEXT + rest) == Ok(Null, rest)
    ensures ParseValue(FALSE_TEXT + rest) == Ok(False, rest)
    ensures ParseValue(TRUE_TEXT + rest) == Ok(True, rest)
  {
    hide ParseNumber, ParseItems, ParseMembers;
    assert (NULL_TEXT + rest)[4..] == rest && (NULL_TEXT + rest)[0] == 110;
    assert (FALSE_TEXT + rest)[5..] == rest && (FALSE_TEXT + rest)[0] == 102;
    assert (TRUE_TEXT + rest)[4..] == rest && (TRUE_TEXT + rest)[0] == 116;
  }

  lemma ValueIsString(t: Text, s: Text, rest: Text)
    requires StartsWith(t, QUOTE) && ParseString(t) == Ok(s, rest)
    ensures ParseValue(t) == Ok(String(s), rest)
  {
    hide ParseString, ParseNumber, ParseItems, ParseMembers;
  }

  lemma ValueIsArray(body: Text)
    ensures var u := Skip(body);
            ParseValue([OPEN_ARRAY] + body) ==
            if StartsWith(u, CLOSE_ARRAY) then Ok(Array([]), u[1..])
            else match ParseItems(u)
                 case Ok(items, rest) => Ok(Array(items), rest)
                 case Fail => Fail
                 case Overrun => Overrun
  {
    hide ParseNumber, ParseItems, ParseMembers, Skip;
    assert ([OPEN_ARRAY] + body)[1..] == body;
  }

  lemma ValueIsObject(body: Text)
    ensures var u := Skip(body);
            ParseValue([OPEN_OBJECT] + body) ==
            if StartsWith(u, CLOSE_OBJECT) then Ok(Object([]), u[1..])
            else match ParseMembers(u)
                 case Ok(ms, rest) => Ok(Object(ms), rest)
                 case Fail => Fail
                 case Overrun => Overrun
  {
    hide ParseNumber, ParseItems, ParseMembers, Skip;
    assert ([OPEN_OBJECT] + body)[1..] == body;
  }

  lemma MembersSkip(t: Text, u: Text)
    requires Skip(t) == Skip(u)
    ensures ParseMembers(t) == ParseMembers(u)
  {
    hide ParseValue, ParseString, Skip;
    assert ParseMember(t) == ParseMember(u);
  }

  predicate AllPrintable(items: seq<Json>) { forall i :: 0 <= i < |items| ==> Printable(items[i]) }

  predicate AllMembersPrintable(ms: seq<Member>) {
    forall i :: 0 <= i < |ms| ==> NulFree(ms[i].name) && Printable(ms[i].value)
  }

  lemma FirstAndRest(items: seq<Json>)
    requires AllPrintable(items) && items != []
    ensures Printable(items[0]) && AllPrintable(items[1..]) && [items[0]] + items[1..] == items
  {
    hide Printable;
  }

  lemma FirstAndRestMembers(ms: seq<Member>)
    requires AllMembersPrintable(ms) && ms != []
    ensures NulFree(ms[0].name) && Printable(ms[0].value) && AllMembersPrintable(ms[1..]) && [ms[0]] + ms[1..] == ms
  {
    hide Printable, NulFree;
  }
}
