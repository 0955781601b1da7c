/** The parser's loops, each proved to compute what the parsing functions say. */
module JsonReader {
  import opened Bytes
  import opened JsonText
  import opened JsonString
  import opened JsonLiteral
  import opened JsonParse

  // White space and numbers.

  method SkipFrom(t: Text, i: nat) returns (j: nat)
    requires i <= |t|
    ensures i <= j <= |t| && t[j..] == Skip(t[i..])
  {
    j := i;
    while j < |t| && t[j] <= 32
      invariant i <= j <= |t| && Skip(t[i..]) == Skip(t[j..])
    {
      DropStep(t, j, 1);
      j := j + 1;
    }
  }

  method DigitsFrom(t: Text, i: nat, start: nat) returns (n: nat, j: nat)
    requires i <= |t|
    ensures i <= j <= |t| && ReadDigits(start, t[i..]) == (n, t[j..])
  {
    n, j := start, i;
    while j < |t| && IsDigit(t[j])
      invariant i <= j <= |t| && ReadDigits(start, t[i..]) == ReadDigits(n, t[j..])
    {
      DropStep(t, j, 1);
      n := n * 10 + (t[j] - 48) as nat;
      j := j + 1;
    }
  }

  method WholeFrom(t: Text, i: nat) returns (n: nat, j: nat)
    requires i <= |t|
    ensures i <= j <= |t| && WholePart(t[i..]) == (n, t[j..])
  {
    n, j := 0, i;
    if j < |t| && t[j] == 48 {
      DropStep(t, j, 1);
      j := j + 1;
    }
    if j < |t| && 49 <= t[j] <= 57 {
      n, j := DigitsFrom(t, j, 0);
    }
  }

  method FractionFrom(t: Text, i: nat, start: nat) returns (n: nat, scale: int, j: nat)
    requires i <= |t|
    ensures i <= j <= |t| && FractionPart(start, t[i..]) == (n, scale, t[j..])
  {
    n, scale, j := start, 0, i;
    if i + 1 < |t| && t[i] == 46 && IsDigit(t[i + 1]) {
      DropStep(t, i, 1);
      n, j := DigitsFrom(t, i + 1, start);
      scale := i + 1 - j;
    }
  }

  method ExponentFrom(t: Text, i: nat) returns (e: int, j: nat)
    requires i <= |t|
    ensures i <= j <= |t| && ExponentPart(t[i..]) == (e, t[j..])
  {
    e, j := 0, i;
    if i < |t| && (t[i] == 101 || t[i] == 69) {
      DropStep(t, i, 1);
      j := i + 1;
      var sign: int := 1;
      if j < |t| && t[j] == 43 {
        DropStep(t, j, 1);
        j := j + 1;
      } else if j < |t| && t[j] == MINUS {
        DropStep(t, j, 1);
        sign, j := -1, j + 1;
      }
      var s;
      s, j := DigitsFrom(t, j, 0);
      e := sign * s;
    }
  }

  method ReadNumber(t: Text, i: nat) returns (v: Json, next: nat)
    requires i < |t| && (t[i] == MINUS || IsDigit(t[i]))
    ensures i < next <= |t| && ParseNumber(t[i..]) == Ok(v, t[next..])
  {
    hide WholePart, FractionPart, ExponentPart;
    var j := i;
    if t[i] == MINUS {
      DropStep(t, i, 1);
      j := i + 1;
    }
    var n, m, scale, e;
    n, j := WholeFrom(t, j);
    m, scale, j := FractionFrom(t, j, n);
    e, next := ExponentFrom(t, j);
    v := Number(Signed(t[i] == MINUS, m), scale + e);
    SameLength(t, next, ParseNumber(t[i..]).rest);
  }

  lemma SameLength(t: Text, j: nat, u: Text)
    requires j <= |t| && t[j..] == u
    ensures j == |t| - |u|
  {
  }

  // Items that follow a comma.

  function Chain<T>(xs: seq<T>, r: Parsed<seq<T>>): Parsed<seq<T>> {
    match r
    case Ok(ys, rest) => Ok(xs + ys, rest)
    case _ => r
  }

  function MoreItems(u: Text): Parsed<seq<Json>> {
    if StartsWith(u, COMMA) then ParseItems(u[1..])
    else if StartsWith(u, CLOSE_ARRAY) then Ok([], u[1..])
    else Fail
  }

  function MoreMembers(u: Text): Parsed<seq<Member>> {
    if StartsWith(u, COMMA) then ParseMembers(u[1..])
    else if StartsWith(u, CLOSE_OBJECT) then Ok([], u[1..])
    else Fail
  }

  lemma ItemsUnfold(t: Text)
    ensures match ParseValue(Skip(t))
            case Ok(v, rest) => ParseItems(t) == Chain([v], MoreItems(Skip(rest)))
            case Fail => ParseItems(t) == Fail
            case Overrun => ParseItems(t) == Overrun
  {
    hide ParseValue, Skip;
    var r := ParseValue(Skip(t));
    if r.Ok? {
      assert [r.value] + [] == [r.value];
    }
  }

  lemma MembersUnfold(t: Text)
    ensures match ParseMember(t)
            case Ok(m, rest) => ParseMembers(t) == Chain([m], MoreMembers(Skip(rest)))
            case Fail => ParseMembers(t) == Fail
            case Overrun => ParseMembers(t) == Overrun
  {
    hide ParseMember, Skip;
    var r := ParseMember(t);
    if r.Ok? {
      assert [r.value] + [] == [r.value];
    }
  }

  lemma ChainTwice<T>(xs: seq<T>, x: T, r: Parsed<seq<T>>)
    ensures Chain(xs, Chain([x], r)) == Chain(xs + [x], r)
  {
    if r.Ok? {
      assert xs + ([x] + r.value) == (xs + [x]) + r.value;
    }
  }

  // Values.

  method ReadValue(t: Text, i: nat) returns (ok: bool, v: Json, next: nat)
    requires i <= |t| && !ParseValue(t[i..]).Overrun?
    ensures ok <==> ParseValue(t[i..]).Ok?
    ensures ok ==> i < next <= |t| && ParseValue(t[i..]) == Ok(v, t[next..])
    decreases |t| - i, 1
  {
    hide ParseItems, ParseMembers, ParseNumber, Skip, Unescape, Defined;
    ghost var u := t[i..];
    ok, v, next := true, Null, i;
    if NULL_TEXT <= t[i..] {
      DropStep(t, i, 4);
      next := i + 4;
    } else if FALSE_TEXT <= t[i..] {
      DropStep(t, i, 5);
      v, next := False, i + 5;
    } else if TRUE_TEXT <= t[i..] {
      DropStep(t, i, 4);
      v, next := True, i + 4;
    } else if i == |t| {
      ok := false;
    } else if t[i] == QUOTE {
      DropStep(t, i, 1);
      var s, len;
      s, len, next := ReadString(t, i);
      v := String(s[..len]);
    } else if t[i] == MINUS || IsDigit(t[i]) {
      v, next := ReadNumber(t, i);
    } else if t[i] == OPEN_ARRAY {
      DropStep(t, i, 1);
      ok, v, next := ReadArray(t, i);
    } else if t[i] == OPEN_OBJECT {
      DropStep(t, i, 1);
      ok, v, next := ReadObject(t, i);
    } else {
      ok := false;
    }
  }

  lemma ArrayUnfold(t: Text)
    requires StartsWith(t, OPEN_ARRAY)
    ensures var u := Skip(t[1..]);
            ParseValue(t) ==
            if StartsWith(u, CLOSE_ARRAY) then Ok(Array([]), u[1..])
            else match ParseItems(u)
                 case Ok(items, rest) => Ok(Array(items), rest)
                 case Fail => Fail
                 case Overrun => Overrun
  {
    hide ParseNumber, ParseItems, ParseMembers, Skip;
  }

  method ReadArray(t: Text, i: nat) returns (ok: bool, v: Json, next: nat)
    requires i < |t| && t[i] == OPEN_ARRAY && !ParseValue(t[i..]).Overrun?
    ensures ok <==> ParseValue(t[i..]).Ok?
    ensures ok ==> i < next <= |t| && ParseValue(t[i..]) == Ok(v, t[next..])
    decreases |t| - i, 0
  {
    hide ParseValue, ParseItems, Skip;
    ArrayUnfold(t[i..]);
    DropStep(t, i, 1);
    v, next := Null, i;
    var from := SkipFrom(t, i + 1);
    if from < |t| && t[from] == CLOSE_ARRAY {
      DropStep(t, from, 1);
      return true, Array([]), from + 1;
    }
    var x, j;
    ItemsUnfold(t[from..]);
    j := SkipFrom(t, from);
    ok, x, j := ReadValue(t, j);
    if !ok {
      return;
    }
    j := SkipFrom(t, j);
    var items := [x];
    while j < |t| && t[j] == COMMA
      invariant i < j <= |t|
      invariant ParseItems(t[from..]) == Chain(items, MoreItems(t[j..]))
      decreases |t| - j
    {
      DropStep(t, j, 1);
      ItemsUnfold(t[j + 1..]);
      var k := SkipFrom(t, j + 1);
      ok, x, k := ReadValue(t, k);
      if !ok {
        return;
      }
      k := SkipFrom(t, k);
      ChainTwice(items, x, MoreItems(t[k..]));
      items, j := items + [x], k;
    }
    if j < |t| && t[j] == CLOSE_ARRAY {
      DropStep(t, j, 1);
      assert items + [] == items;
      return true, Array(items), j + 1;
    }
    ok := false;
  }

  method ReadMember(t: Text, i: nat) returns (ok: bool, m: Member, next: nat)
    requires i <= |t| && !ParseMember(t[i..]).Overrun?
    ensures ok <==> ParseMember(t[i..]).Ok?
    ensures ok ==> i < next <= |t| && ParseMember(t[i..]) == Ok(m, t[next..])
    decreases |t| - i, 2
  {
    hide ParseValue, Skip, Unescape, Defined;
    m, next := Member([], Null), i;
    var j := SkipFrom(t, i);
    if j == |t| || t[j] != QUOTE {
      return false, m, i;
    }
    DropStep(t, j, 1);
    var s, len;
    s, len, j := ReadString(t, j);
    var name := s[..len];
    j := SkipFrom(t, j);
    if j == |t| || t[j] != COLON {
      return false, m, i;
    }
    DropStep(t, j, 1);
    j := SkipFrom(t, j + 1);
    var v;
    ok, v, next := ReadValue(t, j);
    m := Member(name, v);
  }

  lemma ObjectUnfold(t: Text)
    requires StartsWith(t, OPEN_OBJECT)
    ensures var u := Skip(t[1..]);
            ParseValue(t) ==
            if StartsWith(u, CLOSE_OBJECT) then Ok(Object([]), u[1..])
            else match ParseMembers(u)
                 case Ok(ms, rest) => Ok(Object(ms), rest)
                 case Fail => Fail
                 case Overrun => Overrun
  {
    hide ParseNumber, ParseItems, ParseMembers, Skip;
  }

  method ReadObject(t: Text, i: nat) returns (ok: bool, v: Json, next: nat)
    requires i < |t| && t[i] == OPEN_OBJECT && !ParseValue(t[i..]).Overrun?
    ensures ok <==> ParseValue(t[i..]).Ok?
    ensures ok ==> i < next <= |t| && ParseValue(t[i..]) == Ok(v, t[next..])
    decreases |t| - i, 0
  {
    hide ParseValue, ParseMember, ParseMembers, Skip;
    ObjectUnfold(t[i..]);
    DropStep(t, i, 1);
    v, next := Null, i;
    var from := SkipFrom(t, i + 1);
    if from < |t| && t[from] == CLOSE_OBJECT {
      DropStep(t, from, 1);
      return true, Object([]), from + 1;
    }
    var m, j;
    MembersUnfold(t[from..]);
    ok, m, j := ReadMember(t, from);
    if !ok {
      return;
    }
    j := SkipFrom(t, j);
    var members := [m];
    while j < |t| && t[j] == COMMA
      invariant i < j <= |t|
      invariant ParseMembers(t[from..]) == Chain(members, MoreMembers(t[j..]))
      decreases |t| - j
    {
      DropStep(t, j, 1);
      MembersUnfold(t[j + 1..]);
      var k;
      ok, m, k := ReadMember(t, j + 1);
      if !ok {
        return;
      }
      k := SkipFrom(t, k);
      ChainTwice(members, m, MoreMembers(t[k..]));
      members, j := members + [m], k;
    }
    if j < |t| && t[j] == CLOSE_OBJECT {
      DropStep(t, j, 1);
      assert members + [] == members;
      return true, Object(members), j + 1;
    }
    ok := false;
  }

  /** A whole document, with the position its reading ended at. */
  method Read(t: Text, strict: bool) returns (ok: bool, v: Json, end: nat)
    requires !ParseText(t, strict).Overrun?
    ensures ok <==> ParseText(t, strict).Ok?
    ensures ok ==> end <= |t| && ParseText(t, strict) == Ok(v, t[end..])
  {
    hide ParseValue, Skip;
    assert t[0..] == t;
    end := SkipFrom(t, 0);
    ok, v, end := ReadValue(t, end);
    if ok && strict {
      end := SkipFrom(t, end);
      ok := end == |t|;
    }
  }
}
