/** What the parser makes of a text, as functions on the text that is left. */
module JsonParse {
  import opened Bytes
  import opened JsonText
  import opened JsonString

  /** Overrun: a literal on which one of the two passes leaves the text, or the second one the space the first
      one counted. */
  datatype Parsed<T> = Ok(value: T, rest: Text) | Fail | Overrun

  /** A result whose value goes in front of the items still to be read. */
  function Prepend<T>(x: T, r: Parsed<seq<T>>): Parsed<seq<T>> {
    match r
    case Ok(xs, rest) => Ok([x] + xs, rest)
    case _ => r
  }

  function Skip(t: Text): (r: Text)
    ensures |r| <= |t|
  {
    if t != [] && t[0] <= 32 then Skip(t[1..]) else t
  }

  predicate StartsWith(t: Text, b: byte) { t != [] && t[0] == b }

  // Numbers, exactly: a decimal mantissa and a decimal exponent.

  predicate IsDigit(b: byte) { 48 <= b <= 57 }

  predicate StartsDigit(t: Text) { t != [] && IsDigit(t[0]) }

  function ReadDigits(n: nat, t: Text): (r: (nat, Text))
    ensures |r.1| <= |t|
    decreases |t|
  {
    if StartsDigit(t) then ReadDigits(n * 10 + (t[0] - 48) as nat, t[1..]) else (n, t)
  }

  function WholePart(t: Text): (r: (nat, Text))
    ensures |r.1| <= |t|
  {
    var u := if StartsWith(t, 48) then t[1..] else t;
    if u != [] && 49 <= u[0] <= 57 then ReadDigits(0, u) else (0, u)
  }

  function FractionPart(n: nat, t: Text): (r: (nat, int, Text))
    ensures |r.2| <= |t|
  {
    if StartsWith(t, 46) && StartsDigit(t[1..]) then
      var (m, u) := ReadDigits(n, t[1..]);
      (m, |u| - (|t| - 1), u)
    else (n, 0, t)
  }

  function ExponentPart(t: Text): (r: (int, Text))
    ensures |r.1| <= |t|
  {
    if t != [] && (t[0] == 101 || t[0] == 69) then
      var u := t[1..];
      var sign := if StartsWith(u, MINUS) then -1 else 1;
      var v := if StartsWith(u, 43) || StartsWith(u, MINUS) then u[1..] else u;
      var (s, w) := ReadDigits(0, v);
      (sign * s, w)
    else (0, t)
  }

  function Signed(negative: bool, n: int): int { if negative then -n else n }

  function ParseNumber(t: Text): (r: Parsed<Json>)
    requires t != [] && (t[0] == MINUS || IsDigit(t[0]))
    ensures r.Ok? && |r.rest| < |t|
  {
    var u := if t[0] == MINUS then t[1..] else t;
    WholeProgress(u);
    var (n, v) := WholePart(u);
    var (m, scale, w) := FractionPart(n, v);
    var (e, rest) := ExponentPart(w);
    Ok(Number(Signed(t[0] == MINUS, m), scale + e), rest)
  }

  lemma WholeProgress(t: Text)
    ensures StartsDigit(t) ==> |WholePart(t).1| < |t|
  {
  }

  // Values.

  function ParseString(t: Text): (r: Parsed<Text>)
    ensures r.Ok? ==> |r.rest| < |t|
  {
    if !StartsWith(t, QUOTE) then Fail
    else if !Defined(t[1..]) then Overrun
    else
      RestIsShorter(t[1..]);
      var s := Unescape(t[1..]);
      Ok(s.text, s.rest)
  }

  lemma RestIsShorter(t: Text)
    requires Defined(t)
    ensures Unescape(t).Scanned? && |Unescape(t).rest| <= |t|
  {
    StaysIff(t);
  }

  function ParseValue(t: Text): (r: Parsed<Json>)
    ensures r.Ok? ==> |r.rest| < |t|
    decreases |t|, 1
  {
    if NULL_TEXT <= t then Ok(Null, t[4..])
    else if FALSE_TEXT <= t then Ok(False, t[5..])
    else if TRUE_TEXT <= t then Ok(True, t[4..])
    else if t == [] then Fail
    else if t[0] == QUOTE then
      match ParseString(t)
      case Ok(s, rest) => Ok(String(s), rest)
      case Fail => Fail
      case Overrun => Overrun
    else if t[0] == MINUS || IsDigit(t[0]) then ParseNumber(t)
    else if t[0] == OPEN_ARRAY then
      var u := Skip(t[1..]);
      if StartsWith(u, CLOSE_ARRAY) then Ok(Array([]), u[1..])
      else match ParseItems(u)
           case Ok(items, rest) => Ok(Array(items), rest)
           case Fail => Fail
           case Overrun => Overrun
    else if t[0] == OPEN_OBJECT then
      var u := Skip(t[1..]);
      if StartsWith(u, CLOSE_OBJECT) then Ok(Object([]), u[1..])
      else match ParseMembers(u)
           case Ok(ms, rest) => Ok(Object(ms), rest)
           case Fail => Fail
           case Overrun => Overrun
    else Fail
  }

  /** One or more items and the closing bracket. */
  function ParseItems(t: Text): (r: Parsed<seq<Json>>)
    ensures r.Ok? ==> |r.rest| < |t|
    decreases |t|, 2
  {
    match ParseValue(Skip(t))
    case Ok(v, rest) =>
      var u := Skip(rest);
      if StartsWith(u, COMMA) then Prepend(v, ParseItems(u[1..]))
      else if StartsWith(u, CLOSE_ARRAY) then Ok([v], u[1..])
      else Fail
    case Fail => Fail
    case Overrun => Overrun
  }

  /** A name, a colon and a value. */
  function ParseMember(t: Text): (r: Parsed<Member>)
    ensures r.Ok? ==> |r.rest| < |t|
    decreases |t|, 2
  {
    match ParseString(Skip(t))
    case Ok(name, rest) =>
      var u := Skip(rest);
      if !StartsWith(u, COLON) then Fail
      else
        match ParseValue(Skip(u[1..])) {
          case Ok(v, after) => Ok(Member(name, v), after)
          case Fail => Fail
          case Overrun => Overrun
        }
    case Fail => Fail
    case Overrun => Overrun
  }

  function ParseMembers(t: Text): (r: Parsed<seq<Member>>)
    ensures r.Ok? ==> |r.rest| < |t|
    decreases |t|, 3
  {
    match ParseMember(t)
    case Ok(m, rest) =>
      var u := Skip(rest);
      if StartsWith(u, COMMA) then Prepend(m, ParseMembers(u[1..]))
      else if StartsWith(u, CLOSE_OBJECT) then Ok([m], u[1..])
      else Fail
    case Fail => Fail
    case Overrun => Overrun
  }

  /** A whole document; strict refuses anything but white space behind the value. */
  function ParseText(t: Text, strict: bool): Parsed<Json> {
    match ParseValue(Skip(t))
    case Ok(v, rest) =>
      if !strict then Ok(v, rest) else if Skip(rest) == [] then Ok(v, []) else Fail
    case r => r
  }
}
