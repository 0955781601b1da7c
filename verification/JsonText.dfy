/** JSON values and their text, as the printer lays it out. */
module JsonText {
  import opened Bytes

  type Text = seq<byte>

  const QUOTE: byte := 34
  const BACKSLASH: byte := 92
  const COMMA: byte := 44
  const COLON: byte := 58
  const SPACE: byte := 32
  const TAB: byte := 9
  const NEWLINE: byte := 10
  const MINUS: byte := 45
  const OPEN_ARRAY: byte := 91
  const CLOSE_ARRAY: byte := 93
  const OPEN_OBJECT: byte := 123
  const CLOSE_OBJECT: byte := 125

  const NULL_TEXT: Text := [110, 117, 108, 108]
  const FALSE_TEXT: Text := [102, 97, 108, 115, 101]
  const TRUE_TEXT: Text := [116, 114, 117, 101]

  predicate FormattedByte(b: byte) { 48 <= b <= 57 || b in {43, 45, 46, 101, 105, 110, 102, 97} }

  predicate IsFormatted(t: Text) { 0 < |t| < 64 && forall i :: 0 <= i < |t| ==> FormattedByte(t[i]) }

  /** What the C library makes of a double: digits, signs, a point, an exponent letter, or inf and nan. */
  type Formatted = t: Text | IsFormatted(t) witness [48]

  /** A Number is mantissa times ten to the exponent, as the parser reads it; a Double is any number that is not
      a 32-bit integer, known by its formatted text, as the printers need it. */
  datatype Json =
    | Null
    | False
    | True
    | Number(mantissa: int, exponent: int)
    | Double(shown: Formatted)
    | String(text: Text)
    | Array(items: seq<Json>)
    | Object(members: seq<Member>)

  datatype Member = Member(name: Text, value: Json)

  predicate NulFree(s: Text) { forall i :: 0 <= i < |s| ==> s[i] != 0 }

  const INT32_MIN := -0x8000_0000
  const INT32_MAX := 0x7fff_ffff

  /** All trees of C strings whose numbers are 32-bit integers or formatted doubles. */
  predicate Renderable(v: Json) {
    match v
    case Number(m, e) => e == 0 && INT32_MIN <= m <= INT32_MAX
    case String(s) => NulFree(s)
    case Array(items) => forall x :: x in items ==> Renderable(x)
    case Object(ms) => forall m :: m in ms ==> NulFree(m.name) && Renderable(m.value)
    case _ => true
  }

  /** Those whose numbers are 32-bit integers. */
  predicate Printable(v: Json) {
    match v
    case Number(m, e) => e == 0 && INT32_MIN <= m <= INT32_MAX
    case Double(_) => false
    case String(s) => NulFree(s)
    case Array(items) => forall x :: x in items ==> Printable(x)
    case Object(ms) => forall m :: m in ms ==> NulFree(m.name) && Printable(m.value)
    case _ => true
  }

  // Scalars.

  function Decimal(n: nat): (t: Text)
    ensures t != []
  {
    if n < 10 then [48 + n] else Decimal(n / 10) + [48 + n % 10]
  }

  function Integer(n: int): (t: Text)
    ensures t != []
  {
    if n < 0 then [MINUS] + Decimal(-n) else Decimal(n)
  }

  function HexDigit(d: nat): byte
    requires d < 16
  {
    if d < 10 then 48 + d else 87 + d
  }

  predicate NeedsEscape(b: byte) { b < 32 || b == QUOTE || b == BACKSLASH }

  /** One byte as it appears inside a string literal. */
  function EscapeByte(b: byte): (t: Text)
    ensures 1 <= |t| <= 6
  {
    if !NeedsEscape(b) then [b]
    else [BACKSLASH] + match b
      case 92 => [92]
      case 34 => [34]
      case 8 => [98]
      case 12 => [102]
      case 10 => [110]
      case 13 => [114]
      case 9 => [116]
      case _ => [117, 48, 48, HexDigit(b / 16), HexDigit(b % 16)]
  }

  function Escape(s: Text): Text {
    if s == [] then [] else EscapeByte(s[0]) + Escape(s[1..])
  }

  function Quoted(s: Text): Text { [QUOTE] + Escape(s) + [QUOTE] }

  // Layout.

  function Tabs(n: int): (t: Text)
    ensures |t| == if n < 0 then 0 else n
    ensures forall i :: 0 <= i < |t| ==> t[i] == TAB
  {
    seq(if n < 0 then 0 else n, i => TAB)
  }

  /** Layout that only the formatted form has. */
  function When(fmt: bool, t: Text): Text { if fmt then t else [] }

  function ItemSeparator(fmt: bool): Text { [COMMA] + When(fmt, [SPACE]) }

  function Opening(fmt: bool): Text { [OPEN_OBJECT] + When(fmt, [NEWLINE]) }

  function NameSeparator(fmt: bool): Text { [COLON] + When(fmt, [TAB]) }

  function MemberEnd(fmt: bool, more: bool): Text { (if more then [COMMA] else []) + When(fmt, [NEWLINE]) }

  function Print(v: Json, depth: int, fmt: bool): Text
    decreases v, 0
  {
    match v
    case Null => NULL_TEXT
    case False => FALSE_TEXT
    case True => TRUE_TEXT
    case Number(m, _) => Integer(m)
    case Double(t) => t
    case String(s) => Quoted(s)
    case Array(items) => [OPEN_ARRAY] + PrintItems(items, depth + 1, fmt) + [CLOSE_ARRAY]
    case Object(ms) =>
      if ms == [] then Opening(fmt) + When(fmt, Tabs(depth - 1)) + [CLOSE_OBJECT]
      else Opening(fmt) + PrintMembers(ms, depth + 1, fmt) + When(fmt, Tabs(depth)) + [CLOSE_OBJECT]
  }

  function PrintItems(items: seq<Json>, depth: int, fmt: bool): Text
    decreases items, 1
  {
    if items == [] then []
    else if |items| == 1 then Print(items[0], depth, fmt)
    else Print(items[0], depth, fmt) + ItemSeparator(fmt) + PrintItems(items[1..], depth, fmt)
  }

  function PrintMember(m: Member, depth: int, fmt: bool, more: bool): Text
    decreases m, 1
  {
    When(fmt, Tabs(depth)) + Quoted(m.name) + NameSeparator(fmt) + Print(m.value, depth, fmt) + MemberEnd(fmt, more)
  }

  function PrintMembers(ms: seq<Member>, depth: int, fmt: bool): Text
    decreases ms, 1
  {
    if ms == [] then [] else PrintMember(ms[0], depth, fmt, |ms| > 1) + PrintMembers(ms[1..], depth, fmt)
  }

  /** A text read from position i on, moved by n more. */
  lemma DropStep(t: Text, i: nat, n: nat)
    requires i + n <= |t|
    ensures t[i..][n..] == t[i + n..]
    ensures forall k :: 0 <= k < |t| - i ==> t[i..][k] == t[i + k]
  {
  }

  // Printed text is a C string.

  lemma {:induction false} DecimalBytes(n: nat)
    ensures forall i :: 0 <= i < |Decimal(n)| ==> 48 <= Decimal(n)[i] <= 57
  {
    if n >= 10 {
      DecimalBytes(n / 10);
    }
  }

  lemma NulFreeConcat(a: Text, b: Text)
    ensures NulFree(a + b) <==> NulFree(a) && NulFree(b)
  {
    if NulFree(a + b) {
      forall i | 0 <= i < |a|
        ensures a[i] != 0
      {
        assert (a + b)[i] == a[i];
      }
      forall i | 0 <= i < |b|
        ensures b[i] != 0
      {
        assert (a + b)[|a| + i] == b[i];
      }
    }
  }

  lemma {:induction false} EscapeNulFree(s: Text)
    ensures NulFree(Escape(s))
  {
    if s != [] {
      EscapeNulFree(s[1..]);
      NulFreeConcat(EscapeByte(s[0]), Escape(s[1..]));
    }
  }
}
