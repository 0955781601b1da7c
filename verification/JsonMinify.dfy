/** Removing white space and comments in place. */
module JsonMinify {
  import opened Bytes
  import opened JsonText
  import opened JsonString

  const SLASH: byte := 47
  const STAR: byte := 42
  const RETURN: byte := 13

  predicate WhiteSpace(b: byte) { b == SPACE || b == TAB || b == RETURN || b == NEWLINE }

  // How far each construct reaches; beyond the text when the terminator comes first.

  function LineLength(t: Text): (n: nat)
    ensures n <= |t|
  {
    if t == [] || t[0] == NEWLINE then 0 else 1 + LineLength(t[1..])
  }

  function CommentLength(t: Text): (n: nat)
    ensures n >= 2
  {
    if t == [] || (|t| >= 2 && t[0] == STAR && t[1] == SLASH) then 2 else 1 + CommentLength(t[1..])
  }

  /** From behind the opening quote through the closing one. */
  function LiteralLength(t: Text): (n: nat)
    ensures n >= 1
    decreases |t|
  {
    if t == [] || t[0] == QUOTE then 1
    else if t[0] != BACKSLASH then 1 + LiteralLength(t[1..])
    else if |t| < 2 then 3
    else 2 + LiteralLength(t[2..])
  }

  /** The length of the next construct and whether it is kept. */
  function Construct(t: Text): (r: (nat, bool))
    requires t != []
    ensures r.0 >= 1
  {
    if WhiteSpace(t[0]) then (1, false)
    else if t[0] == SLASH && |t| >= 2 && t[1] == SLASH then (LineAtLeastOne(t); LineLength(t), false)
    else if t[0] == SLASH && |t| >= 2 && t[1] == STAR then (CommentLength(t), false)
    else if t[0] == QUOTE then (1 + LiteralLength(t[1..]), true)
    else (1, true)
  }

  lemma LineAtLeastOne(t: Text)
    requires t != [] && t[0] != NEWLINE
    ensures LineLength(t) >= 1
  {
  }

  /** No literal or comment is left open. */
  predicate Complete(t: Text)
    decreases |t|
  {
    t == [] || (var n := Construct(t).0; n <= |t| && Complete(t[n..]))
  }

  /** Where the reader stops; beyond the text once a construct takes it past the terminator. */
  function StopsAt(t: Text): nat
    decreases |t|
  {
    if t == [] then 0
    else
      var n := Construct(t).0;
      if n > |t| then n else n + StopsAt(t[n..])
  }

  /** The reader ends on the terminator of complete texts, and runs past it on all others. */
  lemma {:induction false} StopsIff(t: Text)
    ensures StopsAt(t) <= |t| <==> Complete(t)
    ensures Complete(t) ==> StopsAt(t) == |t|
    decreases |t|
  {
    if t != [] && Construct(t).0 <= |t| {
      StopsIff(t[Construct(t).0..]);
    }
  }

  lemma {:induction false} OpenLiteralLength(t: Text)
    requires forall i :: 0 <= i < |t| ==> t[i] != QUOTE && t[i] != BACKSLASH
    ensures LiteralLength(t) == |t| + 1
  {
    if t != [] {
      OpenLiteralLength(t[1..]);
    }
  }

  lemma {:induction false} OpenCommentLength(t: Text)
    requires forall i :: 0 <= i < |t| ==> t[i] != SLASH
    ensures CommentLength(t) == |t| + 2
  {
    if t != [] {
      OpenCommentLength(t[1..]);
    }
  }

  /** A literal that is never closed takes the reader past the terminator ... */
  lemma OpenLiteral(body: Text)
    requires forall i :: 0 <= i < |body| ==> body[i] != QUOTE && body[i] != BACKSLASH
    ensures StopsAt([QUOTE] + body) > |[QUOTE] + body|
  {
    hide LiteralLength, CommentLength, LineLength;
    assert ([QUOTE] + body)[1..] == body;
    OpenLiteralLength(body);
  }

  /** ... and so does a comment. */
  lemma OpenComment(body: Text)
    requires forall i :: 0 <= i < |body| ==> body[i] != SLASH
    ensures StopsAt([SLASH, STAR] + body) > |[SLASH, STAR] + body|
  {
    var t := [SLASH, STAR] + body;
    assert CommentLength(t) == |t| + 2 by {
      assert t[1..] == [STAR] + body;
      OpenCommentLength([STAR] + body);
    }
    hide LiteralLength, CommentLength, LineLength;
    assert t[0] == SLASH && t[1] == STAR;
  }

  function MinifyText(t: Text): Text
    requires Complete(t)
    decreases |t|
  {
    if t == [] then []
    else
      var (n, keep) := Construct(t);
      (if keep then t[..n] else []) + MinifyText(t[n..])
  }

  // Formatted text becomes unformatted text.

  lemma OneConstruct(c: Text, rest: Text)
    requires c != [] && Complete(rest)
    requires Construct(c + rest).0 == |c|
    ensures Complete(c + rest)
    ensures MinifyText(c + rest) == (if Construct(c + rest).1 then c else []) + MinifyText(rest)
  {
    assert (c + rest)[|c|..] == rest && (c + rest)[..|c|] == c;
  }

  predicate PlainByte(b: byte) { !WhiteSpace(b) && b != SLASH && b != QUOTE }

  predicate Plain(t: Text) { forall i :: 0 <= i < |t| ==> PlainByte(t[i]) }

  lemma OneByte(b: byte, rest: Text)
    requires Complete(rest) && (PlainByte(b) || WhiteSpace(b))
    ensures Complete([b] + rest)
    ensures MinifyText([b] + rest) == if PlainByte(b) then [b] + MinifyText(rest) else MinifyText(rest)
  {
    hide Complete, MinifyText, LiteralLength, CommentLength, LineLength;
    OneConstruct([b], rest);
    assert [] + MinifyText(rest) == MinifyText(rest);
  }

  lemma {:induction false} PlainKept(p: Text, rest: Text)
    requires Plain(p) && Complete(rest)
    ensures Complete(p + rest) && MinifyText(p + rest) == p + MinifyText(rest)
    decreases |p|
  {
    hide Complete, MinifyText, WhiteSpace;
    if p == [] {
      assert p + rest == rest;
    } else {
      PlainKept(p[1..], rest);
      OneByte(p[0], p[1..] + rest);
      assert [p[0]] + (p[1..] + rest) == p + rest;
      assert [p[0]] + (p[1..] + MinifyText(rest)) == p + MinifyText(rest);
    }
  }

  predicate Blank(t: Text) { forall i :: 0 <= i < |t| ==> WhiteSpace(t[i]) }

  lemma {:induction false} BlankDropped(ws: Text, rest: Text)
    requires Blank(ws) && Complete(rest)
    ensures Complete(ws + rest) && MinifyText(ws + rest) == MinifyText(rest)
    decreases |ws|
  {
    hide Complete, MinifyText, WhiteSpace;
    if ws == [] {
      assert ws + rest == rest;
    } else {
      BlankDropped(ws[1..], rest);
      OneByte(ws[0], ws[1..] + rest);
      assert [ws[0]] + (ws[1..] + rest) == ws + rest;
    }
  }

  lemma {:induction false} LiteralReach(t: Text, tail: Text)
    requires Chars(t) && tail != [] && tail[0] == QUOTE
    ensures LiteralLength(t + tail) == |t| + 1
    decreases |t|
  {
    if t == [] {
      assert t + tail == tail;
    } else if Unescaped(t[0]) {
      DropOfSum(t, tail, 1);
      LiteralReach(t[1..], tail);
    } else if t[1] != LETTER_U {
      DropOfSum(t, tail, 2);
      LiteralReach(t[2..], tail);
    } else {
      DropOfSum(t, tail, 2);
      DropOfSum(t, tail, 6);
      LiteralReach(t[6..], tail);
      DigitsReach((t + tail)[2..]);
      assert (t + tail)[2..][4..] == (t + tail)[6..];
    }
  }

  lemma DigitsReach(t: Text)
    requires HexOk(t)
    ensures LiteralLength(t) == 4 + LiteralLength(t[4..])
  {
    assert t[1..][0] == t[1] && t[2..][0] == t[2] && t[3..][0] == t[3];
    assert t[1..][1..] == t[2..] && t[2..][1..] == t[3..] && t[3..][1..] == t[4..];
    assert LiteralLength(t[2..]) == 2 + LiteralLength(t[4..]);
  }

  lemma LiteralKept(s: Text, rest: Text)
    requires Complete(rest)
    ensures Complete(Quoted(s) + rest) && MinifyText(Quoted(s) + rest) == Quoted(s) + MinifyText(rest)
  {
    hide Complete, MinifyText, LiteralLength, CommentLength, LineLength, Escape, Chars;
    var t := Quoted(s) + rest;
    EscapeIsChars(s);
    LiteralReach(Escape(s), [QUOTE] + rest);
    assert t[0] == QUOTE && t[1..] == Escape(s) + ([QUOTE] + rest);
    OneConstruct(Quoted(s), rest);
  }

  lemma ScalarIsPlain(v: Json)
    requires v.Null? || v.False? || v.True? || v.Number? || v.Double?
    ensures Plain(Print(v, 0, false)) && forall depth, fmt :: Print(v, depth, fmt) == Print(v, 0, false)
  {
    if v.Number? {
      DecimalBytes(if v.mantissa < 0 then -v.mantissa else v.mantissa);
    }
  }

  lemma {:induction false} ValueMinified(v: Json, depth: int, other: int, fmt: bool, rest: Text)
    requires Complete(rest)
    ensures Complete(Print(v, depth, fmt) + rest)
    ensures MinifyText(Print(v, depth, fmt) + rest) == Print(v, other, false) + MinifyText(rest)
    decreases v, 0
  {
    hide Complete, MinifyText, PrintItems, PrintMembers;
    match v
    case String(s) => LiteralKept(s, rest);
    case Array(items) => ArrayMinified(items, depth, other, fmt, rest);
    case Object(ms) => ObjectMinified(ms, depth, other, fmt, rest);
    case _ =>
      ScalarIsPlain(v);
      PlainKept(Print(v, 0, false), rest);
  }

  lemma {:induction false} ArrayMinified(items: seq<Json>, depth: int, other: int, fmt: bool, rest: Text)
    requires Complete(rest)
    ensures Complete(Print(Array(items), depth, fmt) + rest)
    ensures MinifyText(Print(Array(items), depth, fmt) + rest) == Print(Array(items), other, false) + MinifyText(rest)
    decreases items, 2
  {
    hide Complete, MinifyText, PrintItems;
    var close := [CLOSE_ARRAY] + rest;
    PlainKept([CLOSE_ARRAY], rest);
    ItemsMinified(items, depth + 1, other + 1, fmt, close);
    PlainKept([OPEN_ARRAY], PrintItems(items, depth + 1, fmt) + close);
    assert Print(Array(items), depth, fmt) + rest == [OPEN_ARRAY] + (PrintItems(items, depth + 1, fmt) + close);
  }

  lemma {:induction false} ItemsMinified(items: seq<Json>, depth: int, other: int, fmt: bool, close: Text)
    requires Complete(close)
    ensures Complete(PrintItems(items, depth, fmt) + close)
    ensures MinifyText(PrintItems(items, depth, fmt) + close) == PrintItems(items, other, false) + MinifyText(close)
    decreases items, 1
  {
    hide Complete, MinifyText, Print;
    if items == [] {
      assert [] + close == close;
    } else if |items| == 1 {
      ValueMinified(items[0], depth, other, fmt, close);
    } else {
      hide PrintItems;
      var gap := When(fmt, [SPACE]);
      var later := PrintItems(items[1..], depth, fmt) + close;
      ItemsMinified(items[1..], depth, other, fmt, close);
      BlankDropped(gap, later);
      PlainKept([COMMA], gap + later);
      ValueMinified(items[0], depth, other, fmt, [COMMA] + (gap + later));
      ItemsCut(items, depth, fmt, close);
      ItemsCut(items, other, false, MinifyText(close));
      assert [COMMA] + ([] + (PrintItems(items[1..], other, false) + MinifyText(close)))
          == [COMMA] + (PrintItems(items[1..], other, false) + MinifyText(close));
    }
  }

  lemma ItemsCut(items: seq<Json>, depth: int, fmt: bool, close: Text)
    requires items != []
    ensures PrintItems(items, depth, fmt) + close ==
            Print(items[0], depth, fmt) +
            if |items| == 1 then close
            else [COMMA] + (When(fmt, [SPACE]) + (PrintItems(items[1..], depth, fmt) + close))
  {
    hide Print;
  }

  lemma ObjectLayout(ms: seq<Member>, depth: int, fmt: bool, rest: Text)
    ensures Print(Object(ms), depth, fmt) + rest ==
            [OPEN_OBJECT] + (When(fmt, [NEWLINE]) +
            if ms == [] then When(fmt, Tabs(depth - 1)) + ([CLOSE_OBJECT] + rest)
            else PrintMembers(ms, depth + 1, fmt) + (When(fmt, Tabs(depth)) + ([CLOSE_OBJECT] + rest)))
  {
    hide PrintMembers, When, Tabs;
  }

  /** A member's text, from its tabs to what follows its value. */
  function MemberText(m: Member, depth: int, fmt: bool, after: Text): Text {
    When(fmt, Tabs(depth)) + (Quoted(m.name) + ([COLON] + (When(fmt, [TAB]) + (Print(m.value, depth, fmt) + after))))
  }

  function AfterMember(ms: seq<Member>, depth: int, fmt: bool, tail: Text): Text
    requires ms != []
  {
    (if |ms| > 1 then [COMMA] else []) + (When(fmt, [NEWLINE]) + (PrintMembers(ms[1..], depth, fmt) + tail))
  }

  lemma MembersCut(ms: seq<Member>, depth: int, fmt: bool, tail: Text)
    requires ms != []
    ensures PrintMembers(ms, depth, fmt) + tail == MemberText(ms[0], depth, fmt, AfterMember(ms, depth, fmt, tail))
  {
    hide When, Tabs, Quoted, Print;
  }

  lemma LayoutIsBlank(fmt: bool, n: int)
    ensures Blank(When(fmt, Tabs(n))) && Blank(When(fmt, [NEWLINE])) && Blank(When(fmt, [TAB]))
  {
  }

  lemma {:induction false} ObjectMinified(ms: seq<Member>, depth: int, other: int, fmt: bool, rest: Text)
    requires Complete(rest)
    ensures Complete(Print(Object(ms), depth, fmt) + rest)
    ensures MinifyText(Print(Object(ms), depth, fmt) + rest) == Print(Object(ms), other, false) + MinifyText(rest)
    decreases ms, 4
  {
    hide Complete, MinifyText, Print, PrintMembers, Tabs, Blank;
    var close := [CLOSE_OBJECT] + rest;
    var gap := When(fmt, [NEWLINE]);
    var tabs := When(fmt, Tabs(if ms == [] then depth - 1 else depth));
    LayoutIsBlank(fmt, if ms == [] then depth - 1 else depth);
    PlainKept([CLOSE_OBJECT], rest);
    BlankDropped(tabs, close);
    var body := if ms == [] then tabs + close else PrintMembers(ms, depth + 1, fmt) + (tabs + close);
    if ms != [] {
      MembersMinified(ms, depth + 1, other + 1, fmt, tabs + close);
    }
    BlankDropped(gap, body);
    PlainKept([OPEN_OBJECT], gap + body);
    ObjectLayout(ms, depth, fmt, rest);
    ObjectLayout(ms, other, false, MinifyText(rest));
    Unformatted(ms, other, MinifyText(rest));
  }

  lemma Unformatted(ms: seq<Member>, depth: int, rest: Text)
    ensures Print(Object(ms), depth, false) + rest ==
            [OPEN_OBJECT] + (if ms == [] then [CLOSE_OBJECT] + rest else PrintMembers(ms, depth + 1, false) + ([CLOSE_OBJECT] + rest))
  {
    hide PrintMembers;
  }

  lemma UnformattedMembers(ms: seq<Member>, depth: int, tail: Text)
    requires ms != []
    ensures PrintMembers(ms, depth, false) + tail ==
            Quoted(ms[0].name) + ([COLON] + (Print(ms[0].value, depth, false) +
            ((if |ms| > 1 then [COMMA] else []) + (PrintMembers(ms[1..], depth, false) + tail))))
  {
    hide Quoted, Print;
  }

  lemma {:induction false} MembersMinified(ms: seq<Member>, depth: int, other: int, fmt: bool, tail: Text)
    requires Complete(tail)
    ensures Complete(PrintMembers(ms, depth, fmt) + tail)
    ensures MinifyText(PrintMembers(ms, depth, fmt) + tail) == PrintMembers(ms, other, false) + MinifyText(tail)
    decreases ms, 3
  {
    hide Complete, MinifyText, Print, PrintMember, Tabs, Blank, Quoted, When;
    if ms == [] {
      assert [] + tail == tail;
    } else {
      hide PrintMembers;
      var m := ms[0];
      var later := PrintMembers(ms[1..], depth, fmt) + tail;
      var comma := if |ms| > 1 then [COMMA] else [];
      var after := comma + (When(fmt, [NEWLINE]) + later);
      LayoutIsBlank(fmt, depth);
      MembersMinified(ms[1..], depth, other, fmt, tail);
      BlankDropped(When(fmt, [NEWLINE]), later);
      PlainKept(comma, When(fmt, [NEWLINE]) + later);
      MemberMinified(m, depth, other, fmt, after);
      MembersCut(ms, depth, fmt, tail);
      UnformattedMembers(ms, other, MinifyText(tail));
    }
  }

  lemma {:induction false} MemberMinified(m: Member, depth: int, other: int, fmt: bool, after: Text)
    requires Complete(after)
    ensures var t := MemberText(m, depth, fmt, after);
            Complete(t) && MinifyText(t) == Quoted(m.name) + ([COLON] + (Print(m.value, other, false) + MinifyText(after)))
    decreases m, 1
  {
    hide Complete, MinifyText, Print, Tabs, Blank, Quoted, When;
    var value := Print(m.value, depth, fmt) + after;
    LayoutIsBlank(fmt, depth);
    ValueMinified(m.value, depth, other, fmt, after);
    BlankDropped(When(fmt, [TAB]), value);
    PlainKept([COLON], When(fmt, [TAB]) + value);
    LiteralKept(m.name, [COLON] + (When(fmt, [TAB]) + value));
    BlankDropped(When(fmt, Tabs(depth)), Quoted(m.name) + ([COLON] + (When(fmt, [TAB]) + value)));
  }

  /** Minifying the formatted text of any tree gives its unformatted text, and minifying that changes nothing. */
  lemma MinifyPrint(v: Json, fmt: bool)
    ensures Complete(Print(v, 0, fmt)) && MinifyText(Print(v, 0, fmt)) == Print(v, 0, false)
  {
    var t := Print(v, 0, fmt);
    assert t + [] == t && Print(v, 0, false) + [] == Print(v, 0, false);
    ValueMinified(v, 0, 0, fmt, []);
  }

  // In place: the write position never passes the read position.

  /** The part of the text from r on, and its terminator, are still in the array. */
  ghost predicate Unread(json: array<byte>, t: Text, r: nat)
    reads json
  {
    && |t| < json.Length && json[|t|] == 0
    && (forall i :: 0 <= i < |t| ==> t[i] != 0)
    && (forall i :: r <= i < |t| ==> json[i] == t[i])
  }

  method SkipLine(json: array<byte>, ghost t: Text, r: nat) returns (r': nat)
    requires r <= |t| && Unread(json, t, r)
    ensures r' == r + LineLength(t[r..]) <= |t|
  {
    r' := r;
    while json[r'] != 0 && json[r'] != NEWLINE
      invariant r <= r' <= |t| && r' + LineLength(t[r'..]) == r + LineLength(t[r..])
      decreases |t| - r'
    {
      DropStep(t, r', 1);
      r' := r' + 1;
    }
  }

  method SkipComment(json: array<byte>, ghost t: Text, r: nat) returns (r': nat)
    requires r <= |t| && Unread(json, t, r) && r + CommentLength(t[r..]) <= |t|
    ensures r' == r + CommentLength(t[r..])
  {
    r' := r;
    while json[r'] != 0 && !(json[r'] == STAR && json[r' + 1] == SLASH)
      invariant r <= r' <= |t| && r' + CommentLength(t[r'..]) == r + CommentLength(t[r..])
      decreases |t| - r'
    {
      DropStep(t, r', 1);
      r' := r' + 1;
    }
    if r' < |t| {
      DropStep(t, r', 1);
    }
    r' := r' + 2;
  }

  method CopyByte(json: array<byte>, ghost t: Text, w: nat, r: nat)
    requires w <= r < |t| && Unread(json, t, r)
    modifies json
    ensures Unread(json, t, r + 1)
    ensures json[..w + 1] == old(json[..w]) + [t[r]]
  {
    json[w] := json[r];
  }

  lemma LiteralStep(t: Text, r: nat)
    requires r <= |t| && r + LiteralLength(t[r..]) <= |t|
    ensures r < |t|
    ensures t[r] != QUOTE && t[r] != BACKSLASH ==> LiteralLength(t[r..]) == 1 + LiteralLength(t[r + 1..])
    ensures t[r] == BACKSLASH ==> r + 2 <= |t| && LiteralLength(t[r..]) == 2 + LiteralLength(t[r + 2..])
    ensures t[r] == QUOTE ==> LiteralLength(t[r..]) == 1
  {
    DropStep(t, r, 1);
    if t[r] == BACKSLASH && r + 2 <= |t| {
      DropStep(t, r, 2);
    }
  }

  /** One more byte of the literal that starts at from. */
  method CopyNext(json: array<byte>, ghost t: Text, w: nat, r: nat, ghost head: Text, ghost from: nat)
    requires w <= r < |t| && from <= r && Unread(json, t, r)
    requires json[..w] == head + t[from..r]
    modifies json
    ensures Unread(json, t, r + 1)
    ensures json[..w + 1] == head + t[from..r + 1]
  {
    CopyByte(json, t, w, r);
    assert t[from..r + 1] == t[from..r] + [t[r]];
  }

  method CopyLiteral(json: array<byte>, ghost t: Text, w: nat, r: nat) returns (w': nat, r': nat)
    requires w <= r < |t| && Unread(json, t, r) && t[r] == QUOTE
    requires r + 1 + LiteralLength(t[r + 1..]) <= |t|
    modifies json
    ensures r' == r + 1 + LiteralLength(t[r + 1..]) && w' <= r' && w' - w == r' - r
    ensures Unread(json, t, r')
    ensures json[..w'] == old(json[..w]) + t[r..r']
  {
    hide LiteralLength;
    ghost var head := json[..w];
    ghost var end := r + 1 + LiteralLength(t[r + 1..]);
    assert head + t[r..r] == head;
    CopyNext(json, t, w, r, head, r);
    w', r' := w + 1, r + 1;
    LiteralStep(t, r');
    while json[r'] != 0 && json[r'] != QUOTE
      invariant r < r' < |t| < json.Length && w' - w == r' - r && Unread(json, t, r')
      invariant r' + LiteralLength(t[r'..]) == end <= |t|
      invariant json[..w'] == head + t[r..r']
      decreases |t| - r'
    {
      w', r' := CopyChar(json, t, w', r', head, r, end);
    }
    LiteralStep(t, r');
    CopyNext(json, t, w', r', head, r);
    w', r' := w' + 1, r' + 1;
  }

  /** A character of a literal, or an escape. */
  method CopyChar(json: array<byte>, ghost t: Text, w: nat, r: nat, ghost head: Text, ghost from: nat, ghost end: nat)
    returns (w': nat, r': nat)
    requires w <= r < |t| && from <= r && Unread(json, t, r) && t[r] != QUOTE
    requires r + LiteralLength(t[r..]) == end <= |t|
    requires json[..w] == head + t[from..r]
    modifies json
    ensures r < r' < |t| && w' - w == r' - r && Unread(json, t, r')
    ensures r' + LiteralLength(t[r'..]) == end
    ensures json[..w'] == head + t[from..r']
  {
    hide LiteralLength;
    w', r' := w, r;
    LiteralStep(t, r);
    if json[r] == BACKSLASH {
      CopyNext(json, t, w, r, head, from);
      w', r' := w + 1, r + 1;
    }
    CopyNext(json, t, w', r', head, from);
    w', r' := w' + 1, r' + 1;
    LiteralStep(t, r');
  }

  lemma NextConstruct(t: Text, r: nat, head: Text, whole: Text)
    requires r < |t| && Complete(t[r..]) && whole == head + MinifyText(t[r..])
    ensures var (n, keep) := Construct(t[r..]);
            && r + n <= |t| && Complete(t[r + n..])
            && whole == head + (if keep then t[r..r + n] else []) + MinifyText(t[r + n..])
  {
    var n := Construct(t[r..]).0;
    DropStep(t, r, n);
    assert t[r..][..n] == t[r..r + n];
  }

  /** The array ends up holding the minified text and its terminator. */
  method MinifyInPlace(json: array<byte>, ghost t: Text)
    requires |t| < json.Length && json[..|t|] == t && json[|t|] == 0 && NulFree(t) && Complete(t)
    modifies json
    ensures var m := MinifyText(t); |m| <= |t| && json[..|m|] == m && json[|m|] == 0
  {
    hide Complete, MinifyText, LiteralLength, CommentLength, LineLength, NulFree;
    ghost var whole := MinifyText(t);
    Start(t);
    StartUnread(json, t);
    var w: nat, r: nat := 0, 0;
    while json[r] != 0
      invariant w <= r <= |t| < json.Length && Unread(json, t, r)
      invariant Complete(t[r..]) && whole == json[..w] + MinifyText(t[r..])
      decreases |t| - r
    {
      NextConstruct(t, r, json[..w], whole);
      DropStep(t, r, 1);
      assert json[..w] + [] == json[..w];
      if WhiteSpace(json[r]) {
        r := r + 1;
      } else if json[r] == SLASH && json[r + 1] == SLASH {
        r := SkipLine(json, t, r);
      } else if json[r] == SLASH && json[r + 1] == STAR {
        r := SkipComment(json, t, r);
      } else if json[r] == QUOTE {
        w, r := CopyLiteral(json, t, w, r);
      } else {
        assert t[r..r + 1] == [t[r]];
        CopyByte(json, t, w, r);
        w, r := w + 1, r + 1;
      }
    }
    Finish(t, r, json[..w]);
    json[w] := 0;
  }

  lemma Start(t: Text)
    requires Complete(t)
    ensures t[0..] == t && [] + MinifyText(t) == MinifyText(t)
  {
  }

  lemma StartUnread(json: array<byte>, t: Text)
    requires |t| < json.Length && json[..|t|] == t && json[|t|] == 0 && NulFree(t)
    ensures Unread(json, t, 0)
  {
    forall i | 0 <= i < |t|
      ensures json[i] == t[i]
    {
      assert json[..|t|][i] == t[i];
    }
  }

  lemma Finish(t: Text, r: nat, head: Text)
    requires r == |t|
    ensures Complete(t[r..]) && head + MinifyText(t[r..]) == head
  {
  }
}
