/** What minifying means, without following the reader: a text is a row of blanks, comments, literals and other
    bytes, and minifying keeps the literals and the other bytes. */
module JsonTokens {
  import opened Bytes
  import opened JsonText
  import opened JsonMinify

  datatype Token =
    | Gap(b: byte)
    | Line(inside: Text)
    | Block(inside: Text)
    | Slashed
    | Literal(inside: Text)
    | Other(b: byte)

  /** Slashed is the three bytes that the reader takes for a whole comment: its closing mark shares the star of
      its opening mark. */
  function Spelled(k: Token): (t: Text)
    ensures t != []
  {
    match k
    case Gap(b) => [b]
    case Line(c) => [47, 47] + c
    case Block(c) => [47, 42] + c + [42, 47]
    case Slashed => [47, 42, 47]
    case Literal(c) => [34] + c + [34]
    case Other(b) => [b]
  }

  function Shown(k: Token): Text {
    match k
    case Literal(c) => [34] + c + [34]
    case Other(b) => [b]
    case _ => []
  }

  predicate Closes(t: Text, i: nat)
    requires i + 1 < |t|
  {
    t[i] == 42 && t[i + 1] == 47
  }

  /** The closing mark comes at the end and not before. */
  predicate FirstClose(c: Text) {
    (c != [] ==> c[0] != 47) && forall i :: 0 <= i < |c| ==> !Closes(c + [42, 47], i)
  }

  predicate LiteralInside(c: Text)
    decreases |c|
  {
    c == [] ||
    (c[0] != 34 && c[0] != 92 && LiteralInside(c[1..])) ||
    (c[0] == 92 && |c| >= 2 && LiteralInside(c[2..]))
  }

  /** The token can stand before the text that follows. */
  predicate Fits(k: Token, next: Text) {
    match k
    case Gap(b) => b in {9, 10, 13, 32}
    case Line(c) => (forall i :: 0 <= i < |c| ==> c[i] != 10) && (next != [] ==> next[0] == 10)
    case Block(c) => FirstClose(c)
    case Slashed => true
    case Literal(c) => LiteralInside(c)
    case Other(b) => b !in {9, 10, 13, 32, 34} && (b == 47 && next != [] ==> next[0] !in {42, 47})
  }

  function Spell(ks: seq<Token>): Text { if ks == [] then [] else Spelled(ks[0]) + Spell(ks[1..]) }

  function Show(ks: seq<Token>): Text { if ks == [] then [] else Shown(ks[0]) + Show(ks[1..]) }

  predicate Row(ks: seq<Token>) { ks == [] || (Fits(ks[0], Spell(ks[1..])) && Row(ks[1..])) }

  // How far the reader gets in each token.

  lemma {:induction false} LineReach(c: Text, next: Text)
    requires (forall i :: 0 <= i < |c| ==> c[i] != 10) && (next != [] ==> next[0] == 10)
    ensures LineLength(c + next) == |c|
  {
    if c == [] {
      assert c + next == next;
    } else {
      assert (c + next)[1..] == c[1..] + next;
      LineReach(c[1..], next);
    }
  }

  lemma {:induction false} CloseReach(t: Text, n: nat)
    requires n + 1 < |t| && Closes(t, n) && forall i :: 0 <= i < n ==> !Closes(t, i)
    ensures CommentLength(t) == n + 2
    decreases n
  {
    if n > 0 {
      assert !Closes(t, 0);
      forall i | 0 <= i < n - 1
        ensures !Closes(t[1..], i)
      {
        assert !Closes(t, i + 1);
      }
      CloseReach(t[1..], n - 1);
    }
  }

  lemma BlockReach(c: Text, next: Text)
    requires FirstClose(c)
    ensures CommentLength([47, 42] + c + [42, 47] + next) == |c| + 4
  {
    var t := [47, 42] + c + [42, 47] + next;
    forall i | 0 <= i < |c| + 2
      ensures !Closes(t, i)
    {
      if i >= 2 {
        assert t[i] == (c + [42, 47])[i - 2] && t[i + 1] == (c + [42, 47])[i - 1];
        assert !Closes(c + [42, 47], i - 2);
      }
    }
    CloseReach(t, |c| + 2);
  }

  lemma {:induction false} InsideReach(c: Text, next: Text)
    requires LiteralInside(c)
    ensures LiteralLength(c + ([34] + next)) == |c| + 1
    decreases |c|
  {
    var t := c + ([34] + next);
    if c == [] {
      assert t == [34] + next;
    } else if c[0] != 92 {
      assert t[1..] == c[1..] + ([34] + next);
      InsideReach(c[1..], next);
    } else {
      assert t[2..] == c[2..] + ([34] + next);
      InsideReach(c[2..], next);
    }
  }

  lemma LineConstruct(c: Text, next: Text)
    requires Fits(Line(c), next)
    ensures Construct(Spelled(Line(c)) + next) == (|c| + 2, false)
  {
    hide LineLength;
    var t := Spelled(Line(c)) + next;
    assert t == ([47, 47] + c) + next && t[0] == 47 && t[1] == 47;
    LineReach([47, 47] + c, next);
  }

  lemma BlockConstruct(c: Text, next: Text)
    requires Fits(Block(c), next)
    ensures Construct(Spelled(Block(c)) + next) == (|c| + 4, false)
  {
    hide CommentLength;
    var t := Spelled(Block(c)) + next;
    assert t[0] == 47 && t[1] == 42;
    BlockReach(c, next);
  }

  lemma SlashedConstruct(next: Text)
    ensures Construct(Spelled(Slashed) + next) == (3, false)
  {
    hide CommentLength;
    var t := Spelled(Slashed) + next;
    assert !Closes(t, 0) && Closes(t, 1);
    CloseReach(t, 1);
  }

  lemma LiteralConstruct(c: Text, next: Text)
    requires Fits(Literal(c), next)
    ensures Construct(Spelled(Literal(c)) + next) == (|c| + 2, true)
  {
    hide LiteralLength;
    var t := Spelled(Literal(c)) + next;
    assert t[0] == 34 && t[1..] == c + ([34] + next);
    InsideReach(c, next);
  }

  lemma ByteConstruct(b: byte, next: Text)
    requires Fits(Gap(b), next) || Fits(Other(b), next)
    ensures Construct([b] + next) == (1, Fits(Other(b), next))
  {
    hide LineLength, CommentLength, LiteralLength;
    var t := [b] + next;
    assert t[0] == b && (next != [] ==> t[1] == next[0]);
  }

  /** One token in front of a complete text: blanks and comments go, literals and other bytes stay. */
  lemma TokenMinified(k: Token, next: Text)
    requires Complete(next) && Fits(k, next)
    ensures Complete(Spelled(k) + next) && MinifyText(Spelled(k) + next) == Shown(k) + MinifyText(next)
  {
    hide Complete, MinifyText, Construct, Fits;
    match k {
      case Gap(b) => ByteConstruct(b, next); GapIsNotOther(b, next);
      case Line(c) => LineConstruct(c, next);
      case Block(c) => BlockConstruct(c, next);
      case Slashed => SlashedConstruct(next);
      case Literal(c) => LiteralConstruct(c, next);
      case Other(b) => ByteConstruct(b, next);
    }
    OneConstruct(Spelled(k), next);
  }

  lemma GapIsNotOther(b: byte, next: Text)
    requires Fits(Gap(b), next)
    ensures !Fits(Other(b), next)
  {
  }

  /** Minifying any row of tokens leaves what the row shows. */
  lemma {:induction false} RowMinified(ks: seq<Token>)
    requires Row(ks)
    ensures Complete(Spell(ks)) && MinifyText(Spell(ks)) == Show(ks)
  {
    hide Complete, MinifyText, Fits;
    if ks == [] {
      NothingMinified();
    } else {
      RowMinified(ks[1..]);
      TokenMinified(ks[0], Spell(ks[1..]));
    }
  }

  lemma NothingMinified()
    ensures Complete([]) && MinifyText([]) == []
  {
  }

  // Every complete text is a row of tokens, so the law above covers all of them.

  lemma {:induction false} LineEnd(t: Text)
    ensures var n := LineLength(t);
            (forall i :: 0 <= i < n ==> t[i] != 10) && (n < |t| ==> t[n] == 10)
  {
    if t != [] && t[0] != 10 {
      LineEnd(t[1..]);
    }
  }

  lemma {:induction false} CommentEnd(t: Text)
    requires CommentLength(t) <= |t|
    ensures var n := CommentLength(t) - 2;
            Closes(t, n) && forall i :: 0 <= i < n ==> !Closes(t, i)
  {
    if !(|t| >= 2 && t[0] == 42 && t[1] == 47) {
      CommentEnd(t[1..]);
      var n := CommentLength(t) - 2;
      forall i | 0 <= i < n
        ensures !Closes(t, i)
      {
        assert i > 0 ==> !Closes(t[1..], i - 1);
      }
      assert Closes(t[1..], n - 1);
    }
  }

  lemma {:induction false} LiteralEnd(t: Text)
    requires LiteralLength(t) <= |t|
    ensures var n := LiteralLength(t) - 1; t[n] == 34 && LiteralInside(t[..n])
    decreases |t|
  {
    var n := LiteralLength(t) - 1;
    if t[0] == 34 {
    } else if t[0] != 92 {
      LiteralEnd(t[1..]);
      assert t[..n][1..] == t[1..][..n - 1];
    } else {
      LiteralEnd(t[2..]);
      assert t[..n][2..] == t[2..][..n - 2];
    }
  }

  lemma LineToken(t: Text) returns (k: Token)
    requires |t| >= 2 && t[0] == 47 && t[1] == 47
    ensures var n := LineLength(t); Spelled(k) == t[..n] && Fits(k, t[n..])
  {
    LineEnd(t);
    var n := LineLength(t);
    assert n >= 2 by {
      assert t[1..][0] == 47;
    }
    k := Line(t[2..n]);
    assert t[..n] == [47, 47] + t[2..n];
  }

  lemma BlockToken(t: Text) returns (k: Token)
    requires |t| >= 2 && t[0] == 47 && t[1] == 42 && CommentLength(t) <= |t|
    ensures var n := CommentLength(t); Spelled(k) == t[..n] && Fits(k, t[n..])
  {
    hide CommentLength;
    CommentEnd(t);
    var n := CommentLength(t);
    if n == 2 {
      assert false;
    } else if n == 3 {
      k := Slashed;
      assert t[..3] == [47, 42, 47];
    } else {
      var c := t[2..n - 2];
      k := Block(c);
      assert t[..n] == [47, 42] + c + [42, 47];
      assert !Closes(t, 1);
      forall i | 0 <= i < |c|
        ensures !Closes(c + [42, 47], i)
      {
        assert c + [42, 47] == t[2..n];
        assert !Closes(t, i + 2);
      }
    }
  }

  lemma LiteralToken(t: Text) returns (k: Token)
    requires t != [] && t[0] == 34 && 1 + LiteralLength(t[1..]) <= |t|
    ensures var n := 1 + LiteralLength(t[1..]); Spelled(k) == t[..n] && Fits(k, t[n..])
  {
    hide LiteralLength;
    LiteralEnd(t[1..]);
    var n := 1 + LiteralLength(t[1..]);
    var c := t[1..n - 1];
    assert t[1..][..n - 2] == c;
    k := Literal(c);
    assert t[..n] == [34] + c + [34];
  }

  lemma FirstToken(t: Text) returns (k: Token)
    requires t != [] && Construct(t).0 <= |t|
    ensures var n := Construct(t).0; Spelled(k) == t[..n] && Fits(k, t[n..])
  {
    hide LineLength, CommentLength, LiteralLength;
    if t[0] in {9, 10, 13, 32} {
      k := Gap(t[0]);
    } else if t[0] == 34 {
      k := LiteralToken(t);
    } else if t[0] == 47 && |t| >= 2 && t[1] == 47 {
      k := LineToken(t);
    } else if t[0] == 47 && |t| >= 2 && t[1] == 42 {
      k := BlockToken(t);
    } else {
      k := Other(t[0]);
    }
  }

  lemma EmptyRow()
    ensures Row([]) && Spell([]) == []
  {
  }

  lemma RowCons(k: Token, ks: seq<Token>)
    requires Row(ks) && Fits(k, Spell(ks))
    ensures Row([k] + ks) && Spell([k] + ks) == Spelled(k) + Spell(ks)
  {
    hide Fits;
    assert ([k] + ks)[1..] == ks;
  }

  lemma {:induction false} CompleteIsRow(t: Text) returns (ks: seq<Token>)
    requires Complete(t)
    ensures Row(ks) && Spell(ks) == t
    decreases |t|
  {
    hide Fits, Construct, Row, Spell, Spelled;
    if t == [] {
      ks := [];
      EmptyRow();
    } else {
      var k := FirstToken(t);
      var n := Construct(t).0;
      var more := CompleteIsRow(t[n..]);
      RowCons(k, more);
      ks := [k] + more;
      assert t == t[..n] + t[n..];
    }
  }

  // The two kinds of comment by themselves.

  /** A line comment goes, up to its newline, which goes as a blank, or up to the end of the text. */
  lemma LineCommentRemoved(c: Text, rest: Text)
    requires forall i :: 0 <= i < |c| ==> c[i] != 10
    ensures Complete([47, 47] + c) && MinifyText([47, 47] + c) == []
    ensures Complete(rest) ==>
              Complete([47, 47] + c + [10] + rest) && MinifyText([47, 47] + c + [10] + rest) == MinifyText(rest)
  {
    hide Complete, MinifyText;
    NothingMinified();
    TokenMinified(Line(c), []);
    assert [47, 47] + c + [] == [47, 47] + c;
    if Complete(rest) {
      TokenMinified(Gap(10), rest);
      TokenMinified(Line(c), [10] + rest);
      assert [47, 47] + c + [10] + rest == ([47, 47] + c) + ([10] + rest);
      assert [] + MinifyText(rest) == MinifyText(rest);
    }
  }

  /** A block comment whose inside neither holds the closing mark nor begins with a slash goes. */
  lemma BlockCommentRemoved(c: Text, rest: Text)
    requires FirstClose(c) && Complete(rest)
    ensures Complete([47, 42] + c + [42, 47] + rest)
    ensures MinifyText([47, 42] + c + [42, 47] + rest) == MinifyText(rest)
  {
    hide Complete, MinifyText, FirstClose;
    TokenMinified(Block(c), rest);
    assert [] + MinifyText(rest) == MinifyText(rest);
  }

  /** If it begins with a slash, that slash already ends the comment, and the inside is kept as text. */
  lemma SlashEndsComment(d: Text)
    requires Complete(d)
    ensures Complete([47, 42, 47] + d) && MinifyText([47, 42, 47] + d) == MinifyText(d)
  {
    hide Complete, MinifyText;
    TokenMinified(Slashed, d);
    assert [] + MinifyText(d) == MinifyText(d);
  }

  /** So the comment whose inside is one slash is not removed: its closing mark stays. */
  lemma SlashCommentStays()
    ensures var t := [47, 42] + [47] + [42, 47]; Complete(t) && MinifyText(t) == [42, 47]
  {
    hide Complete, MinifyText;
    NothingMinified();
    TokenMinified(Other(47), []);
    assert [47] + [] == [47];
    TokenMinified(Other(42), [47]);
    assert [42] + [47] == [42, 47];
    SlashEndsComment([42, 47]);
    assert [47, 42] + [47] + [42, 47] == [47, 42, 47] + [42, 47];
  }
}
