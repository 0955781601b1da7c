/** The size a printing buffer grows to: 32-bit words as sequences of bits, most significant bit first. */
module BufferSize {
  type Word = seq<bool>

  function Pow2(n: nat): (p: nat)
    ensures p > 0
  {
    if n == 0 then 1 else 2 * Pow2(n - 1)
  }

  function Bits(n: nat, width: nat): (w: Word)
    ensures |w| == width
  {
    if width == 0 then [] else Bits(n / 2, width - 1) + [n % 2 == 1]
  }

  function Value(w: Word): nat {
    if w == [] then 0 else 2 * Value(w[..|w| - 1]) + (if w[|w| - 1] then 1 else 0)
  }

  lemma {:induction false} BitsRoundTrip(n: nat, width: nat)
    requires n < Pow2(width)
    ensures Value(Bits(n, width)) == n
  {
    if width > 0 {
      BitsRoundTrip(n / 2, width - 1);
      assert Bits(n, width)[..width - 1] == Bits(n / 2, width - 1);
    }
  }

  /** w | w >> s */
  function Smear(w: Word, s: nat): (r: Word)
    ensures |r| == |w|
    ensures forall i :: 0 <= i < |w| ==> r[i] == (w[i] || (i >= s && w[i - s]))
  {
    seq(|w|, i requires 0 <= i < |w| => w[i] || (i >= s && w[i - s]))
  }

  function Pow2Gt(x: nat): nat
    requires x > 0
  {
    Value(Smear(Smear(Smear(Smear(Smear(Bits(x - 1, 32), 1), 2), 4), 8), 16)) + 1
  }

  /** Some bit of w at i or at most m - 1 places above it is set. */
  ghost predicate SetWithin(w: Word, i: nat, m: nat)
    requires i < |w|
  {
    exists j :: 0 <= j <= i && j + m > i && w[j]
  }

  ghost predicate Window(w: Word, r: Word, m: nat) {
    |r| == |w| && forall i :: 0 <= i < |w| ==> (r[i] <==> SetWithin(w, i, m))
  }

  /** Each smearing doubles the distance a bit has spread. */
  lemma Doubled(w: Word, r: Word, m: nat)
    requires m > 0 && Window(w, r, m)
    ensures Window(w, Smear(r, m), 2 * m)
  {
    var d := Smear(r, m);
    forall i | 0 <= i < |w|
      ensures d[i] <==> SetWithin(w, i, 2 * m)
    {
      if SetWithin(w, i, 2 * m) {
        var j :| 0 <= j <= i && j + 2 * m > i && w[j];
        if j + m > i {
          assert SetWithin(w, i, m);
        } else {
          assert SetWithin(w, i - m, m);
        }
      }
      if i >= m && r[i - m] {
        assert SetWithin(w, i - m, m);
      }
    }
  }

  /** Every bit from the highest set one down. */
  function Filled(w: Word): (r: Word)
    ensures |r| == |w|
  {
    if w == [] then [] else Filled(w[..|w| - 1]) + [Any(w)]
  }

  predicate Any(w: Word) { exists j :: 0 <= j < |w| && w[j] }

  lemma {:induction false} FilledAt(w: Word, i: nat)
    requires i < |w|
    ensures Filled(w)[i] <==> Any(w[..i + 1])
  {
    if i == |w| - 1 {
      assert w[..i + 1] == w;
    } else {
      var v := w[..|w| - 1];
      FilledAt(v, i);
      assert v[..i + 1] == w[..i + 1];
    }
  }

  lemma WholeWindow(w: Word, r: Word)
    requires Window(w, r, |w|)
    ensures r == Filled(w)
  {
    forall i | 0 <= i < |w|
      ensures r[i] == Filled(w)[i]
    {
      FilledAt(w, i);
      var v := w[..i + 1];
      if SetWithin(w, i, |w|) {
        var j :| 0 <= j <= i && j + |w| > i && w[j];
        assert v[j];
      }
      if Any(v) {
        var j :| 0 <= j < |v| && v[j];
        assert w[j];
      }
    }
  }

  predicate IsPow2(n: nat) { n == 1 || (n > 1 && n % 2 == 0 && IsPow2(n / 2)) }

  lemma TwoIsPow2()
    ensures IsPow2(1) && IsPow2(2)
  {
  }

  lemma DoubleIsPow2(n: nat)
    requires IsPow2(n)
    ensures IsPow2(2 * n)
  {
  }

  lemma AnyStep(w: Word)
    ensures w == [] ==> !Any(w)
    ensures w != [] ==> (Any(w) <==> Any(w[..|w| - 1]) || w[|w| - 1])
  {
    if w != [] && Any(w[..|w| - 1]) {
      var j :| 0 <= j < |w| - 1 && w[..|w| - 1][j];
      assert w[j];
    }
    if Any(w) && !w[|w| - 1] {
      var j :| 0 <= j < |w| && w[j];
      assert w[..|w| - 1][j];
    }
  }

  lemma {:induction false} FilledValue(w: Word)
    ensures IsPow2(Value(Filled(w)) + 1)
    ensures !Any(w) ==> Value(w) == 0 && Value(Filled(w)) == 0
    ensures Any(w) ==> Value(w) <= Value(Filled(w)) < 2 * Value(w)
    decreases |w|
  {
    hide Any, IsPow2;
    AnyStep(w);
    TwoIsPow2();
    if w != [] {
      var v := w[..|w| - 1];
      FilledValue(v);
      assert Filled(w)[..|w| - 1] == Filled(v);
      DoubleIsPow2(Value(Filled(v)) + 1);
    }
  }

  lemma WordRange()
    ensures Pow2(32) == 0x1_0000_0000
  {
    assert Pow2(8) == 256;
    assert Pow2(16) == 0x1_0000;
    assert Pow2(24) == 0x100_0000;
  }

  lemma SelfWindow(w: Word)
    ensures Window(w, w, 1)
  {
    forall i | 0 <= i < |w|
      ensures w[i] <==> SetWithin(w, i, 1)
    {
    }
  }

  lemma FiveSmears(w: Word)
    requires |w| == 32
    ensures Smear(Smear(Smear(Smear(Smear(w, 1), 2), 4), 8), 16) == Filled(w)
  {
    hide Window, Smear, Filled;
    SelfWindow(w);
    Doubled(w, w, 1);
    var a := Smear(w, 1);
    Doubled(w, a, 2);
    var b := Smear(a, 2);
    Doubled(w, b, 4);
    var c := Smear(b, 4);
    Doubled(w, c, 8);
    var d := Smear(c, 8);
    Doubled(w, d, 16);
    WholeWindow(w, Smear(d, 16));
  }

  /** The least power of two that is not below x. */
  lemma Pow2GtIsLeast(x: nat)
    requires 0 < x <= 0x8000_0000
    ensures x <= Pow2Gt(x) < 2 * x && IsPow2(Pow2Gt(x))
  {
    hide Smear, Filled, Bits, IsPow2, Pow2;
    var w := Bits(x - 1, 32);
    WordRange();
    BitsRoundTrip(x - 1, 32);
    FiveSmears(w);
    FilledValue(w);
  }
}
