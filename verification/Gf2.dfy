/**
 Bit strings read as polynomials over GF(2), most significant coefficient first, and the
 shift register that a cyclic redundancy check is.

 Everything here holds for every generator x^d + g with d = |g| >= 1; error detection
 additionally needs the constant term g[d-1] to be 1.
 */
module Gf2 {

  type Bits = seq<bool>

  function Zeros(n: nat): (z: Bits)
    ensures |z| == n
  {
    seq(n, _ => false)
  }

  function Xor(a: Bits, b: Bits): (r: Bits)
    requires |a| == |b|
    ensures |r| == |a|
  {
    seq(|a|, i requires 0 <= i < |a| => a[i] != b[i])
  }

  /** Multiplication by x modulo the generator x^|g| + g: one register step on a zero input bit. */
  function Shift(r: Bits, g: Bits): (r': Bits)
    requires |r| == |g| > 0
    ensures |r'| == |r|
  {
    var s := r[1..] + [false];
    if r[0] then Xor(s, g) else s
  }

  function Shifts(r: Bits, g: Bits, n: nat): (r': Bits)
    requires |r| == |g| > 0
    ensures |r'| == |r|
    decreases n
  {
    if n == 0 then r else Shifts(Shift(r, g), g, n - 1)
  }

  /** One register step on input bit m: the bit joins the register at its top. */
  function FeedBit(r: Bits, m: bool, g: Bits): (r': Bits)
    requires |r| == |g| > 0
    ensures |r'| == |r|
  {
    Shift(r[0 := r[0] != m], g)
  }

  function Feed(r: Bits, ms: Bits, g: Bits): (r': Bits)
    requires |r| == |g| > 0
    ensures |r'| == |r|
    decreases |ms|
  {
    if ms == [] then r else Feed(FeedBit(r, ms[0], g), ms[1..], g)
  }

  /**
   Schoolbook long division on the whole dividend: while more than d coefficients remain,
   subtract the generator under a leading one, and drop the leading coefficient. What is
   left is the remainder modulo x^d + g.
   */
  function Remainder(dividend: Bits, g: Bits): (r: Bits)
    requires |dividend| >= |g| > 0
    ensures |r| == |g|
    decreases |dividend|
  {
    if |dividend| == |g| then dividend
    else
      var tail := dividend[1..];
      Remainder(if dividend[0] then Xor(tail, g + Zeros(|tail| - |g|)) else tail, g)
  }

  // ---------------------------------------------------------------------------
  // The register computes the remainder
  // ---------------------------------------------------------------------------

  /** The dividend a register r and a message stand for: r * x^|ms| + ms * x^d. */
  function Dividend(r: Bits, ms: Bits): (d: Bits)
    ensures |d| == |r| + |ms|
  {
    Xor(r + Zeros(|ms|), ms + Zeros(|r|))
  }

  lemma {:induction false} DividendStep(r: Bits, ms: Bits, g: Bits)
    requires |r| == |g| > 0 && ms != []
    ensures var d := Dividend(r, ms);
            (if d[0] then Xor(d[1..], g + Zeros(|d| - 1 - |g|)) else d[1..])
            == Dividend(FeedBit(r, ms[0], g), ms[1..])
  {}

  /** Feeding a message bit by bit leaves exactly the remainder of the long division. */
  lemma {:induction false} FeedIsRemainder(r: Bits, ms: Bits, g: Bits)
    requires |r| == |g| > 0
    ensures Feed(r, ms, g) == Remainder(Dividend(r, ms), g)
    decreases |ms|
  {
    if ms == [] {
      assert Dividend(r, ms) == r;
    } else {
      DividendStep(r, ms, g);
      FeedIsRemainder(FeedBit(r, ms[0], g), ms[1..], g);
    }
  }

  lemma {:induction false} FeedConcat(r: Bits, a: Bits, b: Bits, g: Bits)
    requires |r| == |g| > 0
    ensures Feed(r, a + b, g) == Feed(Feed(r, a, g), b, g)
    decreases |a|
  {
    if a == [] {
      assert a + b == b;
    } else {
      assert (a + b)[1..] == a[1..] + b;
      FeedConcat(FeedBit(r, a[0], g), a[1..], b, g);
    }
  }

  // ---------------------------------------------------------------------------
  // Linearity
  // ---------------------------------------------------------------------------

  lemma {:induction false} ShiftLinear(r: Bits, s: Bits, g: Bits)
    requires |r| == |s| == |g| > 0
    ensures Shift(Xor(r, s), g) == Xor(Shift(r, g), Shift(s, g))
  {}

  lemma {:induction false} ShiftsLinear(r: Bits, s: Bits, g: Bits, n: nat)
    requires |r| == |s| == |g| > 0
    ensures Shifts(Xor(r, s), g, n) == Xor(Shifts(r, g, n), Shifts(s, g, n))
    decreases n
  {
    if n > 0 {
      ShiftLinear(r, s, g);
      ShiftsLinear(Shift(r, g), Shift(s, g), g, n - 1);
    }
  }

  lemma {:induction false} FeedLinear(r: Bits, s: Bits, a: Bits, b: Bits, g: Bits)
    requires |r| == |s| == |g| > 0 && |a| == |b|
    ensures Feed(Xor(r, s), Xor(a, b), g) == Xor(Feed(r, a, g), Feed(s, b, g))
    decreases |a|
  {
    if a != [] {
      var r', s' := r[0 := r[0] != a[0]], s[0 := s[0] != b[0]];
      var t := Xor(r, s);
      assert t[0 := t[0] != Xor(a, b)[0]] == Xor(r', s');
      ShiftLinear(r', s', g);
      assert Xor(a, b)[1..] == Xor(a[1..], b[1..]);
      FeedLinear(FeedBit(r, a[0], g), FeedBit(s, b[0], g), a[1..], b[1..], g);
    }
  }

  // ---------------------------------------------------------------------------
  // Short inputs and burst detection
  // ---------------------------------------------------------------------------

  /** Up to d input bits may be added to the register all at once. */
  lemma {:induction false} FeedShort(r: Bits, w: Bits, g: Bits)
    requires |r| == |g| > 0 && |w| <= |g|
    ensures Feed(r, w, g) == Shifts(Xor(r, w + Zeros(|g| - |w|)), g, |w|)
    decreases |w|
  {
    var x := Xor(r, w + Zeros(|g| - |w|));
    if w == [] {
      assert x == r;
    } else {
      var r' := FeedBit(r, w[0], g);
      var x' := Xor(r', w[1..] + Zeros(|g| - |w| + 1));
      forall i | 0 <= i < |g| ensures Shift(x, g)[i] == x'[i] {}
      assert Shift(x, g) == x';
      FeedShort(r', w[1..], g);
    }
  }

  /** A register whose top j bits are zero is only moved, never reduced, by j steps. */
  lemma {:induction false} ShiftsOverZeros(j: nat, rest: Bits, g: Bits)
    requires j + |rest| == |g| > 0
    ensures Shifts(Zeros(j) + rest, g, j) == rest + Zeros(j)
    decreases j
  {
    if j == 0 {
      assert Zeros(0) + rest == rest + Zeros(0);
    } else {
      var r := Zeros(j) + rest;
      assert Shift(r, g) == Zeros(j - 1) + (rest + [false]);
      ShiftsOverZeros(j - 1, rest + [false], g);
      assert (rest + [false]) + Zeros(j - 1) == rest + Zeros(j);
    }
  }

  lemma {:induction false} ShiftKeepsNonzero(r: Bits, g: Bits)
    requires |r| == |g| > 0 && g[|g| - 1]
    requires r != Zeros(|r|)
    ensures Shift(r, g) != Zeros(|r|)
  {
    var r' := Shift(r, g);
    if r[0] {
      assert r'[|r| - 1];
    } else {
      var i :| 0 <= i < |r| && r[i];
      assert r'[i - 1];
    }
  }

  lemma {:induction false} ShiftsKeepNonzero(r: Bits, g: Bits, n: nat)
    requires |r| == |g| > 0 && g[|g| - 1]
    requires r != Zeros(|r|)
    ensures Shifts(r, g, n) != Zeros(|r|)
    decreases n
  {
    if n > 0 {
      ShiftKeepsNonzero(r, g);
      ShiftsKeepNonzero(Shift(r, g), g, n - 1);
    }
  }

  lemma {:induction false} FeedZeros(r: Bits, n: nat, g: Bits)
    requires |r| == |g| > 0
    ensures Feed(r, Zeros(n), g) == Shifts(r, g, n)
    decreases n
  {
    if n > 0 {
      assert Zeros(n)[1..] == Zeros(n - 1);
      assert r[0 := r[0] != false] == r;
      FeedZeros(Shift(r, g), n - 1, g);
    }
  }

  lemma {:induction false} ShiftsOfZero(g: Bits, n: nat)
    requires |g| > 0
    ensures Shifts(Zeros(|g|), g, n) == Zeros(|g|)
    decreases n
  {
    if n > 0 {
      assert Shift(Zeros(|g|), g) == Zeros(|g|);
      ShiftsOfZero(g, n - 1);
    }
  }

  lemma {:induction false} AllFalseIsZeros(a: Bits)
    requires forall i :: 0 <= i < |a| ==> !a[i]
    ensures a == Zeros(|a|)
  {}

  lemma {:induction false} NonzeroHasOne(a: Bits) returns (i: nat)
    requires a != Zeros(|a|)
    ensures i < |a| && a[i]
  {
    i :| i < |a| && a[i] != Zeros(|a|)[i];
  }

  /** A nonzero error pattern of at most d bits never cancels to a zero register. */
  lemma {:induction false} ShortIsNonzero(w: Bits, g: Bits)
    requires |g| > 0 && g[|g| - 1]
    requires |w| <= |g| && w != Zeros(|w|)
    ensures Feed(Zeros(|g|), w, g) != Zeros(|g|)
  {
    var k := NonzeroHasOne(w);
    var packed := Xor(Zeros(|g|), w + Zeros(|g| - |w|));
    assert packed[k];
    FeedShort(Zeros(|g|), w, g);
    ShiftsKeepNonzero(packed, g, |w|);
  }

  /** Zeros around an error pattern do not matter. */
  lemma {:induction false} FeedPadded(pre: nat, w: Bits, post: nat, g: Bits)
    requires |g| > 0
    ensures Feed(Zeros(|g|), Zeros(pre) + w + Zeros(post), g) == Shifts(Feed(Zeros(|g|), w, g), g, post)
  {
    var r0 := Zeros(|g|);
    FeedConcat(r0, Zeros(pre) + w, Zeros(post), g);
    FeedConcat(r0, Zeros(pre), w, g);
    FeedZeros(r0, pre, g);
    ShiftsOfZero(g, pre);
    FeedZeros(Feed(r0, w, g), post, g);
  }

  /** A nonzero error pattern confined to d consecutive bits of a longer one. */
  lemma {:induction false} BurstIsNonzero(e: Bits, from: nat, g: Bits)
    requires |g| > 0 && g[|g| - 1]
    requires e != Zeros(|e|)
    requires forall i :: 0 <= i < |e| && e[i] ==> from <= i < from + |g|
    ensures Feed(Zeros(|g|), e, g) != Zeros(|g|)
  {
    var k := NonzeroHasOne(e);
    var to := if from + |g| <= |e| then from + |g| else |e|;
    var w := e[from..to];
    AllFalseIsZeros(e[..from]);
    AllFalseIsZeros(e[to..]);
    assert e == Zeros(from) + w + Zeros(|e| - to);
    assert w[k - from];
    FeedPadded(from, w, |e| - to, g);
    ShortIsNonzero(w, g);
    ShiftsKeepNonzero(Feed(Zeros(|g|), w, g), g, |e| - to);
  }

  /** Two equally long messages that differ only inside d consecutive bits leave different registers. */
  lemma {:induction false} BurstDetected(r: Bits, a: Bits, b: Bits, from: nat, g: Bits)
    requires |r| == |g| > 0 && g[|g| - 1]
    requires |a| == |b| && a != b
    requires forall i :: 0 <= i < |a| && a[i] != b[i] ==> from <= i < from + |g|
    ensures Feed(r, a, g) != Feed(r, b, g)
  {
    var e := Xor(a, b);
    var k :| 0 <= k < |a| && a[k] != b[k];
    assert e[k];
    BurstIsNonzero(e, from, g);
    FeedLinear(r, r, a, b, g);
    assert Xor(r, r) == Zeros(|g|);
    var i := NonzeroHasOne(Xor(Feed(r, a, g), Feed(r, b, g)));
  }
}
