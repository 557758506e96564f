/**
 Reading a word of any representation as a bit string: `top` looks at the leading bit and
 `next` moves the following bit there. The facts below ask only what they need of the
 representation, so a machine-word proof reduces to a few one-line facts about its operators.
 */
module WordView {
  import opened Gf2

  function Iterate<T>(next: T -> T, c: T, n: nat): T
    decreases n
  {
    if n == 0 then c else Iterate(next, next(c), n - 1)
  }

  /** The first n bits of a word. */
  function Unfold<T>(top: T -> bool, next: T -> T, c: T, n: nat): (r: Bits)
    ensures |r| == n
    decreases n
  {
    if n == 0 then [] else [top(c)] + Unfold(top, next, next(c), n - 1)
  }

  lemma {:induction false} IterateAdd<T>(next: T -> T, c: T, m: nat, n: nat)
    ensures Iterate(next, c, m + n) == Iterate(next, Iterate(next, c, m), n)
    decreases m
  {
    if m > 0 {
      IterateAdd(next, next(c), m - 1, n);
    }
  }

  lemma {:induction false} UnfoldAdd<T>(top: T -> bool, next: T -> T, c: T, m: nat, n: nat)
    ensures Unfold(top, next, c, m + n) == Unfold(top, next, c, m) + Unfold(top, next, Iterate(next, c, m), n)
    decreases m
  {
    if m > 0 {
      UnfoldAdd(top, next, next(c), m - 1, n);
    }
  }

  /** What exclusive-or, the leading bit and the move owe each other. */
  ghost predicate XorLaws<T(!new)>(top: T -> bool, next: T -> T, xor: (T, T) -> T, zero: T) {
    && (forall x, y :: top(xor(x, y)) == (top(x) != top(y)))
    && (forall x, y :: next(xor(x, y)) == xor(next(x), next(y)))
    && (forall x, y :: xor(x, y) == zero ==> x == y)
    && (forall x :: !top(x) && next(x) == zero ==> x == zero)
    && !top(zero) && next(zero) == zero
  }

  /** Bitwise exclusive-or of words is exclusive-or of their bit strings. */
  lemma {:induction false} UnfoldXor<T(!new)>(
      top: T -> bool, next: T -> T, xor: (T, T) -> T, zero: T, a: T, b: T, n: nat)
    requires XorLaws(top, next, xor, zero)
    ensures Unfold(top, next, xor(a, b), n) == Xor(Unfold(top, next, a, n), Unfold(top, next, b, n))
    decreases n
  {
    if n > 0 {
      UnfoldXor(top, next, xor, zero, next(a), next(b), n - 1);
    }
  }

  lemma {:induction false} UnfoldZeros<T(!new)>(top: T -> bool, next: T -> T, xor: (T, T) -> T, zero: T, c: T, n: nat)
    requires XorLaws(top, next, xor, zero)
    requires Iterate(next, c, n) == zero
    requires Unfold(top, next, c, n) == Zeros(n)
    ensures c == zero
    decreases n
  {
    if n > 0 {
      var u := Unfold(top, next, c, n);
      assert u[0] == top(c) && u[1..] == Unfold(top, next, next(c), n - 1);
      assert Zeros(n)[1..] == Zeros(n - 1);
      UnfoldZeros(top, next, xor, zero, next(c), n - 1);
    }
  }

  lemma {:induction false} UnfoldZero<T(!new)>(top: T -> bool, next: T -> T, xor: (T, T) -> T, zero: T, n: nat)
    requires XorLaws(top, next, xor, zero)
    ensures Unfold(top, next, zero, n) == Zeros(n)
    decreases n
  {
    if n > 0 {
      UnfoldZero(top, next, xor, zero, n - 1);
      assert Zeros(n) == [false] + Zeros(n - 1);
    }
  }

  /** If n moves empty every word, its first n bits determine it. */
  lemma {:induction false} UnfoldInjective<T(!new)>(
      top: T -> bool, next: T -> T, xor: (T, T) -> T, zero: T, a: T, b: T, n: nat)
    requires XorLaws(top, next, xor, zero)
    requires Iterate(next, xor(a, b), n) == zero
    requires Unfold(top, next, a, n) == Unfold(top, next, b, n)
    ensures a == b
  {
    UnfoldXor(top, next, xor, zero, a, b, n);
    assert Xor(Unfold(top, next, a, n), Unfold(top, next, b, n)) == Zeros(n);
    UnfoldZeros(top, next, xor, zero, xor(a, b), n);
  }

  /** Moving a word by m drops its first m bits and brings in zeros, if n moves empty it. */
  lemma {:induction false} UnfoldMoved<T(!new)>(
      top: T -> bool, next: T -> T, xor: (T, T) -> T, zero: T, c: T, m: nat, n: nat)
    requires XorLaws(top, next, xor, zero)
    requires m <= n && Iterate(next, c, n) == zero
    ensures Unfold(top, next, Iterate(next, c, m), n) == Unfold(top, next, c, n)[m..] + Zeros(m)
  {
    UnfoldAdd(top, next, c, m, n);
    UnfoldAdd(top, next, c, n, m);
    UnfoldZero(top, next, xor, zero, m);
    assert Unfold(top, next, Iterate(next, c, m), n) == Unfold(top, next, c, m + n)[m..];
  }

  /** A conditional subtraction of p after a move is a register shift under the generator p. */
  lemma {:induction false} UnfoldStep<T(!new)>(
      top: T -> bool, next: T -> T, xor: (T, T) -> T, zero: T, p: T, c: T, n: nat)
    requires XorLaws(top, next, xor, zero)
    requires 0 < n && Iterate(next, c, n) == zero
    ensures Unfold(top, next, if top(c) then xor(next(c), p) else next(c), n)
         == Shift(Unfold(top, next, c, n), Unfold(top, next, p, n))
  {
    UnfoldMoved(top, next, xor, zero, c, 1, n);
    assert Iterate(next, c, 1) == next(c) && Zeros(1) == [false];
    UnfoldXor(top, next, xor, zero, next(c), p, n);
  }

  /** If one step of a word is one register shift of its bits, n steps are n shifts. */
  lemma {:induction false} IterateShift<T(!new)>(bits: T -> Bits, next: T -> T, g: Bits, c: T, n: nat)
    requires |g| > 0 && forall x :: |bits(x)| == |g|
    requires forall x :: bits(next(x)) == Shift(bits(x), g)
    ensures bits(Iterate(next, c, n)) == Shifts(bits(c), g, n)
    decreases n
  {
    if n > 0 {
      IterateShift(bits, next, g, next(c), n - 1);
    }
  }

  lemma {:induction false} UnfoldEight<T>(top: T -> bool, next: T -> T, c: T, c2: T, c3: T, c4: T, c5: T, c6: T, c7: T)
    requires c2 == next(next(c)) && c3 == next(c2) && c4 == next(c3) && c5 == next(c4) && c6 == next(c5) && c7
        == next(c6)
    ensures Unfold(top, next, c, 8)
         == [top(c), top(next(c)), top(c2), top(c3), top(c4), top(c5), top(c6), top(c7)]
  {}

  /** A word read eight bits at a time. */
  function Chunks<T>(byteOf: T -> Bits, move: T -> T, c: T, n: nat): Bits
    decreases n
  {
    if n == 0 then [] else byteOf(c) + Chunks(byteOf, move, move(c), n - 1)
  }

  lemma {:induction false} UnfoldChunks<T(!new)>(
      top: T -> bool, next: T -> T, byteOf: T -> Bits, move: T -> T, c: T, n: nat)
    requires forall x :: Unfold(top, next, x, 8) == byteOf(x) && Iterate(next, x, 8) == move(x)
    ensures Unfold(top, next, c, 8 * n) == Chunks(byteOf, move, c, n)
    decreases n
  {
    if n > 0 {
      UnfoldAdd(top, next, c, 8, 8 * (n - 1));
      UnfoldChunks(top, next, byteOf, move, move(c), n - 1);
    }
  }

  lemma {:induction false} ChunksEight<T>(byteOf: T -> Bits, move: T -> T, c0: T, c1: T, c2: T, c3: T,
                                          c4: T, c5: T, c6: T, c7: T, r: Bits)
    requires c1 == move(c0) && c2 == move(c1) && c3 == move(c2) && c4 == move(c3)
    requires c5 == move(c4) && c6 == move(c5) && c7 == move(c6) && |r| == 64
    requires r[0..8] == byteOf(c0) && r[8..16] == byteOf(c1) && r[16..24] == byteOf(c2) && r[24..32] == byteOf(c3)
    requires r[32..40] == byteOf(c4) && r[40..48] == byteOf(c5) && r[48..56] == byteOf(c6) && r[56..64] == byteOf(c7)
    ensures Chunks(byteOf, move, c0, 8) == r
  {
    assert Chunks(byteOf, move, c6, 2) == r[48..56] + r[56..64] == r[48..];
    assert Chunks(byteOf, move, c4, 4) == r[32..40] + (r[40..48] + r[48..]) == r[32..];
    assert Chunks(byteOf, move, c2, 6) == r[16..24] + (r[24..32] + r[32..]) == r[16..];
    assert Chunks(byteOf, move, c0, 8) == r[0..8] + (r[8..16] + r[16..]) == r;
  }
}
