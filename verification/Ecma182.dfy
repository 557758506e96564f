/**
 The hash against its published definition: the generator of Annex B of ECMA-182 term by term,
 an initial register of ones and a final inversion, all as bit strings.
 */
module Ecma182 {
  import opened Gf2
  import opened WordView
  import opened Crc64

  /** The exponents below 64 of the generator polynomial in Annex B of ECMA-182. */
  predicate EcmaTerm(e: int) {
    || e == 62 || e == 57 || e == 55 || e == 54 || e == 53 || e == 52 || e == 47 || e == 46 || e == 45
    || e == 40 || e == 39 || e == 38 || e == 37 || e == 35 || e == 33 || e == 32 || e == 31 || e == 29
    || e == 27 || e == 24 || e == 23 || e == 22 || e == 21 || e == 19 || e == 17 || e == 13 || e == 12
    || e == 10 || e == 9 || e == 7 || e == 4 || e == 1 || e == 0
  }

  /** The coefficients below degree d, highest first. */
  function Terms(term: int -> bool, d: nat): (r: Bits)
    ensures |r| == d
  {
    seq(d, i requires 0 <= i < d => term(d - 1 - i))
  }

  /** The ECMA-182 generator without its leading term x^64, highest coefficient first. */
  function EcmaGenerator(): (g: Bits)
    ensures |g| == 64
  {
    Terms(EcmaTerm, 64)
  }

  function Ones(n: nat): (r: Bits)
    ensures |r| == n
  {
    seq(n, _ => true)
  }

  function TopBits(c: bv64): (r: Bits)
    ensures |r| == 8
  {
    ByteBits((c >> 56) as bv8)
  }

  function MoveByte(c: bv64): bv64 {
    c << 8
  }

  lemma {:induction false} TopBitsOf(c: bv64)
    ensures Unfold(Top, ShiftLeft, c, 8) == TopBits(c) && Iterate(ShiftLeft, c, 8) == MoveByte(c)
  {
    UnfoldByte(c);
    TopBitsAreByte(c);
    Iterate8(c);
  }

  /** The bits of a word are those of its eight bytes, highest first. */
  lemma {:induction false} WordSpelled(c: bv64)
    ensures WordBits(c) == Chunks(TopBits, MoveByte, c, 8)
  {
    forall x ensures Unfold(Top, ShiftLeft, x, 8) == TopBits(x) && Iterate(ShiftLeft, x, 8) == MoveByte(x) {
      TopBitsOf(x);
    }
    UnfoldChunks(Top, ShiftLeft, TopBits, MoveByte, c, 8);
  }

  lemma {:induction false} PolynomialMoves()
    ensures MoveByte(POLYNOMIAL) == 0xF0E1EBA9EA369300
    ensures MoveByte(0xF0E1EBA9EA369300) == 0xE1EBA9EA36930000 && MoveByte(0xE1EBA9EA36930000) == 0xEBA9EA3693000000
    ensures MoveByte(0xEBA9EA3693000000) == 0xA9EA369300000000 && MoveByte(0xA9EA369300000000) == 0xEA36930000000000
    ensures MoveByte(0xEA36930000000000) == 0x3693000000000000 && MoveByte(0x3693000000000000) == 0x9300000000000000
  {}

  lemma {:induction false} HighBytes()
    ensures TopBits(POLYNOMIAL) == [false, true, false, false, false, false, true, false]
    ensures TopBits(0xF0E1EBA9EA369300) == [true, true, true, true, false, false, false, false]
    ensures TopBits(0xE1EBA9EA36930000) == [true, true, true, false, false, false, false, true]
    ensures TopBits(0xEBA9EA3693000000) == [true, true, true, false, true, false, true, true]
  {}

  lemma {:induction false} LowBytes()
    ensures TopBits(0xA9EA369300000000) == [true, false, true, false, true, false, false, true]
    ensures TopBits(0xEA36930000000000) == [true, true, true, false, true, false, true, false]
    ensures TopBits(0x3693000000000000) == [false, false, true, true, false, true, true, false]
    ensures TopBits(0x9300000000000000) == [true, false, false, true, false, false, true, true]
  {}

  lemma {:induction false} TermsAt(term: int -> bool, d: nat, k: nat)
    requires k + 8 <= d
    ensures var e := d - 1 - k;
            Terms(term, d)[k..k + 8]
            == [term(e), term(e - 1), term(e - 2), term(e - 3), term(e - 4), term(e - 5), term(e - 6), term(e - 7)]
  {}

  lemma {:induction false} FirstTerms()
    ensures EcmaGenerator()[0..8] == [false, true, false, false, false, false, true, false]
    ensures EcmaGenerator()[8..16] == [true, true, true, true, false, false, false, false]
  {
    TermsAt(EcmaTerm, 64, 0);
    TermsAt(EcmaTerm, 64, 8);
  }

  lemma {:induction false} SecondTerms()
    ensures EcmaGenerator()[16..24] == [true, true, true, false, false, false, false, true]
    ensures EcmaGenerator()[24..32] == [true, true, true, false, true, false, true, true]
  {
    TermsAt(EcmaTerm, 64, 16);
    TermsAt(EcmaTerm, 64, 24);
  }

  lemma {:induction false} ThirdTerms()
    ensures EcmaGenerator()[32..40] == [true, false, true, false, true, false, false, true]
    ensures EcmaGenerator()[40..48] == [true, true, true, false, true, false, true, false]
  {
    TermsAt(EcmaTerm, 64, 32);
    TermsAt(EcmaTerm, 64, 40);
  }

  lemma {:induction false} LastTerms()
    ensures EcmaGenerator()[48..56] == [false, false, true, true, false, true, true, false]
    ensures EcmaGenerator()[56..64] == [true, false, false, true, false, false, true, true]
  {
    TermsAt(EcmaTerm, 64, 48);
    TermsAt(EcmaTerm, 64, 56);
  }

  /** The generator is the one ECMA-182 publishes, term by term. */
  lemma {:induction false} GeneratorIsEcma()
    ensures Generator() == EcmaGenerator()
  {
    WordSpelled(POLYNOMIAL);
    PolynomialMoves();
    HighBytes();
    LowBytes();
    FirstTerms();
    SecondTerms();
    ThirdTerms();
    LastTerms();
    ChunksEight(TopBits, MoveByte, POLYNOMIAL, 0xF0E1EBA9EA369300, 0xE1EBA9EA36930000, 0xEBA9EA3693000000,
                0xA9EA369300000000, 0xEA36930000000000, 0x3693000000000000, 0x9300000000000000, EcmaGenerator());
  }

  lemma {:induction false} OnesMoves()
    ensures MoveByte(ALL_ONES) == 0xFFFFFFFFFFFFFF00
    ensures MoveByte(0xFFFFFFFFFFFFFF00) == 0xFFFFFFFFFFFF0000 && MoveByte(0xFFFFFFFFFFFF0000) == 0xFFFFFFFFFF000000
    ensures MoveByte(0xFFFFFFFFFF000000) == 0xFFFFFFFF00000000 && MoveByte(0xFFFFFFFF00000000) == 0xFFFFFF0000000000
    ensures MoveByte(0xFFFFFF0000000000) == 0xFFFF000000000000 && MoveByte(0xFFFF000000000000) == 0xFF00000000000000
  {}

  lemma {:induction false} OnesByte(c: bv64)
    requires c >= 0xFF00000000000000
    ensures TopBits(c) == Ones(8)
  {
    assert c & 0xFF00000000000000 == 0xFF00000000000000;
    assert (c >> 56) as bv8 == 0xFF;
  }

  lemma {:induction false} OnesAreOnes()
    ensures WordBits(ALL_ONES) == Ones(64)
  {
    WordSpelled(ALL_ONES);
    OnesMoves();
    forall c | c >= 0xFF00000000000000 ensures TopBits(c) == Ones(8) {
      OnesByte(c);
    }
    ChunksEight(TopBits, MoveByte, ALL_ONES, 0xFFFFFFFFFFFFFF00, 0xFFFFFFFFFFFF0000, 0xFFFFFFFFFF000000,
                0xFFFFFFFF00000000, 0xFFFFFF0000000000, 0xFFFF000000000000, 0xFF00000000000000, Ones(64));
  }

  /**
   The hash of a byte string, in the terms of ECMA-182: a register of ones divided together with
   the message by the published generator, and the remainder inverted bit by bit.
   */
  lemma {:induction false} CrcIsEcma(data: Bytes)
    ensures WordBits(Crc(data)) == Xor(Remainder(Dividend(Ones(64), DataBits(data)), EcmaGenerator()), Ones(64))
  {
    UpdateIsDivision(ALL_ONES, data);
    WordBitsXor(Update(ALL_ONES, data), ALL_ONES);
    OnesAreOnes();
    GeneratorIsEcma();
  }
}
