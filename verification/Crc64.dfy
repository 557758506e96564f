/**
 The topic-state hash: a table-driven CRC-64 over the ECMA-182 generator, not reflected,
 with an all-ones initial register and an all-ones final inversion.
 */
module Crc64 {
  import opened Gf2
  import opened WordView

  type Bytes = seq<bv8>

  const POLYNOMIAL: bv64 := 0x42F0E1EBA9EA3693
  const TOP_BIT: bv64 := 0x8000000000000000
  const ALL_ONES: bv64 := 0xFFFFFFFFFFFFFFFF

  predicate Top(c: bv64) {
    c & TOP_BIT != 0
  }

  function XorWords(a: bv64, b: bv64): bv64 {
    a ^ b
  }

  function BitStep(c: bv64): bv64 {
    if Top(c) then (c << 1) ^ POLYNOMIAL else c << 1
  }

  function TableEntry(i: bv8): bv64 {
    Iterate(BitStep, (i as bv64) << 56, 8)
  }

  /** Which table row a byte selects: the top byte of the register, xored with the input. */
  function TableIndex(c: bv64, b: bv8): bv8 {
    ((c >> 56) as bv8) ^ b
  }

  function TableStep(c: bv64, b: bv8): bv64 {
    XorWords(TableEntry(TableIndex(c, b)), c << 8)
  }

  /** The register after a byte string. */
  function Update(c: bv64, data: Bytes): bv64
    decreases |data|
  {
    if data == [] then c else Update(TableStep(c, data[0]), data[1..])
  }

  /** The hash of a byte string. */
  function Crc(data: Bytes): bv64 {
    XorWords(Update(ALL_ONES, data), ALL_ONES)
  }

  // ---------------------------------------------------------------------------
  // Machine words as bit strings
  // ---------------------------------------------------------------------------

  function ShiftLeft(c: bv64): bv64 {
    c << 1
  }

  /** A word as 64 bits, most significant first. */
  function WordBits(c: bv64): (r: Bits)
    ensures |r| == 64
  {
    Unfold(Top, ShiftLeft, c, 64)
  }

  function ByteBits(b: bv8): (r: Bits)
    ensures |r| == 8
  {
    [b & 0x80 != 0, b & 0x40 != 0, b & 0x20 != 0, b & 0x10 != 0,
     b & 0x08 != 0, b & 0x04 != 0, b & 0x02 != 0, b & 0x01 != 0]
  }

  function DataBits(data: Bytes): (r: Bits)
    ensures |r| == 8 * |data|
    decreases |data|
  {
    if data == [] then [] else ByteBits(data[0]) + DataBits(data[1..])
  }

  lemma {:induction false} XorLawTop()
    ensures forall x, y :: Top(XorWords(x, y)) == (Top(x) != Top(y))
  {}

  lemma {:induction false} XorLawShift()
    ensures forall x, y :: ShiftLeft(XorWords(x, y)) == XorWords(ShiftLeft(x), ShiftLeft(y))
  {}

  lemma {:induction false} XorLawZero()
    ensures forall x, y :: XorWords(x, y) == 0 ==> x == y
    ensures forall x :: !Top(x) && ShiftLeft(x) == 0 ==> x == 0
  {}

  lemma {:induction false} WordLaws()
    ensures XorLaws(Top, ShiftLeft, XorWords, 0)
  {
    XorLawTop();
    XorLawShift();
    XorLawZero();
  }

  lemma {:induction false} WordBitsXor(a: bv64, b: bv64)
    ensures WordBits(XorWords(a, b)) == Xor(WordBits(a), WordBits(b))
  {
    WordLaws();
    UnfoldXor(Top, ShiftLeft, XorWords, 0, a, b, 64);
  }

  lemma {:induction false} Doubled(c: bv64)
    ensures c << 4 << 4 == c << 8 && c << 8 << 8 == c << 16 && c << 16 << 16 == c << 32 && c << 32 << 32 == 0
  {}

  lemma {:induction false} Iterate4(c: bv64)
    ensures Iterate(ShiftLeft, c, 4) == c << 4
  {}

  lemma {:induction false} Iterate8(c: bv64)
    ensures Iterate(ShiftLeft, c, 8) == c << 8
  {}

  lemma {:induction false} Iterate16(c: bv64)
    ensures Iterate(ShiftLeft, c, 16) == c << 16
  {
    IterateAdd(ShiftLeft, c, 8, 8);
    Iterate8(c);
    Iterate8(c << 8);
    Doubled(c);
  }

  lemma {:induction false} Iterate32(c: bv64)
    ensures Iterate(ShiftLeft, c, 32) == c << 32
  {
    IterateAdd(ShiftLeft, c, 16, 16);
    Iterate16(c);
    Iterate16(c << 16);
    Doubled(c);
  }

  lemma {:induction false} Iterate64(c: bv64)
    ensures Iterate(ShiftLeft, c, 64) == 0
  {
    IterateAdd(ShiftLeft, c, 32, 32);
    Iterate32(c);
    Iterate32(c << 32);
    Doubled(c);
  }

  /** The 64 bits determine the word. */
  lemma {:induction false} WordBitsInjective(a: bv64, b: bv64)
    requires WordBits(a) == WordBits(b)
    ensures a == b
  {
    WordLaws();
    Iterate64(XorWords(a, b));
    UnfoldInjective(Top, ShiftLeft, XorWords, 0, a, b, 64);
  }

  /** Moving a word left by n drops its first n bits and brings in zeros. */
  lemma {:induction false} WordBitsMoved(c: bv64, n: nat)
    requires n <= 64
    ensures WordBits(Iterate(ShiftLeft, c, n)) == WordBits(c)[n..] + Zeros(n)
  {
    WordLaws();
    Iterate64(c);
    UnfoldMoved(Top, ShiftLeft, XorWords, 0, c, n, 64);
  }

  // ---------------------------------------------------------------------------
  // The table form refines polynomial division
  // ---------------------------------------------------------------------------

  /** The generator x^64 + POLYNOMIAL, without its leading term. */
  function Generator(): (g: Bits)
    ensures |g| == 64
  {
    WordBits(POLYNOMIAL)
  }

  lemma {:induction false} BitStepCases(c: bv64)
    ensures BitStep(c) == if Top(c) then XorWords(ShiftLeft(c), POLYNOMIAL) else ShiftLeft(c)
  {}

  lemma {:induction false} BitStepIsShift(c: bv64)
    ensures WordBits(BitStep(c)) == Shift(WordBits(c), Generator())
  {
    BitStepCases(c);
    WordLaws();
    Iterate64(c);
    UnfoldStep(Top, ShiftLeft, XorWords, 0, POLYNOMIAL, c, 64);
  }

  lemma {:induction false} BitStepsAreShifts(c: bv64, n: nat)
    ensures WordBits(Iterate(BitStep, c, n)) == Shifts(WordBits(c), Generator(), n)
  {
    forall x ensures WordBits(BitStep(x)) == Shift(WordBits(x), Generator()) { BitStepIsShift(x); }
    IterateShift(WordBits, BitStep, Generator(), c, n);
  }

  lemma {:induction false} OneMore(c: bv64)
    ensures ShiftLeft(ShiftLeft(c)) == c << 2 && ShiftLeft(c << 2) == c << 3 && ShiftLeft(c << 3) == c << 4
    ensures ShiftLeft(c << 4) == c << 5 && ShiftLeft(c << 5) == c << 6 && ShiftLeft(c << 6) == c << 7
  {}

  lemma {:induction false} UnfoldByte(c: bv64)
    ensures Unfold(Top, ShiftLeft, c, 8)
         == [Top(c), Top(ShiftLeft(c)), Top(c << 2), Top(c << 3), Top(c << 4), Top(c << 5), Top(c << 6), Top(c << 7)]
  {
    OneMore(c);
    UnfoldEight(Top, ShiftLeft, c, c << 2, c << 3, c << 4, c << 5, c << 6, c << 7);
  }

  lemma {:induction false} TopBitsAreByte(c: bv64)
    ensures [Top(c), Top(ShiftLeft(c)), Top(c << 2), Top(c << 3), Top(c << 4), Top(c << 5), Top(c << 6), Top(c << 7)]
         == ByteBits((c >> 56) as bv8)
  {}

  /** The first eight bits of a word are those of its top byte. */
  lemma {:induction false} TopByteBits(c: bv64)
    ensures WordBits(c)[..8] == ByteBits((c >> 56) as bv8)
  {
    UnfoldAdd(Top, ShiftLeft, c, 8, 56);
    UnfoldByte(c);
    TopBitsAreByte(c);
  }

  lemma {:induction false} PlacedByte(b: bv8)
    ensures (((b as bv64) << 56) >> 56) as bv8 == b && (b as bv64) << 56 << 8 == 0
  {}

  /** A byte placed at the top of a word. */
  lemma {:induction false} PlacedByteBits(b: bv8)
    ensures WordBits((b as bv64) << 56) == ByteBits(b) + Zeros(56)
  {
    var x := (b as bv64) << 56;
    PlacedByte(b);
    TopByteBits(x);
    WordBitsMoved(x, 8);
    Iterate8(x);
    WordLaws();
    UnfoldZero(Top, ShiftLeft, XorWords, 0, 64);
    assert WordBits(x)[8..] == (WordBits(x)[8..] + Zeros(8))[..56] == Zeros(64)[..56] == Zeros(56);
    assert WordBits(x) == WordBits(x)[..8] + WordBits(x)[8..];
  }

  function Placed(b: bv8): bv64 {
    (b as bv64) << 56
  }

  lemma {:induction false} IndexIsTopByte(c: bv64, b: bv8)
    ensures (XorWords(c, Placed(b)) >> 56) as bv8 == TableIndex(c, b)
  {}

  lemma {:induction false} SplitShifts(x: Bits, g: Bits)
    requires |x| == |g| == 64
    ensures Xor(Shifts(x[..8] + Zeros(56), g, 8), x[8..] + Zeros(8)) == Shifts(x, g, 8)
  {
    ShiftsOverZeros(8, x[8..], g);
    ShiftsLinear(x[..8] + Zeros(56), Zeros(8) + x[8..], g, 8);
    assert Xor(x[..8] + Zeros(56), Zeros(8) + x[8..]) == x;
  }

  /** The register with a byte added at its top, as bits. */
  function Joined(c: bv64, b: bv8): (x: Bits)
    ensures |x| == 64
  {
    WordBits(XorWords(c, Placed(b)))
  }

  lemma {:induction false} JoinedBits(c: bv64, b: bv8)
    ensures Joined(c, b) == Xor(WordBits(c), ByteBits(b) + Zeros(56))
  {
    PlacedByteBits(b);
    WordBitsXor(c, Placed(b));
  }

  lemma {:induction false} FeedEight(r: Bits, w: Bits, g: Bits)
    requires |r| == |g| == 64 && |w| == 8
    ensures var x := Xor(r, w + Zeros(56));
            Feed(r, w, g) == Shifts(x, g, 8) && x[8..] == r[8..]
  {
    FeedShort(r, w, g);
  }

  lemma {:induction false} TableEntryBits(i: bv8)
    ensures WordBits(TableEntry(i)) == Shifts(ByteBits(i) + Zeros(56), Generator(), 8)
  {
    PlacedByteBits(i);
    BitStepsAreShifts(Placed(i), 8);
  }

  lemma {:induction false} IndexBits(c: bv64, b: bv8)
    ensures ByteBits(TableIndex(c, b)) == Joined(c, b)[..8]
  {
    IndexIsTopByte(c, b);
    TopByteBits(XorWords(c, Placed(b)));
  }

  lemma {:induction false} MovedByte(c: bv64)
    ensures WordBits(c << 8) == WordBits(c)[8..] + Zeros(8)
  {
    WordBitsMoved(c, 8);
    Iterate8(c);
  }

  lemma {:induction false} XorTableStep(c: bv64, b: bv8)
    ensures WordBits(TableStep(c, b)) == Xor(WordBits(TableEntry(TableIndex(c, b))), WordBits(c << 8))
  {
    WordBitsXor(TableEntry(TableIndex(c, b)), c << 8);
  }

  /** One table lookup feeds the eight bits of one byte. */
  lemma {:induction false} TableStepFeeds(c: bv64, b: bv8)
    ensures WordBits(TableStep(c, b)) == Feed(WordBits(c), ByteBits(b), Generator())
  {
    JoinedBits(c, b);
    FeedEight(WordBits(c), ByteBits(b), Generator());
    IndexBits(c, b);
    TableEntryBits(TableIndex(c, b));
    MovedByte(c);
    XorTableStep(c, b);
    SplitShifts(Joined(c, b), Generator());
  }

  lemma {:induction false} UpdateFeeds(c: bv64, data: Bytes)
    ensures WordBits(Update(c, data)) == Feed(WordBits(c), DataBits(data), Generator())
    decreases |data|
  {
    if data != [] {
      TableStepFeeds(c, data[0]);
      UpdateFeeds(TableStep(c, data[0]), data[1..]);
      FeedConcat(WordBits(c), ByteBits(data[0]), DataBits(data[1..]), Generator());
    }
  }

  /**
   The table-driven update is polynomial division: for every register and every byte string
   the new register is the remainder of register * x^(8n) + message * x^64 modulo the
   ECMA-182 generator.
   */
  lemma {:induction false} UpdateIsDivision(c: bv64, data: Bytes)
    ensures WordBits(Update(c, data)) == Remainder(Dividend(WordBits(c), DataBits(data)), Generator())
  {
    UpdateFeeds(c, data);
    FeedIsRemainder(WordBits(c), DataBits(data), Generator());
  }

  /** The remainder determines the register, so the division fixes the table form completely. */
  lemma {:induction false} DivisionDeterminesUpdate(c: bv64, data: Bytes, r: bv64)
    ensures WordBits(r) == Remainder(Dividend(WordBits(c), DataBits(data)), Generator()) <==> r == Update(c, data)
  {
    UpdateIsDivision(c, data);
    if WordBits(r) == WordBits(Update(c, data)) {
      WordBitsInjective(r, Update(c, data));
    }
  }

  // ---------------------------------------------------------------------------
  // Streaming
  // ---------------------------------------------------------------------------

  /** Successive updates equal one update on the concatenation, at every split. */
  lemma {:induction false} UpdateConcat(c: bv64, a: Bytes, b: Bytes)
    ensures Update(c, a + b) == Update(Update(c, a), b)
    decreases |a|
  {
    if a == [] {
      assert a + b == b;
    } else {
      assert (a + b)[1..] == a[1..] + b;
      UpdateConcat(TableStep(c, a[0]), a[1..], b);
    }
  }

  lemma {:induction false} UpdateSnoc(c: bv64, data: Bytes, i: nat)
    requires i < |data|
    ensures Update(c, data[..i + 1]) == TableStep(Update(c, data[..i]), data[i])
  {
    assert data[..i + 1] == data[..i] + [data[i]];
    UpdateConcat(c, data[..i], [data[i]]);
  }

  /** The strings of a vector, joined without a separator. */
  function Join(strings: seq<Bytes>): (r: Bytes)
    decreases |strings|
  {
    if strings == [] then [] else strings[0] + Join(strings[1..])
  }

  lemma {:induction false} JoinSnoc(strings: seq<Bytes>, s: Bytes)
    ensures Join(strings + [s]) == Join(strings) + s
    decreases |strings|
  {
    if strings == [] {
      assert Join([s]) == s + Join([]);
    } else {
      assert (strings + [s])[1..] == strings[1..] + [s];
      JoinSnoc(strings[1..], s);
    }
  }

  // ---------------------------------------------------------------------------
  // Error detection
  // ---------------------------------------------------------------------------

  lemma {:induction false} SixtyThree(c: bv64)
    ensures c << 32 << 16 == c << 48 && c << 48 << 8 == c << 56 && c << 56 << 4 == c << 60
    ensures ShiftLeft(ShiftLeft(ShiftLeft(c << 60))) == c << 63
  {}

  lemma {:induction false} Iterate56(c: bv64)
    ensures Iterate(ShiftLeft, c, 56) == c << 56
  {
    IterateAdd(ShiftLeft, c, 32, 24);
    Iterate32(c);
    IterateAdd(ShiftLeft, c << 32, 16, 8);
    Iterate16(c << 32);
    Iterate8(c << 48);
    SixtyThree(c);
  }

  lemma {:induction false} Iterate63(c: bv64)
    ensures Iterate(ShiftLeft, c, 63) == c << 63
  {
    IterateAdd(ShiftLeft, c, 56, 7);
    Iterate56(c);
    IterateAdd(ShiftLeft, c << 56, 4, 3);
    Iterate4(c << 56);
    SixtyThree(c);
    var d := c << 60;
    assert Iterate(ShiftLeft, d, 3) == Iterate(ShiftLeft, ShiftLeft(d), 2)
        == Iterate(ShiftLeft, ShiftLeft(ShiftLeft(d)), 1);
  }

  /** The generator has a constant term, which is what makes every step invertible. */
  lemma {:induction false} GeneratorConstantTerm()
    ensures Generator()[63]
  {
    UnfoldAdd(Top, ShiftLeft, POLYNOMIAL, 63, 1);
    Iterate63(POLYNOMIAL);
  }

  lemma {:induction false} FinalXorInjective(a: bv64, b: bv64)
    requires XorWords(a, ALL_ONES) == XorWords(b, ALL_ONES)
    ensures a == b
  {}

  /** Two equally long strings that differ only inside 64 consecutive bits never share a CRC. */
  lemma {:induction false} CrcDetectsBursts(a: Bytes, b: Bytes, from: nat)
    requires |a| == |b| && DataBits(a) != DataBits(b)
    requires forall i :: 0 <= i < 8 * |a| && DataBits(a)[i] != DataBits(b)[i] ==> from <= i < from + 64
    ensures Crc(a) != Crc(b)
  {
    GeneratorConstantTerm();
    BurstDetected(WordBits(ALL_ONES), DataBits(a), DataBits(b), from, Generator());
    UpdateFeeds(ALL_ONES, a);
    UpdateFeeds(ALL_ONES, b);
    if Crc(a) == Crc(b) {
      FinalXorInjective(Update(ALL_ONES, a), Update(ALL_ONES, b));
    }
  }

  lemma {:induction false} ByteBitsInjective(a: bv8, b: bv8)
    requires ByteBits(a) == ByteBits(b)
    ensures a == b
  {}

  lemma {:induction false} DataBitsAt(data: Bytes, i: nat)
    requires i < |data|
    ensures DataBits(data)[8 * i..8 * i + 8] == ByteBits(data[i])
    decreases i
  {
    var rest := DataBits(data[1..]);
    if i > 0 {
      DataBitsAt(data[1..], i - 1);
      assert DataBits(data)[8 * i..8 * i + 8] == rest[8 * (i - 1)..8 * (i - 1) + 8];
    }
  }

  lemma {:induction false} BitsDifferWithin(a: Bytes, b: Bytes, i: nat)
    requires |a| == |b| && i < 8 * |a|
    requires a[i / 8] == b[i / 8]
    ensures DataBits(a)[i] == DataBits(b)[i]
  {
    var k := 8 * (i / 8);
    DataBitsAt(a, i / 8);
    DataBitsAt(b, i / 8);
    assert DataBits(a)[i] == DataBits(a)[k..k + 8][i % 8];
    assert DataBits(b)[i] == DataBits(b)[k..k + 8][i % 8];
  }

  lemma {:induction false} BytesDifferBitsDiffer(a: Bytes, b: Bytes)
    requires |a| == |b| && DataBits(a) == DataBits(b)
    ensures a == b
  {
    forall k | 0 <= k < |a| ensures a[k] == b[k] {
      DataBitsAt(a, k);
      DataBitsAt(b, k);
      ByteBitsInjective(a[k], b[k]);
    }
  }

  /** Two equally long, different strings that differ only inside 8 consecutive bytes never share a CRC. */
  lemma {:induction false} CrcDetectsByteBursts(a: Bytes, b: Bytes, from: nat)
    requires |a| == |b| && a != b
    requires forall i :: 0 <= i < |a| && a[i] != b[i] ==> from <= i < from + 8
    ensures Crc(a) != Crc(b)
  {
    if DataBits(a) == DataBits(b) {
      BytesDifferBitsDiffer(a, b);
    }
    forall i | 0 <= i < 8 * |a| && DataBits(a)[i] != DataBits(b)[i] ensures 8 * from <= i < 8 * from + 64 {
      if a[i / 8] == b[i / 8] {
        BitsDifferWithin(a, b, i);
      }
    }
    CrcDetectsBursts(a, b, 8 * from);
  }

  // ---------------------------------------------------------------------------
  // The calculator
  // ---------------------------------------------------------------------------

  ghost predicate IsTable(t: array<bv64>)
    reads t
  {
    t.Length == 256 && forall b: bv8 :: t[b as int] == TableEntry(b)
  }

  /** One row of the table: eight conditional subtractions of the generator. */
  method TableRow(i: bv8) returns (crc: bv64)
    ensures crc == TableEntry(i)
  {
    crc := (i as bv64) << 56;
    var j := 0;
    while j < 8
      invariant 0 <= j <= 8
      invariant Iterate(BitStep, crc, 8 - j) == TableEntry(i)
    {
      crc := BitStep(crc);
      j := j + 1;
    }
  }

  method GenerateTable() returns (t: array<bv64>)
    ensures fresh(t) && IsTable(t)
  {
    t := new bv64[256];
    var i := 0;
    while i < 256
      invariant 0 <= i <= 256
      invariant forall b: bv8 :: b as int < i ==> t[b as int] == TableEntry(b)
    {
      t[i] := TableRow(i as bv8);
      i := i + 1;
    }
  }

  /** `absorbed` is all data since construction or the last reset, however it was cut up. */
  class Calculator {
    var crc: bv64
    const table: array<bv64>
    ghost var absorbed: Bytes

    ghost predicate Valid()
      reads this, table
    {
      IsTable(table) && crc == Update(ALL_ONES, absorbed)
    }

    constructor ()
      ensures Valid() && fresh(table) && absorbed == []
    {
      var t := GenerateTable();
      table := t;
      crc := ALL_ONES;
      absorbed := [];
    }

    method AbsorbByte(b: bv8)
      requires IsTable(table)
      modifies this`crc
      ensures crc == TableStep(old(crc), b)
    {
      crc := XorWords(table[TableIndex(crc, b) as int], crc << 8);
    }

    method AbsorbBytes(data: Bytes)
      requires IsTable(table)
      modifies this`crc
      ensures crc == Update(old(crc), data)
    {
      var i := 0;
      while i < |data|
        invariant 0 <= i <= |data|
        invariant crc == Update(old(crc), data[..i])
      {
        UpdateSnoc(old(crc), data, i);
        AbsorbByte(data[i]);
        i := i + 1;
      }
      assert data[..i] == data;
    }

    method Absorb(data: Bytes)
      requires Valid()
      modifies this`crc, this`absorbed
      ensures Valid() && absorbed == old(absorbed) + data
    {
      UpdateConcat(ALL_ONES, absorbed, data);
      AbsorbBytes(data);
      absorbed := absorbed + data;
    }

    /** The CRC of everything absorbed; absorbing may go on afterwards. */
    method Finalize() returns (hash: bv64)
      requires Valid()
      ensures hash == Crc(absorbed)
    {
      hash := XorWords(crc, ALL_ONES);
    }

    /** What was absorbed before no longer counts. */
    method Reset()
      requires Valid()
      modifies this`crc, this`absorbed
      ensures Valid() && absorbed == []
    {
      crc := ALL_ONES;
      absorbed := [];
    }
  }

  method Compute(data: Bytes) returns (hash: bv64)
    ensures hash == Crc(data)
  {
    var c := new Calculator();
    c.Absorb(data);
    assert [] + data == data;
    hash := c.Finalize();
  }

  /** The vector overload: absorbing the strings one by one hashes their concatenation. */
  method ComputeStrings(strings: seq<Bytes>) returns (hash: bv64)
    ensures hash == Crc(Join(strings))
  {
    var c := new Calculator();
    var i := 0;
    while i < |strings|
      invariant 0 <= i <= |strings| && fresh(c) && c.Valid()
      invariant c.absorbed == Join(strings[..i])
    {
      c.Absorb(strings[i]);
      assert strings[..i + 1] == strings[..i] + [strings[i]];
      JoinSnoc(strings[..i], strings[i]);
      i := i + 1;
    }
    assert strings[..i] == strings;
    hash := c.Finalize();
  }
}
