/**
  The checksum that names a file inside a pack (dCommon/dClient/AssetManager.cpp).

  `Crc32b` is the byte-at-a-time loop of the source.  It is proved equal to `Crc`, and `Crc` is proved to be
  the remainder of schoolbook polynomial long division over GF(2), a reference that knows nothing of bytes or
  registers.  What the checksum detects is then a fact about remainders.
 */
module Crc32 {

  type Octet = bv8

  // The leading x^32 is implicit.
  const GENERATOR: bv32 := 0x04C11DB7

  // ----- the register

  // One round of the inner loop: shift out the top bit and subtract the generator if it was set.
  function BitStep(crc: bv32): bv32 {
    if crc & 0x8000_0000 == 0 then crc << 1 else (crc << 1) ^ GENERATOR
  }

  // The source selects the generator with an all-ones mask instead of a branch.
  lemma MaskSelectsGenerator(crc: bv32)
    ensures (crc << 1) ^ ((0 - (crc >> 31)) & GENERATOR) == BitStep(crc)
  {
    assert crc >> 31 == 0 || crc >> 31 == 1;
  }

  function Steps(crc: bv32, n: nat): bv32
    decreases n, crc
  {
    if n == 0 then crc else Steps(BitStep(crc), n - 1)
  }

  function ByteStep(crc: bv32, b: Octet): bv32 {
    Steps(crc ^ ((b as bv32) << 24), 8)
  }

  function Crc(base: bv32, message: seq<Octet>): bv32
    decreases message
  {
    if message == [] then base else Crc(ByteStep(base, message[0]), message[1..])
  }

  method Crc32b(base: bv32, message: array<Octet>, l: nat) returns (crc: bv32)
    requires l <= message.Length
    ensures crc == Crc(base, message[..l])
  {
    crc := base;
    for i := 0 to l
      invariant Crc(crc, message[i..l]) == Crc(base, message[..l])
    {
      ghost var before := crc;
      crc := crc ^ ((message[i] as bv32) << 24);
      for j := 0 to 8
        invariant Steps(crc, 8 - j) == ByteStep(before, message[i])
      {
        ghost var c := crc;
        var msb := crc >> 31;
        crc := crc << 1;
        crc := crc ^ ((0 - msb) & GENERATOR);
        assert crc == BitStep(c) by {
          MaskSelectsGenerator(c);
        }
      }
      assert message[i..l][1..] == message[i + 1..l];
    }
  }

  // Feeding a second buffer into the result of a first is feeding the concatenation.
  lemma {:induction false} ChainedCallsConcatenate(base: bv32, a: seq<Octet>, b: seq<Octet>)
    ensures Crc(Crc(base, a), b) == Crc(base, a + b)
    decreases a
  {
    if a == [] {
      assert a + b == b;
    } else {
      assert (a + b)[1..] == a[1..] + b;
      ChainedCallsConcatenate(ByteStep(base, a[0]), a[1..], b);
    }
  }

  // ----- polynomials over GF(2), highest coefficient first

  type Polynomial = seq<bool>

  function Zeros(n: nat): Polynomial {
    seq(n, _ => false)
  }

  // Adds p to the leading coefficients of dividend.
  function AddAtFront(dividend: Polynomial, p: Polynomial): (sum: Polynomial)
    requires |p| <= |dividend|
    ensures |sum| == |dividend|
  {
    seq(|dividend|, i requires 0 <= i < |dividend| => if i < |p| then dividend[i] != p[i] else dividend[i])
  }

  predicate HasTopBit(crc: bv32) {
    crc & 0x8000_0000 != 0
  }

  // The place of the k-th highest coefficient; nothing beyond the last one.
  function Place(k: nat): bv32 {
    if k == 0 then 0x8000_0000 else Place(k - 1) >> 1
  }

  predicate Bit(crc: bv32, place: bv32) {
    crc & place != 0
  }

  function Register(crc: bv32): (bits: Polynomial)
    ensures |bits| == 32
  {
    seq(32, k requires 0 <= k < 32 => Bit(crc, Place(k)))
  }

  // The bits of a byte, highest first.
  function ByteBits(b: Octet): (bits: Polynomial)
    ensures |bits| == 8
  {
    Register((b as bv32) << 24)[..8]
  }

  function Bits(message: seq<Octet>): (bits: Polynomial)
    ensures |bits| == 8 * |message|
  {
    if message == [] then [] else ByteBits(message[0]) + Bits(message[1..])
  }

  // The exponents in the generator besides the leading 32 (clause 3.2.9 of IEEE 802.3).
  const EXPONENTS: set<nat> := {26, 23, 22, 16, 12, 11, 10, 8, 7, 5, 4, 2, 1, 0}

  // The generator without its leading term.
  function Divisor(): (d: Polynomial)
    ensures |d| == 32
  {
    seq(32, k requires 0 <= k < 32 => 31 - k in EXPONENTS)
  }

  // Schoolbook division by the generator: while the dividend is too long, cancel its leading coefficient.
  function Remainder(dividend: Polynomial): (r: Polynomial)
    requires |dividend| >= 32
    ensures |r| == 32
    decreases |dividend|
  {
    if |dividend| == 32 then dividend
    else if dividend[0] then Remainder(AddAtFront(dividend[1..], Divisor()))
    else Remainder(dividend[1..])
  }

  // ----- the register computes a remainder

  predicate IsSingleBit(m: bv32) {
    m & (m - 1) == 0
  }

  lemma HalfOfSingleBit(m: bv32)
    requires IsSingleBit(m)
    ensures IsSingleBit(m >> 1)
  {
  }

  lemma {:induction false} PlaceIsSingleBit(k: nat)
    ensures IsSingleBit(Place(k))
  {
    if k > 0 {
      PlaceIsSingleBit(k - 1);
      HalfOfSingleBit(Place(k - 1));
    }
  }

  lemma BitIsLinear(a: bv32, b: bv32, m: bv32)
    requires IsSingleBit(m)
    ensures Bit(a ^ b, m) == (Bit(a, m) != Bit(b, m))
  {
  }

  lemma BitOfShift(crc: bv32, m: bv32)
    ensures Bit(crc << 1, m) == Bit(crc, m >> 1)
  {
  }

  lemma SumAt(a: bv32, b: bv32, k: nat)
    requires k < 32
    ensures Register(a ^ b)[k] == (Register(a)[k] != Register(b)[k])
  {
    PlaceIsSingleBit(k);
    BitIsLinear(a, b, Place(k));
  }

  lemma RegisterAdd(a: bv32, b: bv32)
    ensures Register(a ^ b) == AddAtFront(Register(a), Register(b))
  {
    var sum := AddAtFront(Register(a), Register(b));
    forall k: nat | k < 32 ensures Register(a ^ b)[k] == sum[k] {
      SumAt(a, b, k);
    }
  }

  // A polynomial one place further along, its leading coefficient cancelled.
  function Shifted(r: Polynomial): (s: Polynomial)
    requires |r| == 32
    ensures |s| == 32
  {
    var tail := r[1..] + [false];
    if r[0] then AddAtFront(tail, Divisor()) else tail
  }

  lemma TopPlaces()
    ensures Place(0) == 0x8000_0000 && Place(1) == 0x4000_0000 && Place(2) == 0x2000_0000 && Place(3) == 0x1000_0000
    ensures Place(4) == 0x0800_0000 && Place(5) == 0x0400_0000 && Place(6) == 0x0200_0000 && Place(7) == 0x0100_0000
  {
  }

  lemma SecondPlaces()
    ensures Place(8) == 0x80_0000 && Place(9) == 0x40_0000 && Place(10) == 0x20_0000 && Place(11) == 0x10_0000
    ensures Place(12) == 0x08_0000 && Place(13) == 0x04_0000 && Place(14) == 0x02_0000 && Place(15) == 0x01_0000
  {
    TopPlaces();
  }

  lemma ThirdPlaces()
    ensures Place(16) == 0x8000 && Place(17) == 0x4000 && Place(18) == 0x2000 && Place(19) == 0x1000
    ensures Place(20) == 0x0800 && Place(21) == 0x0400 && Place(22) == 0x0200 && Place(23) == 0x0100
  {
    SecondPlaces();
  }

  lemma LastPlaces()
    ensures Place(24) == 0x80 && Place(25) == 0x40 && Place(26) == 0x20 && Place(27) == 0x10
    ensures Place(28) == 8 && Place(29) == 4 && Place(30) == 2 && Place(31) == 1 && Place(32) == 0
  {
    ThirdPlaces();
  }

  // The constant of the source is the generator of the standard.
  lemma GeneratorIsDivisor()
    ensures Register(GENERATOR) == Divisor()
  {
    forall k: nat | k < 32 ensures Bit(GENERATOR, Place(k)) == (31 - k in EXPONENTS) {
      if k < 8 {
        TopPlaces();
      } else if k < 16 {
        SecondPlaces();
      } else if k < 24 {
        ThirdPlaces();
      } else {
        LastPlaces();
      }
    }
  }

  // The place after the last one is empty.
  lemma BitOfShiftAt(crc: bv32, k: nat)
    requires k < 32
    ensures Bit(crc << 1, Place(k)) == (k < 31 && Bit(crc, Place(k + 1)))
  {
    BitOfShift(crc, Place(k));
    if k == 31 {
      LastPlaces();
    }
  }

  lemma ShiftedAt(crc: bv32, k: nat)
    requires k < 32
    ensures Register(crc << 1)[k] == (k < 31 && Register(crc)[k + 1])
  {
    BitOfShiftAt(crc, k);
  }

  lemma ShiftOut(crc: bv32)
    ensures Register(crc << 1) == Register(crc)[1..] + [false] && Register(crc)[0] == HasTopBit(crc)
  {
    var r, shifted := Register(crc), Register(crc << 1);
    forall k: nat | k < 32 ensures shifted[k] == (r[1..] + [false])[k] {
      ShiftedAt(crc, k);
    }
  }

  lemma BitStepShifts(crc: bv32)
    ensures Register(BitStep(crc)) == Shifted(Register(crc))
  {
    ShiftOut(crc);
    RegisterAdd(crc << 1, GENERATOR);
    GeneratorIsDivisor();
  }

  // The n leading zeros of a dividend leave the register through n shifts.
  lemma {:induction false} DivideOutZeros(crc: bv32, n: nat, rest: Polynomial)
    requires |rest| >= 32
    ensures Remainder(AddAtFront(Zeros(n) + rest, Register(crc)))
         == Remainder(AddAtFront(rest, Register(Steps(crc, n))))
    decreases n
  {
    if n == 0 {
      assert Zeros(n) + rest == rest;
    } else {
      BitStepShifts(crc);
      DivideOutZero(Register(crc), n, rest);
      DivideOutZeros(BitStep(crc), n - 1, rest);
    }
  }

  lemma DivideOutZero(r: Polynomial, n: nat, rest: Polynomial)
    requires |r| == 32 <= |rest| && n > 0
    ensures Remainder(AddAtFront(Zeros(n) + rest, r)) == Remainder(AddAtFront(Zeros(n - 1) + rest, Shifted(r)))
  {
    var d := AddAtFront(Zeros(n) + rest, r);
    var next := AddAtFront(Zeros(n - 1) + rest, Shifted(r));
    assert next == if d[0] then AddAtFront(d[1..], Divisor()) else d[1..];
  }

  lemma LowPlace(m: bv32)
    requires m & 0xFF00_0000 == 0
    ensures (m >> 1) & 0xFF00_0000 == 0
  {
  }

  lemma {:induction false} LowPlaces(k: nat)
    requires k >= 8
    ensures Place(k) & 0xFF00_0000 == 0
  {
    if k > 8 {
      LowPlaces(k - 1);
      LowPlace(Place(k - 1));
    }
  }

  lemma TopByteHasNoLowBits(b: Octet, m: bv32)
    requires m & 0xFF00_0000 == 0
    ensures !Bit((b as bv32) << 24, m)
  {
  }

  lemma ByteAtTop(b: Octet)
    ensures Register((b as bv32) << 24) == ByteBits(b) + Zeros(24)
  {
    var r := Register((b as bv32) << 24);
    forall k | 8 <= k < 32 ensures !r[k] {
      LowPlaces(k);
      TopByteHasNoLowBits(b, Place(k));
    }
  }

  lemma MoveLeadingTerms(byte: Polynomial, rest: Polynomial, r: Polynomial)
    requires |byte| == 8 && |r| == 32 <= |rest|
    ensures AddAtFront(byte + rest, r) == AddAtFront(Zeros(8) + rest, AddAtFront(r, byte + Zeros(24)))
  {
  }

  // Adding a byte to the top of the register is adding it to the front of the dividend.
  lemma InjectByte(base: bv32, v: bv32, byte: Polynomial, rest: Polynomial)
    requires |byte| == 8 && |rest| >= 32
    requires Register(v) == byte + Zeros(24)
    ensures AddAtFront(byte + rest, Register(base)) == AddAtFront(Zeros(8) + rest, Register(base ^ v))
  {
    RegisterAdd(base, v);
    MoveLeadingTerms(byte, rest, Register(base));
  }

  lemma DivideOutByte(base: bv32, b: Octet, rest: Polynomial)
    requires |rest| >= 32
    ensures Remainder(AddAtFront(ByteBits(b) + rest, Register(base)))
         == Remainder(AddAtFront(rest, Register(ByteStep(base, b))))
  {
    ByteAtTop(b);
    InjectByte(base, (b as bv32) << 24, ByteBits(b), rest);
    DivideOutZeros(base ^ ((b as bv32) << 24), 8, rest);
  }

  // The checksum of a message M from base B is the remainder of M * x^32 + B * x^(8|M|).
  lemma {:induction false} CrcIsRemainder(base: bv32, message: seq<Octet>)
    ensures Register(Crc(base, message)) == Remainder(AddAtFront(Bits(message) + Zeros(32), Register(base)))
    decreases message
  {
    if message == [] {
      assert AddAtFront(Bits(message) + Zeros(32), Register(base)) == Register(base);
    } else {
      var b := message[0];
      var rest := Bits(message[1..]) + Zeros(32);
      assert Bits(message) + Zeros(32) == ByteBits(b) + rest;
      DivideOutByte(base, b, rest);
      CrcIsRemainder(ByteStep(base, b), message[1..]);
    }
  }

  // ----- error detection

  lemma {:induction false} RemainderIsLinear(a: Polynomial, b: Polynomial)
    requires |a| == |b| >= 32
    ensures Remainder(AddAtFront(a, b)) == AddAtFront(Remainder(a), Remainder(b))
    decreases |a|
  {
    if |a| > 32 {
      var g := Divisor();
      var a' := if a[0] then AddAtFront(a[1..], g) else a[1..];
      var b' := if b[0] then AddAtFront(b[1..], g) else b[1..];
      var c := AddAtFront(a, b);
      assert AddAtFront(a', b') == if c[0] then AddAtFront(c[1..], g) else c[1..];
      RemainderIsLinear(a', b');
    }
  }

  // The generator has a constant term, so it divides no non-zero polynomial confined to 32 places.
  lemma {:induction false} BurstHasRemainder(e: Polynomial, start: nat, at: nat)
    requires |e| >= 32
    requires start <= at < |e| && at < start + 32 && e[at]
    requires forall i :: 0 <= i < |e| && e[i] ==> start <= i < start + 32
    ensures true in Remainder(e)
    decreases |e|
  {
    if |e| > 32 {
      if e[0] {
        var next := AddAtFront(e[1..], Divisor());
        assert 0 in EXPONENTS;
        assert e[32] == false;
        BurstHasRemainder(next, 0, 31);
      } else {
        BurstHasRemainder(e[1..], if start == 0 then 0 else start - 1, at - 1);
      }
    }
  }

  lemma {:induction false} BitsDetermineMessage(a: seq<Octet>, b: seq<Octet>)
    requires Bits(a) == Bits(b)
    ensures a == b
  {
    if a != [] {
      assert |b| == |a|;
      assert ByteBits(a[0]) == Bits(a)[..8] == Bits(b)[..8] == ByteBits(b[0]);
      ByteFromBits(a[0], b[0]);
      assert Bits(a[1..]) == Bits(a)[8..] == Bits(b)[8..] == Bits(b[1..]);
      BitsDetermineMessage(a[1..], b[1..]);
      assert a == [a[0]] + a[1..] && b == [b[0]] + b[1..];
    }
  }

  lemma TopByte(a: Octet, b: Octet)
    requires var v, w := (a as bv32) << 24, (b as bv32) << 24;
      && Bit(v, 0x8000_0000) == Bit(w, 0x8000_0000) && Bit(v, 0x4000_0000) == Bit(w, 0x4000_0000)
      && Bit(v, 0x2000_0000) == Bit(w, 0x2000_0000) && Bit(v, 0x1000_0000) == Bit(w, 0x1000_0000)
      && Bit(v, 0x0800_0000) == Bit(w, 0x0800_0000) && Bit(v, 0x0400_0000) == Bit(w, 0x0400_0000)
      && Bit(v, 0x0200_0000) == Bit(w, 0x0200_0000) && Bit(v, 0x0100_0000) == Bit(w, 0x0100_0000)
    ensures a == b
  {
  }

  lemma ByteFromBits(a: Octet, b: Octet)
    requires ByteBits(a) == ByteBits(b)
    ensures a == b
  {
    var v, w := (a as bv32) << 24, (b as bv32) << 24;
    forall k | 0 <= k < 8 ensures Bit(v, Place(k)) == Bit(w, Place(k)) {
      assert ByteBits(a)[k] == ByteBits(b)[k];
    }
    TopPlaces();
    TopByte(a, b);
  }

  // Two different messages of one length whose bits agree outside a window of 32 get different checksums.
  lemma BurstIsDetected(base: bv32, a: seq<Octet>, b: seq<Octet>, start: nat)
    requires |a| == |b| && a != b
    requires forall i :: 0 <= i < 8 * |a| && !(start <= i < start + 32) ==> Bits(a)[i] == Bits(b)[i]
    ensures Crc(base, a) != Crc(base, b)
  {
    var r := Register(base);
    var x := AddAtFront(Bits(a) + Zeros(32), r);
    var y := AddAtFront(Bits(b) + Zeros(32), r);
    var e := AddAtFront(x, y);
    if Bits(a) == Bits(b) {
      BitsDetermineMessage(a, b);
    }
    var at :| 0 <= at < |Bits(a)| && Bits(a)[at] != Bits(b)[at];
    BurstHasRemainder(e, start, at);
    RemainderIsLinear(x, y);
    CrcIsRemainder(base, a);
    CrcIsRemainder(base, b);
  }

  lemma {:induction false} BitOfMessage(message: seq<Octet>, j: nat, k: nat)
    requires j < |message| && k < 8
    ensures Bits(message)[8 * j + k] == ByteBits(message[j])[k]
    decreases message
  {
    if j > 0 {
      BitOfMessage(message[1..], j - 1, k);
    }
  }

  lemma SameByteSameBits(x: seq<Octet>, y: seq<Octet>, j: nat, k: nat)
    requires |x| == |y| && j < |x| && k < 8 && x[j] == y[j]
    ensures Bits(x)[8 * j + k] == Bits(y)[8 * j + k]
  {
    BitOfMessage(x, j, k);
    BitOfMessage(y, j, k);
  }

  // Any two equally long paths that differ only inside four consecutive bytes name different pack entries,
  // although the lookup hashes four further zero bytes in a second call.
  lemma FourByteDifferenceChangesPackName(a: seq<Octet>, b: seq<Octet>, k: nat)
    requires |a| == |b| && a != b
    requires forall i :: 0 <= i < |a| && !(k <= i < k + 4) ==> a[i] == b[i]
    ensures Crc(Crc(0xFFFF_FFFF, a), [0, 0, 0, 0]) != Crc(Crc(0xFFFF_FFFF, b), [0, 0, 0, 0])
  {
    var x, y := a + [0, 0, 0, 0], b + [0, 0, 0, 0];
    assert x[..|a|] == a && y[..|b|] == b;
    forall i | 0 <= i < 8 * |x| && !(8 * k <= i < 8 * k + 32) ensures Bits(x)[i] == Bits(y)[i] {
      SameByteSameBits(x, y, i / 8, i % 8);
    }
    BurstIsDetected(0xFFFF_FFFF, x, y, 8 * k);
    ChainedCallsConcatenate(0xFFFF_FFFF, a, [0, 0, 0, 0]);
    ChainedCallsConcatenate(0xFFFF_FFFF, b, [0, 0, 0, 0]);
  }
}
