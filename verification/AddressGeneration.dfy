/** The 64-bit address of a memory reference: sign extension by a pair of shifts,
    a bitwise OR where a sum is meant, and additions modulo 2^64. */
module AddressGeneration {
  import opened Words

  type uint32 = x: int | 0 <= x < 0x1_0000_0000
  type int32 = x: int | -0x8000_0000 <= x < 0x8000_0000

  // ------------------------------------------------------------------------
  // Bitwise operators on unsigned numbers of any width.

  function BitAnd(a: nat, b: nat): nat {
    if a == 0 || b == 0 then 0
    else (if a % 2 == 1 && b % 2 == 1 then 1 else 0) + 2 * BitAnd(a / 2, b / 2)
  }

  function BitOr(a: nat, b: nat): nat {
    if a == 0 then b
    else if b == 0 then a
    else (if a % 2 == 1 || b % 2 == 1 then 1 else 0) + 2 * BitOr(a / 2, b / 2)
  }

  /** An OR falls short of the sum by exactly the common bits. */
  lemma {:induction false} OrAndSum(a: nat, b: nat)
    ensures BitOr(a, b) + BitAnd(a, b) == a + b
  {
    if a != 0 && b != 0 {
      OrAndSum(a / 2, b / 2);
    }
  }

  lemma {:induction false} AndAtMost(a: nat, b: nat)
    ensures BitAnd(a, b) <= a && BitAnd(a, b) <= b
  {
    if a != 0 && b != 0 {
      AndAtMost(a / 2, b / 2);
    }
  }

  /** x shifted left by k, and by k to the right. */
  function Left(x: nat, k: nat): (r: nat)
    ensures x > 0 ==> r > 0
  {
    if k == 0 then x else 2 * Left(x, k - 1)
  }

  function Right(x: nat, k: nat): nat { if k == 0 then x else Right(x / 2, k - 1) }

  lemma AndEven(a: nat, p: nat)
    ensures BitAnd(2 * a, p) == 2 * BitAnd(a, p / 2)
  {
    if a != 0 && p != 0 {
      assert (2 * a) % 2 == 0 && (2 * a) / 2 == a;
    }
  }

  /** Only the bits from k upward meet a number shifted left by k. */
  lemma {:induction false} AndShifted(h: nat, k: nat, p: nat)
    ensures BitAnd(Left(h, k), p) == Left(BitAnd(h, Right(p, k)), k)
  {
    if k > 0 {
      AndEven(Left(h, k - 1), p);
      AndShifted(h, k - 1, p / 2);
    }
  }

  lemma HalveTwice(x: nat, p: nat)
    requires p > 0
    ensures x / 2 / p == x / (2 * p)
  {
    var half, low := x / 2, x % 2;
    var q, r := half / p, half % p;
    assert half == q * p + r && x == 2 * half + low;
    assert x == q * (2 * p) + (2 * r + low);
    ModUnique(x, q, 2 * r + low, 2 * p);
  }

  /** A shift to the right divides by the power of two. */
  lemma {:induction false} RightDivides(x: nat, k: nat)
    ensures Right(x, k) == x / Left(1, k)
  {
    if k > 0 {
      RightDivides(x / 2, k - 1);
      HalveTwice(x, Left(1, k - 1));
    }
  }

  /** Bit k of x. */
  predicate Bit(x: nat, k: nat) {
    x / Left(1, k) % 2 == 1
  }

  lemma {:induction false} ShiftedBits(a: nat, b: nat, k: nat)
    ensures Right(BitOr(a, b), k) % 2 == 1 <==> Right(a, k) % 2 == 1 || Right(b, k) % 2 == 1
    ensures Right(BitAnd(a, b), k) % 2 == 1 <==> Right(a, k) % 2 == 1 && Right(b, k) % 2 == 1
  {
    if k > 0 {
      ShiftedBits(a / 2, b / 2, k - 1);
      assert BitOr(a, b) / 2 == BitOr(a / 2, b / 2);
      assert BitAnd(a, b) / 2 == BitAnd(a / 2, b / 2);
    }
  }

  /** Bit by bit: the OR has the bits that either operand has, the AND those that
      both have. */
  lemma OperatorsAreBitwise(a: nat, b: nat, k: nat)
    ensures Bit(BitOr(a, b), k) <==> Bit(a, k) || Bit(b, k)
    ensures Bit(BitAnd(a, b), k) <==> Bit(a, k) && Bit(b, k)
  {
    hide Left, Right, BitOr, BitAnd;
    RightDivides(a, k);
    RightDivides(b, k);
    RightDivides(BitOr(a, b), k);
    RightDivides(BitAnd(a, b), k);
    ShiftedBits(a, b, k);
  }

  lemma LeftEight(x: nat, k: nat)
    ensures Left(x, k + 8) == 256 * Left(x, k)
  {
    assert Left(x, k + 2) == 4 * Left(x, k);
    assert Left(x, k + 4) == 4 * Left(x, k + 2);
    assert Left(x, k + 6) == 4 * Left(x, k + 4);
  }

  lemma RightEight(x: nat, k: nat)
    ensures Right(x, k + 8) == Right(x / 256, k)
  {
    assert Right(x, k + 8) == Right(x / 4, k + 6);
    assert Right(x / 4, k + 6) == Right(x / 16, k + 4);
    assert Right(x / 16, k + 4) == Right(x / 64, k + 2);
    assert Right(x / 64, k + 2) == Right(x / 256, k);
  }

  lemma NoShift(x: nat)
    ensures Left(x, 0) == x && Right(x, 0) == x
  {
  }

  lemma ShiftWord(x: nat)
    ensures Left(x, 32) == x * TWO_32 && Right(x, 32) == x / TWO_32
  {
    hide Left, Right;
    NoShift(x);
    LeftEight(x, 0);
    LeftEight(x, 8);
    LeftEight(x, 16);
    LeftEight(x, 24);
    RightEight(x, 24);
    RightEight(x / 256, 16);
    RightEight(x / 65536, 8);
    RightEight(x / 16777216, 0);
    NoShift(x / 256 / 256 / 256 / 256);
  }

  // ------------------------------------------------------------------------
  // The kernel.

  /** The macro SIGN_EXTEND64 applied to a uint32_t: shift left by 32 in int64_t,
      then arithmetic shift right by 32. */
  function SignExtend64(x: uint32): int {
    Int64(x * TWO_32) / TWO_32
  }

  /** The shift pair reads the word as a two's complement number. */
  lemma SignExtends(x: uint32)
    ensures SignExtend64(x) == Int32(x)
  {
    if x < TWO_31 {
      assert Int64(x * TWO_32) == x * TWO_32;
    } else {
      assert Int64(x * TWO_32) == (x - TWO_32) * TWO_32;
    }
  }

  /** What a register operand contributes, as a 64-bit pattern. */
  function Operand(high: uint32, is64: bool, low: uint32, stride: int32): int {
    if is64 then BitOr(Uint64(high * TWO_32), Uint64(low * stride))
    else SignExtend64(Uint32(low * stride))
  }

  /** What it is meant to contribute: high * 2^32 + scaled low, or the signed
      value of the scaled low word. */
  function Meant(high: uint32, is64: bool, low: uint32, stride: int32): int {
    if is64 then high * TWO_32 + low * stride else Int32(low * stride)
  }

  /** No bit of the high word meets a bit that the scaled low word carries beyond
      32 bits. */
  predicate NoOverlap(high: uint32, is64: bool, low: uint32, stride: int32) {
    is64 ==> BitAnd(high, Uint64(low * stride) / TWO_32) == 0
  }

  function MrefAddr(raHigh: uint32, isRa64: bool, raLow: uint32, raStride: int32,
                    ruHigh: uint32, isRu64: bool, ruLow: uint32, imm: int32): nat {
    var base := Int64(Operand(raHigh, isRa64, raLow, raStride));
    var both := Int64(base + Operand(ruHigh, isRu64, ruLow, 1));
    Uint64(both + imm)
  }

  /** How far an operand is from what it is meant to be: the common bits, up to a
      multiple of 2^64. */
  lemma OperandError(high: uint32, is64: bool, low: uint32, stride: int32) returns (k: int)
    ensures Operand(high, is64, low, stride) ==
      Meant(high, is64, low, stride) + k * TWO_64
      - if is64 then TWO_32 * BitAnd(high, Uint64(low * stride) / TWO_32) else 0
  {
    if is64 {
      var a, b := Uint64(high * TWO_32), Uint64(low * stride);
      assert a == high * TWO_32;
      OrAndSum(a, b);
      AndShifted(high, 32, b);
      ShiftWord(high);
      ShiftWord(b);
      ShiftWord(BitAnd(high, b / TWO_32));
      var q := low * stride / TWO_64;
      assert low * stride == q * TWO_64 + b;
      k := -q;
    } else {
      SignExtends(Uint32(low * stride));
      k := 0;
    }
  }

  /** The unscaled register never overlaps: its low word has no bit beyond 32. */
  lemma UnscaledNeverOverlaps(high: uint32, is64: bool, low: uint32)
    ensures NoOverlap(high, is64, low, 1)
  {
    assert low * 1 == low && Uint64(low) / TWO_32 == 0;
  }

  /** Taking less than 2^64 away is noticed modulo 2^64. */
  lemma SameModulo(x: int, d: nat)
    requires d < TWO_64
    ensures Uint64(x - d) == Uint64(x) <==> d == 0
  {
  }

  /** The address is RA + RU + imm modulo 2^64 exactly when the scaled low word
      of a 64-bit RA does not run into its high word. */
  lemma MrefAddrExactly(raHigh: uint32, isRa64: bool, raLow: uint32, raStride: int32,
                        ruHigh: uint32, isRu64: bool, ruLow: uint32, imm: int32)
    ensures var meant := Meant(raHigh, isRa64, raLow, raStride) + Meant(ruHigh, isRu64, ruLow, 1) + imm;
      MrefAddr(raHigh, isRa64, raLow, raStride, ruHigh, isRu64, ruLow, imm) == Uint64(meant)
      <==> NoOverlap(raHigh, isRa64, raLow, raStride)
  {
    hide Int64, Uint64, BitAnd, Operand, Meant;
    var ra, ru := Operand(raHigh, isRa64, raLow, raStride), Operand(ruHigh, isRu64, ruLow, 1);
    var meant := Meant(raHigh, isRa64, raLow, raStride) + Meant(ruHigh, isRu64, ruLow, 1) + imm;
    var common := if isRa64 then BitAnd(raHigh, Uint64(raLow * raStride) / TWO_32) else 0;
    var j := OperandError(raHigh, isRa64, raLow, raStride);
    var k := OperandError(ruHigh, isRu64, ruLow, 1);
    UnscaledNeverOverlaps(ruHigh, isRu64, ruLow);
    var base := Int64(ra);
    var m := Int64Congruent(ra);
    var n := Int64Congruent(base + ru);
    var total := Int64(base + ru) + imm;
    assert total == (meant - TWO_32 * common) + (j + k + m + n) * TWO_64;
    Uint64Periodic(meant - TWO_32 * common, j + k + m + n);
    AndAtMost(raHigh, Uint64(raLow * raStride) / TWO_32);
    SameModulo(meant, TWO_32 * common);
  }

  /** The body of the device function, accumulating into base_addr. */
  method GenMrefAddr(raHigh: uint32, isRa64: bool, raLow: uint32, raStride: int32,
                     ruHigh: uint32, isRu64: bool, ruLow: uint32, imm: int32) returns (addr: nat)
    ensures addr == MrefAddr(raHigh, isRa64, raLow, raStride, ruHigh, isRu64, ruLow, imm)
    ensures addr == Uint64(Meant(raHigh, isRa64, raLow, raStride) + Meant(ruHigh, isRu64, ruLow, 1) + imm)
            <==> NoOverlap(raHigh, isRa64, raLow, raStride)
  {
    hide BitOr, BitAnd, Int64, SignExtend64, Meant, NoOverlap;
    var baseAddr := 0;
    if isRa64 {
      baseAddr := Int64(baseAddr + BitOr(Uint64(raHigh * TWO_32), Uint64(raLow * raStride)));
    } else {
      baseAddr := Int64(baseAddr + SignExtend64(Uint32(raLow * raStride)));
    }
    if isRu64 {
      baseAddr := Int64(baseAddr + BitOr(Uint64(ruHigh * TWO_32), ruLow));
    } else {
      baseAddr := Int64(baseAddr + SignExtend64(ruLow));
    }
    addr := Uint64(baseAddr + imm);
    assert ruLow * 1 == ruLow && Uint64(ruLow) == ruLow && Uint32(ruLow) == ruLow;
    MrefAddrExactly(raHigh, isRa64, raLow, raStride, ruHigh, isRu64, ruLow, imm);
  }

  /** A non-negative stride that keeps the scaled low word in 32 bits is enough. */
  lemma SmallScaleIsExact(high: uint32, is64: bool, low: uint32, stride: int32)
    requires 0 <= stride && low * stride < TWO_32
    ensures NoOverlap(high, is64, low, stride)
  {
    assert 0 <= low * stride;
    assert Uint64(low * stride) / TWO_32 == 0;
  }

  /** And it can go wrong: with 2^31 scaled by 2 under a high word of 1 the address
      is not the meant one, whatever the other register and the immediate are. */
  lemma OverlapIsPossible(ruHigh: uint32, isRu64: bool, ruLow: uint32, imm: int32)
    ensures Meant(1, true, 0x8000_0000, 2) == 0x2_0000_0000
    ensures MrefAddr(1, true, 0x8000_0000, 2, ruHigh, isRu64, ruLow, imm)
         != Uint64(0x2_0000_0000 + Meant(ruHigh, isRu64, ruLow, 1) + imm)
  {
    hide MrefAddr;
    MrefAddrExactly(1, true, 0x8000_0000, 2, ruHigh, isRu64, ruLow, imm);
    assert Uint64(0x8000_0000 * 2) / TWO_32 == 1;
    assert BitAnd(1, 1) == 1;
  }
}
