/** The global warp id: a mixed-radix number built from block and thread
    coordinates in 32-bit arithmetic. */
module WarpNumbering {
  import opened Words

  datatype Dim3 = Dim3(x: nat, y: nat, z: nat) {
    function Volume(): nat { x * y * z }
  }

  predicate InRange(i: Dim3, dim: Dim3) {
    i.x < dim.x && i.y < dim.y && i.z < dim.z
  }

  /** The position of i in a box, x fastest. */
  function Linear(i: Dim3, dim: Dim3): nat {
    i.x + i.y * dim.x + i.z * (dim.x * dim.y)
  }

  /** Signed division of C: towards zero. */
  function Quotient(a: int, b: int): int
    requires b > 0
  {
    if a >= 0 then a / b else -((-a) / b)
  }

  /** `get_global_warp_id`, with the conversion of every 32-bit operation. */
  function GlobalWarpId(blockIdx: Dim3, gridDim: Dim3, threadIdx: Dim3, blockDim: Dim3): int {
    var blockId := Int32(blockIdx.x + blockIdx.y * gridDim.x + gridDim.x * gridDim.y * blockIdx.z);
    var threadId := Int32(threadIdx.z * (blockDim.x * blockDim.y) + threadIdx.y * blockDim.x + threadIdx.x);
    var warpId := Quotient(threadId, 32);
    var warps := Int32(Uint32(Uint32(blockDim.x * blockDim.y * blockDim.z) + 32 - 1) / 32);
    Int32(Int32(blockId * warps) + warpId)
  }

  /** Warps per block: threads per block over 32, rounded up. */
  function WarpsPerBlock(blockDim: Dim3): nat { (blockDim.Volume() + 31) / 32 }

  /** The id meant, in unbounded arithmetic. */
  function WarpId(blockIdx: Dim3, gridDim: Dim3, threadIdx: Dim3, blockDim: Dim3): nat {
    Linear(blockIdx, gridDim) * WarpsPerBlock(blockDim) + Linear(threadIdx, blockDim) / 32
  }

  /** A block has at least one thread and its size fits an int. */
  predicate BlockFits(blockDim: Dim3) {
    0 < blockDim.Volume() < TWO_31 - 31
  }

  // ------------------------------------------------------------------------
  // Positions in a box.

  lemma DigitUnique(a: nat, b: nat, c: nat, d: nat, m: nat)
    requires a < m && c < m && a + b * m == c + d * m
    ensures a == c && b == d
  {
    ModUnique(a + b * m, b, a, m);
    ModUnique(c + d * m, d, c, m);
  }

  lemma LinearRegroups(i: Dim3, dim: Dim3)
    ensures Linear(i, dim) == i.x + (i.y + i.z * dim.y) * dim.x
  {
    assert i.z * (dim.x * dim.y) == (i.z * dim.y) * dim.x;
  }

  /** The rows of a box, numbered through its planes. */
  lemma LinearDigits(i: Dim3, dim: Dim3) returns (row: nat)
    ensures row == i.y + i.z * dim.y && Linear(i, dim) == i.x + row * dim.x
  {
    LinearRegroups(i, dim);
    row := i.y + i.z * dim.y;
  }

  /** Two positions in a box have different linear numbers. */
  lemma LinearUnique(i: Dim3, j: Dim3, dim: Dim3)
    requires InRange(i, dim) && InRange(j, dim) && Linear(i, dim) == Linear(j, dim)
    ensures i == j
  {
    hide Linear;
    var row := LinearDigits(i, dim);
    var row' := LinearDigits(j, dim);
    DigitUnique(i.x, row, j.x, row', dim.x);
    DigitUnique(i.y, i.z, j.y, j.z, dim.y);
  }

  /** Numbers of two digits are ordered by the high digit, then by the low one. */
  lemma DigitOrder(a: nat, b: nat, c: nat, d: nat, m: nat)
    requires a < m && c < m
    ensures a + b * m < c + d * m <==> b < d || (b == d && a < c)
  {
    assert (d - b) * m == d * m - b * m;
    MulSign(d - b, m);
  }

  /** i comes before j: by plane, then by row, then within the row. */
  predicate Before(i: Dim3, j: Dim3) {
    i.z < j.z || (i.z == j.z && (i.y < j.y || (i.y == j.y && i.x < j.x)))
  }

  /** The linear number runs through the box row by row and plane by plane. */
  lemma LinearOrder(i: Dim3, j: Dim3, dim: Dim3)
    requires InRange(i, dim) && InRange(j, dim)
    ensures Linear(i, dim) < Linear(j, dim) <==> Before(i, j)
  {
    hide Linear;
    var row := LinearDigits(i, dim);
    var row' := LinearDigits(j, dim);
    DigitOrder(i.x, row, j.x, row', dim.x);
    DigitOrder(i.y, i.z, j.y, j.z, dim.y);
    if row == row' {
      DigitUnique(i.y, i.z, j.y, j.z, dim.y);
    }
  }

  lemma DigitBound(low: nat, high: nat, m: nat, n: nat)
    requires low < m && high < n
    ensures low + high * m < n * m
  {
    assert n * m == high * m + m + (n - high - 1) * m;
    assert (n - high - 1) * m >= 0;
  }

  lemma LinearBound(i: Dim3, dim: Dim3)
    requires InRange(i, dim)
    ensures Linear(i, dim) < dim.Volume()
  {
    LinearRegroups(i, dim);
    DigitBound(i.y, i.z, dim.y, dim.z);
    DigitBound(i.x, i.y + i.z * dim.y, dim.x, dim.z * dim.y);
    assert dim.z * dim.y * dim.x == dim.x * dim.y * dim.z;
  }

  lemma VolumeRegroups(dim: Dim3)
    ensures dim.Volume() == (dim.z * dim.y) * dim.x
  {
  }

  lemma Digits(n: nat, m: nat) returns (low: nat, high: nat)
    requires m > 0
    ensures n == low + high * m && low < m
  {
    low, high := n % m, n / m;
  }

  lemma HighDigitBound(low: nat, high: nat, m: nat, n: nat)
    requires low + high * m < n * m
    ensures high < n
  {
    assert (high - n) * m == high * m - n * m;
    assert high >= n ==> (high - n) * m >= 0;
  }

  lemma PositiveSides(dim: Dim3)
    requires dim.Volume() > 0
    ensures dim.x > 0 && dim.y > 0 && dim.z > 0
  {
  }

  /** Every number below the volume is the number of a position. */
  lemma LinearOnto(n: nat, dim: Dim3) returns (i: Dim3)
    requires n < dim.Volume()
    ensures InRange(i, dim) && Linear(i, dim) == n
  {
    hide Linear;
    PositiveSides(dim);
    VolumeRegroups(dim);
    var x, rest := Digits(n, dim.x);
    HighDigitBound(x, rest, dim.x, dim.z * dim.y);
    var y, z := Digits(rest, dim.y);
    HighDigitBound(y, z, dim.y, dim.z);
    i := Dim3(x, y, z);
    LinearRegroups(i, dim);
  }

  // ------------------------------------------------------------------------
  // The numbering.

  lemma LocalWarpBound(threadIdx: Dim3, blockDim: Dim3)
    requires InRange(threadIdx, blockDim)
    ensures Linear(threadIdx, blockDim) / 32 < WarpsPerBlock(blockDim)
  {
    LinearBound(threadIdx, blockDim);
  }

  /** Two threads have the same id exactly when they share a block and their
      linear thread ids fall in the same group of 32. */
  lemma WarpIdIdentifies(b1: Dim3, t1: Dim3, b2: Dim3, t2: Dim3, gridDim: Dim3, blockDim: Dim3)
    requires InRange(b1, gridDim) && InRange(b2, gridDim) && InRange(t1, blockDim) && InRange(t2, blockDim)
    ensures WarpId(b1, gridDim, t1, blockDim) == WarpId(b2, gridDim, t2, blockDim)
            <==> b1 == b2 && Linear(t1, blockDim) / 32 == Linear(t2, blockDim) / 32
  {
    hide Linear, WarpsPerBlock;
    LocalWarpBound(t1, blockDim);
    LocalWarpBound(t2, blockDim);
    var w := WarpsPerBlock(blockDim);
    if WarpId(b1, gridDim, t1, blockDim) == WarpId(b2, gridDim, t2, blockDim) {
      DigitUnique(Linear(t1, blockDim) / 32, Linear(b1, gridDim), Linear(t2, blockDim) / 32, Linear(b2, gridDim), w);
      LinearUnique(b1, b2, gridDim);
    }
  }

  /** The ids are numbers below blocks times warps per block. */
  lemma WarpIdBound(b: Dim3, t: Dim3, gridDim: Dim3, blockDim: Dim3)
    requires InRange(b, gridDim) && InRange(t, blockDim)
    ensures WarpId(b, gridDim, t, blockDim) < gridDim.Volume() * WarpsPerBlock(blockDim)
  {
    hide Linear, WarpsPerBlock;
    LocalWarpBound(t, blockDim);
    LinearBound(b, gridDim);
    DigitBound(Linear(t, blockDim) / 32, Linear(b, gridDim), WarpsPerBlock(blockDim), gridDim.Volume());
  }

  /** And every such number is the id of some thread. */
  lemma WarpIdOnto(n: nat, gridDim: Dim3, blockDim: Dim3) returns (b: Dim3, t: Dim3)
    requires n < gridDim.Volume() * WarpsPerBlock(blockDim)
    ensures InRange(b, gridDim) && InRange(t, blockDim) && WarpId(b, gridDim, t, blockDim) == n
  {
    hide Linear;
    var w := WarpsPerBlock(blockDim);
    var block, local := n / w, n % w;
    assert n == local + block * w;
    HighDigitBound(local, block, w, gridDim.Volume());
    b := LinearOnto(block, gridDim);
    t := LinearOnto(local * 32, blockDim);
  }

  /** Warps are numbered block by block, and within a block group by group; with
      the bound, and every number below it in use, this determines each id. */
  lemma WarpIdOrder(b1: Dim3, t1: Dim3, b2: Dim3, t2: Dim3, gridDim: Dim3, blockDim: Dim3)
    requires InRange(b1, gridDim) && InRange(b2, gridDim) && InRange(t1, blockDim) && InRange(t2, blockDim)
    ensures WarpId(b1, gridDim, t1, blockDim) < WarpId(b2, gridDim, t2, blockDim)
            <==> Before(b1, b2) || (b1 == b2 && Linear(t1, blockDim) / 32 < Linear(t2, blockDim) / 32)
  {
    hide Linear, WarpsPerBlock;
    LocalWarpBound(t1, blockDim);
    LocalWarpBound(t2, blockDim);
    LinearOrder(b1, b2, gridDim);
    if Linear(b1, gridDim) == Linear(b2, gridDim) {
      LinearUnique(b1, b2, gridDim);
    }
    DigitOrder(Linear(t1, blockDim) / 32, Linear(b1, gridDim), Linear(t2, blockDim) / 32, Linear(b2, gridDim),
               WarpsPerBlock(blockDim));
  }

  // ------------------------------------------------------------------------
  // 32-bit arithmetic.

  /** Block id times warps plus local warp, each operation wrapping, wraps once. */
  lemma ProductWraps(block: nat, w: nat, local: nat)
    ensures Int32(Int32(Int32(block) * w) + local) == Int32(block * w + local)
  {
    hide Int32;
    var k := Int32Congruent(block);
    var m := Int32Congruent(Int32(block) * w);
    assert (block + k * TWO_32) * w == block * w + (k * w) * TWO_32;
    Int32Periodic(block * w + local, k * w + m);
  }

  lemma WarpsFit(threads: nat)
    requires 0 < threads < TWO_31 - 31
    ensures Uint32(Uint32(threads) + 32 - 1) / 32 == (threads + 31) / 32
    ensures Int32((threads + 31) / 32) == (threads + 31) / 32
  {
  }

  /** The 32-bit computation is the id meant, read as an int. */
  lemma WrapsOnce(b: Dim3, t: Dim3, gridDim: Dim3, blockDim: Dim3)
    requires InRange(b, gridDim) && InRange(t, blockDim) && BlockFits(blockDim)
    ensures GlobalWarpId(b, gridDim, t, blockDim) == Int32(WarpId(b, gridDim, t, blockDim))
  {
    hide Int32, Uint32;
    var block, thread, w := Linear(b, gridDim), Linear(t, blockDim), WarpsPerBlock(blockDim);
    LinearBound(t, blockDim);
    assert b.x + b.y * gridDim.x + gridDim.x * gridDim.y * b.z == block;
    assert t.z * (blockDim.x * blockDim.y) + t.y * blockDim.x + t.x == thread;
    Int32Small(thread);
    WarpsFit(blockDim.Volume());
    ProductWraps(block, w, thread / 32);
  }

  /** The kernel computes the id meant for every thread of a launch exactly when
      the number of warps launched fits an int. */
  lemma GlobalWarpIdExactly(gridDim: Dim3, blockDim: Dim3)
    requires BlockFits(blockDim)
    ensures (forall b, t | InRange(b, gridDim) && InRange(t, blockDim) ::
               GlobalWarpId(b, gridDim, t, blockDim) == WarpId(b, gridDim, t, blockDim))
            <==> gridDim.Volume() * WarpsPerBlock(blockDim) <= TWO_31
  {
    hide WarpId, GlobalWarpId;
    var total := gridDim.Volume() * WarpsPerBlock(blockDim);
    if total <= TWO_31 {
      forall b, t | InRange(b, gridDim) && InRange(t, blockDim)
        ensures GlobalWarpId(b, gridDim, t, blockDim) == WarpId(b, gridDim, t, blockDim)
      {
        WrapsOnce(b, t, gridDim, blockDim);
        WarpIdBound(b, t, gridDim, blockDim);
        Int32Small(WarpId(b, gridDim, t, blockDim));
      }
    } else {
      var b, t := WarpIdOnto(TWO_31, gridDim, blockDim);
      WrapsOnce(b, t, gridDim, blockDim);
    }
  }

  /** So up to 2^31 warps the kernel numbers them in the same order. */
  lemma GlobalWarpIdOrder(b1: Dim3, t1: Dim3, b2: Dim3, t2: Dim3, gridDim: Dim3, blockDim: Dim3)
    requires InRange(b1, gridDim) && InRange(b2, gridDim) && InRange(t1, blockDim) && InRange(t2, blockDim)
    requires BlockFits(blockDim) && gridDim.Volume() * WarpsPerBlock(blockDim) <= TWO_31
    ensures 0 <= GlobalWarpId(b1, gridDim, t1, blockDim) < gridDim.Volume() * WarpsPerBlock(blockDim)
    ensures GlobalWarpId(b1, gridDim, t1, blockDim) < GlobalWarpId(b2, gridDim, t2, blockDim)
            <==> Before(b1, b2) || (b1 == b2 && Linear(t1, blockDim) / 32 < Linear(t2, blockDim) / 32)
  {
    hide WarpId, GlobalWarpId, Linear, WarpsPerBlock;
    GlobalWarpIdExactly(gridDim, blockDim);
    WarpIdBound(b1, t1, gridDim, blockDim);
    WarpIdOrder(b1, t1, b2, t2, gridDim, blockDim);
    assert GlobalWarpId(b2, gridDim, t2, blockDim) == WarpId(b2, gridDim, t2, blockDim);
  }

  lemma Int32Injective(a: nat, b: nat)
    requires a < TWO_32 && b < TWO_32 && Int32(a) == Int32(b)
    ensures a == b
  {
  }

  /** Ids stay distinct, even where they turn negative, up to 2^32 warps. */
  lemma GlobalWarpIdDistinct(b1: Dim3, t1: Dim3, b2: Dim3, t2: Dim3, gridDim: Dim3, blockDim: Dim3)
    requires InRange(b1, gridDim) && InRange(b2, gridDim) && InRange(t1, blockDim) && InRange(t2, blockDim)
    requires BlockFits(blockDim) && gridDim.Volume() * WarpsPerBlock(blockDim) <= TWO_32
    ensures GlobalWarpId(b1, gridDim, t1, blockDim) == GlobalWarpId(b2, gridDim, t2, blockDim)
            <==> b1 == b2 && Linear(t1, blockDim) / 32 == Linear(t2, blockDim) / 32
  {
    hide WarpId, GlobalWarpId, Linear, WarpsPerBlock, Int32;
    WrapsOnce(b1, t1, gridDim, blockDim);
    WrapsOnce(b2, t2, gridDim, blockDim);
    WarpIdBound(b1, t1, gridDim, blockDim);
    WarpIdBound(b2, t2, gridDim, blockDim);
    WarpIdIdentifies(b1, t1, b2, t2, gridDim, blockDim);
    var i, j := WarpId(b1, gridDim, t1, blockDim), WarpId(b2, gridDim, t2, blockDim);
    if Int32(i) == Int32(j) {
      Int32Injective(i, j);
    }
  }
}
