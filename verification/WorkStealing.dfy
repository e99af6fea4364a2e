/** Probe work handed out in blocks from one atomic counter. */
module WorkStealing {

  function Max(a: nat, b: nat): nat { if a < b then b else a }

  function Min(a: nat, b: nat): nat { if a < b then a else b }

  /** `get_block_size` */
  function BlockSize(totalWork: nat, numThreads: nat, minBlockSize: nat, blocksPerThread: nat): nat
    requires blocksPerThread > 0
  {
    if totalWork == 0 || numThreads == 0 then 0
    else
      ThreadBlocksPositive(numThreads, blocksPerThread);
      Max(minBlockSize, totalWork / (numThreads * blocksPerThread))
  }

  lemma ThreadBlocksPositive(numThreads: nat, blocksPerThread: nat)
    ensures numThreads > 0 && blocksPerThread > 0 ==> numThreads * blocksPerThread > 0
  {
  }

  /** A coordinator with work left never hands out empty blocks, unless the minimum is zero and the work is scarce. */
  lemma BlockSizePositive(totalWork: nat, numThreads: nat, minBlockSize: nat, blocksPerThread: nat)
    requires blocksPerThread > 0
    ensures BlockSize(totalWork, numThreads, minBlockSize, blocksPerThread) == 0 <==>
      totalWork == 0 || numThreads == 0 || (minBlockSize == 0 && totalWork < numThreads * blocksPerThread)
  {
    ThreadBlocksPositive(numThreads, blocksPerThread);
    var d := numThreads * blocksPerThread;
    if d > 0 {
      QuotientZero(totalWork, d);
    }
  }

  /** The block size is the least number not below the minimum and not below the work per block wanted, rounded down. */
  lemma BlockSizeLeast(totalWork: nat, numThreads: nat, minBlockSize: nat, blocksPerThread: nat, size: nat)
    requires blocksPerThread > 0 && numThreads > 0 && totalWork > 0
    ensures size >= BlockSize(totalWork, numThreads, minBlockSize, blocksPerThread) <==>
      size >= minBlockSize && totalWork < (size + 1) * (numThreads * blocksPerThread)
  {
    ThreadBlocksPositive(numThreads, blocksPerThread);
    QuotientAtMost(totalWork, numThreads * blocksPerThread, size);
  }

  lemma QuotientAtMost(a: nat, d: nat, q: nat)
    requires d > 0
    ensures q >= a / d <==> a < (q + 1) * d
  {
    var p, r := a / d, a % d;
    assert a == d * p + r && r < d;
    if q >= p {
      Split(d, p, q + 1 - p);
    } else {
      Split(d, q + 1, p - q - 1);
    }
  }

  lemma Split(d: nat, x: nat, y: nat)
    ensures (x + y) * d == d * x + d * y && (y > 0 ==> d * y >= d) && x * d == d * x
  {
    if y > 0 {
      assert d * y == d + d * (y - 1);
    }
  }

  lemma QuotientZero(a: nat, d: nat)
    requires d > 0
    ensures a / d == 0 <==> a < d
  {
    if a >= d {
      assert a == (a - d) + d;
      assert a / d >= 1 by { assert d * (a / d) + a % d == a; }
    }
  }

  class WorkStealingCoordinator {
    const totalWork: nat
    const blockSize: nat
    var workCounter: nat

    constructor (totalWork: nat, numThreads: nat, minBlockSize: nat, blocksPerThread: nat)
      requires blocksPerThread > 0
      ensures this.totalWork == totalWork && workCounter == 0
      ensures blockSize == BlockSize(totalWork, numThreads, minBlockSize, blocksPerThread)
    {
      this.totalWork := totalWork;
      this.blockSize := BlockSize(totalWork, numThreads, minBlockSize, blocksPerThread);
      workCounter := 0;
    }

    /** One atomic `fetch_add`: the next block, cut off at the end of the work. */
    method StealBlock() returns (ok: bool, begin: nat, end: nat)
      modifies this
      ensures begin == old(workCounter) && workCounter == begin + blockSize
      ensures ok <==> begin < totalWork
      ensures ok ==> end == Min(totalWork, workCounter)
    {
      begin := workCounter;
      workCounter := workCounter + blockSize;
      if begin >= totalWork { return false, begin, 0; }
      end := Min(totalWork, begin + blockSize);
      ok := true;
    }
  }
}
