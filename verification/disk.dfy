/** Disk usage of "/" (disk.cpp): the per-platform arithmetic of
    `renderDiskWindow`. Byte counts are `unsigned long long`, so the
    products and differences wrap modulo 2^64; the quotients are `float`
    divisions, modelled as reals with the division by zero made explicit. */
module Disk {
  import opened Common

  /** What each platform's query yields. Windows: whether
      `GetDiskFreeSpaceExW` succeeded, the total and the free bytes.
      Linux and macOS (the same arithmetic on `statvfs` / `statfs`):
      whether the call succeeded, the block counts and the block size. */
  datatype DiskSource =
    | WindowsDisk(ok: bool, totalBytes: u64, freeBytes: u64)
    | StatDisk(ok: bool, blocks: u64, freeBlocks: u64, availBlocks: u64, blockSize: u64)
    | OtherDisk

  /** A `float` quotient: a real number, or what IEEE division by zero
      gives (an infinity for a non-zero dividend, NaN for 0 / 0). */
  datatype FloatQuotient = Finite(value: real) | Infinite | NotANumber

  /** What the disk window shows: the failure text (the stat call failed),
      the unsupported text, or the bar with its three sizes in GB. */
  datatype DiskView =
    | DiskFailed
    | DiskUnsupported
    | DiskShown(usedFraction: FloatQuotient, totalGB: real, usedGB: real, availGB: real)

  /** `(float)a / (float)b`. */
  function FloatDivide(a: u64, b: u64): (q: FloatQuotient)
    ensures b > 0 ==> q.Finite? && q.value * b as real == a as real
    ensures b == 0 ==> (q.Infinite? <==> a > 0) && (q.NotANumber? <==> a == 0)
  {
    if b > 0 then Finite(Fraction(a as real, b as real))
    else if a > 0 then Infinite
    else NotANumber
  }

  /** The Windows branch: used / total with no guard against a zero
      total. */
  function WindowsDiskView(total: u64, free: u64): (v: DiskView)
    ensures v.DiskShown?
    ensures total > 0 ==> v.usedFraction.Finite?
    ensures total > 0 && free <= total ==>
              0.0 <= v.usedFraction.value <= 1.0
              && v.usedFraction.value * total as real == (total - free) as real
    ensures total == 0 ==> !v.usedFraction.Finite?
    ensures v.totalGB * 1073741824.0 == total as real && v.availGB * 1073741824.0 == free as real
  {
    var used := Sub64(total, free);
    DiskShown(FloatDivide(used, total), total as real / 1073741824.0,
              used as real / 1073741824.0, free as real / 1073741824.0)
  }

  /** The Linux and macOS branch: the share of the user-visible space
      (used plus available) that is used, 0 when that space is empty. */
  function StatDiskView(blocks: u64, freeBlocks: u64, availBlocks: u64, blockSize: u64): (v: DiskView)
    ensures v.DiskShown? && v.usedFraction.Finite?
    ensures var total := Mul64(blocks, blockSize);
            var used := Sub64(total, Mul64(freeBlocks, blockSize));
            var available := Mul64(availBlocks, blockSize);
            v.totalGB * 1073741824.0 == total as real
            && v.usedGB * 1073741824.0 == used as real
            && v.availGB * 1073741824.0 == available as real
            && (Add64(used, available) == 0 ==> v.usedFraction.value == 0.0)
            && (Add64(used, available) > 0 ==>
                  v.usedFraction.value * Add64(used, available) as real == used as real)
  {
    var total := Mul64(blocks, blockSize);
    var free := Mul64(freeBlocks, blockSize);
    var available := Mul64(availBlocks, blockSize);
    var used := Sub64(total, free);
    var sum := Add64(used, available);
    var fraction := if sum > 0 then FloatDivide(used, sum) else Finite(0.0);
    DiskShown(fraction, total as real / 1073741824.0, used as real / 1073741824.0,
              available as real / 1073741824.0)
  }

  /** `renderDiskWindow`: a failed query returns early, before any
      fraction is computed. */
  function DiskWindow(src: DiskSource): (v: DiskView)
    ensures v.DiskFailed? <==> (src.WindowsDisk? || src.StatDisk?) && !src.ok
    ensures v.DiskUnsupported? <==> src.OtherDisk?
    ensures src.WindowsDisk? && src.ok ==> v == WindowsDiskView(src.totalBytes, src.freeBytes)
    ensures src.StatDisk? && src.ok ==>
              v == StatDiskView(src.blocks, src.freeBlocks, src.availBlocks, src.blockSize)
  {
    match src
    case WindowsDisk(ok, total, free) =>
      if ok then WindowsDiskView(total, free) else DiskFailed
    case StatDisk(ok, blocks, freeBlocks, availBlocks, blockSize) =>
      if ok then StatDiskView(blocks, freeBlocks, availBlocks, blockSize) else DiskFailed
    case OtherDisk => DiskUnsupported
  }

  /** When the sizes do not overflow 64 bits and the free blocks do not
      exceed the total, the Linux/macOS fraction lies in [0, 1] and is
      used / (used + available) computed exactly. */
  lemma StatFractionInUnitRange(blocks: u64, freeBlocks: u64, availBlocks: u64, blockSize: u64)
    requires freeBlocks <= blocks && blocks * blockSize < U64 && availBlocks * blockSize < U64
    requires (blocks - freeBlocks) * blockSize + availBlocks * blockSize < U64
    ensures var f := StatDiskView(blocks, freeBlocks, availBlocks, blockSize).usedFraction.value;
            0.0 <= f <= 1.0
            && (0 < (blocks - freeBlocks + availBlocks) * blockSize ==>
                  f * ((blocks - freeBlocks + availBlocks) * blockSize) as real
                  == ((blocks - freeBlocks) * blockSize) as real)
  {
    BlockProducts(blocks, freeBlocks, availBlocks, blockSize);
    var used := (blocks - freeBlocks) * blockSize;
    var sum := (blocks - freeBlocks + availBlocks) * blockSize;
    assert Sub64(Mul64(blocks, blockSize), Mul64(freeBlocks, blockSize)) == used;
    assert Add64(used, Mul64(availBlocks, blockSize)) == sum;
    if sum > 0 {
      assert FloatDivide(used, sum).value == Fraction(used as real, sum as real);
    }
  }

  lemma BlockProducts(blocks: nat, freeBlocks: nat, availBlocks: nat, blockSize: nat)
    requires freeBlocks <= blocks
    ensures freeBlocks * blockSize <= blocks * blockSize
    ensures (blocks - freeBlocks) * blockSize == blocks * blockSize - freeBlocks * blockSize
    ensures (blocks - freeBlocks + availBlocks) * blockSize
            == (blocks - freeBlocks) * blockSize + availBlocks * blockSize
  {
  }

  /** On Windows an empty volume size is not guarded: the fraction is not
      a number, or an infinity when the free count is non-zero. */
  lemma WindowsZeroTotalIsNotFinite(free: u64)
    ensures WindowsDiskView(0, free).usedFraction.NotANumber? <==> free == 0
    ensures WindowsDiskView(0, free).usedFraction.Infinite? <==> free > 0
  {
  }
}
