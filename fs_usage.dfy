/** Filesystem usage of one mount point from the result of a `statvfs`
    query: capacities in kilobytes and the share of the non-reserved
    capacity in use (src/lib.rs, `fs_usage`). */
module FilesystemUsage {
  import opened Primitives

  /** The fields of a successful `statvfs` call that `fs_usage` reads:
      fragment counts (total, free, free to unprivileged users) and the
      fragment size in bytes. */
  datatype StatVfs = StatVfs(blocks: u64, bfree: u64, bavail: u64, frsize: u64)

  /** The `(used, available, total, use_pc)` tuple: kilobytes and a percentage. */
  datatype Usage = Usage(used: u64, available: u64, total: u64, usePc: u32)

  /** Reported when the query fails: nothing used, nothing available, and
      100 percent, so that a failure looks full rather than healthy. */
  const FAIL_SAFE: Usage := Usage(0, 0, 0, 100)

  /** `count` units of `size` bytes, in whole kilobytes (rounded down). */
  function Kilobytes(count: nat, size: nat): nat
  {
    count * size / 1024
  }

  /** None of the u64 operations of `fs_usage` wraps for this query: the
      three byte counts fit, free does not exceed total, and neither
      `used * 100` nor `used + available` overflows. */
  predicate NoWrap(s: StatVfs)
  {
    var total := Kilobytes(s.blocks, s.frsize);
    var available := Kilobytes(s.bavail, s.frsize);
    var free := Kilobytes(s.bfree, s.frsize);
    && s.blocks * s.frsize < U64_LIMIT
    && s.bavail * s.frsize < U64_LIMIT
    && s.bfree * s.frsize < U64_LIMIT
    && free <= total
    && (total - free) * 100 < U64_LIMIT
    && (total - free) + available < U64_LIMIT
  }

  /** What `fs_usage` promises of a successful query: total and available
      converted to kilobytes, `used == total - free`, and `use_pc` the
      rounded-down percentage `used * 100 / (used + available)`, 0 when
      that denominator is 0, and never above 100. */
  predicate Consistent(s: StatVfs, r: Usage)
  {
    var nonrootTotal := r.used + r.available;
    && r.total == Kilobytes(s.blocks, s.frsize)
    && r.available == Kilobytes(s.bavail, s.frsize)
    && r.used == r.total - Kilobytes(s.bfree, s.frsize)
    && r.usePc <= 100
    && (nonrootTotal == 0 ==> r.usePc == 0)
    && (nonrootTotal > 0 ==>
          r.usePc * nonrootTotal <= r.used * 100 < (r.usePc + 1) * nonrootTotal)
  }

  /** `fs_usage`: `query` is the outcome of `statvfs` on the mount point
      (None when the call failed). The arithmetic is u64 arithmetic as an
      optimised build performs it, wrapping modulo 2^64, and the percentage
      is cast to u32. */
  function FsUsage(query: Option<StatVfs>): (r: Usage)
    ensures query.None? ==> r == FAIL_SAFE
  {
    match query
    case None => Usage(0, 0, 0, 100)
    case Some(s) =>
      var total := WrappingMul(s.blocks, s.frsize) / 1024;
      var available := WrappingMul(s.bavail, s.frsize) / 1024;
      var free := WrappingMul(s.bfree, s.frsize) / 1024;
      var used := WrappingSub(total, free);
      var u100 := WrappingMul(used, 100);
      var nonrootTotal := WrappingAdd(used, available);
      var pct := if nonrootTotal == 0 then 0 else Quotient(u100, nonrootTotal);
      Usage(used, available, total, TruncateToU32(pct))
  }

  /** The rounded-down quotient `a / b` lies between the two multiples of
      `b` around `a`, and is at most `k` when `a <= k * b`. */
  lemma FloorQuotient(a: nat, b: nat, k: nat)
    requires b > 0 && a <= k * b
    ensures (a / b) * b <= a < (a / b + 1) * b
    ensures a / b <= k
  {
    var q, m := a / b, a % b;
    assert a == q * b + m && 0 <= m < b;
  }

  /** When no operation wraps, `fs_usage` computes the exact figures. */
  lemma {:induction false} FsUsageExact(s: StatVfs)
    requires NoWrap(s)
    ensures Consistent(s, FsUsage(Some(s)))
  {
    var r := FsUsage(Some(s));
    var total := Kilobytes(s.blocks, s.frsize);
    var available := Kilobytes(s.bavail, s.frsize);
    var free := Kilobytes(s.bfree, s.frsize);
    assert WrappingMul(s.blocks, s.frsize) == s.blocks * s.frsize;
    assert WrappingMul(s.bavail, s.frsize) == s.bavail * s.frsize;
    assert WrappingMul(s.bfree, s.frsize) == s.bfree * s.frsize;
    assert r.total == total && r.available == available;
    var used := total - free;
    assert r.used == used;
    var n := used + available;
    assert WrappingMul(used, 100) == used * 100;
    assert WrappingAdd(used, available) == n;
    if n > 0 {
      assert used * 100 <= 100 * n;
      FloorQuotient(used * 100, n, 100);
      assert r.usePc == used * 100 / n;
    }
  }

  /** The fail-safe tuple cannot be mistaken for a measurement: no query
      that succeeds reports it, wrapping or not, since a total and a used
      of 0 leave a denominator of 0 and so a percentage of 0. */
  lemma FailSafeIsDistinct(s: StatVfs)
    ensures FsUsage(Some(s)) != FAIL_SAFE
  {
  }

  /** `a <= b` survives multiplying both by the same size and dividing by 1024. */
  lemma KilobytesMonotonic(a: nat, b: nat, size: nat)
    requires a <= b
    ensures a * size <= b * size
    ensures Kilobytes(a, size) <= Kilobytes(b, size)
  {
    assert b * size == a * size + (b - a) * size;
  }

  /** What a real `statvfs` result satisfies (free and available fragment
      counts no larger than the total, and a total byte count that fits a
      u64) is enough for `fs_usage` not to wrap. */
  lemma {:induction false} NoWrapForStatvfs(s: StatVfs)
    requires s.bfree <= s.blocks && s.bavail <= s.blocks
    requires s.blocks * s.frsize < U64_LIMIT
    ensures NoWrap(s)
  {
    KilobytesMonotonic(s.bfree, s.blocks, s.frsize);
    KilobytesMonotonic(s.bavail, s.blocks, s.frsize);
    var total := Kilobytes(s.blocks, s.frsize);
    assert total * 1024 <= s.blocks * s.frsize;
    assert total < 0x40_0000_0000_0000;
  }

  /** 1000 KB in all, 400 KB free, 350 KB available: 600 KB used, 63 percent. */
  lemma ExampleSixtyThreePercent()
    ensures FsUsage(Some(StatVfs(1000, 400, 350, 1024))) == Usage(600, 350, 1000, 63)
  {
  }

  /** The percentage is rounded down, not to the nearest: 2 KB used and 1 KB
      available give 66, not 67. */
  lemma ExampleRoundsDown()
    ensures FsUsage(Some(StatVfs(3, 1, 1, 1024))).usePc == 66
  {
  }

  /** An empty filesystem reports 0 percent rather than dividing by zero. */
  lemma ExampleEmptyFilesystem()
    ensures FsUsage(Some(StatVfs(0, 0, 0, 4096))) == Usage(0, 0, 0, 0)
  {
  }
}
