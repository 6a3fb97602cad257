/**
 * Sizing PostgreSQL from the memory of its host. Sizes are in whole megabytes, as they are written into the service;
 * rounding down at the end or at each division gives the same number, since every divisor is a whole number.
 */
module Tuning {
  import opened Basics

  const MB: nat := 0x10_0000
  const GB: nat := 0x4000_0000

  function Max(a: nat, b: nat): nat {
    if a < b then b else a
  }

  function Clamp(n: nat, low: nat, high: nat): nat {
    Min(high, Max(low, n))
  }

  datatype Sizes = Sizes(
    shm: nat, sharedBuffers: nat, effectiveCache: nat, maintenanceWorkMem: nat, workMem: nat, maxWal: nat)

  /** Host memory in megabytes: to the nearest gigabyte from one gigabyte on, half a gigabyte rounding up. */
  function Ram(bytes: nat): nat {
    if bytes >= GB then (2 * bytes + GB) / (2 * GB) * 1024 else Max(64, bytes / MB)
  }

  function Sized(ram: nat): Sizes {
    var big := 16 * 1024;
    var (tierWorkMem, tierShm) := if ram >= 4 * big then (64, 2048) else if ram >= big then (32, 1024) else (16, 512);
    var shm := Min(tierShm, ram / 4);
    Sizes(
      shm,
      Clamp(ram / 16, Min(256, ram / 4), 8 * 1024),
      Min(ram / 4, 32 * 1024),
      Clamp(ram / 64, Min(128, ram / 8), 2 * 1024),
      Max(1, Min(tierWorkMem, shm / 18)),
      if ram >= big then 4096 else 2048)
  }

  function PostgresTuning(bytes: nat): Sizes {
    Sized(Ram(bytes))
  }

  predicate NoMore(a: Sizes, b: Sizes) {
    && a.shm <= b.shm
    && a.sharedBuffers <= b.sharedBuffers
    && a.effectiveCache <= b.effectiveCache
    && a.maintenanceWorkMem <= b.maintenanceWorkMem
    && a.workMem <= b.workMem
    && a.maxWal <= b.maxWal
  }

  /** Three parallel hash joins of six times the working memory fit in shared memory exactly from 72 MB on. */
  lemma HashJoinsFit(bytes: nat)
    ensures 18 * PostgresTuning(bytes).workMem <= PostgresTuning(bytes).shm <==> bytes >= 72 * MB
  {
    var ram := Ram(bytes);
    var shm := Sized(ram).shm;
    assert bytes >= 72 * MB <==> ram >= 72;
    assert ram >= 72 <==> shm >= 18;
    assert 18 * (shm / 18) <= shm;
  }

  /** The buffers and the shared memory fit in the real memory, before any rounding, exactly from 32 MB on. */
  lemma MemoryFits(bytes: nat)
    ensures (PostgresTuning(bytes).sharedBuffers + PostgresTuning(bytes).shm) * MB <= bytes <==> bytes >= 32 * MB
  {
    var ram := Ram(bytes);
    var s := Sized(ram);
    assert s.sharedBuffers <= ram / 4 && s.shm <= ram / 4;
    if bytes >= GB {
      assert (2 * bytes + GB) / (2 * GB) * (2 * GB) <= 2 * bytes + GB;
      assert ram * MB <= bytes + GB / 2;
    } else if bytes >= 64 * MB {
      assert ram * MB <= bytes;
    } else {
      assert s.sharedBuffers == 16 && s.shm == 16;
    }
  }

  lemma RamGrows(a: nat, b: nat)
    requires a <= b
    ensures Ram(a) <= Ram(b)
  {
    if a >= GB {
      assert (2 * a + GB) / (2 * GB) <= (2 * b + GB) / (2 * GB);
    } else if b >= GB {
      assert (2 * b + GB) / (2 * GB) >= 1;
      assert a / MB <= 1024;
    } else {
      assert a / MB <= b / MB;
    }
  }

  /** More memory never gets a smaller setting, across every rounding step and tier. */
  lemma TuningGrows(a: nat, b: nat)
    requires a <= b
    ensures NoMore(PostgresTuning(a), PostgresTuning(b))
  {
    RamGrows(a, b);
    var s, t := Sized(Ram(a)), Sized(Ram(b));
    assert s.shm <= t.shm;
    assert s.shm / 18 <= t.shm / 18;
  }

  /** Sizes for the database service, or none when its own limit predates the 256 MB minimum and nothing is tuned. */
  function TuneDatabase(memory: nat, limit: Option<nat>): Option<Sizes> {
    if limit.Some? && limit.value < 256 * MB then None
    else Some(PostgresTuning(if limit.Some? then Min(memory, limit.value) else memory))
  }

  /**
   * A service is tuned unless its limit is below the minimum. It then gets no more than its limit alone would give
   * it; its buffers and shared memory fit under that limit too, and its joins fit in shared memory, from 72 MB on.
   */
  lemma TunedWithinLimit(memory: nat, limit: Option<nat>)
    ensures TuneDatabase(memory, limit).None? <==> limit.Some? && limit.value < 256 * MB
    ensures TuneDatabase(memory, limit).Some? && limit.Some? ==>
              NoMore(TuneDatabase(memory, limit).value, PostgresTuning(limit.value))
    ensures TuneDatabase(memory, limit).Some? && memory >= 72 * MB ==>
              var s := TuneDatabase(memory, limit).value;
              && 18 * s.workMem <= s.shm
              && (s.sharedBuffers + s.shm) * MB <= if limit.Some? then Min(memory, limit.value) else memory
  {
    if TuneDatabase(memory, limit).Some? {
      var bytes := if limit.Some? then Min(memory, limit.value) else memory;
      HashJoinsFit(bytes);
      MemoryFits(bytes);
      if limit.Some? {
        TuningGrows(bytes, limit.value);
      }
    }
  }
}
