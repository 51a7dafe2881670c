/**
 * The reusable detection buffers (src/utils/memory_pool.rs): a grey buffer
 * whose length is set without initialising it, the capacity the pool
 * believes that buffer has, two binarisation matrices and an integral
 * buffer, plus the allocation counters.
 *
 * `Vec` capacities follow the standard library: `with_capacity(c)`
 * allocates exactly `c` elements of a byte type, and `reserve(n)` does
 * nothing when `n` more elements already fit, otherwise grows to the
 * larger of twice the capacity and what is needed. Grey bytes that
 * `set_len` exposes were never written, so they are arbitrary here.
 */
module MemoryPool {
  import opened Wrappers
  import opened Matrix

  /** `1920 * 1080`: room for one 1080p frame. */
  const DefaultCapacity: nat := 1920 * 1080

  /** The capacity after `reserve(additional)` on a vector of length `len`. */
  function Reserved(len: nat, capacity: nat, additional: nat): (r: nat)
    ensures r >= capacity && r >= len + additional
    ensures len + additional <= capacity ==> r == capacity
  {
    if len + additional <= capacity then capacity
    else if 2 * capacity >= len + additional then 2 * capacity
    else len + additional
  }

  /** `a[..n]` kept, then arbitrary bytes up to length `n`: what `set_len(n)` leaves. */
  method SetLen(a: seq<u8>, n: nat) returns (r: seq<u8>)
    ensures |r| == n
    ensures n <= |a| ==> r == a[..n]
    ensures n > |a| ==> r[..|a|] == a
  {
    if n <= |a| {
      r := a[..n];
    } else {
      assert |seq(n - |a|, _ => 0 as u8)| == n - |a|;
      var extra: seq<u8> :| |extra| == n - |a|;
      r := a + extra;
      assert r[..|a|] == a;
    }
  }

  class BufferPool {
    /** `grayscale_buffer`: its length is what `set_len` last set. */
    var gray: seq<u8>
    /** The real capacity of `grayscale_buffer`. */
    var capacity: nat
    /** `grayscale_capacity`: the capacity the pool records. */
    var recordedCapacity: nat
    var adaptive: BitMatrix
    var otsu: BitMatrix
    /** `integral_buffer`. */
    var integral: seq<nat>

    /** The buffer fits its allocation and the recorded capacity. */
    ghost predicate Valid()
      reads this
    {
      |gray| <= capacity && |gray| <= recordedCapacity
    }

    /** The recorded capacity is really there. */
    ghost predicate Honest()
      reads this
    {
      recordedCapacity <= capacity
    }

    /**
     * What preparing the grey buffer for `size` bytes leaves, from buffer
     * `g0` with capacity `cap0` recorded as `rec0`: `ok` exactly when the
     * buffer now has `size` bytes (so the recorded and real capacities hold
     * them); the capacities never lower, and stay put when `size` was
     * within the recorded one; the bytes already there are kept.
     */
    ghost predicate GrayPrepared(size: nat, g0: seq<u8>, cap0: nat, rec0: nat, ok: bool)
      reads this
    {
      && (ok <==> |gray| == size)
      && (ok ==> recordedCapacity >= size && capacity >= size)
      && recordedCapacity >= rec0 && capacity >= cap0
      && (size <= rec0 ==> recordedCapacity == rec0 && capacity == cap0)
      && (ok && size <= |g0| ==> gray == g0[..size])
      && (ok && size > |g0| ==> gray[..|g0|] == g0)
      && (!ok ==> gray == g0)
    }

    /** `new`: an empty buffer with room for 1920 * 1080 bytes, and empty matrices. */
    constructor ()
      ensures Valid() && Honest()
      ensures gray == [] && capacity == DefaultCapacity && recordedCapacity == DefaultCapacity && integral == []
      ensures fresh(adaptive) && adaptive.Valid() && adaptive.width == 0 && adaptive.height == 0
      ensures fresh(otsu) && otsu.Valid() && otsu.width == 0 && otsu.height == 0
    {
      gray := [];
      capacity := DefaultCapacity;
      recordedCapacity := DefaultCapacity;
      adaptive := new BitMatrix(0, 0);
      otsu := new BitMatrix(0, 0);
      integral := [];
    }

    /** `with_capacity`: the same with room for `c` bytes. */
    constructor WithCapacity(c: nat)
      ensures Valid() && Honest()
      ensures gray == [] && capacity == c && recordedCapacity == c && integral == []
      ensures fresh(adaptive) && adaptive.Valid() && adaptive.width == 0 && adaptive.height == 0
      ensures fresh(otsu) && otsu.Valid() && otsu.width == 0 && otsu.height == 0
    {
      gray := [];
      capacity := c;
      recordedCapacity := c;
      adaptive := new BitMatrix(0, 0);
      otsu := new BitMatrix(0, 0);
      integral := [];
    }

    /**
     * The grey-buffer preparation shared by `get_grayscale_buffer` and
     * `get_all_buffers`: grow when `size` exceeds the recorded capacity
     * (recording the new real one), then set the length when it fits.
     * `ok` is false when the slice `[..size]` taken afterwards is out of
     * range, where the source panics.
     */
    method PrepareGray(size: nat) returns (ok: bool)
      requires Valid()
      modifies this
      ensures Valid()
      ensures GrayPrepared(size, old(gray), old(capacity), old(recordedCapacity), ok)
      ensures old(Honest()) ==> ok && Honest()
      ensures adaptive == old(adaptive) && otsu == old(otsu) && integral == old(integral)
    {
      if size > recordedCapacity {
        var additional := size - |gray|;
        capacity := Reserved(|gray|, capacity, additional);
        recordedCapacity := capacity;
      }
      if size <= capacity {
        gray := SetLen(gray, size);
      }
      ok := |gray| == size;
    }

    /** `get_grayscale_buffer`: a buffer of exactly `size` bytes, the recorded capacity at least `size`. */
    method GetGrayscaleBuffer(size: nat) returns (ok: bool, buffer: seq<u8>)
      requires Valid()
      modifies this
      ensures Valid()
      ensures GrayPrepared(size, old(gray), old(capacity), old(recordedCapacity), ok)
      ensures ok ==> buffer == gray && |buffer| == size
      ensures old(Honest()) ==> ok && Honest()
      ensures adaptive == old(adaptive) && otsu == old(otsu) && integral == old(integral)
    {
      ok := PrepareGray(size);
      buffer := if ok then gray else [];
    }

    /**
     * `ensure_grayscale_capacity` as written: it reserves the difference
     * from the recorded capacity, counted from the buffer's length, and
     * records `c` whether or not it was reached.
     */
    method EnsureGrayscaleCapacityAsWritten(c: nat)
      requires Valid()
      modifies this
      ensures Valid()
      ensures recordedCapacity == if c > old(recordedCapacity) then c else old(recordedCapacity)
      ensures capacity == if c > old(recordedCapacity) then Reserved(|gray|, old(capacity), c - old(recordedCapacity)) else old(capacity)
      ensures gray == old(gray) && adaptive == old(adaptive) && otsu == old(otsu) && integral == old(integral)
    {
      if c > recordedCapacity {
        capacity := Reserved(|gray|, capacity, c - recordedCapacity);
        recordedCapacity := c;
      }
    }

    /**
     * `ensure_grayscale_capacity` reserving room for `c` bytes in all (the
     * difference from the length): the recorded capacity never lowers and
     * stays real.
     */
    method EnsureGrayscaleCapacity(c: nat)
      requires Valid()
      modifies this
      ensures Valid()
      ensures old(Honest()) ==> Honest() && capacity >= c
      ensures recordedCapacity == if c > old(recordedCapacity) then c else old(recordedCapacity)
      ensures capacity >= old(capacity) && (c > old(recordedCapacity) ==> capacity >= c)
      ensures gray == old(gray) && adaptive == old(adaptive) && otsu == old(otsu) && integral == old(integral)
    {
      if c > recordedCapacity {
        capacity := Reserved(|gray|, capacity, c - |gray|);
        recordedCapacity := c;
      }
    }

    /**
     * `get_all_buffers`: the grey buffer prepared for `width * height`
     * bytes, both matrices reset to `width` by `height` all white, and the
     * integral buffer `width * height` zeros.
     */
    method GetAllBuffers(width: nat, height: nat) returns (ok: bool)
      requires Valid()
      modifies this
      ensures Valid()
      ensures GrayPrepared(width * height, old(gray), old(capacity), old(recordedCapacity), ok)
      ensures old(Honest()) ==> ok && Honest()
      ensures fresh(adaptive) && adaptive.Valid() && adaptive.width == width && adaptive.height == height
      ensures adaptive.grid == Blank(width, height)
      ensures fresh(otsu) && otsu.Valid() && otsu.width == width && otsu.height == height
      ensures otsu.grid == Blank(width, height)
      ensures integral == seq(width * height, _ => 0)
    {
      var pixelCount := width * height;
      ok := PrepareGray(pixelCount);
      adaptive := new BitMatrix(width, height);
      otsu := new BitMatrix(width, height);
      integral := seq(pixelCount, _ => 0);
    }

    /** `clear`: an empty buffer; both capacities are kept. */
    method Clear()
      requires Valid()
      modifies this
      ensures Valid() && gray == []
      ensures capacity == old(capacity) && recordedCapacity == old(recordedCapacity)
      ensures old(Honest()) ==> Honest()
    {
      gray := [];
    }
  }

  /** The samples of the source: 100 and then 1000 bytes from a default pool, whose recorded capacity stays 1920 * 1080. */
  method BasicSample() returns (len1: nat, len2: nat, recorded: nat)
    ensures len1 == 100 && len2 == 1000 && recorded >= 1920 * 1080
  {
    var pool := new BufferPool();
    var ok1, buf1 := pool.GetGrayscaleBuffer(100);
    len1 := |buf1|;
    var ok2, buf2 := pool.GetGrayscaleBuffer(1000);
    len2 := |buf2|;
    recorded := pool.recordedCapacity;
  }

  /** A pool of 100 bytes asked for 500 grows: the buffer has 500 bytes and the recorded capacity at least 500. */
  method GrowthSample() returns (len: nat, recorded: nat)
    ensures len == 500 && recorded >= 500
  {
    var pool := new BufferPool.WithCapacity(100);
    var ok, buf := pool.GetGrayscaleBuffer(500);
    len := |buf|;
    recorded := pool.recordedCapacity;
  }

  /**
   * As written, a pool of 100 bytes told to ensure 200 records 200 but
   * keeps 100 (the reserve of 100 more from length 0 fits already); asking
   * it then for 150 bytes neither grows nor sets the length, and the slice
   * is out of range.
   */
  method EnsureThenGetAsWritten() returns (ok: bool)
    ensures !ok
  {
    var pool := new BufferPool.WithCapacity(100);
    pool.EnsureGrayscaleCapacityAsWritten(200);
    assert pool.capacity == 100 && pool.recordedCapacity == 200;
    var buffer;
    ok, buffer := pool.GetGrayscaleBuffer(150);
  }

  /** With the reserve counted to the full capacity the same calls succeed. */
  method EnsureThenGet() returns (ok: bool, len: nat)
    ensures ok && len == 150
  {
    var pool := new BufferPool.WithCapacity(100);
    pool.EnsureGrayscaleCapacity(200);
    var buffer;
    ok, buffer := pool.GetGrayscaleBuffer(150);
    len := |buffer|;
  }

  /** `AllocationStats`: reuse and allocation counters and the bytes reused. */
  class AllocationStats {
    var grayscaleReuses: nat
    var grayscaleAllocations: nat
    var totalBytesReused: nat

    /** `new` (the derived default): every counter zero. */
    constructor ()
      ensures grayscaleReuses == 0 && grayscaleAllocations == 0 && totalBytesReused == 0
    {
      grayscaleReuses := 0;
      grayscaleAllocations := 0;
      totalBytesReused := 0;
    }

    /** `record_grayscale_reuse`: one more reuse of `bytes` bytes. */
    method RecordGrayscaleReuse(bytes: nat)
      modifies this
      ensures grayscaleReuses == old(grayscaleReuses) + 1
      ensures totalBytesReused == old(totalBytesReused) + bytes
      ensures grayscaleAllocations == old(grayscaleAllocations)
    {
      grayscaleReuses := grayscaleReuses + 1;
      totalBytesReused := totalBytesReused + bytes;
    }

    /** `record_grayscale_allocation`: one more allocation. */
    method RecordGrayscaleAllocation()
      modifies this
      ensures grayscaleAllocations == old(grayscaleAllocations) + 1
      ensures grayscaleReuses == old(grayscaleReuses) && totalBytesReused == old(totalBytesReused)
    {
      grayscaleAllocations := grayscaleAllocations + 1;
    }
  }
}
