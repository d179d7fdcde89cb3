/** Chunk arithmetic of one pass: the offsets `range(0, size, chunk)`, the
    length `min(chunk, size - offset)` written at each, and the progress
    percentage computed from an offset before its chunk is written.
 */
module Chunks {

  function Min(a: int, b: int): int
  {
    if a <= b then a else b
  }

  /** The values Python's `range(start, stop, step)` yields, for a non-zero step
      (a zero step makes `range` raise; callers handle that case themselves).
      For a positive step: empty exactly when `stop <= start`, starting at
      `start`, all values below `stop`, and the last one within `step` of
      `stop`; `RangeStep` adds that each value is `step` above the previous one. */
  function Range(start: int, stop: int, step: int): (r: seq<int>)
    requires step != 0
    ensures step > 0 ==> (|r| == 0 <==> stop <= start)
    ensures |r| > 0 ==> r[0] == start
    ensures step > 0 ==> forall k :: 0 <= k < |r| ==> start <= r[k] < stop
    ensures step > 0 && |r| > 0 ==> stop <= r[|r| - 1] + step
    ensures step < 0 && start <= stop ==> r == []
    decreases if step > 0 then stop - start else start - stop
  {
    if (step > 0 && start < stop) || (step < 0 && start > stop) then
      [start] + Range(start + step, stop, step)
    else
      []
  }

  /** Consecutive values of a `range` differ by the step. */
  lemma {:induction false} RangeStep(start: int, stop: int, step: int, k: nat)
    requires step != 0
    requires k + 1 < |Range(start, stop, step)|
    ensures Range(start, stop, step)[k + 1] == Range(start, stop, step)[k] + step
    decreases if step > 0 then stop - start else start - stop
  {
    var rest := Range(start + step, stop, step);
    assert Range(start, stop, step) == [start] + rest;
    if k > 0 {
      RangeStep(start + step, stop, step, k - 1);
    }
  }

  /** A non-empty `range` with a positive step starts with `start` and
      continues from `start + step`. */
  lemma RangeCons(start: int, stop: int, step: int)
    requires step > 0 && start < stop
    ensures Range(start, stop, step) == [start] + Range(start + step, stop, step)
  {
  }

  lemma ConsTake<T>(x: T, s: seq<T>, k: nat)
    requires k <= |s|
    ensures ([x] + s)[..k + 1] == [x] + s[..k]
  {
  }

  /** The first `k` values of a `range` with a positive step are the `range`
      that stops at its `k`-th value. */
  lemma {:induction false} RangePrefix(start: int, stop: int, step: int, k: nat)
    requires step > 0
    requires k < |Range(start, stop, step)|
    ensures Range(start, stop, step)[..k] == Range(start, Range(start, stop, step)[k], step)
    decreases stop - start
  {
    var r := Range(start, stop, step);
    var rest := Range(start + step, stop, step);
    RangeCons(start, stop, step);
    if k > 0 {
      var m := rest[k - 1];
      assert r[k] == m;
      calc {
        r[..k];
        { ConsTake(start, rest, k - 1); }
        [start] + rest[..k - 1];
        { RangePrefix(start + step, stop, step, k - 1); }
        [start] + Range(start + step, m, step);
        { RangeCons(start, m, step); }
        Range(start, m, step);
      }
    }
  }

  /** The offsets one pass writes at. */
  function Offsets(size: nat, chunk: int): seq<int>
    requires chunk != 0
  {
    Range(0, size, chunk)
  }

  /** The offsets a pass handles before offset `o`, chunk `k`, are
      `range(0, o, chunk)`. */
  lemma OffsetsPrefix(size: nat, chunk: int, k: nat)
    requires chunk > 0
    requires k < |Offsets(size, chunk)|
    ensures Offsets(size, chunk)[..k] == Range(0, Offsets(size, chunk)[k], chunk)
  {
    RangePrefix(0, size, chunk, k);
  }

  /** The number of bytes written at `offset`. */
  function ChunkLen(size: nat, chunk: int, offset: int): int
  {
    Min(chunk, size - offset)
  }

  /** Bytes covered by the first `k` chunks of a pass: the offset of chunk `k`,
      or the whole file once every chunk is written. */
  function Reach(size: nat, chunk: int, k: nat): int
    requires chunk != 0
  {
    if k < |Offsets(size, chunk)| then Offsets(size, chunk)[k] else size
  }

  /** The progress figure reported for `offset`: `offset / size * 100`. */
  function Percent(offset: int, size: int): real
    requires size != 0
  {
    (offset as real / size as real) * 100.0
  }

  /** Chunk `k` is non-empty, at most `chunk` long, and ends where chunk `k + 1`
      starts, or at the end of the file if it is the last one. */
  lemma ChunkEnd(size: nat, chunk: int, k: nat)
    requires chunk > 0
    requires k < |Offsets(size, chunk)|
    ensures 0 <= Offsets(size, chunk)[k] < size
    ensures 0 < ChunkLen(size, chunk, Offsets(size, chunk)[k]) <= chunk
    ensures Offsets(size, chunk)[k] + ChunkLen(size, chunk, Offsets(size, chunk)[k]) == Reach(size, chunk, k + 1)
  {
    var offs := Offsets(size, chunk);
    if k + 1 < |offs| {
      RangeStep(0, size, chunk, k);
    }
  }

  /** The offsets tile `[0, size)` exactly: they start at 0, chunk `k + 1` starts
      where chunk `k` ends (no gap, no overlap), every chunk is non-empty and at
      most `chunk` long, and the last one ends at `size`. */
  lemma OffsetsTile(size: nat, chunk: int)
    requires chunk > 0
    ensures |Offsets(size, chunk)| > 0 ==> Offsets(size, chunk)[0] == 0
    ensures forall k :: 0 <= k < |Offsets(size, chunk)| ==>
              0 < ChunkLen(size, chunk, Offsets(size, chunk)[k]) <= chunk
    ensures forall k :: 0 <= k < |Offsets(size, chunk)| - 1 ==>
              Offsets(size, chunk)[k] + ChunkLen(size, chunk, Offsets(size, chunk)[k]) == Offsets(size, chunk)[k + 1]
    ensures |Offsets(size, chunk)| > 0 ==>
              Offsets(size, chunk)[|Offsets(size, chunk)| - 1]
              + ChunkLen(size, chunk, Offsets(size, chunk)[|Offsets(size, chunk)| - 1]) == size
  {
    var offs := Offsets(size, chunk);
    forall k | 0 <= k < |offs|
      ensures 0 < ChunkLen(size, chunk, offs[k]) <= chunk
      ensures k + 1 < |offs| ==> offs[k] + ChunkLen(size, chunk, offs[k]) == offs[k + 1]
      ensures k + 1 == |offs| ==> offs[k] + ChunkLen(size, chunk, offs[k]) == size
    {
      ChunkEnd(size, chunk, k);
    }
  }

  /** Chunk `k` starts at `k * chunk`. */
  lemma {:induction false} OffsetIsMultiple(size: nat, chunk: int, k: nat)
    requires chunk > 0
    requires k < |Offsets(size, chunk)|
    ensures Offsets(size, chunk)[k] == k * chunk
  {
    if k > 0 {
      OffsetIsMultiple(size, chunk, k - 1);
      RangeStep(0, size, chunk, k - 1);
      assert k * chunk == (k - 1) * chunk + chunk;
    }
  }

  /** A later chunk starts after an earlier one. */
  lemma {:induction false} OffsetsStrictlyIncrease(size: nat, chunk: int, j: nat, k: nat)
    requires chunk > 0
    requires j < k < |Offsets(size, chunk)|
    ensures Offsets(size, chunk)[j] < Offsets(size, chunk)[k]
    decreases k - j
  {
    ChunkEnd(size, chunk, k - 1);
    if j < k - 1 {
      OffsetsStrictlyIncrease(size, chunk, j, k - 1);
    }
  }

  /** Chunk `j` starts before chunk `k` exactly when `j < k`, so "the chunks
      before offset `o`" are the chunks with a smaller index. */
  lemma OffsetsIncrease(size: nat, chunk: int, j: nat, k: nat)
    requires chunk > 0
    requires j < |Offsets(size, chunk)| && k < |Offsets(size, chunk)|
    ensures Offsets(size, chunk)[j] < Offsets(size, chunk)[k] <==> j < k
  {
    if j < k {
      OffsetsStrictlyIncrease(size, chunk, j, k);
    } else if k < j {
      OffsetsStrictlyIncrease(size, chunk, k, j);
    }
  }

  lemma MulLess(a: int, b: int, d: int)
    requires d > 0
    requires a * d < b * d
    ensures a < b
  {
    assert (b - a) * d == b * d - a * d;
  }

  /** `c` is `ceil(n / d)` when `c` multiples of `d` reach `n` and `c - 1` do not. */
  lemma CeilDiv(n: nat, d: int, c: nat)
    requires d > 0
    requires c * d >= n
    requires c > 0 ==> (c - 1) * d < n
    ensures c == (n + d - 1) / d
  {
    var q := (n + d - 1) / d;
    assert n + d - 1 == q * d + (n + d - 1) % d;
    assert c * d < n + d by {
      if c > 0 {
        assert c * d == (c - 1) * d + d;
      }
    }
    assert q * d < c * d + d;
    assert c * d <= q * d + d - 1;
    assert (c + 1) * d == c * d + d;
    assert (q + 1) * d == q * d + d;
    MulLess(q, c + 1, d);
    MulLess(c, q + 1, d);
  }

  /** The number of offsets is `ceil(size / chunk)`, and there are none exactly
      when the file is empty. */
  lemma OffsetsCount(size: nat, chunk: int)
    requires chunk > 0
    ensures |Offsets(size, chunk)| == (size + chunk - 1) / chunk
    ensures size == 0 <==> Offsets(size, chunk) == []
  {
    var n := |Offsets(size, chunk)|;
    if n > 0 {
      OffsetIsMultiple(size, chunk, n - 1);
      assert n * chunk == (n - 1) * chunk + chunk;
    }
    CeilDiv(size, chunk, n);
  }

  /** Integer division splits `i` into whole blocks of `d` and a remainder below `d`. */
  lemma DivBlock(i: int, d: int)
    requires d > 0
    ensures (i / d) * d <= i < (i / d) * d + d
  {
    assert i == (i / d) * d + i % d;
  }

  /** The only block of `d` values containing `i` is block `i / d`. */
  lemma BlockUnique(a: int, d: int, i: int)
    requires d > 0
    requires a * d <= i < a * d + d
    ensures a == i / d
  {
    var q := i / d;
    DivBlock(i, d);
    assert (q + 1) * d == q * d + d;
    assert (a + 1) * d == a * d + d;
    MulLess(a, q + 1, d);
    MulLess(q, a + 1, d);
  }

  /** The last chunk has length `size % chunk`, or `chunk` when that is 0. */
  lemma LastChunk(size: nat, chunk: int)
    requires chunk > 0
    requires |Offsets(size, chunk)| > 0
    ensures ChunkLen(size, chunk, Offsets(size, chunk)[|Offsets(size, chunk)| - 1])
            == if size % chunk == 0 then chunk else size % chunk
  {
    var offs := Offsets(size, chunk);
    var n := |offs|;
    var q := size / chunk;
    var r := size % chunk;
    OffsetIsMultiple(size, chunk, n - 1);
    BlockUnique(n - 1, chunk, size - 1);
    DivBlock(size, chunk);
    assert size == q * chunk + r;
    if r == 0 {
      assert (q - 1) * chunk == q * chunk - chunk;
      BlockUnique(q - 1, chunk, size - 1);
      assert offs[n - 1] == size - chunk;
    } else {
      BlockUnique(q, chunk, size - 1);
      assert offs[n - 1] == size - r;
    }
  }

  /** Every byte of `[0, size)` lies in exactly one chunk: chunk `i / chunk`. */
  lemma ChunkOfByte(size: nat, chunk: int, i: int, k: int)
    requires chunk > 0
    requires 0 <= i < size
    ensures i / chunk < |Offsets(size, chunk)|
    ensures Offsets(size, chunk)[i / chunk] <= i
            < Offsets(size, chunk)[i / chunk] + ChunkLen(size, chunk, Offsets(size, chunk)[i / chunk])
    ensures 0 <= k < |Offsets(size, chunk)|
            && Offsets(size, chunk)[k] <= i < Offsets(size, chunk)[k] + ChunkLen(size, chunk, Offsets(size, chunk)[k])
            ==> k == i / chunk
  {
    var offs := Offsets(size, chunk);
    var n := |offs|;
    var j := i / chunk;
    DivBlock(i, chunk);
    OffsetIsMultiple(size, chunk, n - 1);
    assert n * chunk == (n - 1) * chunk + chunk;
    MulLess(j, n, chunk);
    OffsetIsMultiple(size, chunk, j);
    ChunkEnd(size, chunk, j);
    if 0 <= k < n && offs[k] <= i < offs[k] + ChunkLen(size, chunk, offs[k]) {
      OffsetIsMultiple(size, chunk, k);
      ChunkEnd(size, chunk, k);
      BlockUnique(k, chunk, i);
    }
  }

  /** A negative chunk size gives no offsets at all: `range(0, size, step)` with a
      negative step is empty for every non-negative `size`. */
  lemma NegativeChunkNoOffsets(size: nat, chunk: int)
    requires chunk < 0
    ensures Offsets(size, chunk) == []
  {
  }

  /** Progress is computed from the offset before its chunk is written, so it is
      never below 0 and always strictly below 100. */
  lemma PercentBelowHundred(offset: int, size: int)
    requires 0 <= offset < size
    ensures 0.0 <= Percent(offset, size) < 100.0
  {
    var q := offset as real / size as real;
    assert q * size as real == offset as real;
    assert q < 1.0;
  }
}
