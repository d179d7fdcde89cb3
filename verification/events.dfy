/** The observable steps of a shred, in the order they happen: opening the file
    for a pass, writing one chunk, reporting progress, renaming, removing. The
    console rendering of progress (colours, cursor movement, two-decimal
    formatting) is not modelled; a progress event carries the exact percentage.
 */
module Events {
  import opened Chunks
  import opened FileSystem

  datatype Event =
    | Opened(pass: nat)
    | Wrote(pass: nat, offset: int, len: int)
    | Progress(pass: nat, percent: real, simulated: bool)
    | Renamed(src: Path, dst: Path)
    | Removed(path: Path)

  /** Every offset lies inside a file of `size` bytes. */
  predicate InFile(size: nat, offs: seq<int>)
  {
    forall k :: 0 <= k < |offs| ==> 0 <= offs[k] < size
  }

  /** What handling the chunk at `offset` emits: a write of the chunk followed by
      the progress computed from the offset, or, when simulating, the progress alone. */
  function ChunkEvents(pass: nat, size: nat, chunk: int, offset: int, simulated: bool): seq<Event>
    requires 0 <= offset < size
  {
    if simulated then
      [Progress(pass, Percent(offset, size), true)]
    else
      [Wrote(pass, offset, ChunkLen(size, chunk, offset)), Progress(pass, Percent(offset, size), false)]
  }

  /** The events of the chunk loop of one pass over the offsets `offs`, chunk by chunk. */
  function PassEvents(pass: nat, size: nat, chunk: int, offs: seq<int>, simulated: bool): seq<Event>
    requires InFile(size, offs)
    decreases |offs|
  {
    if offs == [] then []
    else PassEvents(pass, size, chunk, offs[..|offs| - 1], simulated) + ChunkEvents(pass, size, chunk, offs[|offs| - 1], simulated)
  }

  /** The events of a pass position by position: a live pass alternates the
      write of chunk `k` (at `2k`) with its progress report (at `2k + 1`); a
      simulated pass emits only the progress reports, one per chunk. */
  lemma {:induction false} PassEventsAt(pass: nat, size: nat, chunk: int, offs: seq<int>, simulated: bool)
    requires InFile(size, offs)
    ensures simulated ==> |PassEvents(pass, size, chunk, offs, simulated)| == |offs|
    ensures simulated ==> forall k :: 0 <= k < |offs| ==>
              PassEvents(pass, size, chunk, offs, simulated)[k] == Progress(pass, Percent(offs[k], size), true)
    ensures !simulated ==> |PassEvents(pass, size, chunk, offs, simulated)| == 2 * |offs|
    ensures !simulated ==> forall k :: 0 <= k < |offs| ==>
              PassEvents(pass, size, chunk, offs, simulated)[2 * k] == Wrote(pass, offs[k], ChunkLen(size, chunk, offs[k]))
              && PassEvents(pass, size, chunk, offs, simulated)[2 * k + 1] == Progress(pass, Percent(offs[k], size), false)
    decreases |offs|
  {
    if offs != [] {
      var init := offs[..|offs| - 1];
      PassEventsAt(pass, size, chunk, init, simulated);
      assert forall k :: 0 <= k < |init| ==> init[k] == offs[k];
    }
  }

  /** Appending one more chunk to the loop appends its events. */
  lemma PassEventsSnoc(pass: nat, size: nat, chunk: int, offs: seq<int>, k: nat, simulated: bool)
    requires InFile(size, offs)
    requires k < |offs|
    ensures InFile(size, offs[..k]) && InFile(size, offs[..k + 1])
    ensures PassEvents(pass, size, chunk, offs[..k + 1], simulated)
         == PassEvents(pass, size, chunk, offs[..k], simulated) + ChunkEvents(pass, size, chunk, offs[k], simulated)
  {
    assert offs[..k + 1][..k] == offs[..k];
  }

  /** The traces `ts` one after the other. */
  function Concat(ts: seq<seq<Event>>): seq<Event>
  {
    if ts == [] then [] else Concat(ts[..|ts| - 1]) + ts[|ts| - 1]
  }

  /** An event of one of the traces is an event of their concatenation. */
  lemma {:induction false} ConcatMember(ts: seq<seq<Event>>, i: nat, e: Event)
    requires i < |ts| && e in ts[i]
    ensures e in Concat(ts)
    decreases |ts|
  {
    if i < |ts| - 1 {
      ConcatMember(ts[..|ts| - 1], i, e);
    }
  }

  /** Every event of the concatenation comes from one of the traces. */
  lemma {:induction false} ConcatSource(ts: seq<seq<Event>>, e: Event) returns (i: nat)
    requires e in Concat(ts)
    ensures i < |ts| && e in ts[i]
    decreases |ts|
  {
    var init := ts[..|ts| - 1];
    if e in ts[|ts| - 1] {
      i := |ts| - 1;
    } else {
      i := ConcatSource(init, e);
    }
  }

  /** Traces of equal length `len` concatenate to `|ts| * len` events. */
  lemma {:induction false} ConcatLength(ts: seq<seq<Event>>, len: nat)
    requires forall i :: 0 <= i < |ts| ==> |ts[i]| == len
    ensures |Concat(ts)| == |ts| * len
    decreases |ts|
  {
    if ts != [] {
      var init := ts[..|ts| - 1];
      ConcatLength(init, len);
      assert |ts| * len == |init| * len + len;
    }
  }

  /** Every progress value a pass reports is in `[0, 100)`, belongs to that pass
      and carries the pass's simulation flag; a simulated pass emits nothing else. */
  lemma {:induction false} PassProgressBounded(pass: nat, size: nat, chunk: int, offs: seq<int>, simulated: bool)
    requires InFile(size, offs)
    ensures forall e :: e in PassEvents(pass, size, chunk, offs, simulated) && e.Progress? ==>
              0.0 <= e.percent < 100.0 && e.pass == pass && e.simulated == simulated
    ensures forall e :: e in PassEvents(pass, size, chunk, offs, simulated) ==>
              e.Progress? || (!simulated && e.Wrote? && e.pass == pass)
    decreases |offs|
  {
    if offs != [] {
      var init := offs[..|offs| - 1];
      var last := offs[|offs| - 1];
      PassProgressBounded(pass, size, chunk, init, simulated);
      PercentBelowHundred(last, size);
      assert PassEvents(pass, size, chunk, offs, simulated)
          == PassEvents(pass, size, chunk, init, simulated) + ChunkEvents(pass, size, chunk, last, simulated);
    }
  }
}
