/** The shred engine: overwrite a regular file pass by pass in chunks, then
    rename it to a random name in the same directory and remove it.

    Everything the procedure cannot decide by itself is a parameter:
    - `Env.faults` lists the operations the operating system makes fail;
    - `Env.entropy[p]` is the random source's output for pass `p`, one byte per
      byte of the file: the chunk at `offset` of length `len` receives
      `entropy[p][offset..offset + len]`, so the chunks of a pass together
      consume exactly one such stream;
    - `Env.tempName` is the randomly chosen temporary leaf name.
    An exception inside the procedure ends it; the model returns `Failed` with
    the operation that raised instead of printing the error.
 */
module Engine {
  import opened Pattern
  import opened Chunks
  import opened FileSystem
  import opened Events

  datatype Option<T> = None | Some(value: T)

  /** The options the engine is called with. `passes` and `chunkSize` are taken
      exactly as given: neither is validated before the engine runs. The verbose
      flag only changes console output and is not part of the model. */
  datatype Config = Config(passes: int, dryRun: bool, noDelete: bool, chunkSize: int, pattern: string)

  /** The operating-system calls that can fail. */
  datatype IoOp =
    | OpenFile(pass: nat)
    | WriteChunk(pass: nat, offset: int)
    | RenameFile
    | RemoveFile

  /** Why a shred stopped early: an operating-system call failed, or `range`
      rejected a zero chunk size. */
  datatype Failure = IoFailure(op: IoOp) | ZeroChunkSize

  datatype Outcome =
    | NotFound     // the path is not a regular file; nothing was done
    | Simulated    // dry run: every pass was reported, nothing was touched
    | Retained     // overwritten and kept under its own name
    | Destroyed    // overwritten, renamed and removed
    | Failed(failure: Failure)

  datatype Env = Env(faults: set<IoOp>, entropy: seq<seq<bv8>>, tempName: string)

  /** What the random sources guarantee: a 12-character alphanumeric name, and
      for each pass a random stream as long as the file. */
  predicate EnvFits(env: Env, passes: int, size: nat)
  {
    && IsTempName(env.tempName)
    && passes <= |env.entropy|
    && forall p :: 0 <= p < |env.entropy| ==> |env.entropy[p]| == size
  }

  /** The number of iterations of `for pass_num in range(passes)`. */
  function PassCount(passes: int): nat
  {
    if passes < 0 then 0 else passes
  }

  /** The temporary path a file is renamed to before removal. */
  function TempPath(path: Path, env: Env): Path
  {
    WithName(path, env.tempName)
  }

  /** What a complete pass `p` leaves in a file of `size` bytes. */
  function Image(cfg: Config, env: Env, size: nat, p: nat): seq<bv8>
    requires EnvFits(env, cfg.passes, size)
    requires p < |env.entropy|
  {
    PatternBytes(cfg.pattern, size, p, env.entropy[p])
  }

  /** The file's content once `n` passes have completed: the last pass's image,
      or the original content when no pass has written anything (dry run, no
      pass yet, or a negative chunk size, whose `range` is empty). */
  function AfterPasses(content0: seq<bv8>, cfg: Config, env: Env, n: nat): seq<bv8>
    requires EnvFits(env, cfg.passes, |content0|)
    requires n <= |env.entropy|
  {
    if cfg.dryRun || n == 0 || cfg.chunkSize <= 0 then content0
    else Image(cfg, env, |content0|, n - 1)
  }

  /** No operation of live pass `p` is set to fail. */
  predicate PassClean(faults: set<IoOp>, p: nat, size: nat, chunk: int)
    requires chunk != 0
  {
    && OpenFile(p) !in faults
    && forall k :: 0 <= k < |Offsets(size, chunk)| ==> WriteChunk(p, Offsets(size, chunk)[k]) !in faults
  }

  /** Passes `0 .. n - 1` ran to completion in live mode: `range` accepted the
      chunk size and none of their opens or writes failed. */
  predicate PassesCleanBefore(faults: set<IoOp>, n: nat, size: nat, chunk: int)
  {
    n == 0 || (chunk != 0 && forall q: nat :: q < n ==> PassClean(faults, q, size, chunk))
  }

  /** The pass loop runs to the end: `range` accepts the chunk size whenever a
      pass runs, and, unless simulating, no open or write of any pass fails. */
  predicate PassesSucceed(cfg: Config, faults: set<IoOp>, size: nat)
  {
    && (cfg.passes <= 0 || cfg.chunkSize != 0)
    && (!cfg.dryRun && cfg.chunkSize != 0 ==>
          forall p: nat :: p < cfg.passes ==> PassClean(faults, p, size, cfg.chunkSize))
  }

  /** The events of pass `p` when it completes. */
  function PassTrace(cfg: Config, size: nat, p: nat): seq<Event>
    requires cfg.chunkSize != 0
  {
    if cfg.dryRun then PassEvents(p, size, cfg.chunkSize, Offsets(size, cfg.chunkSize), true)
    else [Opened(p)] + PassEvents(p, size, cfg.chunkSize, Offsets(size, cfg.chunkSize), false)
  }

  /** The traces of passes `0 .. n - 1`, in order. */
  function PassTraces(cfg: Config, size: nat, n: nat): seq<seq<Event>>
    requires n == 0 || cfg.chunkSize != 0
  {
    seq(n, p requires 0 <= p < n && cfg.chunkSize != 0 => PassTrace(cfg, size, p))
  }

  /** The events of the first `n` passes when they all complete. */
  function RunEvents(cfg: Config, size: nat, n: nat): seq<Event>
    requires n == 0 || cfg.chunkSize != 0
  {
    Concat(PassTraces(cfg, size, n))
  }

  /** A run of `n + 1` passes is a run of `n` passes followed by pass `n`. */
  lemma RunEventsSnoc(cfg: Config, size: nat, n: nat)
    requires cfg.chunkSize != 0
    ensures RunEvents(cfg, size, n + 1) == RunEvents(cfg, size, n) + PassTrace(cfg, size, n)
  {
    assert PassTraces(cfg, size, n + 1)[..n] == PassTraces(cfg, size, n);
  }

  /** The events of a completed run are exactly those of its passes: every
      event of pass `p < n` occurs in the run, and every event of the run
      belongs to some pass `p < n`. */
  lemma RunContainsPass(cfg: Config, size: nat, n: nat, p: nat, e: Event)
    requires cfg.chunkSize != 0
    requires p < n
    requires e in PassTrace(cfg, size, p)
    ensures e in RunEvents(cfg, size, n)
  {
    ConcatMember(PassTraces(cfg, size, n), p, e);
  }

  /** Every event of a completed run belongs to one of its passes. */
  lemma RunEventSource(cfg: Config, size: nat, n: nat, e: Event) returns (p: nat)
    requires cfg.chunkSize != 0
    requires e in RunEvents(cfg, size, n)
    ensures p < n && e in PassTrace(cfg, size, p)
  {
    p := ConcatSource(PassTraces(cfg, size, n), e);
  }

  /** Writing the next chunk of the pass image extends the overwritten prefix. */
  lemma OverwriteStep(content: seq<bv8>, image: seq<bv8>, c: seq<bv8>, offset: nat, len: nat)
    requires |image| == |content|
    requires offset + len <= |content|
    requires c == image[..offset] + content[offset..]
    ensures WriteAt(c, offset, image[offset..offset + len]) == image[..offset + len] + content[offset + len..]
  {
    WriteInside(c, offset, image[offset..offset + len]);
    assert c[..offset] == image[..offset];
    assert c[offset + len..] == content[offset + len..];
    assert image[..offset] + image[offset..offset + len] == image[..offset + len];
  }

  /** Writes chunk `k` of a live pass: its bytes are generated from its share
      of the random stream and written at its offset. */
  method WriteNextChunk(content: seq<bv8>, pattern: string, pass: nat, chunk: int, entropy: seq<bv8>, c: seq<bv8>, k: nat)
    returns (c': seq<bv8>)
    requires chunk > 0
    requires |entropy| == |content|
    requires k < |Offsets(|content|, chunk)|
    requires c == PatternBytes(pattern, |content|, pass, entropy)[..Reach(|content|, chunk, k)]
                  + content[Reach(|content|, chunk, k)..]
    ensures c' == PatternBytes(pattern, |content|, pass, entropy)[..Reach(|content|, chunk, k + 1)]
                  + content[Reach(|content|, chunk, k + 1)..]
  {
    var size := |content|;
    var offset := Offsets(size, chunk)[k];
    var len := ChunkLen(size, chunk, offset);
    var image := PatternBytes(pattern, size, pass, entropy);
    ChunkEnd(size, chunk, k);
    PatternSlice(pattern, size, pass, entropy, offset, offset + len);
    OverwriteStep(content, image, c, offset, len);
    c' := WriteAt(c, offset, PatternBytes(pattern, len, pass, entropy[offset..offset + len]));
  }

  /** One live pass over an open file: the chunk loop of lines 142-149. The
      result `k` is the number of chunks written; `k` is short of the number of
      offsets exactly when the write at offset `k` failed, which ends the pass. */
  method OverwritePass(content: seq<bv8>, pattern: string, pass: nat, chunk: int, entropy: seq<bv8>, faults: set<IoOp>)
    returns (c: seq<bv8>, k: nat, events: seq<Event>)
    requires chunk != 0
    requires |entropy| == |content|
    ensures k <= |Offsets(|content|, chunk)|
    ensures forall j :: 0 <= j < k ==> WriteChunk(pass, Offsets(|content|, chunk)[j]) !in faults
    ensures k < |Offsets(|content|, chunk)| ==> WriteChunk(pass, Offsets(|content|, chunk)[k]) in faults
    ensures |c| == |content|
    ensures chunk > 0 ==>
              c == PatternBytes(pattern, |content|, pass, entropy)[..Reach(|content|, chunk, k)]
                   + content[Reach(|content|, chunk, k)..]
    ensures chunk > 0 && k == |Offsets(|content|, chunk)| ==> c == PatternBytes(pattern, |content|, pass, entropy)
    ensures chunk < 0 ==> c == content && k == 0
    ensures events == PassEvents(pass, |content|, chunk, Offsets(|content|, chunk)[..k], false)
  {
    var size := |content|;
    var offs := Offsets(size, chunk);
    var image := PatternBytes(pattern, size, pass, entropy);
    c := content;
    k := 0;
    events := [];
    if chunk < 0 {
      // `range(0, size, chunk)` is empty: the file is opened but nothing is written
      NegativeChunkNoOffsets(size, chunk);
      return;
    }
    while k < |offs|
      invariant k <= |offs|
      invariant forall j :: 0 <= j < k ==> WriteChunk(pass, offs[j]) !in faults
      invariant |c| == size
      invariant c == image[..Reach(size, chunk, k)] + content[Reach(size, chunk, k)..]
      invariant events == PassEvents(pass, size, chunk, offs[..k], false)
    {
      var offset := offs[k];
      if WriteChunk(pass, offset) in faults {
        return;
      }
      c := WriteNextChunk(content, pattern, pass, chunk, entropy, c, k);
      PassEventsSnoc(pass, size, chunk, offs, k, false);
      events := events + ChunkEvents(pass, size, chunk, offset, false);
      k := k + 1;
    }
    assert image[..size] + content[size..] == image;
  }

  /** One dry-run pass: the progress reports of lines 151-154 and nothing else. */
  method SimulatePass(size: nat, pass: nat, chunk: int) returns (events: seq<Event>)
    requires chunk != 0
    ensures |events| == |Offsets(size, chunk)|
    ensures forall k :: 0 <= k < |events| ==>
              events[k] == Progress(pass, Percent(Offsets(size, chunk)[k], size), true)
    ensures events == PassEvents(pass, size, chunk, Offsets(size, chunk), true)
  {
    var offs := Offsets(size, chunk);
    events := [];
    var k := 0;
    while k < |offs|
      invariant k <= |offs|
      invariant events == PassEvents(pass, size, chunk, offs[..k], true)
    {
      PassEventsSnoc(pass, size, chunk, offs, k, true);
      events := events + [Progress(pass, Percent(offs[k], size), true)];
      k := k + 1;
    }
    assert offs[..k] == offs;
    PassEventsAt(pass, size, chunk, offs, true);
  }

  /** An event the pass loop can emit: a simulated progress report in a dry run,
      or an open, a write or a live progress report otherwise; every progress
      value is in `[0, 100)`. */
  predicate LoopEvent(e: Event, dryRun: bool)
  {
    && (e.Progress? || (!dryRun && (e.Opened? || e.Wrote?)))
    && (e.Progress? ==> e.simulated == dryRun && 0.0 <= e.percent < 100.0)
  }

  /** Every event of a run so far is one the pass loop can emit. */
  predicate PassLoopEvents(trace: seq<Event>, dryRun: bool)
  {
    forall i :: 0 <= i < |trace| ==> LoopEvent(trace[i], dryRun)
  }

  /** Every member of a pass loop's events is one the loop can emit. */
  lemma LoopEventMembers(trace: seq<Event>, dryRun: bool)
    requires PassLoopEvents(trace, dryRun)
    ensures forall e :: e in trace ==> LoopEvent(e, dryRun)
  {
    forall e | e in trace
      ensures LoopEvent(e, dryRun)
    {
      var i :| 0 <= i < |trace| && trace[i] == e;
    }
  }

  /** Concatenating event sequences of a pass loop keeps their shape. */
  lemma PassLoopEventsAppend(a: seq<Event>, b: seq<Event>, dryRun: bool)
    requires PassLoopEvents(a, dryRun) && PassLoopEvents(b, dryRun)
    ensures PassLoopEvents(a + b, dryRun)
  {
    forall i | 0 <= i < |a + b|
      ensures LoopEvent((a + b)[i], dryRun)
    {
      if i >= |a| {
        assert (a + b)[i] == b[i - |a|];
      }
    }
  }

  /** No write of pass `p` at an offset below `o` is set to fail. */
  predicate FirstFaultedWrite(faults: set<IoOp>, p: nat, size: nat, chunk: int, o: int)
    requires chunk != 0
  {
    forall j :: 0 <= j < |Offsets(size, chunk)| && Offsets(size, chunk)[j] < o ==>
      WriteChunk(p, Offsets(size, chunk)[j]) !in faults
  }

  /** When the writes at the first `k` offsets succeed, no write below offset
      `k` fails. */
  lemma FirstFaultedWriteAt(faults: set<IoOp>, p: nat, size: nat, chunk: int, k: nat)
    requires chunk > 0
    requires k < |Offsets(size, chunk)|
    requires forall j :: 0 <= j < k ==> WriteChunk(p, Offsets(size, chunk)[j]) !in faults
    ensures FirstFaultedWrite(faults, p, size, chunk, Offsets(size, chunk)[k])
  {
    var offs := Offsets(size, chunk);
    forall j | 0 <= j < |offs| && offs[j] < offs[k]
      ensures WriteChunk(p, offs[j]) !in faults
    {
      OffsetsIncrease(size, chunk, j, k);
    }
  }

  /** The chunk loop of a live pass over an open file (lines 142-149): every
      chunk is written unless a write fails, which ends the pass at the lowest
      failing offset. */
  method WriteChunks(content: seq<bv8>, cfg: Config, env: Env, p: nat)
    returns (c: seq<bv8>, events: seq<Event>, failure: Option<Failure>)
    requires EnvFits(env, cfg.passes, |content|)
    requires p < cfg.passes && cfg.chunkSize != 0
    ensures |c| == |content|
    ensures PassLoopEvents(events, false)
    ensures failure == None <==>
              forall k :: 0 <= k < |Offsets(|content|, cfg.chunkSize)| ==>
                WriteChunk(p, Offsets(|content|, cfg.chunkSize)[k]) !in env.faults
    ensures failure == None ==>
              && c == (if cfg.chunkSize > 0 then Image(cfg, env, |content|, p) else content)
              && events == PassEvents(p, |content|, cfg.chunkSize, Offsets(|content|, cfg.chunkSize), false)
    ensures failure.Some? ==>
              && failure.value.IoFailure? && failure.value.op.WriteChunk? && failure.value.op.pass == p
              && cfg.chunkSize > 0
              && failure.value.op.offset in Offsets(|content|, cfg.chunkSize)
              && WriteChunk(p, failure.value.op.offset) in env.faults
              && FirstFaultedWrite(env.faults, p, |content|, cfg.chunkSize, failure.value.op.offset)
              && c == Image(cfg, env, |content|, p)[..failure.value.op.offset] + content[failure.value.op.offset..]
              && events == PassEvents(p, |content|, cfg.chunkSize, Range(0, failure.value.op.offset, cfg.chunkSize), false)
  {
    var size := |content|;
    var k;
    c, k, events := OverwritePass(content, cfg.pattern, p, cfg.chunkSize, env.entropy[p], env.faults);
    var offs := Offsets(size, cfg.chunkSize);
    PassProgressBounded(p, size, cfg.chunkSize, offs[..k], false);
    if k < |offs| {
      ChunkEnd(size, cfg.chunkSize, k);
      FirstFaultedWriteAt(env.faults, p, size, cfg.chunkSize, k);
      OffsetsPrefix(size, cfg.chunkSize, k);
      failure := Some(IoFailure(WriteChunk(p, offs[k])));
      return;
    }
    assert offs[..k] == offs;
    failure := None;
  }

  /** How live pass `p` over `content` can fail, what it leaves in the file and
      the events it emitted: its open fails, leaving the file as it was; `range`
      rejects a zero chunk size once the file is open; or the write at offset
      `o` fails, no earlier write of the pass having failed, leaving the pass's
      pattern before `o`, after the open and the chunk loop over
      `range(0, o, chunk)`. */
  predicate PassFailure(content: seq<bv8>, cfg: Config, env: Env, p: nat,
                        c: seq<bv8>, events: seq<Event>, failure: Failure)
    requires EnvFits(env, cfg.passes, |content|) && p < cfg.passes
  {
    match failure
    case ZeroChunkSize =>
      && cfg.chunkSize == 0 && OpenFile(p) !in env.faults
      && c == content && events == [Opened(p)]
    case IoFailure(OpenFile(q)) =>
      && q == p && OpenFile(p) in env.faults
      && c == content && events == []
    case IoFailure(WriteChunk(q, o)) =>
      && q == p && cfg.chunkSize > 0 && OpenFile(p) !in env.faults
      && o in Offsets(|content|, cfg.chunkSize) && WriteChunk(p, o) in env.faults
      && FirstFaultedWrite(env.faults, p, |content|, cfg.chunkSize, o)
      && c == Image(cfg, env, |content|, p)[..o] + content[o..]
      && events == [Opened(p)] + PassEvents(p, |content|, cfg.chunkSize, Range(0, o, cfg.chunkSize), false)
    case IoFailure(_) => false
  }

  /** One live pass (lines 141-149): open the file without truncating it, then
      write every chunk of the pass. */
  method LivePass(content: seq<bv8>, cfg: Config, env: Env, p: nat)
    returns (c: seq<bv8>, events: seq<Event>, failure: Option<Failure>)
    requires EnvFits(env, cfg.passes, |content|)
    requires !cfg.dryRun && p < cfg.passes
    ensures |c| == |content|
    ensures PassLoopEvents(events, false)
    ensures failure == None <==> cfg.chunkSize != 0 && PassClean(env.faults, p, |content|, cfg.chunkSize)
    ensures failure == None ==>
              && c == (if cfg.chunkSize > 0 then Image(cfg, env, |content|, p) else content)
              && events == PassTrace(cfg, |content|, p)
    ensures failure.Some? ==> PassFailure(content, cfg, env, p, c, events, failure.value)
  {
    if OpenFile(p) in env.faults {
      return content, [], Some(IoFailure(OpenFile(p)));
    }
    if cfg.chunkSize == 0 {
      // `range(0, size, 0)` raises once the file is open
      return content, [Opened(p)], Some(ZeroChunkSize);
    }
    var written;
    c, written, failure := WriteChunks(content, cfg, env, p);
    PassLoopEventsAppend([Opened(p)], written, false);
    events := [Opened(p)] + written;
  }

  /** Where the pass loop stops early, and what the file then holds. Each case
      is the FIRST failure of the loop: `range` rejects a zero chunk size in the
      first pass, after its open succeeded when not simulating; the open of
      pass `p` fails after passes `0 .. p - 1` completed, leaving what they left;
      or the write at offset `o` of pass `p` fails after those passes, the open
      of pass `p` and every earlier write of pass `p` succeeded, leaving pass
      `p`'s pattern before `o` and what the first `p` passes left from `o` on.
      `StoppedAtUnique` shows at most one failure fits a given setting. */
  predicate StoppedAt(content0: seq<bv8>, cfg: Config, env: Env, content: seq<bv8>, failure: Failure)
    requires EnvFits(env, cfg.passes, |content0|)
  {
    match failure
    case ZeroChunkSize =>
      && cfg.chunkSize == 0 && cfg.passes > 0 && (cfg.dryRun || OpenFile(0) !in env.faults)
      && content == content0
    case IoFailure(OpenFile(p)) =>
      && !cfg.dryRun && p < cfg.passes && OpenFile(p) in env.faults
      && PassesCleanBefore(env.faults, p, |content0|, cfg.chunkSize)
      && content == AfterPasses(content0, cfg, env, p)
    case IoFailure(WriteChunk(p, o)) =>
      && !cfg.dryRun && cfg.chunkSize > 0 && p < cfg.passes
      && PassesCleanBefore(env.faults, p, |content0|, cfg.chunkSize) && OpenFile(p) !in env.faults
      && o in Offsets(|content0|, cfg.chunkSize) && WriteChunk(p, o) in env.faults
      && FirstFaultedWrite(env.faults, p, |content0|, cfg.chunkSize, o)
      && content == Image(cfg, env, |content0|, p)[..o] + AfterPasses(content0, cfg, env, p)[o..]
    case IoFailure(_) => false
  }

  /** `StoppedAt`, with `trace` every event up to the failure: the events of
      the passes that completed, then, for a failing write, the open of pass `p`
      and the chunk loop over the offsets `range(0, o, chunk)` before `o`; a
      zero chunk size fails with no event in a dry run and after the first open
      otherwise. The trace is a function of the failure, so `StoppedAtUnique`
      determines it too (`StoppedByUnique`). */
  predicate StoppedBy(content0: seq<bv8>, cfg: Config, env: Env, content: seq<bv8>, trace: seq<Event>, failure: Failure)
    requires EnvFits(env, cfg.passes, |content0|)
  {
    && StoppedAt(content0, cfg, env, content, failure)
    && match failure
       case ZeroChunkSize =>
         trace == if cfg.dryRun then [] else [Opened(0)]
       case IoFailure(OpenFile(p)) =>
         trace == RunEvents(cfg, |content0|, p)
       case IoFailure(WriteChunk(p, o)) =>
         trace == RunEvents(cfg, |content0|, p) + [Opened(p)]
                  + PassEvents(p, |content0|, cfg.chunkSize, Range(0, o, cfg.chunkSize), false)
       case IoFailure(_) => false
  }

  /** A failure of live pass `p`, reached after passes `0 .. p - 1` ran clean,
      is where the pass loop stops, with the events of the earlier passes
      before the pass's own. */
  lemma PassFailureStops(content0: seq<bv8>, cfg: Config, env: Env, p: nat,
                         c: seq<bv8>, events: seq<Event>, failure: Failure)
    requires EnvFits(env, cfg.passes, |content0|)
    requires !cfg.dryRun && p < cfg.passes && (p == 0 || cfg.chunkSize != 0)
    requires PassesCleanBefore(env.faults, p, |content0|, cfg.chunkSize)
    requires PassFailure(AfterPasses(content0, cfg, env, p), cfg, env, p, c, events, failure)
    ensures StoppedBy(content0, cfg, env, c, RunEvents(cfg, |content0|, p) + events, failure)
  {
    var size := |content0|;
    match failure
    case ZeroChunkSize =>
      assert RunEvents(cfg, size, 0) == [];
    case IoFailure(OpenFile(_)) =>
      assert RunEvents(cfg, size, p) + [] == RunEvents(cfg, size, p);
    case IoFailure(WriteChunk(_, o)) =>
      var done := PassEvents(p, size, cfg.chunkSize, Range(0, o, cfg.chunkSize), false);
      assert RunEvents(cfg, size, p) + ([Opened(p)] + done) == RunEvents(cfg, size, p) + [Opened(p)] + done;
  }

  /** The failure that stops the pass loop and the content it leaves are
      determined by the configuration and the faults: no two different
      failures both fit `StoppedAt`. */
  lemma StoppedAtUnique(content0: seq<bv8>, cfg: Config, env: Env,
                        c1: seq<bv8>, f1: Failure, c2: seq<bv8>, f2: Failure)
    requires EnvFits(env, cfg.passes, |content0|)
    requires StoppedAt(content0, cfg, env, c1, f1)
    requires StoppedAt(content0, cfg, env, c2, f2)
    ensures f1 == f2 && c1 == c2
  {
    if f1.IoFailure? && f2.IoFailure? {
      IoFailureUnique(content0, cfg, env, c1, f1.op, c2, f2.op);
    }
  }

  /** The events up to the failure are determined as well. */
  lemma StoppedByUnique(content0: seq<bv8>, cfg: Config, env: Env,
                        c1: seq<bv8>, t1: seq<Event>, f1: Failure, c2: seq<bv8>, t2: seq<Event>, f2: Failure)
    requires EnvFits(env, cfg.passes, |content0|)
    requires StoppedBy(content0, cfg, env, c1, t1, f1)
    requires StoppedBy(content0, cfg, env, c2, t2, f2)
    ensures f1 == f2 && c1 == c2 && t1 == t2
  {
    StoppedAtUnique(content0, cfg, env, c1, f1, c2, f2);
  }

  /** A pass with a failing open or a failing write at one of its offsets is
      not clean. */
  lemma FaultedNotClean(faults: set<IoOp>, size: nat, chunk: int, op: IoOp)
    requires chunk != 0
    requires op in faults
    requires op.OpenFile? || (op.WriteChunk? && op.offset in Offsets(size, chunk))
    ensures !PassClean(faults, op.pass, size, chunk)
  {
  }

  /** A failing write at an offset of the pass is never below the first one. */
  lemma FaultedWriteNotBefore(faults: set<IoOp>, p: nat, size: nat, chunk: int, first: int, o: int)
    requires chunk != 0
    requires FirstFaultedWrite(faults, p, size, chunk, first)
    requires o in Offsets(size, chunk) && WriteChunk(p, o) in faults
    ensures first <= o
  {
  }

  /** Two operation failures that both fit `StoppedAt` are the same one: a
      failure in pass `p` needs every operation of the earlier passes to
      succeed, and a failing write needs the open of its pass and every earlier
      write of its pass to succeed. */
  lemma IoFailureUnique(content0: seq<bv8>, cfg: Config, env: Env,
                        c1: seq<bv8>, a: IoOp, c2: seq<bv8>, b: IoOp)
    requires EnvFits(env, cfg.passes, |content0|)
    requires StoppedAt(content0, cfg, env, c1, IoFailure(a))
    requires StoppedAt(content0, cfg, env, c2, IoFailure(b))
    ensures a == b
  {
    var size := |content0|;
    if cfg.chunkSize != 0 {
      FaultedNotClean(env.faults, size, cfg.chunkSize, a);
      FaultedNotClean(env.faults, size, cfg.chunkSize, b);
      if a.WriteChunk? && b.WriteChunk? && a.pass == b.pass {
        FaultedWriteNotBefore(env.faults, a.pass, size, cfg.chunkSize, a.offset, b.offset);
        FaultedWriteNotBefore(env.faults, a.pass, size, cfg.chunkSize, b.offset, a.offset);
      }
    }
  }

  /** Iteration `p` of the pass loop (lines 140-154), entered with the content
      the first `p` passes left: a live pass, or a simulated one under `dry_run`. */
  method RunPass(content0: seq<bv8>, cfg: Config, env: Env, p: nat, content: seq<bv8>)
    returns (c: seq<bv8>, events: seq<Event>, failure: Option<Failure>)
    requires EnvFits(env, cfg.passes, |content0|)
    requires p < cfg.passes && (p == 0 || cfg.chunkSize != 0)
    requires !cfg.dryRun ==> PassesCleanBefore(env.faults, p, |content0|, cfg.chunkSize)
    requires content == AfterPasses(content0, cfg, env, p)
    ensures |c| == |content0|
    ensures cfg.dryRun ==> c == content0
    ensures PassLoopEvents(events, cfg.dryRun)
    ensures failure == None <==>
              cfg.chunkSize != 0 && (!cfg.dryRun ==> PassClean(env.faults, p, |content0|, cfg.chunkSize))
    ensures failure == None ==>
              c == AfterPasses(content0, cfg, env, p + 1) && events == PassTrace(cfg, |content0|, p)
    ensures failure.Some? ==>
              StoppedBy(content0, cfg, env, c, RunEvents(cfg, |content0|, p) + events, failure.value)
    ensures failure.Some? && failure.value.IoFailure? ==> failure.value.op.pass == p
  {
    var size := |content0|;
    if !cfg.dryRun {
      c, events, failure := LivePass(content, cfg, env, p);
      if failure.Some? {
        PassFailureStops(content0, cfg, env, p, c, events, failure.value);
      }
    } else if cfg.chunkSize == 0 {
      c, events, failure := content, [], Some(ZeroChunkSize);
    } else {
      events := SimulatePass(size, p, cfg.chunkSize);
      PassProgressBounded(p, size, cfg.chunkSize, Offsets(size, cfg.chunkSize), true);
      c, failure := content, None;
    }
  }

  /** The pass loop of lines 139-154, up to the first exception. */
  method RunPasses(content0: seq<bv8>, cfg: Config, env: Env)
    returns (content: seq<bv8>, trace: seq<Event>, failure: Option<Failure>)
    requires EnvFits(env, cfg.passes, |content0|)
    ensures |content| == |content0|
    ensures cfg.dryRun ==> content == content0
    ensures PassLoopEvents(trace, cfg.dryRun)
    ensures failure == None <==> PassesSucceed(cfg, env.faults, |content0|)
    ensures failure == None ==>
              && content == AfterPasses(content0, cfg, env, PassCount(cfg.passes))
              && trace == RunEvents(cfg, |content0|, PassCount(cfg.passes))
    ensures failure.Some? ==> StoppedBy(content0, cfg, env, content, trace, failure.value)
  {
    var size := |content0|;
    content := content0;
    trace := [];
    failure := None;
    var p: nat := 0;
    while p < cfg.passes
      invariant p <= PassCount(cfg.passes)
      invariant p == 0 || cfg.chunkSize != 0
      invariant failure == None
      invariant content == AfterPasses(content0, cfg, env, p)
      invariant trace == RunEvents(cfg, size, p)
      invariant PassLoopEvents(trace, cfg.dryRun)
      invariant !cfg.dryRun ==> PassesCleanBefore(env.faults, p, size, cfg.chunkSize)
    {
      var events;
      content, events, failure := RunPass(content0, cfg, env, p, content);
      PassLoopEventsAppend(trace, events, cfg.dryRun);
      trace := trace + events;
      if failure.Some? {
        assert cfg.chunkSize != 0 ==> !PassClean(env.faults, p, size, cfg.chunkSize);
        return;
      }
      assert !cfg.dryRun ==> PassClean(env.faults, p, size, cfg.chunkSize);
      RunEventsSnoc(cfg, size, p);
      p := p + 1;
    }
    assert PassesSucceed(cfg, env.faults, size);
  }

  /** The deletion step of lines 168-173: rename the overwritten file to the
      temporary path, then remove that path. A failing rename leaves the
      filesystem as it was; a failing remove leaves the file under the
      temporary name. */
  method RenameAndRemove(fs: Fs, path: Path, tmp: Path, faults: set<IoOp>)
    returns (fs': Fs, outcome: Outcome, events: seq<Event>)
    requires path in fs
    ensures RenameFile in faults ==> fs' == fs && outcome == Failed(IoFailure(RenameFile)) && events == []
    ensures RenameFile !in faults && RemoveFile in faults ==>
              && fs' == Rename(fs, path, tmp) && outcome == Failed(IoFailure(RemoveFile))
              && events == [Renamed(path, tmp)]
    ensures RenameFile !in faults && RemoveFile !in faults ==>
              && fs' == fs - {path, tmp} && outcome == Destroyed
              && events == [Renamed(path, tmp), Removed(tmp)]
  {
    if RenameFile in faults {
      return fs, Failed(IoFailure(RenameFile)), [];
    }
    var renamed := Rename(fs, path, tmp);
    if RemoveFile in faults {
      return renamed, Failed(IoFailure(RemoveFile)), [Renamed(path, tmp)];
    }
    RenameThenRemove(fs, path, tmp);
    return Remove(renamed, tmp), Destroyed, [Renamed(path, tmp), Removed(tmp)];
  }

  /** Lines 169-182, reached once every pass completed: in deleting mode the
      file is renamed to `tmp` and removed; otherwise it stays at its path with
      the content the passes left, whether simulated or kept by `no_delete`. */
  method Dispose(fs: Fs, path: Path, tmp: Path, cfg: Config, faults: set<IoOp>, content: seq<bv8>)
    returns (fs': Fs, outcome: Outcome, events: seq<Event>)
    requires path in fs
    ensures outcome == Simulated <==> cfg.dryRun
    ensures outcome == Retained <==> !cfg.dryRun && cfg.noDelete
    ensures outcome == Destroyed <==>
              !cfg.dryRun && !cfg.noDelete && RenameFile !in faults && RemoveFile !in faults
    ensures outcome == Failed(IoFailure(RenameFile)) <==> !cfg.dryRun && !cfg.noDelete && RenameFile in faults
    ensures outcome == Failed(IoFailure(RemoveFile)) <==>
              !cfg.dryRun && !cfg.noDelete && RenameFile !in faults && RemoveFile in faults
    ensures outcome.Failed? ==> outcome.failure in {IoFailure(RenameFile), IoFailure(RemoveFile)}
    ensures cfg.dryRun || cfg.noDelete ==> fs' == fs[path := content] && events == []
    ensures outcome == Destroyed ==>
              fs' == fs - {path, tmp} && events == [Renamed(path, tmp), Removed(tmp)]
    ensures outcome == Failed(IoFailure(RenameFile)) ==> fs' == fs[path := content] && events == []
    ensures outcome == Failed(IoFailure(RemoveFile)) ==>
              fs' == Rename(fs[path := content], path, tmp) && events == [Renamed(path, tmp)]
    ensures forall e :: e in events ==> e.Renamed? || e.Removed?
    ensures forall e :: e in events && e.Renamed? ==>
              !cfg.dryRun && !cfg.noDelete && RenameFile !in faults && e == Renamed(path, tmp)
    ensures forall e :: e in events && e.Removed? ==> outcome == Destroyed && e == Removed(tmp)
  {
    if !cfg.dryRun && !cfg.noDelete {
      fs', outcome, events := RenameAndRemove(fs[path := content], path, tmp, faults);
      assert fs[path := content] - {path, tmp} == fs - {path, tmp};
    } else {
      fs', outcome, events := fs[path := content], if cfg.dryRun then Simulated else Retained, [];
    }
  }

  /** An event `secure_delete` can emit: an open, a write or a progress report
      is one the pass loop can emit (`LoopEvent`: a dry run reports simulated
      progress only, and every progress value is in `[0, 100)`); a rename
      happens only in deleting mode after every pass completed, moves the file
      to the temporary path (a 12-character alphanumeric name in the same
      directory) and only when the rename does not fail; a removal happens
      only of the temporary path and only when the file ends up destroyed. */
  predicate ShredEvent(e: Event, fs: Fs, path: Path, cfg: Config, env: Env, outcome: Outcome)
  {
    && (e.Opened? || e.Wrote? || e.Progress? ==> LoopEvent(e, cfg.dryRun))
    && (e.Renamed? ==>
          && path in fs && !cfg.dryRun && !cfg.noDelete
          && PassesSucceed(cfg, env.faults, |fs[path]|) && RenameFile !in env.faults
          && e == Renamed(path, TempPath(path, env))
          && e.dst.dir == path.dir && IsTempName(e.dst.name))
    && (e.Removed? ==> !cfg.dryRun && outcome == Destroyed && e.path == TempPath(path, env))
  }

  /** `secure_delete` (lines 125-185): overwrite, then rename to the temporary
      name and remove, unless simulating or told to keep the file. */
  method SecureDelete(fs: Fs, path: Path, cfg: Config, env: Env)
    returns (fs': Fs, outcome: Outcome, trace: seq<Event>)
    requires path in fs ==> EnvFits(env, cfg.passes, |fs[path]|)
    // not a regular file: nothing happens
    ensures path !in fs <==> outcome == NotFound
    ensures path !in fs ==> fs' == fs && trace == []
    // a dry run touches nothing and reports the simulated progress of every pass
    ensures cfg.dryRun ==> fs' == fs
    ensures path in fs && cfg.dryRun ==>
              outcome == if cfg.passes > 0 && cfg.chunkSize == 0 then Failed(ZeroChunkSize) else Simulated
    ensures outcome == Simulated ==> cfg.dryRun
    ensures outcome == Simulated ==>
              && path in fs && (cfg.passes <= 0 || cfg.chunkSize != 0)
              && trace == RunEvents(cfg, |fs[path]|, PassCount(cfg.passes))
    // the file keeps its length wherever it is left
    ensures path in fs && path in fs' ==> |fs'[path]| == |fs[path]|
    // every event is one `ShredEvent` allows
    ensures forall e :: e in trace ==> ShredEvent(e, fs, path, cfg, env, outcome)
    ensures outcome == Destroyed <==>
              && path in fs && !cfg.dryRun && !cfg.noDelete
              && PassesSucceed(cfg, env.faults, |fs[path]|)
              && RenameFile !in env.faults && RemoveFile !in env.faults
    ensures outcome == Destroyed ==>
              && fs' == fs - {path, TempPath(path, env)}
              && trace == RunEvents(cfg, |fs[path]|, PassCount(cfg.passes))
                          + [Renamed(path, TempPath(path, env)), Removed(TempPath(path, env))]
    ensures outcome == Retained <==>
              path in fs && !cfg.dryRun && cfg.noDelete && PassesSucceed(cfg, env.faults, |fs[path]|)
    ensures outcome == Retained ==>
              && fs' == fs[path := AfterPasses(fs[path], cfg, env, PassCount(cfg.passes))]
              && trace == RunEvents(cfg, |fs[path]|, PassCount(cfg.passes))
    // a pass loop that does not run to the end fails and leaves the file at its path
    ensures path in fs && !PassesSucceed(cfg, env.faults, |fs[path]|) ==> outcome.Failed? && path in fs'
    // failures: the pass loop stops at its first failure (see `StoppedByUnique`);
    // the file stays at its path with the content reached, and the trace ends
    // with the last event before the failure
    ensures outcome.Failed? && outcome.failure != IoFailure(RenameFile) && outcome.failure != IoFailure(RemoveFile) ==>
              && path in fs && path in fs' && fs' == fs[path := fs'[path]]
              && StoppedBy(fs[path], cfg, env, fs'[path], trace, outcome.failure)
    ensures outcome == Failed(ZeroChunkSize) ==> fs' == fs && cfg.chunkSize == 0 && cfg.passes > 0
    ensures outcome.Failed? && outcome.failure.IoFailure? && outcome.failure.op.OpenFile? ==>
              var p := outcome.failure.op.pass;
              && !cfg.dryRun && p < cfg.passes && OpenFile(p) in env.faults
              && fs' == fs[path := AfterPasses(fs[path], cfg, env, p)]
    ensures outcome.Failed? && outcome.failure.IoFailure? && outcome.failure.op.WriteChunk? ==>
              var p := outcome.failure.op.pass;
              var o := outcome.failure.op.offset;
              && !cfg.dryRun && cfg.chunkSize > 0 && p < cfg.passes
              && o in Offsets(|fs[path]|, cfg.chunkSize) && WriteChunk(p, o) in env.faults
              && fs' == fs[path := Image(cfg, env, |fs[path]|, p)[..o] + AfterPasses(fs[path], cfg, env, p)[o..]]
    // the rename and the remove are reached only after every pass, in deleting mode
    ensures outcome == Failed(IoFailure(RenameFile)) <==>
              && path in fs && !cfg.dryRun && !cfg.noDelete
              && PassesSucceed(cfg, env.faults, |fs[path]|) && RenameFile in env.faults
    ensures outcome == Failed(IoFailure(RemoveFile)) <==>
              && path in fs && !cfg.dryRun && !cfg.noDelete
              && PassesSucceed(cfg, env.faults, |fs[path]|) && RenameFile !in env.faults && RemoveFile in env.faults
    ensures outcome == Failed(IoFailure(RenameFile)) ==>
              && fs' == fs[path := AfterPasses(fs[path], cfg, env, PassCount(cfg.passes))]
              && trace == RunEvents(cfg, |fs[path]|, PassCount(cfg.passes))
    ensures outcome == Failed(IoFailure(RemoveFile)) ==>
              && fs' == Rename(fs[path := AfterPasses(fs[path], cfg, env, PassCount(cfg.passes))], path, TempPath(path, env))
              && trace == RunEvents(cfg, |fs[path]|, PassCount(cfg.passes)) + [Renamed(path, TempPath(path, env))]
  {
    if path !in fs {
      return fs, NotFound, [];
    }
    var content, failure;
    content, trace, failure := RunPasses(fs[path], cfg, env);
    LoopEventMembers(trace, cfg.dryRun);
    if failure.Some? {
      return fs[path := content], Failed(failure.value), trace;
    }
    var events;
    fs', outcome, events := Dispose(fs, path, TempPath(path, env), cfg, env.faults, content);
    trace := trace + events;
  }
}
