/** Properties of the engine that relate several passes or several calls. */
module ShredProperties {
  import opened Pattern
  import opened Chunks
  import opened Events
  import opened Engine

  /** A completed live pass opens the file and writes each of its chunks. */
  lemma PassWritesEveryChunk(cfg: Config, size: nat, p: nat, k: nat)
    requires !cfg.dryRun && cfg.chunkSize > 0
    requires k < |Offsets(size, cfg.chunkSize)|
    ensures Opened(p) in PassTrace(cfg, size, p)
    ensures Wrote(p, Offsets(size, cfg.chunkSize)[k], ChunkLen(size, cfg.chunkSize, Offsets(size, cfg.chunkSize)[k]))
            in PassTrace(cfg, size, p)
  {
    var offs := Offsets(size, cfg.chunkSize);
    var pass := PassEvents(p, size, cfg.chunkSize, offs, false);
    PassEventsAt(p, size, cfg.chunkSize, offs, false);
    assert PassTrace(cfg, size, p) == [Opened(p)] + pass;
    assert PassTrace(cfg, size, p)[1 + 2 * k] == pass[2 * k];
  }

  /** In a completed live run every chunk of every pass is written: the run
      contains, for each pass `p` and each offset, the write of that chunk with
      length `min(chunk, size - offset)`, and the open of pass `p`. */
  lemma RunWritesEveryChunk(cfg: Config, size: nat, n: nat, p: nat, k: nat)
    requires !cfg.dryRun && cfg.chunkSize > 0
    requires p < n && k < |Offsets(size, cfg.chunkSize)|
    ensures Opened(p) in RunEvents(cfg, size, n)
    ensures Wrote(p, Offsets(size, cfg.chunkSize)[k], ChunkLen(size, cfg.chunkSize, Offsets(size, cfg.chunkSize)[k]))
            in RunEvents(cfg, size, n)
  {
    var offset := Offsets(size, cfg.chunkSize)[k];
    PassWritesEveryChunk(cfg, size, p, k);
    RunContainsPass(cfg, size, n, p, Opened(p));
    RunContainsPass(cfg, size, n, p, Wrote(p, offset, ChunkLen(size, cfg.chunkSize, offset)));
  }

  /** A completed dry run reports `ceil(size / chunk)` simulated progress events
      per pass and nothing else: no open, no write. */
  lemma DryRunEvents(cfg: Config, size: nat, n: nat)
    requires cfg.dryRun && cfg.chunkSize > 0
    ensures |RunEvents(cfg, size, n)| == n * ((size + cfg.chunkSize - 1) / cfg.chunkSize)
    ensures forall e :: e in RunEvents(cfg, size, n) ==> e.Progress? && e.simulated
  {
    var offs := Offsets(size, cfg.chunkSize);
    var ts := PassTraces(cfg, size, n);
    forall p | 0 <= p < |ts|
      ensures |ts[p]| == |offs|
    {
      PassEventsAt(p, size, cfg.chunkSize, offs, true);
    }
    ConcatLength(ts, |offs|);
    OffsetsCount(size, cfg.chunkSize);
    forall e | e in RunEvents(cfg, size, n)
      ensures e.Progress? && e.simulated
    {
      var p := RunEventSource(cfg, size, n, e);
      PassProgressBounded(p, size, cfg.chunkSize, offs, true);
    }
  }

  /** An empty file has no chunks: a completed run writes nothing and reports no
      progress; a live run only opens the file once per pass. */
  lemma EmptyFileRun(cfg: Config, n: nat)
    requires cfg.chunkSize != 0
    ensures forall e :: e in RunEvents(cfg, 0, n) ==> e.Opened? && !cfg.dryRun
    ensures |RunEvents(cfg, 0, n)| == if cfg.dryRun then 0 else n
  {
    var ts := PassTraces(cfg, 0, n);
    assert Offsets(0, cfg.chunkSize) == [];
    ConcatLength(ts, if cfg.dryRun then 0 else 1);
    forall e | e in RunEvents(cfg, 0, n)
      ensures e.Opened? && !cfg.dryRun
    {
      var p := RunEventSource(cfg, 0, n, e);
    }
  }

  /** After a completed live run with a fixed pattern and a positive chunk size,
      every byte holds the pattern byte of the last pass: 0x00 for "zeros" and
      0xFF for "ones" whatever the number of passes, and for "alternating" 0xAA
      exactly when the number of passes is odd (the last pass index is even). */
  lemma FinalContentFixed(content0: seq<bv8>, cfg: Config, env: Env)
    requires EnvFits(env, cfg.passes, |content0|)
    requires !cfg.dryRun && cfg.chunkSize > 0 && cfg.passes >= 1
    requires IsFixed(cfg.pattern)
    ensures |AfterPasses(content0, cfg, env, cfg.passes)| == |content0|
    ensures forall i :: 0 <= i < |content0| ==>
              AfterPasses(content0, cfg, env, cfg.passes)[i] == FixedByte(cfg.pattern, cfg.passes - 1)
    ensures cfg.pattern == "zeros" ==> forall i :: 0 <= i < |content0| ==> AfterPasses(content0, cfg, env, cfg.passes)[i] == 0x00
    ensures cfg.pattern == "ones" ==> forall i :: 0 <= i < |content0| ==> AfterPasses(content0, cfg, env, cfg.passes)[i] == 0xFF
    ensures cfg.pattern == "alternating" ==> forall i :: 0 <= i < |content0| ==>
              AfterPasses(content0, cfg, env, cfg.passes)[i] == if cfg.passes % 2 == 1 then 0xAA else 0x55
  {
    var last := cfg.passes - 1;
    assert last % 2 == 0 <==> cfg.passes % 2 == 1;
  }

  /** The random pattern leaves the last pass's random stream in the file. */
  lemma FinalContentRandom(content0: seq<bv8>, cfg: Config, env: Env)
    requires EnvFits(env, cfg.passes, |content0|)
    requires !cfg.dryRun && cfg.chunkSize > 0 && cfg.passes >= 1
    requires !IsFixed(cfg.pattern)
    ensures AfterPasses(content0, cfg, env, cfg.passes) == env.entropy[cfg.passes - 1]
  {
  }

  /** The file left by a write failure at `offset` of pass `p` with a fixed
      pattern: the bytes before the failing chunk hold pass `p`'s byte, the rest
      still hold what the previous pass wrote, or the original content when the
      failure is in the first pass. */
  lemma InterruptedContentFixed(content0: seq<bv8>, cfg: Config, env: Env, p: nat, offset: nat)
    requires EnvFits(env, cfg.passes, |content0|)
    requires !cfg.dryRun && cfg.chunkSize > 0 && p < cfg.passes
    requires IsFixed(cfg.pattern)
    requires offset <= |content0|
    ensures var c := Image(cfg, env, |content0|, p)[..offset] + AfterPasses(content0, cfg, env, p)[offset..];
            && |c| == |content0|
            && (forall i :: 0 <= i < offset ==> c[i] == FixedByte(cfg.pattern, p))
            && (forall i :: offset <= i < |content0| ==>
                  c[i] == if p == 0 then content0[i] else FixedByte(cfg.pattern, p - 1))
  {
  }

  /** When the open of the first live pass fails, that is the failure the
      pass loop stops at, whatever else is set to fail: the file keeps its
      original bytes and nothing was emitted. */
  lemma FirstOpenFailureLeavesFile(content0: seq<bv8>, cfg: Config, env: Env, c: seq<bv8>, f: Failure)
    requires EnvFits(env, cfg.passes, |content0|)
    requires !cfg.dryRun && cfg.passes > 0 && OpenFile(0) in env.faults
    requires StoppedAt(content0, cfg, env, c, f)
    ensures f == IoFailure(OpenFile(0)) && c == content0
    ensures StoppedBy(content0, cfg, env, c, [], f)
  {
    assert StoppedAt(content0, cfg, env, content0, IoFailure(OpenFile(0)));
    StoppedAtUnique(content0, cfg, env, c, f, content0, IoFailure(OpenFile(0)));
    assert RunEvents(cfg, |content0|, 0) == [];
  }
}
