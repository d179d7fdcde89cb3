# Secure file shredder: a Dafny model of the shredding engine

This project models the core of a command-line file shredder: the function that
produces the bytes of one overwrite chunk (`get_pattern_bytes`) and the per-file
procedure `secure_delete`. The procedure overwrites a regular file in place,
pass after pass and chunk after chunk. Unless it is simulating (`dry_run`) or
told to keep the file (`no_delete`), it then renames the file to a random
12-character name in the same directory and removes it.

Layout, one module per file:

- `pattern.dfy` (`Pattern`): the pattern generator. Dispatch is on the pattern
  string, as in the source. "zeros", "ones" and "alternating" are fixed fills.
  Every other string takes the random branch. The random bytes are a parameter.
- `chunks.dfy` (`Chunks`): Python's `range` as a sequence and the chunk offsets
  `range(0, size, chunk)`. Also the chunk length `min(chunk, size - offset)` and
  the progress percentage. Contains the tiling lemmas.
- `filesystem.dfy` (`FileSystem`): the filesystem as a map from paths to byte
  strings. Provides a write at an offset through a non-truncating handle,
  POSIX-style rename and remove.
- `events.dfy` (`Events`): the observable steps of a shred (open, chunk write,
  progress report, rename, remove), the events one pass emits, and the
  concatenation of the passes' events.
- `engine.dfy` (`Engine`): configuration, failure and outcome types. Contains the
  chunk loop (`OverwritePass`, wrapped with its failure report by
  `WriteChunks`), the dry-run loop (`SimulatePass`), one live pass
  (`LivePass`, whose failures `PassFailure` describes), one iteration of the pass loop (`RunPass`), the pass loop
  (`RunPasses`), the step after the loop (`Dispose`, which calls
  `RenameAndRemove` in deleting mode) and the whole procedure
  (`SecureDelete`). `StoppedAt` describes where the pass loop stops early and
  what it leaves, and `StoppedBy` adds the events up to that point.
  `StoppedAtUnique` shows that this is always the first failure;
  `StoppedByUnique` adds that the events up to it are determined as well.
- `properties.dfy` (`ShredProperties`): lemmas that span passes, such as chunk
  coverage, dry-run event counts, empty files and the final or interrupted
  content for fixed patterns.

Modelling choices:

- **Regular files.** A path is a regular file exactly when it is a key of the
  filesystem map. Directories and missing paths are not keys.
- **Operating-system failures.** `Env.faults` is the set of operations the
  operating system makes fail: the open of pass `p`, the write at `(p, offset)`,
  the rename, and the remove. An exception ends the procedure. The model returns
  `Failed(...)` for it, where the source prints the error and returns `None`.
- **Outcome type.** `Outcome` is the model's own type. The source's outcomes are
  its control-flow paths: the early return for a non-file, the dry-run branch,
  the `no_delete` branch, the rename-and-remove branch, and the exception handler.
- **Randomness.** `os.urandom` is replaced by `Env.entropy[p]`: one random stream
  per pass, as long as the file. The chunk at `offset` of length `len` gets the
  slice `[offset, offset + len)`. The chunk outputs of a pass and their
  concatenation determine each other, so this loses no behaviour.
  `random.choices` is replaced by `Env.tempName`. The only assumption is what the
  source guarantees: exactly 12 ASCII letters or digits.
- **Numeric inputs.** `passes` and `chunk_size` are unbounded integers, taken
  exactly as the engine receives them.
  - `passes <= 0` runs no pass and still renames and removes the file.
  - `chunk_size == 0` makes `range` raise in the first pass, but only when at
    least one pass runs. In live mode it raises after the file is opened; in a
    dry run it raises with no open. The exception is caught, so nothing is
    deleted.
  - A negative `chunk_size` gives an empty `range`. The file is opened each pass,
    nothing is written, and the file is then deleted.
- **Parity.** Python's `%` floors and Dafny's `%` is Euclidean. For divisor 2 they
  agree on every integer, so `pass_num % 2` is modelled directly.
- **Progress.** Progress is the exact rational `offset / size * 100` as a `real`.

## Model

| member | source | states |
|---|---|---|
| Pattern.PatternBytes | fileshred.py:191-199 | exactly `size` bytes for every pattern; "zeros" all 0x00 and "ones" all 0xFF whatever the pass; "alternating" 0xAA on even and 0x55 on odd passes; any other name yields the random source's bytes |
| Pattern.PatternSlice | fileshred.py:191-199 | a slice of a pattern buffer equals the pattern buffer of the slice, so a chunk's bytes depend only on pattern, pass and its own share of randomness |
| Pattern.PassDependence | fileshred.py:192-197 | "zeros"/"ones" do not depend on the pass number; "alternating" has period 2 and differs between consecutive passes on non-empty buffers |
| Pattern.FixedIgnoresEntropy | fileshred.py:192-197 | the three fixed patterns never consult the random source |
| Chunks.Range | fileshred.py:142 | for a positive step `range(start, stop, step)` is empty exactly when `stop <= start`, starts at `start`, stays in `[start, stop)` and its last value is within one step of `stop`; a negative step from below `stop` yields nothing |
| Chunks.RangeStep | fileshred.py:142 | consecutive values of a `range` differ by exactly the step |
| Chunks.OffsetIsMultiple | fileshred.py:142 | chunk k of a pass starts at `k * chunk` |
| Chunks.OffsetsStrictlyIncrease | fileshred.py:142 | a later chunk of a pass starts strictly after an earlier one |
| Chunks.OffsetsIncrease | fileshred.py:142 | chunk `j` starts before chunk `k` exactly when `j < k` |
| Chunks.RangePrefix | fileshred.py:142 | for a positive step, the values of `range(start, stop, step)` before its k-th value `v` are exactly `range(start, v, step)` |
| Chunks.OffsetsPrefix | fileshred.py:142 | the offsets a pass handles before chunk k are `range(0, o, chunk)`, where `o` is chunk k's offset |
| Chunks.OffsetsCount | fileshred.py:142 | a pass has `ceil(size / chunk)` chunk offsets, and none exactly when the file is empty |
| Chunks.ChunkEnd | fileshred.py:142-144 | chunk k starts inside the file, has a length in `(0, chunk]`, and ends where chunk k+1 starts, or at the end of the file for the last chunk |
| Chunks.OffsetsTile | fileshred.py:142-144 | the first chunk starts at 0, consecutive chunks are adjacent (no gap, no overlap), each is non-empty and at most `chunk` long, and the last ends at `size` |
| Chunks.LastChunk | fileshred.py:142-144 | the last chunk has length `size % chunk`, or `chunk` when that is 0 |
| Chunks.ChunkOfByte | fileshred.py:142-144 | every byte position `i` in `[0, size)` lies in chunk `i / chunk` and in no other chunk |
| Chunks.NegativeChunkNoOffsets | fileshred.py:142 | a negative chunk size gives no offsets, so nothing is written |
| Chunks.PercentBelowHundred | fileshred.py:148-153 | a progress value computed from a pre-write offset is in `[0, 100)` |
| FileSystem.WriteAt | fileshred.py:141-145 | a write through a non-truncating handle never shrinks the file; it grows only when the write passes the end, and then to exactly the write's end |
| FileSystem.WriteAtContents | fileshred.py:141-145 | a write keeps the bytes before the offset and after the written range, zero-fills a gap past the old end, and places the data at the offset |
| FileSystem.WriteInside | fileshred.py:141-145 | a write within the file keeps its length and replaces exactly the written range |
| FileSystem.Rename | fileshred.py:171-172 | after the rename the content is at the new path and not at the old one; any file already at the new path is replaced; other paths are unchanged |
| FileSystem.Remove | fileshred.py:173 | the removed path is gone and every other path is unchanged |
| FileSystem.RenameThenRemove | fileshred.py:170-173 | rename then remove deletes exactly the original path and the temporary path; only the original path when no file had the temporary name |
| Events.PassEventsAt | fileshred.py:142-154 | in a live pass, event 2k is the write of chunk k with its length and event 2k+1 is its progress; in a dry pass, event k is the simulated progress of chunk k |
| Events.PassProgressBounded | fileshred.py:142-154 | every progress value of a pass is in `[0, 100)` and carries the pass and its simulation flag; a simulated pass reports progress only |
| Engine.RunEventsSnoc | fileshred.py:139-154 | the events of `n + 1` completed passes are those of `n` passes followed by those of pass `n` |
| Engine.RunContainsPass | fileshred.py:139-154 | every event of a pass `p < n` occurs among the events of `n` completed passes |
| Engine.RunEventSource | fileshred.py:139-154 | every event of `n` completed passes comes from some pass `p < n` |
| Engine.WriteNextChunk | fileshred.py:143-145 | after chunk k is written, the file holds the pass pattern up to the end of chunk k and the previous bytes after it |
| Engine.OverwritePass | fileshred.py:142-149 | the chunk loop stops at the first failing write; the file keeps its length; the bytes before the stop point hold the pass pattern and the rest are unchanged; a complete pass leaves exactly the pass pattern; a negative chunk writes nothing |
| Engine.SimulatePass | fileshred.py:151-154 | a dry pass emits one simulated progress report per chunk offset, in order, and nothing else |
| Engine.WriteChunks | fileshred.py:142-149 | the chunk loop of an open file writes every chunk exactly when no write of the pass fails, leaving the pass image and the events of every chunk; otherwise it stops at the lowest failing offset `o`, leaving the pass pattern before `o` and the old bytes from it on, with the events of the chunks in `range(0, o, chunk)` |
| Engine.LivePass | fileshred.py:140-149 | a live pass fails on the open (no events, file untouched), on a zero chunk size after a successful open (only the open event), or on the write at the lowest faulted offset `o` after the open (the open and the chunk events of `range(0, o, chunk)`, the pass pattern before `o` and the old bytes from it on); it succeeds exactly when none of these happen and then leaves the pass image and the pass's events |
| Engine.FirstFaultedWriteAt | fileshred.py:142-145 | when the writes of the first `k` chunks succeed, no write at an offset below chunk `k`'s fails |
| Engine.IoFailureUnique | fileshred.py:136-154 | two operation failures that both fit the loop's stop conditions (`StoppedAt`) are the same operation: the loop runs in a fixed order and stops at the first failure |
| Engine.StoppedAtUnique | fileshred.py:136-154 | the failure that stops the pass loop, and the content it leaves, are determined by the configuration and the faults |
| Engine.StoppedByUnique | fileshred.py:136-154 | the failure that stops the pass loop, the content it leaves and the events up to it are determined by the configuration and the faults |
| Engine.RunPass | fileshred.py:140-154 | one iteration of the pass loop, entered after the earlier passes completed, succeeds exactly when `range` accepts the chunk size and, unless simulating, no open or write of that pass fails; it then leaves the content after `p + 1` passes and the pass's events; otherwise it stops at the first failure of that pass, and the content and the events of the earlier passes followed by this pass's are those `StoppedBy` gives |
| Engine.RunPasses | fileshred.py:139-154 | the pass loop completes exactly when no open or write of any pass fails and `range` accepts the chunk size; the result is the last pass's image; otherwise it stops at the first failure: a zero chunk size in the first pass, the first failing open after clean passes (leaving their result), or the lowest failing write of the first unclean pass (leaving that pass's pattern before the offset and the previous content from it on); a dry run leaves the content unchanged; on a failure the trace is every event before it: the earlier passes' events, then the open and the chunk events before the failing offset |
| Engine.RenameAndRemove | fileshred.py:169-173 | a failing rename leaves the filesystem as it was; a failing remove leaves the file under the temporary name; otherwise exactly the original and temporary paths are gone |
| Engine.Dispose | fileshred.py:169-182 | after every pass: in deleting mode the file is renamed and removed, with a failing rename leaving it at its path and a failing remove leaving it under the temporary name; otherwise it stays at its path with the content the passes left, outcome simulated or retained; it emits only a rename and a removal, and only in deleting mode |
| Engine.SecureDelete | fileshred.py:125-185 | a non-file leaves everything unchanged; a dry run changes no file, and only a dry run reports `Simulated`, whose trace is exactly the simulated progress of every chunk of every pass; a pass loop that does not run to the end always ends in a failure that leaves the file at its path; the file is destroyed exactly when not dry, not no-delete and nothing fails; the rename and the remove are attempted only in deleting mode after every pass completed, so their failures occur exactly then, with the trace of every pass followed by the rename when only the remove failed; a rename goes to a 12-character alphanumeric name in the same directory and a removal removes only that name; `no_delete` keeps the overwritten file at its path; a failure inside the pass loop is its first failure and leaves the file at its path with the content and the trace `StoppedBy` gives |
| ShredProperties.PassWritesEveryChunk | fileshred.py:141-145 | a completed live pass opens the file and writes every chunk with its length |
| ShredProperties.RunWritesEveryChunk | fileshred.py:139-145 | a completed live run opens the file for every pass and writes every chunk of every pass |
| ShredProperties.DryRunEvents | fileshred.py:150-154 | a completed dry run has `passes * ceil(size / chunk)` events, all simulated progress reports |
| ShredProperties.EmptyFileRun | fileshred.py:139-145 | for an empty file a run writes nothing and reports no progress; a live run only opens the file once per pass |
| ShredProperties.FinalContentFixed | fileshred.py:139-145 | after a completed live run with a fixed pattern every byte is the last pass's byte: 0x00 for zeros, 0xFF for ones, 0xAA exactly when an odd number of alternating passes ran |
| ShredProperties.FinalContentRandom | fileshred.py:139-145 | after a completed live run with the random pattern the file holds the last pass's random stream |
| ShredProperties.FirstOpenFailureLeavesFile | fileshred.py:139-141 | when the open of the first live pass fails, the loop stops there whatever else fails, the file keeps its original bytes and no event was emitted |
| ShredProperties.InterruptedContentFixed | fileshred.py:136-145 | after a write failure with a fixed pattern, the bytes before the failing chunk hold the failing pass's byte; the rest hold the previous pass's byte, or the original bytes if the first pass failed |

## Left out

- Argument parsing in `main` (fileshred.py:231-405) is left out. It is `sys.argv` handling with prints and `sys.exit`. This includes the substring test `arg in ("--chunk-size")` at line 310.
- File selection (glob expansion, directory walk, extension filter, lines 328-362) and the run summary (lines 379-404) are left out. The summary includes a float total in MB.
- Interactive confirmation (`confirm_deletion`, lines 212-218) is left out. It reads from standard input.
- Console presentation is left out: help and manual text, colours, cursor-control sequences (lines 156-167), and the two-decimal formatting of progress. Formatting can show "100.00" for a value just below 100. The model keeps the exact value.
- The `verbose` flag only selects extra console lines, so it is not part of `Config`.
- Actual randomness (`os.urandom`, line 199; `random.choices`, line 170) is not modelled. Each is an externally supplied value that meets only its length and alphabet constraints.
- `file.is_file()` (line 129) and `file.stat()` (line 133) run outside the `try`; an error they raise (a permission error, say) goes to the caller and is not modelled. The size snapshot is the file's length at the call.
- Console output inside the `try` (lines 138, 149, 154, 156-167 and 174-182) is treated as infallible. In the source a failing console write is caught at line 184 like any other error, for example an encoding error on the check mark at line 163 when the console is not UTF-8. In that case the rename and the remove are skipped, and the file stays overwritten but not deleted. The model has no such failure.
- Symbolic links are not modelled: a path is a regular file or absent. `is_file`, `open` and `stat` follow a link, but `rename` and `os.remove` act on the link itself. In the source, the link's target keeps the overwritten content while the link is renamed and removed. A map from paths to contents cannot represent that.
- Close and flush failures of the `with` block are not modelled. Each chunk write is atomic: it either happens completely or fails before changing the file. Python's write buffering, partial writes and durability (`fsync`) are outside the model.
- FileSystem.Rename follows POSIX `rename`: a file already at the temporary name is silently replaced. On Windows, `Path.rename` (line 172) instead raises `FileExistsError` when the target exists. That error is caught at line 184, so the shred fails and both the overwritten file and the existing file stay in place. The model does not cover that platform behaviour.
- Concurrent changes to the file between the `is_file` check and the writes are not modelled.
- Pattern.PatternBytes: sizes are natural numbers. The engine only asks for `min(chunk, size - offset)` with `offset < size`, which is positive, so negative sizes never reach the generator.
- Physical unrecoverability on SSDs, journalling or copy-on-write filesystems is a property of the storage, not of this code.
