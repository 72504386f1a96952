# skiphead, modelled in Dafny

skiphead reads a file and, for each parameter tuple (skip, pick offset, pick
length), samples a strided sub-sequence of its bytes: from the file offset on,
it takes a window of `pick length` bytes starting `pick offset` bytes into every
stride of `skip` bytes, clipped at the end of the file. It then hands the
sampled bytes to a file-type detector and reports each tuple's format (with
`--only`, only the tuples whose sample is not arbitrary binary data). It can
export every reported sample to a file. The tuples come either from the cross
product of the three parameter lists (combinatorial mode) or from zipping the
lists after padding the shorter ones with `0` (paired mode).

The model has three modules:

- `Sampler` (`sampler.dfy`) is the sampler `skiped_and_picked_file_buf`. It is
  an imperative method `SkipAndPick` with its `while` loop, proved against the
  recursive specification `Picked`. Lemmas about `Picked` give the bounds of
  every slice, the exact number of loop rounds, the output as the
  concatenation of the windows in increasing index order, its length, the
  empty-output cases, the exact content for regular strides and the loop that
  never leaves when the stride is 0.
- `Enumeration` (`enumeration.dfy`) holds the tuple orders of the two modes:
  `Combinations` (skip outer, pick length middle, pick offset inner) and
  `Paired` (resize every list to the longest with `0`, then zip).
- `SweepEngine` (`sweep.dfy`) holds `do_skip` and `main`. `StepOf` specifies
  what `do_skip` decides for one tuple and `DoSkip` computes it.
  `RunTuples` is the sweep over a tuple sequence: it collects the per-tuple
  verdicts, ORs them into `exists_non_bin`, and stops at the first export
  error. The methods `SweepCombinatorial` (with `SweepLengths` and
  `SweepOffsets`, one per level of the nested loop) and `SweepPaired` are the
  two loops of `main`. `MainOutcome` and `Run` are `main` after the file has
  been read: validation, the export directory, the sweep and the closing
  summary line.

Three things are parameters rather than code:

- the file-type detector is `classify: seq<byte> -> Format`;
- whether writing a tuple's export file succeeds is `exportOk: Tuple -> bool`;
- whether the export directory exists or can be created is `dirOk`.

With stride 0 and the file offset inside the buffer, the sampler's loop
condition never becomes false. The process then either spins forever (empty
windows) or grows its result until allocation fails (non-empty windows). A
Dafny method cannot do either, so this case is modelled as the step result
`Diverges` and the sweep stop `Hung`. `SkipAndPick` requires that case away.

## Model

| member | source | states |
|---|---|---|
| Sampler.WindowBounds | src/main.rs:83-85 | The slice a round copies satisfies `index <= start <= end <= len`, so it is always in range. It is `[index+offset, index+offset+length)` when the window fits, is cut at `len` when the window runs past the end, and is empty at `len` when the offset is past the end. |
| Sampler.SkipAndPick | src/main.rs:73-90 | The `while` loop's result is exactly `Picked`: the window at the file offset, then the output of the loop started one stride later. It requires a positive stride or a file offset at or past the end, which are exactly the cases where the loop leaves. |
| Sampler.PickedStep | src/main.rs:83-86 | One round keeps the loop invariant. Appending the slice bounded by the two `min` expressions and moving one stride on keeps "result so far + output from here = whole output". |
| Sampler.IterationsCount | src/main.rs:82-86 | With a positive stride, the loop runs `n` rounds with `(n-1)*skip < len - offset <= n*skip`, i.e. `ceil((len - offset)/skip)`. It runs none when the offset is at or past the end. |
| Sampler.ZeroSkipNeverExits | src/main.rs:82-86 | With stride 0 and the offset inside the buffer, the loop condition never becomes false: the fuel-bounded run is `None` for every amount of fuel. |
| Sampler.RunLoopExact | src/main.rs:80-89 | The fuel-bounded loop finishes exactly when the fuel covers `Iterations` rounds, and then it returns `Picked`. Termination and the result are both characterised. |
| Sampler.WindowsAt | src/main.rs:81-86 | There is one window per round. Window `k` is taken at `Visited(offset, k, skip)`, the `k`-th index the loop visits, which is below `len`. |
| Sampler.PickedIsFlattenedWindows | src/main.rs:80-89 | The output is the concatenation of the windows in increasing index order. |
| Sampler.PickedLength | src/main.rs:83-85 | The output length is the sum, over the visited indices, of `min(offset+length, len-index) - min(offset, len-index)`. It is at most `Iterations * length`. |
| Sampler.StartPastEnd | src/main.rs:81-82 | A file offset at or past the end gives an empty output, whatever the stride (even 0). |
| Sampler.ZeroPickLength | src/main.rs:83-85 | A pick length of 0, as paired-mode padding produces, gives an empty output. |
| Sampler.OffsetPastEnd | src/main.rs:83-85 | A pick offset at or past the end of the buffer gives empty windows and an empty output, not an error. |
| Sampler.RegularStride | src/main.rs:81-87 | For a buffer exactly `n` strides long past the offset, with a window that fits in a stride: the output has `n*length` bytes, and byte `j` of stride `k` sits at output slot `Slot(k, j, length)` and equals `buf[Visited(index, k, skip) + offset + j]`. By `VisitedIs` and `SlotIs` these are `k*length + j` and `buf[index + k*skip + offset + j]`. |
| Sampler.RegularWindows | src/main.rs:83-85 | Under the same conditions there are `n` windows. Each is the unclipped slice of `length` bytes at its stride. |
| Sampler.FullWindow | src/main.rs:83-85 | A window that fits inside a stride which ends within the buffer is the unclipped slice `buf[index+offset .. index+offset+length]`. |
| Sampler.IterationsRegular | src/main.rs:82-86 | A buffer ending exactly `n` strides past the offset is visited exactly `n` times. |
| Sampler.VisitedIs | src/main.rs:81-86 | The `k`-th index the loop visits is `offset + k*skip`. |
| Sampler.SlotIs | src/main.rs:85 | When every window holds `length` bytes, byte `j` of the `k`-th window lands at output slot `k*length + j`. |
| Sampler.Sequential256 | src/main.rs:80-89 | The 256 bytes `0..255` with stride 4, offset 0 and length 2 give 128 bytes `[0,1,4,5,...,252,253]`: output byte `i` is `4*(i/2) + i%2`. |
| Sampler.MarkedTwentyBytes | src/main.rs:80-89 | Twenty zero bytes with `0xFF` at index 5, sampled from file offset 1 with stride 8, pick offset 2 and length 3, give the windows `[3,6)`, `[11,14)` and the clipped `[19,20)`: the output is `[0,0,0xFF,0,0,0,0]`, so the `0xFF` byte lands at output position 2, the third byte of the first window. |
| Enumeration.LengthsBlockAt | src/main.rs:188-204 | For one skip, the middle and inner loops visit `L*O` tuples, where `L` and `O` are the numbers of pick lengths and pick offsets. The one at place `j*O + k` is `(skip, offsets[k], lengths[j])`. |
| Enumeration.CombinationsAt | src/main.rs:186-205 | Combinatorial mode processes `S*L*O` tuples, for `S` skips, `L` pick lengths and `O` pick offsets. The tuple at place `(i*L + j)*O + k` is `(skips[i], offsets[k], lengths[j])`: skip outer, pick length middle, pick offset inner, each in input order. |
| Enumeration.CombinationsSkips | src/main.rs:187-191 | Every combinatorial tuple takes its skip from the skip list. |
| Enumeration.Max3 | src/main.rs:211-212 | `max_length` is at least each list length and equal to one of them. |
| Enumeration.Resize | src/main.rs:214-216 | `Vec::resize(n, 0)` gives length `n` and keeps the first `n` entries, or all of them when there are fewer. Every later entry is the fill value, never a repeat of the last entry. |
| Enumeration.Zip3At | src/main.rs:218-221 | Zipping three lists of equal length gives the tuples `(skips[i], offsets[i], lengths[i])` in order. |
| Enumeration.PairedAt | src/main.rs:207-222 | Paired mode processes as many tuples as the longest of the three lists has entries. Tuple `i` takes entry `i` of each list, and `0` where a list is shorter. |
| SweepEngine.StepOfSpec | src/main.rs:253-291 | `do_skip` never returns exactly when the sampler cannot leave its loop. Otherwise it classifies the sampled window, and the verdict is non-binary iff the format is not `ArbitraryBinaryData`. The tuple is reported unless "only" is on and the window is binary. It is exported iff it is reported and exporting is on. The call fails iff that export fails. |
| SweepEngine.DoSkip | src/main.rs:245-292 | The method computes `StepOf` by calling `SkipAndPick` and then making the decisions in the source's order. |
| SweepEngine.RunTuplesTrace | src/main.rs:184-237 | The sweep's trace holds the steps of the first tuples, in order. A completed sweep took every tuple. An aborted sweep stopped at the first tuple whose export failed, and a hung one at the first tuple whose sampler cannot leave; neither took any later tuple. `exists_non_bin` is the OR of the verdicts in the trace. |
| SweepEngine.RunFromStopped | src/main.rs:199-201 | Once an export error has returned from `main`, later tuples change nothing. |
| SweepEngine.RunFromAppend | src/main.rs:186-205 | Sweeping `a + b` is sweeping `a` and then continuing with `b`. The nested loops therefore compose. |
| SweepEngine.RunFromSnoc | src/main.rs:218-236 | Sweeping one more tuple is one more step of the loop body. |
| SweepEngine.NoHang | src/main.rs:82-86 | When every tuple has a positive stride (or the offset is at or past the end), the sweep never stops `Hung`. |
| SweepEngine.SweepCombinatorial | src/main.rs:186-205 | The nested loops give exactly the sweep over `Combinations`. |
| SweepEngine.SweepLengths | src/main.rs:188-204 | The middle loop for one skip continues the sweep over that skip's block of tuples. |
| SweepEngine.SweepOffsets | src/main.rs:189-203 | The inner loop for one skip and pick length continues the sweep over its row of tuples. It returns at the first export error. |
| SweepEngine.InnerDone | src/main.rs:199-201 | When an inner loop stops, the whole combinatorial sweep stops with the same state. |
| SweepEngine.SweepPaired | src/main.rs:207-237 | Copying, resizing and walking the lists in lock-step gives exactly the sweep over `Paired`. It returns at the first export error. |
| SweepEngine.MainOutcome | src/main.rs:156-241 | `main` rejects a zero skip first, then a zero pick length, then a missing export directory that cannot be created (each an iff). Otherwise it sweeps the tuples of the chosen mode. The summary line is printed iff the sweep completed, no tuple was non-binary and "only" is on. |
| SweepEngine.Run | src/main.rs:152-241 | The method computes `MainOutcome`. |
| SweepEngine.CompletedSweepCount | src/main.rs:186-237 | A completed sweep processed every tuple of its mode in order. That is the product of the three list lengths in combinatorial mode, and the longest list's length in paired mode. |
| SweepEngine.ValidatedSkipsNeverHang | src/main.rs:156-161 | After validation, combinatorial mode, or paired mode whose skip list is the longest, never stops `Hung`. |
| SweepEngine.PaddedSkipNeverFinishes | src/main.rs:211-216 | Validation runs before padding. So in paired mode with a skip list shorter than another list and the offset inside the file, the sweep never completes: it stops `Hung` at the first padded tuple unless an earlier export fails (an `Aborted` stop), and it prints no summary. |
| SweepEngine.PaddedSkipExample | src/main.rs:207-236 | `-s 4 -l 1 2` on a one-byte file passes validation, samples `(4, 0, 1)` and then stops `Hung` at the padded tuple `(0, 0, 2)`, whose sampler loop condition never becomes false. |
| SweepEngine.PaddedSkipAbortExample | src/main.rs:231-234 | The same arguments with exporting on, a recognised format and a failing export stop `Aborted` at `(4, 0, 1)`, before the padded tuple is reached, and print no summary. |
| SweepEngine.OnlyAllBinary | src/main.rs:239-241 | With "only" on, every window binary and no tuple able to stop `Hung`, nothing is reported or exported and the summary line is printed. |

## Left out

- Reading the input file (src/main.rs:141-150): the model starts from its bytes `buf`. The early return when the file cannot be opened and the panic when it cannot be read are not modelled.
- Command-line parsing and its defaults (src/main.rs:95-139): `Args` is given directly. The `print` flag and the output directory name, which only affect output, are not in it.
- `print_result` (src/main.rs:11-42) and every other line of terminal output, colours included. Its `termion::terminal_size().unwrap()` (src/main.rs:18) panics when standard output is not a terminal, which ends the run at the first reported tuple; that panic is not modelled. Only whether a tuple was reported (`Step.reported`) and whether the summary line was printed (`Outcome.summary`) are kept.
- The hex dump under the `print` flag (src/main.rs:272-274): not modelled. It panics whenever the sampled window is shorter than 32 bytes.
- `output_file` (src/main.rs:44-71), building the file name and writing it: reduced to the success oracle `exportOk` per tuple.
- Creating the export directory (src/main.rs:172-182): reduced to the boolean `dirOk`.
- `FileFormat::from_bytes` (src/main.rs:255) belongs to an external library: it is the parameter `classify`.
- `usize` arithmetic: the model uses unbounded `nat`. It does not model the overflow of `pick_length + pick_offset` or of `index + skip_num` for values near `usize::MAX`.
- SkipAndPick: requires a positive stride or a file offset at or past the end, because otherwise the source's loop condition never becomes false. That case is modelled by `RunLoop` with `ZeroSkipNeverExits`, and by `Diverges`/`Hung` in the sweep.
- A sampler loop whose condition never becomes false is modelled as a result value (`Diverges`, `Hung`). `Diverges` and `Hung` stand for both ways the process then ends: spinning forever when every window is empty, and aborting when `result` (src/main.rs:85) grows until allocation fails when a window is non-empty (the padded tuple `(0, 0, 2)` on a one-byte file copies one byte per round).
- The three nested `for` loops of combinatorial mode are three methods, each continuing the sweep it is handed. The early `return` from `main` becomes the stopped sweep passed back out.
