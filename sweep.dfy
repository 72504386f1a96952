/** The sweep engine of skiphead: `do_skip` samples one parameter tuple,
    classifies the window and reports or exports it; `main` validates the
    parameter lists, walks the tuples of the chosen mode, folds the per-tuple
    verdicts into `exists_non_bin` and prints the closing summary.

    The file-type classifier is the parameter `classify`; whether writing the
    export file for a tuple succeeds is the parameter `exportOk`; whether the
    export directory exists or can be created is the parameter `dirOk`. */
module SweepEngine {
  import opened Sampler
  import opened Enumeration

  /** The classifier's verdict as the sweep sees it: the binary-data sentinel
      or some recognised format. */
  datatype Format = ArbitraryBinaryData | Recognized(name: string)

  datatype ExportStatus = NotExported | Exported | ExportError

  /** What happened to one tuple: the window sampled, its format, the verdict
      `do_skip` returns, whether the tuple was reported and its export. */
  datatype Step = Step(tuple: Tuple, window: seq<byte>, format: Format, nonBinary: bool, reported: bool, exportStatus: ExportStatus)

  /** `do_skip` returns Ok(verdict) (Done), fails on export (ExportFailed), or
      never returns because the sampler's loop cannot leave (Diverges). */
  datatype StepResult = Done(step: Step) | ExportFailed(step: Step) | Diverges

  /** Everything one tuple's processing depends on besides the tuple. */
  datatype Context = Context(
    buf: seq<byte>,
    fileOffset: nat,
    only: bool,
    exportFile: bool,
    classify: seq<byte> -> Format,
    exportOk: Tuple -> bool)

  /** The outcome of `do_skip` for tuple `t`. */
  function StepOf(t: Tuple, c: Context): StepResult
  {
    if !Terminates(t.skip, c.fileOffset, |c.buf|) then Diverges
    else
      var window := Picked(c.buf, t.skip, t.pickOffset, t.pickLength, c.fileOffset);
      var format := c.classify(window);
      var nonBinary := !format.ArbitraryBinaryData?;
      if !nonBinary && c.only then Done(Step(t, window, format, false, false, NotExported))
      else if !c.exportFile then Done(Step(t, window, format, nonBinary, true, NotExported))
      else if c.exportOk(t) then Done(Step(t, window, format, nonBinary, true, Exported))
      else ExportFailed(Step(t, window, format, nonBinary, true, ExportError))
  }

  /** What `do_skip` decides for tuple `t`: it never returns when the sampler's
      loop cannot leave; otherwise it samples the window, classifies it, calls
      it non-binary exactly when the format is not the binary-data sentinel,
      reports unless "only" is on and the window is binary, exports exactly
      the reported windows when exporting is on, and fails exactly when such an
      export fails. */
  lemma StepOfSpec(t: Tuple, c: Context)
    ensures var r := StepOf(t, c);
            && (r.Diverges? <==> !Terminates(t.skip, c.fileOffset, |c.buf|))
            && (!r.Diverges? ==>
                  && r.step.tuple == t
                  && r.step.window == Picked(c.buf, t.skip, t.pickOffset, t.pickLength, c.fileOffset)
                  && r.step.format == c.classify(r.step.window)
                  && (r.step.nonBinary <==> !r.step.format.ArbitraryBinaryData?)
                  && (r.step.reported <==> r.step.nonBinary || !c.only)
                  && (r.step.exportStatus == NotExported <==> !r.step.reported || !c.exportFile)
                  && (r.step.exportStatus == ExportError <==> r.step.reported && c.exportFile && !c.exportOk(t)))
            && (r.ExportFailed? <==> !r.Diverges? && r.step.exportStatus == ExportError)
  {
  }

  /** `do_skip`. Where the sampler never leaves its loop (stride 0 with the
      file offset inside the buffer) it reports Diverges instead. */
  method DoSkip(t: Tuple, c: Context) returns (r: StepResult)
    ensures r == StepOf(t, c)
  {
    if !Terminates(t.skip, c.fileOffset, |c.buf|) {
      return Diverges;
    }
    var window := SkipAndPick(t.skip, t.pickOffset, t.pickLength, c.fileOffset, c.buf);
    var format := c.classify(window);
    var isNonBin := false;
    if format.ArbitraryBinaryData? {
      isNonBin := false;
      if c.only {
        return Done(Step(t, window, format, isNonBin, false, NotExported));
      }
    } else {
      isNonBin := true;
    }
    if c.exportFile {
      if c.exportOk(t) {
        return Done(Step(t, window, format, isNonBin, true, Exported));
      } else {
        return ExportFailed(Step(t, window, format, isNonBin, true, ExportError));
      }
    }
    return Done(Step(t, window, format, isNonBin, true, NotExported));
  }

  // ---------------------------------------------------------------------
  // Folding the tuples
  // ---------------------------------------------------------------------

  /** How a sweep ended: all tuples done, stopped by an export error, or
      stuck in the sampler's loop at some tuple. */
  datatype Stop = Completed | Aborted(failed: Step) | Hung(at: Tuple)

  /** The steps that returned Ok, the running `exists_non_bin`, and the end. */
  datatype Sweep = Sweep(trace: seq<Step>, existsNonBin: bool, stop: Stop)

  /** The sweep before any tuple. */
  const Start := Sweep([], false, Completed)

  /** One more tuple: a stopped sweep stays as it is; otherwise the tuple's
      step is recorded and OR-ed into the flag, or ends the sweep. */
  function Next(s: Sweep, t: Tuple, c: Context): Sweep {
    if !s.stop.Completed? then s
    else match StepOf(t, c)
      case Done(step) => Sweep(s.trace + [step], step.nonBinary || s.existsNonBin, Completed)
      case ExportFailed(step) => Sweep(s.trace, s.existsNonBin, Aborted(step))
      case Diverges => Sweep(s.trace, s.existsNonBin, Hung(t))
  }

  /** The sweep continued from `s` over `ts`, in order. */
  function RunFrom(s: Sweep, ts: seq<Tuple>, c: Context): Sweep {
    if ts == [] then s else Next(RunFrom(s, ts[..|ts| - 1], c), ts[|ts| - 1], c)
  }

  /** The sweep over `ts` in order: each tuple that returns Ok is recorded and
      OR-ed into the flag; the first that does not ends the sweep. */
  function RunTuples(ts: seq<Tuple>, c: Context): Sweep {
    RunFrom(Start, ts, c)
  }

  /** The trace holds the Ok steps of a prefix of the tuples, in order; a
      completed sweep took every tuple; a stopped one stopped at the tuple
      right after its trace and took none after it; the flag is the OR of the
      verdicts in the trace. */
  lemma {:induction false} RunTuplesTrace(ts: seq<Tuple>, c: Context)
    ensures var s := RunTuples(ts, c);
            && |s.trace| <= |ts|
            && (s.stop.Completed? ==> |s.trace| == |ts|)
            && (forall i :: 0 <= i < |s.trace| ==> StepOf(ts[i], c) == Done(s.trace[i]))
            && (s.stop.Aborted? ==> |s.trace| < |ts| && StepOf(ts[|s.trace|], c) == ExportFailed(s.stop.failed))
            && (s.stop.Hung? ==> |s.trace| < |ts| && s.stop.at == ts[|s.trace|] && StepOf(ts[|s.trace|], c) == Diverges)
            && (s.existsNonBin <==> exists i :: 0 <= i < |s.trace| && s.trace[i].nonBinary)
    decreases |ts|
  {
    if ts != [] {
      var front := ts[..|ts| - 1];
      RunTuplesTrace(front, c);
      var prev := RunTuples(front, c);
      var s := RunTuples(ts, c);
      forall i | 0 <= i < |prev.trace| ensures ts[i] == front[i] { }
      if prev.stop.Completed? && StepOf(ts[|ts| - 1], c).Done? {
        var step := StepOf(ts[|ts| - 1], c).step;
        assert s.trace == prev.trace + [step];
        if step.nonBinary {
          assert s.trace[|s.trace| - 1].nonBinary;
        }
        if prev.existsNonBin {
          var i :| 0 <= i < |prev.trace| && prev.trace[i].nonBinary;
          assert s.trace[i].nonBinary;
        }
      }
    }
  }

  /** Once a sweep has stopped, later tuples change nothing. */
  lemma {:induction false} RunFromStopped(s: Sweep, done: seq<Tuple>, ts: seq<Tuple>, c: Context)
    requires done <= ts
    requires !RunFrom(s, done, c).stop.Completed?
    ensures RunFrom(s, ts, c) == RunFrom(s, done, c)
    decreases |ts|
  {
    if |ts| > |done| {
      assert done <= ts[..|ts| - 1];
      RunFromStopped(s, done, ts[..|ts| - 1], c);
    } else {
      assert done == ts;
    }
  }

  /** Sweeping `a + b` is sweeping `a` and then continuing over `b`. */
  lemma {:induction false} RunFromAppend(s: Sweep, a: seq<Tuple>, b: seq<Tuple>, c: Context)
    ensures RunFrom(s, a + b, c) == RunFrom(RunFrom(s, a, c), b, c)
    decreases |b|
  {
    if b == [] {
      assert a + b == a;
    } else {
      var front := b[..|b| - 1];
      RunFromAppend(s, a, front, c);
      assert (a + b)[..|a + b| - 1] == a + front;
      assert (a + b)[|a + b| - 1] == b[|b| - 1];
    }
  }

  /** One more tuple at the end. */
  lemma RunFromSnoc(s: Sweep, done: seq<Tuple>, t: Tuple, c: Context)
    ensures RunFrom(s, done + [t], c) == Next(RunFrom(s, done, c), t, c)
  {
    assert (done + [t])[..|done|] == done;
  }

  /** When every tuple's stride is positive (or the file offset is at or past
      the end), the sweep never stops Hung. */
  lemma NoHang(ts: seq<Tuple>, c: Context)
    requires forall t :: t in ts ==> Terminates(t.skip, c.fileOffset, |c.buf|)
    ensures !RunTuples(ts, c).stop.Hung?
  {
    RunTuplesTrace(ts, c);
  }

  // ---------------------------------------------------------------------
  // The two sweep loops of main
  // ---------------------------------------------------------------------

  /** Combinatorial mode: skip outer, pick length middle, pick offset inner;
      an export error returns from main at once. Each level of the nested
      loop is a method of its own, handed the sweep so far. */
  method SweepCombinatorial(skipNums: seq<nat>, pickLengths: seq<nat>, pickOffsets: seq<nat>, c: Context)
    returns (s: Sweep)
    ensures s == RunTuples(Combinations(skipNums, pickLengths, pickOffsets), c)
  {
    var trace: seq<Step> := [];
    var existsNonBin := false;
    ghost var blocks := Blocks(skipNums, pickLengths, pickOffsets);
    for i := 0 to |skipNums|
      invariant RunFrom(Start, Concat(blocks, i), c) == Sweep(trace, existsNonBin, Completed)
    {
      var inner := SweepLengths(skipNums[i], pickLengths, pickOffsets, c, Sweep(trace, existsNonBin, Completed));
      ConcatStep(blocks, i);
      assert blocks[i] == LengthsBlock(skipNums[i], pickLengths, pickOffsets);
      InnerDone(Start, Concat(blocks, i), blocks[i], Concat(blocks, i + 1), Concat(blocks, |skipNums|), inner, c);
      if !inner.stop.Completed? {
        return inner;
      }
      trace, existsNonBin := inner.trace, inner.existsNonBin;
    }
    s := Sweep(trace, existsNonBin, Completed);
  }

  /** The middle loop of combinatorial mode, for one skip. */
  method SweepLengths(skipNum: nat, pickLengths: seq<nat>, pickOffsets: seq<nat>, c: Context, s0: Sweep)
    returns (s: Sweep)
    requires s0.stop.Completed?
    ensures s == RunFrom(s0, LengthsBlock(skipNum, pickLengths, pickOffsets), c)
  {
    var trace, existsNonBin := s0.trace, s0.existsNonBin;
    ghost var rows := Rows(skipNum, pickLengths, pickOffsets);
    for j := 0 to |pickLengths|
      invariant RunFrom(s0, Concat(rows, j), c) == Sweep(trace, existsNonBin, Completed)
    {
      var inner := SweepOffsets(skipNum, pickLengths[j], pickOffsets, c, Sweep(trace, existsNonBin, Completed));
      ConcatStep(rows, j);
      assert rows[j] == OffsetsRow(skipNum, pickLengths[j], pickOffsets);
      InnerDone(s0, Concat(rows, j), rows[j], Concat(rows, j + 1), Concat(rows, |pickLengths|), inner, c);
      if !inner.stop.Completed? {
        return inner;
      }
      trace, existsNonBin := inner.trace, inner.existsNonBin;
    }
    s := Sweep(trace, existsNonBin, Completed);
  }

  /** The inner loop of combinatorial mode, for one skip and one pick length. */
  method SweepOffsets(skipNum: nat, pickLength: nat, pickOffsets: seq<nat>, c: Context, s0: Sweep)
    returns (s: Sweep)
    requires s0.stop.Completed?
    ensures s == RunFrom(s0, OffsetsRow(skipNum, pickLength, pickOffsets), c)
  {
    var trace, existsNonBin := s0.trace, s0.existsNonBin;
    ghost var row := OffsetsRow(skipNum, pickLength, pickOffsets);
    assert row[..0] == [];
    for k := 0 to |pickOffsets|
      invariant RunFrom(s0, row[..k], c) == Sweep(trace, existsNonBin, Completed)
    {
      var t := Tuple(skipNum, pickOffsets[k], pickLength);
      var r := DoSkip(t, c);
      OffsetsRowStep(skipNum, pickLength, pickOffsets, k);
      RunFromSnoc(s0, row[..k], t, c);
      match r {
        case Done(step) =>
          trace := trace + [step];
          existsNonBin := step.nonBinary || existsNonBin;
        case ExportFailed(step) =>
          RunFromStopped(s0, row[..k + 1], row, c);
          return Sweep(trace, existsNonBin, Aborted(step));
        case Diverges =>
          RunFromStopped(s0, row[..k + 1], row, c);
          return Sweep(trace, existsNonBin, Hung(t));
      }
    }
    assert row[..|pickOffsets|] == row;
    s := Sweep(trace, existsNonBin, Completed);
  }

  /** After an inner loop has continued the sweep over `done` by `part`: the
      sweep so far covers `next`, and if it stopped it stays stopped over `whole`. */
  lemma InnerDone(s0: Sweep, done: seq<Tuple>, part: seq<Tuple>, next: seq<Tuple>, whole: seq<Tuple>,
                  inner: Sweep, c: Context)
    requires next == done + part && next <= whole
    requires inner == RunFrom(RunFrom(s0, done, c), part, c)
    ensures RunFrom(s0, next, c) == inner
    ensures !inner.stop.Completed? ==> RunFrom(s0, whole, c) == inner
  {
    RunFromAppend(s0, done, part, c);
    if !inner.stop.Completed? {
      RunFromStopped(s0, next, whole, c);
    }
  }

  /** Paired mode: copy the lists, resize them to the longest with 0, and walk
      them in lock-step; an export error returns from main at once. */
  method SweepPaired(skips: seq<nat>, lengths: seq<nat>, offsets: seq<nat>, c: Context)
    returns (s: Sweep)
    ensures s == RunTuples(Paired(skips, lengths, offsets), c)
  {
    var skipNums := skips;
    var pickLengths := lengths;
    var pickOffsets := offsets;
    var maxLength := Max3(|skipNums|, |pickLengths|, |pickOffsets|);
    skipNums := Resize(skipNums, maxLength, 0);
    pickLengths := Resize(pickLengths, maxLength, 0);
    pickOffsets := Resize(pickOffsets, maxLength, 0);
    ghost var tuples := Paired(skips, lengths, offsets);
    Zip3At(skipNums, pickOffsets, pickLengths);
    var trace: seq<Step> := [];
    var existsNonBin := false;
    for i := 0 to maxLength
      invariant RunTuples(tuples[..i], c) == Sweep(trace, existsNonBin, Completed)
    {
      var t := Tuple(skipNums[i], pickOffsets[i], pickLengths[i]);
      assert tuples[..i + 1][..i] == tuples[..i];
      assert tuples[..i + 1][i] == t;
      var r := DoSkip(t, c);
      match r {
        case Done(step) =>
          trace := trace + [step];
          existsNonBin := step.nonBinary || existsNonBin;
        case ExportFailed(step) =>
          s := Sweep(trace, existsNonBin, Aborted(step));
          RunFromStopped(Start, tuples[..i + 1], tuples, c);
          return;
        case Diverges =>
          s := Sweep(trace, existsNonBin, Hung(t));
          RunFromStopped(Start, tuples[..i + 1], tuples, c);
          return;
      }
    }
    assert tuples[..maxLength] == tuples;
    s := Sweep(trace, existsNonBin, Completed);
  }

  // ---------------------------------------------------------------------
  // main
  // ---------------------------------------------------------------------

  /** The parsed command line, without the flags that only affect output. */
  datatype Args = Args(
    skipNums: seq<nat>,
    pickLength: seq<nat>,
    pickOffset: seq<nat>,
    fileOffset: nat,
    combinate: bool,
    exportFile: bool,
    only: bool)

  /** How a run of main ends: one of its three early returns, or a sweep with
      the flag telling whether the closing summary line was printed. */
  datatype Outcome = SkipNotPositive | PickLengthNotPositive | DirectoryError | Swept(sweep: Sweep, summary: bool)

  /** `iter().all(|&e| e > 0)`. */
  predicate AllPositive(s: seq<nat>) {
    forall i :: 0 <= i < |s| ==> s[i] > 0
  }

  function ContextOf(args: Args, buf: seq<byte>, classify: seq<byte> -> Format, exportOk: Tuple -> bool): Context {
    Context(buf, args.fileOffset, args.only, args.exportFile, classify, exportOk)
  }

  /** The tuples of the mode the arguments select. */
  function Tuples(args: Args): seq<Tuple> {
    if args.combinate then Combinations(args.skipNums, args.pickLength, args.pickOffset)
    else Paired(args.skipNums, args.pickLength, args.pickOffset)
  }

  /** What main does with a file's bytes: validation first (skips, then pick
      lengths), then the export directory, then the sweep and its summary. */
  function MainOutcome(args: Args, buf: seq<byte>, dirOk: bool, classify: seq<byte> -> Format, exportOk: Tuple -> bool)
    : (r: Outcome)
    ensures r.SkipNotPositive? <==> exists i :: 0 <= i < |args.skipNums| && args.skipNums[i] == 0
    ensures r.PickLengthNotPositive? <==>
              AllPositive(args.skipNums) && exists i :: 0 <= i < |args.pickLength| && args.pickLength[i] == 0
    ensures r.DirectoryError? <==>
              AllPositive(args.skipNums) && AllPositive(args.pickLength) && args.exportFile && !dirOk
    ensures r.Swept? ==> r.sweep == RunTuples(Tuples(args), ContextOf(args, buf, classify, exportOk))
    ensures r.Swept? ==> (r.summary <==> r.sweep.stop.Completed? && !r.sweep.existsNonBin && args.only)
  {
    if !AllPositive(args.skipNums) then SkipNotPositive
    else if !AllPositive(args.pickLength) then PickLengthNotPositive
    else if args.exportFile && !dirOk then DirectoryError
    else
      var s := RunTuples(Tuples(args), ContextOf(args, buf, classify, exportOk));
      Swept(s, s.stop.Completed? && !s.existsNonBin && args.only)
  }

  /** The body of main after the file has been read. */
  method Run(args: Args, buf: seq<byte>, dirOk: bool, classify: seq<byte> -> Format, exportOk: Tuple -> bool)
    returns (r: Outcome)
    ensures r == MainOutcome(args, buf, dirOk, classify, exportOk)
  {
    if !AllPositive(args.skipNums) {
      return SkipNotPositive;
    }
    if !AllPositive(args.pickLength) {
      return PickLengthNotPositive;
    }
    if args.exportFile && !dirOk {
      return DirectoryError;
    }
    var c := ContextOf(args, buf, classify, exportOk);
    var s;
    if args.combinate {
      s := SweepCombinatorial(args.skipNums, args.pickLength, args.pickOffset, c);
    } else {
      s := SweepPaired(args.skipNums, args.pickLength, args.pickOffset, c);
    }
    r := Swept(s, s.stop.Completed? && !s.existsNonBin && args.only);
  }

  // ---------------------------------------------------------------------
  // Properties of a run
  // ---------------------------------------------------------------------

  /** A completed sweep processed every tuple of its mode, in order:
      |skips| * |lengths| * |offsets| of them in combinatorial mode and the
      length of the longest list in paired mode. */
  lemma CompletedSweepCount(args: Args, buf: seq<byte>, dirOk: bool, classify: seq<byte> -> Format, exportOk: Tuple -> bool)
    requires MainOutcome(args, buf, dirOk, classify, exportOk).Swept?
    requires MainOutcome(args, buf, dirOk, classify, exportOk).sweep.stop.Completed?
    ensures var trace := MainOutcome(args, buf, dirOk, classify, exportOk).sweep.trace;
            && |trace| == |Tuples(args)|
            && |trace| == (if args.combinate then |args.skipNums| * (|args.pickLength| * |args.pickOffset|)
                           else Max3(|args.skipNums|, |args.pickLength|, |args.pickOffset|))
            && forall i :: 0 <= i < |trace| ==> trace[i].tuple == Tuples(args)[i]
  {
    RunTuplesTrace(Tuples(args), ContextOf(args, buf, classify, exportOk));
    CombinationsAt(args.skipNums, args.pickLength, args.pickOffset);
    PairedAt(args.skipNums, args.pickLength, args.pickOffset);
  }

  /** When no tuple's stride can be 0 — combinatorial mode, or paired mode
      with the skip list the longest — a validated run never gets stuck. */
  lemma ValidatedSkipsNeverHang(args: Args, buf: seq<byte>, dirOk: bool, classify: seq<byte> -> Format, exportOk: Tuple -> bool)
    requires MainOutcome(args, buf, dirOk, classify, exportOk).Swept?
    requires args.combinate || |args.skipNums| == Max3(|args.skipNums|, |args.pickLength|, |args.pickOffset|)
    ensures !MainOutcome(args, buf, dirOk, classify, exportOk).sweep.stop.Hung?
  {
    var c := ContextOf(args, buf, classify, exportOk);
    var ts := Tuples(args);
    forall t | t in ts ensures Terminates(t.skip, c.fileOffset, |c.buf|) {
      if args.combinate {
        CombinationsSkips(args.skipNums, args.pickLength, args.pickOffset);
        var i :| 0 <= i < |args.skipNums| && args.skipNums[i] == t.skip;
      } else {
        PairedAt(args.skipNums, args.pickLength, args.pickOffset);
        var i :| 0 <= i < |ts| && ts[i] == t;
      }
    }
    NoHang(ts, c);
  }

  /** Validation runs before padding: in paired mode a skip list shorter than
      another list gets stride 0 at its first padded place, and with the file
      offset inside the buffer the sweep never completes: it stops Hung at the
      first padded tuple unless an earlier export fails, and no summary is
      printed. */
  lemma PaddedSkipNeverFinishes(args: Args, buf: seq<byte>, dirOk: bool, classify: seq<byte> -> Format, exportOk: Tuple -> bool)
    requires MainOutcome(args, buf, dirOk, classify, exportOk).Swept?
    requires !args.combinate
    requires |args.skipNums| < Max3(|args.skipNums|, |args.pickLength|, |args.pickOffset|)
    requires args.fileOffset < |buf|
    ensures !MainOutcome(args, buf, dirOk, classify, exportOk).sweep.stop.Completed?
    ensures !MainOutcome(args, buf, dirOk, classify, exportOk).summary
  {
    var c := ContextOf(args, buf, classify, exportOk);
    var ts := Tuples(args);
    var n := |args.skipNums|;
    PairedAt(args.skipNums, args.pickLength, args.pickOffset);
    assert ts[n].skip == 0;
    assert StepOf(ts[n], c).Diverges?;
    assert ts[..n + 1][..n] == ts[..n];
    assert !RunTuples(ts[..n + 1], c).stop.Completed?;
    RunFromStopped(Start, ts[..n + 1], ts, c);
  }

  /** `-s 4 -l 1 2` on a one-byte file passes validation, samples (4, 0, 1),
      and then stops Hung at the padded tuple (0, 0, 2), whose sampler loop
      condition never becomes false. */
  lemma PaddedSkipExample(classify: seq<byte> -> Format, exportOk: Tuple -> bool)
    ensures var args := Args([4], [1, 2], [0], 0, false, false, false);
            var o := MainOutcome(args, [0x7F], true, classify, exportOk);
            o.Swept? && |o.sweep.trace| == 1 && o.sweep.stop == Hung(Tuple(0, 0, 2))
  {
    var args := Args([4], [1, 2], [0], 0, false, false, false);
    var c := ContextOf(args, [0x7F], classify, exportOk);
    var ts := Tuples(args);
    PairedAt(args.skipNums, args.pickLength, args.pickOffset);
    assert ts == [Tuple(4, 0, 1), Tuple(0, 0, 2)];
    assert ts[..1] == [Tuple(4, 0, 1)];
    assert ts[..1][..0] == [];
    assert StepOf(Tuple(4, 0, 1), c).Done?;
    assert ts[..1][0] == Tuple(4, 0, 1);
    assert RunTuples(ts[..1][..0], c) == Sweep([], false, Completed);
    var first := RunTuples(ts[..1], c);
    assert first.stop.Completed? && |first.trace| == 1;
    assert StepOf(Tuple(0, 0, 2), c).Diverges?;
    assert RunTuples(ts, c) == Sweep(first.trace, first.existsNonBin, Hung(Tuple(0, 0, 2)));
  }

  /** The same arguments with exporting on: when the first export fails, main
      returns at (4, 0, 1) and never reaches the padded tuple. */
  lemma PaddedSkipAbortExample()
    ensures var args := Args([4], [1, 2], [0], 0, false, true, false);
            var o := MainOutcome(args, [0x7F], true, _ => Recognized("text"), _ => false);
            o.Swept? && o.sweep.trace == [] && o.sweep.stop.Aborted? &&
            o.sweep.stop.failed.tuple == Tuple(4, 0, 1) && !o.summary
  {
    var args := Args([4], [1, 2], [0], 0, false, true, false);
    var c := ContextOf(args, [0x7F], _ => Recognized("text"), _ => false);
    var ts := Tuples(args);
    PairedAt(args.skipNums, args.pickLength, args.pickOffset);
    assert ts == [Tuple(4, 0, 1), Tuple(0, 0, 2)];
    assert ts[..1] == [Tuple(4, 0, 1)];
    assert ts[..1][..0] == [];
    assert ts[..1][0] == Tuple(4, 0, 1);
    assert StepOf(Tuple(4, 0, 1), c).ExportFailed?;
    assert RunTuples(ts[..1][..0], c) == Sweep([], false, Completed);
    assert RunTuples(ts[..1], c).stop.Aborted?;
    RunFromStopped(Start, ts[..1], ts, c);
  }

  /** With "only" on and every window classified as binary data, nothing is
      reported or exported, the flag stays false, and the summary line is
      printed — provided no tuple can get stuck. */
  lemma OnlyAllBinary(args: Args, buf: seq<byte>, dirOk: bool, classify: seq<byte> -> Format, exportOk: Tuple -> bool)
    requires MainOutcome(args, buf, dirOk, classify, exportOk).Swept?
    requires args.only
    requires forall w :: classify(w) == ArbitraryBinaryData
    requires args.combinate || |args.skipNums| == Max3(|args.skipNums|, |args.pickLength|, |args.pickOffset|)
    ensures MainOutcome(args, buf, dirOk, classify, exportOk).summary
    ensures forall step :: step in MainOutcome(args, buf, dirOk, classify, exportOk).sweep.trace ==>
              !step.reported && step.exportStatus == NotExported
  {
    var c := ContextOf(args, buf, classify, exportOk);
    var ts := Tuples(args);
    var s := RunTuples(ts, c);
    ValidatedSkipsNeverHang(args, buf, dirOk, classify, exportOk);
    RunTuplesTrace(ts, c);
    forall step | step in s.trace ensures !step.reported && step.exportStatus == NotExported && !step.nonBinary {
      var i :| 0 <= i < |s.trace| && s.trace[i] == step;
      assert StepOf(ts[i], c) == Done(step);
    }
  }
}
