/** The strided window sampler of skiphead (`skiped_and_picked_file_buf`).
    Starting at the file offset, it visits every `skip`-th position of the
    buffer and keeps, from each visited position, the bytes between
    `pickOffset` and `pickOffset + pickLength`, clipped to the end of the
    buffer. */
module Sampler {

  newtype byte = b: int | 0 <= b < 256

  datatype Option<T> = None | Some(value: T)

  function Min(a: int, b: int): int { if a <= b then a else b }

  /** The loop of the sampler leaves as soon as the index reaches the end of
      the buffer; it can only get there when the stride is positive or when
      it starts at or past the end already. */
  predicate Terminates(skip: nat, start: nat, len: nat) {
    skip > 0 || start >= len
  }

  /** The half-open range [start, end) copied at `index`: the window is clipped
      to the buffer, so it never reads outside it, and it is empty when the
      pick offset lies past the end. */
  function WindowBounds(len: nat, index: nat, pickOffset: nat, pickLength: nat): (r: (nat, nat))
    requires index < len
    ensures index <= r.0 <= r.1 <= len
    ensures pickOffset + pickLength <= len - index ==> r == (index + pickOffset, index + pickOffset + pickLength)
    ensures pickOffset < len - index < pickOffset + pickLength ==> r == (index + pickOffset, len)
    ensures len - index <= pickOffset ==> r.0 == r.1 == len
  {
    (index + Min(pickOffset, len - index), index + Min(pickLength + pickOffset, len - index))
  }

  function Window(buf: seq<byte>, index: nat, pickOffset: nat, pickLength: nat): seq<byte>
    requires index < |buf|
  {
    var (start, end) := WindowBounds(|buf|, index, pickOffset, pickLength);
    buf[start..end]
  }

  /** The sampler's output from `index` on: the window at `index` followed by
      the output from `index + skip`. */
  function Picked(buf: seq<byte>, skip: nat, pickOffset: nat, pickLength: nat, index: nat): seq<byte>
    requires Terminates(skip, index, |buf|)
    decreases |buf| - index
  {
    if index < |buf| then
      Window(buf, index, pickOffset, pickLength) + Picked(buf, skip, pickOffset, pickLength, index + skip)
    else
      []
  }

  /** The number of times the sampler's loop body runs. */
  function Iterations(len: nat, skip: nat, index: nat): nat
    requires Terminates(skip, index, len)
    decreases len - index
  {
    if index < len then 1 + Iterations(len, skip, index + skip) else 0
  }

  /** The windows in the order the loop takes them. */
  function Windows(buf: seq<byte>, skip: nat, pickOffset: nat, pickLength: nat, index: nat): seq<seq<byte>>
    requires Terminates(skip, index, |buf|)
    decreases |buf| - index
  {
    if index < |buf| then
      [Window(buf, index, pickOffset, pickLength)] + Windows(buf, skip, pickOffset, pickLength, index + skip)
    else
      []
  }

  function Flatten(ws: seq<seq<byte>>): seq<byte> {
    if ws == [] then [] else ws[0] + Flatten(ws[1..])
  }

  /** The k-th index the loop visits from `index`. */
  function Visited(index: nat, k: nat, skip: nat): nat
    decreases k
  {
    if k == 0 then index else Visited(index + skip, k - 1, skip)
  }

  /** Position `j` of the `k`-th group of `size` consecutive positions. */
  function Slot(k: nat, j: nat, size: nat): nat {
    if k == 0 then j else size + Slot(k - 1, j, size)
  }

  /** The length of the window at `index`, from the clipping formula alone. */
  function WindowLength(len: nat, index: nat, pickOffset: nat, pickLength: nat): int {
    Min(pickOffset + pickLength, len - index) - Min(pickOffset, len - index)
  }

  /** The sum of the window lengths over the visited indices; it depends only
      on the length of the buffer, never on its contents. */
  function TotalLength(len: nat, skip: nat, pickOffset: nat, pickLength: nat, index: nat): int
    requires Terminates(skip, index, len)
    decreases len - index
  {
    if index < len then
      WindowLength(len, index, pickOffset, pickLength) + TotalLength(len, skip, pickOffset, pickLength, index + skip)
    else
      0
  }

  /** The sampler's while loop run for at most `fuel` iterations, for every
      stride including 0: None when the loop has not left by then. */
  function RunLoop(buf: seq<byte>, skip: nat, pickOffset: nat, pickLength: nat, index: nat, fuel: nat): Option<seq<byte>>
    decreases fuel
  {
    if index >= |buf| then Some([])
    else if fuel == 0 then None
    else match RunLoop(buf, skip, pickOffset, pickLength, index + skip, fuel - 1)
      case None => None
      case Some(rest) => Some(Window(buf, index, pickOffset, pickLength) + rest)
  }

  /** `skiped_and_picked_file_buf`: grows the result window by window while
      the index stays inside the buffer. */
  method SkipAndPick(skipNum: nat, pickOffset: nat, pickLength: nat, fileOffset: nat, buf: seq<byte>)
    returns (result: seq<byte>)
    requires Terminates(skipNum, fileOffset, |buf|)
    ensures result == Picked(buf, skipNum, pickOffset, pickLength, fileOffset)
  {
    result := [];
    var index := fileOffset;
    while index < |buf|
      invariant Terminates(skipNum, index, |buf|)
      invariant result + Picked(buf, skipNum, pickOffset, pickLength, index)
             == Picked(buf, skipNum, pickOffset, pickLength, fileOffset)
      decreases |buf| - index
    {
      var endIndex := index + Min(pickLength + pickOffset, |buf| - index);
      var startIndex := index + Min(pickOffset, |buf| - index);
      PickedStep(buf, skipNum, pickOffset, pickLength, index, result, fileOffset);
      result := result + buf[startIndex..endIndex];
      index := index + skipNum;
    }
  }

  /** One round of the loop, with the bounds written as the loop computes
      them: appending the window to `result` keeps the invariant. */
  lemma PickedStep(buf: seq<byte>, skip: nat, pickOffset: nat, pickLength: nat, index: nat,
                   result: seq<byte>, fileOffset: nat)
    requires Terminates(skip, index, |buf|) && index < |buf| && Terminates(skip, fileOffset, |buf|)
    requires result + Picked(buf, skip, pickOffset, pickLength, index) == Picked(buf, skip, pickOffset, pickLength, fileOffset)
    ensures var w := buf[index + Min(pickOffset, |buf| - index)..index + Min(pickLength + pickOffset, |buf| - index)];
            (result + w) + Picked(buf, skip, pickOffset, pickLength, index + skip)
              == Picked(buf, skip, pickOffset, pickLength, fileOffset)
  {
    var w := buf[index + Min(pickOffset, |buf| - index)..index + Min(pickLength + pickOffset, |buf| - index)];
    var rest := Picked(buf, skip, pickOffset, pickLength, index + skip);
    assert Picked(buf, skip, pickOffset, pickLength, index) == w + rest;
    assert result + (w + rest) == (result + w) + rest;
  }

  // ---------------------------------------------------------------------
  // Termination and the number of iterations
  // ---------------------------------------------------------------------

  /** With a positive stride the loop body runs ceil((len - index) / skip)
      times, that is the n with (n - 1) * skip < len - index <= n * skip, and
      not at all when the start is past the end. */
  lemma {:induction false} IterationsCount(len: nat, skip: nat, index: nat)
    requires Terminates(skip, index, len)
    ensures index >= len ==> Iterations(len, skip, index) == 0
    ensures index < len ==> var n := Iterations(len, skip, index);
              n >= 1 && (n - 1) * skip < len - index <= n * skip
    decreases len - index
  {
    if index < len {
      IterationsCount(len, skip, index + skip);
      var m := Iterations(len, skip, index + skip);
      assert (m + 1) * skip == m * skip + skip;
      if m > 0 {
        assert m * skip == (m - 1) * skip + skip;
      }
    }
  }

  /** With stride 0 and a start inside the buffer the index never moves, so no
      amount of fuel lets the loop leave. */
  lemma {:induction false} ZeroSkipNeverExits(buf: seq<byte>, pickOffset: nat, pickLength: nat, index: nat, fuel: nat)
    requires index < |buf|
    ensures RunLoop(buf, 0, pickOffset, pickLength, index, fuel) == None
    decreases fuel
  {
    if fuel > 0 {
      ZeroSkipNeverExits(buf, pickOffset, pickLength, index, fuel - 1);
    }
  }

  /** When the loop terminates it leaves after exactly `Iterations` rounds,
      and what it has built then is `Picked`. */
  lemma {:induction false} RunLoopExact(buf: seq<byte>, skip: nat, pickOffset: nat, pickLength: nat, index: nat, fuel: nat)
    requires Terminates(skip, index, |buf|)
    ensures RunLoop(buf, skip, pickOffset, pickLength, index, fuel).Some? <==> fuel >= Iterations(|buf|, skip, index)
    ensures RunLoop(buf, skip, pickOffset, pickLength, index, fuel).Some? ==>
              RunLoop(buf, skip, pickOffset, pickLength, index, fuel).value == Picked(buf, skip, pickOffset, pickLength, index)
    decreases fuel
  {
    if index < |buf| && fuel > 0 {
      RunLoopExact(buf, skip, pickOffset, pickLength, index + skip, fuel - 1);
    }
  }

  // ---------------------------------------------------------------------
  // Shape and length of the output
  // ---------------------------------------------------------------------

  /** The k-th window the loop takes is the one at `index + k * skip`, which
      lies inside the buffer; there are `Iterations` of them. */
  lemma {:induction false} WindowsAt(buf: seq<byte>, skip: nat, pickOffset: nat, pickLength: nat, index: nat)
    requires Terminates(skip, index, |buf|)
    ensures |Windows(buf, skip, pickOffset, pickLength, index)| == Iterations(|buf|, skip, index)
    ensures forall k :: 0 <= k < |Windows(buf, skip, pickOffset, pickLength, index)| ==>
              Visited(index, k, skip) < |buf| &&
              Windows(buf, skip, pickOffset, pickLength, index)[k] == Window(buf, Visited(index, k, skip), pickOffset, pickLength)
    decreases |buf| - index
  {
    if index < |buf| {
      WindowsAt(buf, skip, pickOffset, pickLength, index + skip);
      var ws := Windows(buf, skip, pickOffset, pickLength, index);
      var rest := Windows(buf, skip, pickOffset, pickLength, index + skip);
      forall k | 0 <= k < |ws|
        ensures Visited(index, k, skip) < |buf| && ws[k] == Window(buf, Visited(index, k, skip), pickOffset, pickLength)
      {
        if k > 0 {
          assert ws[k] == rest[k - 1];
        }
      }
    }
  }

  /** The output is the concatenation of the windows in increasing index order. */
  lemma {:induction false} PickedIsFlattenedWindows(buf: seq<byte>, skip: nat, pickOffset: nat, pickLength: nat, index: nat)
    requires Terminates(skip, index, |buf|)
    ensures Picked(buf, skip, pickOffset, pickLength, index) == Flatten(Windows(buf, skip, pickOffset, pickLength, index))
    decreases |buf| - index
  {
    if index < |buf| {
      PickedIsFlattenedWindows(buf, skip, pickOffset, pickLength, index + skip);
      FlattenCons(Window(buf, index, pickOffset, pickLength), Windows(buf, skip, pickOffset, pickLength, index + skip));
    }
  }

  lemma FlattenCons(w: seq<byte>, rest: seq<seq<byte>>)
    ensures Flatten([w] + rest) == w + Flatten(rest)
  {
    assert ([w] + rest)[1..] == rest;
  }

  /** The output length is the sum of the clipped window lengths, each of
      which is non-negative and at most `pickLength`. */
  lemma {:induction false} PickedLength(buf: seq<byte>, skip: nat, pickOffset: nat, pickLength: nat, index: nat)
    requires Terminates(skip, index, |buf|)
    ensures |Picked(buf, skip, pickOffset, pickLength, index)| == TotalLength(|buf|, skip, pickOffset, pickLength, index)
    ensures |Picked(buf, skip, pickOffset, pickLength, index)| <= Iterations(|buf|, skip, index) * pickLength
    decreases |buf| - index
  {
    if index < |buf| {
      PickedLength(buf, skip, pickOffset, pickLength, index + skip);
      var n := Iterations(|buf|, skip, index + skip);
      assert (n + 1) * pickLength == n * pickLength + pickLength;
    }
  }

  // ---------------------------------------------------------------------
  // Empty outputs
  // ---------------------------------------------------------------------

  /** A start at or past the end of the buffer gives nothing, whatever the stride. */
  lemma StartPastEnd(buf: seq<byte>, skip: nat, pickOffset: nat, pickLength: nat, fileOffset: nat)
    requires fileOffset >= |buf|
    ensures Terminates(skip, fileOffset, |buf|)
    ensures Picked(buf, skip, pickOffset, pickLength, fileOffset) == []
  {
  }

  /** A pick length of 0 (what zero padding produces) gives an empty window
      everywhere, hence an empty output. */
  lemma {:induction false} ZeroPickLength(buf: seq<byte>, skip: nat, pickOffset: nat, index: nat)
    requires Terminates(skip, index, |buf|)
    ensures Picked(buf, skip, pickOffset, 0, index) == []
    decreases |buf| - index
  {
    if index < |buf| {
      ZeroPickLength(buf, skip, pickOffset, index + skip);
    }
  }

  /** A pick offset at or past the end of the buffer gives an empty output
      rather than an error. */
  lemma {:induction false} OffsetPastEnd(buf: seq<byte>, skip: nat, pickOffset: nat, pickLength: nat, index: nat)
    requires Terminates(skip, index, |buf|)
    requires pickOffset >= |buf|
    ensures Picked(buf, skip, pickOffset, pickLength, index) == []
    decreases |buf| - index
  {
    if index < |buf| {
      OffsetPastEnd(buf, skip, pickOffset, pickLength, index + skip);
    }
  }

  // ---------------------------------------------------------------------
  // Regular strides
  // ---------------------------------------------------------------------

  /** When the remaining buffer is exactly `n` strides long and every window
      fits in its stride, the output holds `pickLength` bytes per stride: byte
      `j` of stride `k` is the buffer byte at `index + k * skip + pickOffset + j`. */
  lemma RegularStride(buf: seq<byte>, skip: nat, pickOffset: nat, pickLength: nat, index: nat, n: nat)
    requires skip > 0 && pickOffset + pickLength <= skip
    requires |buf| == index + n * skip
    ensures |Picked(buf, skip, pickOffset, pickLength, index)| == n * pickLength
    ensures forall k, j :: 0 <= k < n && 0 <= j < pickLength ==>
              Slot(k, j, pickLength) < |Picked(buf, skip, pickOffset, pickLength, index)| &&
              Visited(index, k, skip) + pickOffset + j < |buf| &&
              Picked(buf, skip, pickOffset, pickLength, index)[Slot(k, j, pickLength)]
                == buf[Visited(index, k, skip) + pickOffset + j]
  {
    VisitedIs(index, n, skip);
    var ws := Windows(buf, skip, pickOffset, pickLength, index);
    RegularWindows(buf, skip, pickOffset, pickLength, index, n);
    PickedIsFlattenedWindows(buf, skip, pickOffset, pickLength, index);
    FlattenLength(ws, pickLength);
    forall k, j | 0 <= k < n && 0 <= j < pickLength
      ensures Slot(k, j, pickLength) < |Picked(buf, skip, pickOffset, pickLength, index)| &&
              Visited(index, k, skip) + pickOffset + j < |buf| &&
              Picked(buf, skip, pickOffset, pickLength, index)[Slot(k, j, pickLength)]
                == buf[Visited(index, k, skip) + pickOffset + j]
    {
      FlattenRegular(ws, pickLength, buf, k, j, Visited(index, k, skip) + pickOffset);
    }
  }

  /** The windows of a buffer exactly `n` strides long: `n` of them, each a
      whole stride before the end and unclipped. */
  lemma RegularWindows(buf: seq<byte>, skip: nat, pickOffset: nat, pickLength: nat, index: nat, n: nat)
    requires skip > 0 && pickOffset + pickLength <= skip
    requires |buf| == Visited(index, n, skip)
    ensures |Windows(buf, skip, pickOffset, pickLength, index)| == n
    ensures forall k :: 0 <= k < n ==> |Windows(buf, skip, pickOffset, pickLength, index)[k]| == pickLength
    ensures forall k :: 0 <= k < n ==>
              Visited(index, k, skip) + skip <= |buf| &&
              Windows(buf, skip, pickOffset, pickLength, index)[k]
                == buf[Visited(index, k, skip) + pickOffset..Visited(index, k, skip) + pickOffset + pickLength]
  {
    WindowsAt(buf, skip, pickOffset, pickLength, index);
    IterationsRegular(index, n, skip);
    forall k | 0 <= k < n
      ensures |Windows(buf, skip, pickOffset, pickLength, index)[k]| == pickLength
      ensures Visited(index, k, skip) + skip <= |buf| &&
              Windows(buf, skip, pickOffset, pickLength, index)[k]
                == buf[Visited(index, k, skip) + pickOffset..Visited(index, k, skip) + pickOffset + pickLength]
    {
      VisitedBelow(index, k, n, skip);
      FullWindow(buf, Visited(index, k, skip), skip, pickOffset, pickLength);
    }
  }

  /** Pieces of `m` bytes, piece `k` being the `m` buffer bytes from `v`:
      slot `j` of group `k` of the flattening is buffer byte `v + j`. */
  lemma FlattenRegular(ws: seq<seq<byte>>, m: nat, buf: seq<byte>, k: nat, j: nat, v: nat)
    requires forall i :: 0 <= i < |ws| ==> |ws[i]| == m
    requires k < |ws| && j < m
    requires v + m <= |buf| && ws[k] == buf[v..v + m]
    ensures Slot(k, j, m) < |Flatten(ws)| && v + j < |buf| && Flatten(ws)[Slot(k, j, m)] == buf[v + j]
  {
    FlattenPoint(ws, m, k, j);
  }

  /** A window a whole stride away from the end is not clipped. */
  lemma FullWindow(buf: seq<byte>, index: nat, skip: nat, pickOffset: nat, pickLength: nat)
    requires skip > 0 && pickOffset + pickLength <= skip && index + skip <= |buf|
    ensures Window(buf, index, pickOffset, pickLength) == buf[index + pickOffset..index + pickOffset + pickLength]
  {
  }

  /** A buffer exactly `n` strides long is visited `n` times. */
  lemma {:induction false} IterationsRegular(index: nat, n: nat, skip: nat)
    requires skip > 0
    ensures Iterations(Visited(index, n, skip), skip, index) == n
    decreases n
  {
    if n > 0 {
      VisitedFrom(index + skip, n - 1, skip);
      IterationsRegular(index + skip, n - 1, skip);
    }
  }

  /** Each of the first `n` visits is a whole stride before visit `n`. */
  lemma {:induction false} VisitedBelow(index: nat, k: nat, n: nat, skip: nat)
    requires k < n
    ensures Visited(index, k, skip) + skip <= Visited(index, n, skip)
    decreases k
  {
    if k > 0 {
      VisitedBelow(index + skip, k - 1, n - 1, skip);
    } else {
      VisitedFrom(index + skip, n - 1, skip);
    }
  }

  /** Pieces of `m` bytes each flatten to `|ws| * m` bytes. */
  lemma {:induction false} FlattenLength(ws: seq<seq<byte>>, m: nat)
    requires forall i :: 0 <= i < |ws| ==> |ws[i]| == m
    ensures |Flatten(ws)| == |ws| * m
    decreases |ws|
  {
    if ws != [] {
      FlattenLength(ws[1..], m);
      MulPred(|ws|, m);
    }
  }

  /** Byte `j` of piece `k` lands in slot `j` of group `k`. */
  lemma {:induction false} FlattenPoint(ws: seq<seq<byte>>, m: nat, k: nat, j: nat)
    requires forall i :: 0 <= i < |ws| ==> |ws[i]| == m
    requires k < |ws| && j < m
    ensures Slot(k, j, m) < |Flatten(ws)| && Flatten(ws)[Slot(k, j, m)] == ws[k][j]
    decreases k
  {
    if k > 0 {
      FlattenPoint(ws[1..], m, k - 1, j);
    }
  }

  lemma {:induction false} VisitedFrom(index: nat, k: nat, skip: nat)
    ensures Visited(index, k, skip) >= index
    decreases k
  {
    if k > 0 {
      VisitedFrom(index + skip, k - 1, skip);
    }
  }

  /** The k-th visited index is `index + k * skip`. */
  lemma {:induction false} VisitedIs(index: nat, k: nat, skip: nat)
    ensures Visited(index, k, skip) == index + k * skip
    decreases k
  {
    if k > 0 {
      VisitedIs(index + skip, k - 1, skip);
      MulPred(k, skip);
    }
  }

  /** Slot `j` of group `k` is position `k * size + j`. */
  lemma {:induction false} SlotIs(k: nat, j: nat, size: nat)
    ensures Slot(k, j, size) == k * size + j
    decreases k
  {
    if k > 0 {
      SlotIs(k - 1, j, size);
      MulPred(k, size);
    }
  }

  lemma MulPred(n: nat, x: nat)
    requires n > 0
    ensures n * x == x + (n - 1) * x
  {
  }

  /** Stride 4, offset 0, length 2 over the bytes 0..255 keeps bytes
      0, 1, 4, 5, ..., 252, 253: 128 of them, output byte i being the input
      byte 4 * (i / 2) + i % 2. */
  lemma Sequential256()
    ensures var buf := seq(256, i requires 0 <= i < 256 => i as byte);
            var out := Picked(buf, 4, 0, 2, 0);
            |out| == 128 &&
            forall i :: 0 <= i < 128 ==> out[i] == (4 * (i / 2) + i % 2) as byte
  {
    var buf := seq(256, i requires 0 <= i < 256 => i as byte);
    RegularStride(buf, 4, 0, 2, 0, 64);
    var out := Picked(buf, 4, 0, 2, 0);
    forall i | 0 <= i < 128
      ensures out[i] == (4 * (i / 2) + i % 2) as byte
    {
      VisitedIs(0, i / 2, 4);
      SlotIs(i / 2, i % 2, 2);
    }
  }

  /** Stride 8, offset 2, length 3 from offset 1 over twenty zero bytes whose
      byte 5 is 0xFF: the windows are [3, 6), [11, 14) and the clipped [19, 20). */
  lemma MarkedTwentyBytes()
    ensures var buf := seq(20, i requires 0 <= i < 20 => if i == 5 then 0xFF as byte else 0);
            Picked(buf, 8, 2, 3, 1) == [0, 0, 0xFF, 0, 0, 0, 0]
  {
    var buf := seq(20, i requires 0 <= i < 20 => if i == 5 then 0xFF as byte else 0);
    assert buf[3..6] == [0, 0, 0xFF];
    assert buf[11..14] == [0, 0, 0];
    assert buf[19..20] == [0];
    assert Picked(buf, 8, 2, 3, 25) == [];
    assert Picked(buf, 8, 2, 3, 17) == [0];
    assert Picked(buf, 8, 2, 3, 9) == [0, 0, 0, 0];
  }
}
