/** The parameter tuples a sweep of skiphead visits: the cross product of
    the three lists in combinatorial mode, and the three lists zipped after
    padding the shorter ones with 0 in paired mode. */
module Enumeration {

  /** One setting of the sampler: stride, offset inside the stride, length picked. */
  datatype Tuple = Tuple(skip: nat, pickOffset: nat, pickLength: nat)

  // ---------------------------------------------------------------------
  // Combinatorial mode: skip outer, pick length middle, pick offset inner
  // ---------------------------------------------------------------------

  /** The first n pieces of xs, one after the other. */
  function Concat<T>(xs: seq<seq<T>>, n: nat): seq<T>
    requires n <= |xs|
  {
    if n == 0 then [] else Concat(xs, n - 1) + xs[n - 1]
  }

  /** The innermost loop: one tuple per pick offset, in list order. */
  function OffsetsRow(skip: nat, pickLength: nat, offsets: seq<nat>): seq<Tuple> {
    seq(|offsets|, k requires 0 <= k < |offsets| => Tuple(skip, offsets[k], pickLength))
  }

  /** The inner loop's first k + 1 tuples: its first k, then offset k. */
  lemma OffsetsRowStep(skip: nat, pickLength: nat, offsets: seq<nat>, k: nat)
    requires k < |offsets|
    ensures OffsetsRow(skip, pickLength, offsets)[..k + 1]
              == OffsetsRow(skip, pickLength, offsets)[..k] + [Tuple(skip, offsets[k], pickLength)]
    ensures OffsetsRow(skip, pickLength, offsets)[..k + 1] <= OffsetsRow(skip, pickLength, offsets)
  {
  }

  /** The rows of the middle loop, one per pick length. */
  function Rows(skip: nat, lengths: seq<nat>, offsets: seq<nat>): seq<seq<Tuple>> {
    seq(|lengths|, j requires 0 <= j < |lengths| => OffsetsRow(skip, lengths[j], offsets))
  }

  /** The middle loop: its rows in list order. */
  function LengthsBlock(skip: nat, lengths: seq<nat>, offsets: seq<nat>): seq<Tuple> {
    Concat(Rows(skip, lengths, offsets), |lengths|)
  }

  /** The blocks of the outer loop, one per skip. */
  function Blocks(skips: seq<nat>, lengths: seq<nat>, offsets: seq<nat>): seq<seq<Tuple>> {
    seq(|skips|, i requires 0 <= i < |skips| => LengthsBlock(skips[i], lengths, offsets))
  }

  /** The outer loop: its blocks in list order. */
  function Combinations(skips: seq<nat>, lengths: seq<nat>, offsets: seq<nat>): seq<Tuple> {
    Concat(Blocks(skips, lengths, offsets), |skips|)
  }

  /** The place of (i, j, k) in a row-major walk of an a x b x c box. */
  function Position(i: nat, j: nat, k: nat, b: nat, c: nat): nat { (i * b + j) * c + k }

  /** When every piece has m elements, the first n pieces hold n * m. */
  lemma {:induction false} ConcatLength<T>(xs: seq<seq<T>>, n: nat, m: nat)
    requires n <= |xs|
    requires forall i :: 0 <= i < |xs| ==> |xs[i]| == m
    ensures |Concat(xs, n)| == n * m
    decreases n
  {
    if n > 0 {
      ConcatLength(xs, n - 1, m);
      MulSucc(n - 1, m);
    }
  }

  /** Element r of piece i sits right after the first i pieces. */
  lemma {:induction false} ConcatPoint<T>(xs: seq<seq<T>>, n: nat, i: nat, r: nat)
    requires i < n <= |xs| && r < |xs[i]|
    ensures |Concat(xs, i)| + r < |Concat(xs, n)|
    ensures Concat(xs, n)[|Concat(xs, i)| + r] == xs[i][r]
    decreases n
  {
    if i < n - 1 {
      ConcatPoint(xs, n - 1, i, r);
    }
  }

  /** The first n + 1 pieces: the first n, then piece n, and a prefix of all. */
  lemma ConcatStep<T>(xs: seq<seq<T>>, n: nat)
    requires n < |xs|
    ensures Concat(xs, n + 1) == Concat(xs, n) + xs[n]
    ensures Concat(xs, n + 1) <= Concat(xs, |xs|)
  {
    ConcatPrefix(xs, n + 1, |xs|);
  }

  /** Fewer pieces give a prefix. */
  lemma {:induction false} ConcatPrefix<T>(xs: seq<seq<T>>, m: nat, n: nat)
    requires m <= n <= |xs|
    ensures Concat(xs, m) <= Concat(xs, n)
    decreases n
  {
    if m < n {
      ConcatPrefix(xs, m, n - 1);
      PrefixExtend(Concat(xs, m), Concat(xs, n - 1), xs[n - 1]);
    }
  }

  /** Every element comes from one of the pieces. */
  lemma {:induction false} ConcatMember<T>(xs: seq<seq<T>>, n: nat, x: T)
    requires n <= |xs| && x in Concat(xs, n)
    ensures exists i :: 0 <= i < n && x in xs[i]
    decreases n
  {
    if x !in xs[n - 1] {
      ConcatMember(xs, n - 1, x);
    }
  }

  lemma MulSucc(n: nat, c: nat)
    ensures (n + 1) * c == n * c + c
  {
  }

  /** For one skip the two inner loops visit |lengths| * |offsets| tuples, the
      one at row-major place (j, k) being (skip, offsets[k], lengths[j]). */
  lemma LengthsBlockAt(skip: nat, lengths: seq<nat>, offsets: seq<nat>)
    ensures |LengthsBlock(skip, lengths, offsets)| == |lengths| * |offsets|
    ensures forall j, k :: 0 <= j < |lengths| && 0 <= k < |offsets| ==>
              Position(0, j, k, 0, |offsets|) < |lengths| * |offsets| &&
              LengthsBlock(skip, lengths, offsets)[Position(0, j, k, 0, |offsets|)] == Tuple(skip, offsets[k], lengths[j])
  {
    var rows := Rows(skip, lengths, offsets);
    ConcatLength(rows, |lengths|, |offsets|);
    forall j, k | 0 <= j < |lengths| && 0 <= k < |offsets|
      ensures Position(0, j, k, 0, |offsets|) < |lengths| * |offsets|
      ensures LengthsBlock(skip, lengths, offsets)[Position(0, j, k, 0, |offsets|)] == Tuple(skip, offsets[k], lengths[j])
    {
      ConcatPoint(rows, |lengths|, j, k);
      ConcatLength(rows, j, |offsets|);
    }
  }

  /** Combinatorial mode visits exactly |skips| * |lengths| * |offsets| tuples,
      the one at row-major place (i, j, k) being (skips[i], offsets[k], lengths[j]). */
  lemma CombinationsAt(skips: seq<nat>, lengths: seq<nat>, offsets: seq<nat>)
    ensures |Combinations(skips, lengths, offsets)| == |skips| * (|lengths| * |offsets|)
    ensures forall i, j, k :: 0 <= i < |skips| && 0 <= j < |lengths| && 0 <= k < |offsets| ==>
              Position(i, j, k, |lengths|, |offsets|) < |skips| * (|lengths| * |offsets|) &&
              Combinations(skips, lengths, offsets)[Position(i, j, k, |lengths|, |offsets|)]
                == Tuple(skips[i], offsets[k], lengths[j])
  {
    var blocks := Blocks(skips, lengths, offsets);
    forall i | 0 <= i < |blocks|
      ensures |blocks[i]| == |lengths| * |offsets|
    {
      LengthsBlockAt(skips[i], lengths, offsets);
    }
    ConcatLength(blocks, |skips|, |lengths| * |offsets|);
    forall i, j, k | 0 <= i < |skips| && 0 <= j < |lengths| && 0 <= k < |offsets|
      ensures Position(i, j, k, |lengths|, |offsets|) < |skips| * (|lengths| * |offsets|)
      ensures Combinations(skips, lengths, offsets)[Position(i, j, k, |lengths|, |offsets|)]
                == Tuple(skips[i], offsets[k], lengths[j])
    {
      var r := Position(0, j, k, 0, |offsets|);
      LengthsBlockAt(skips[i], lengths, offsets);
      ConcatPoint(blocks, |skips|, i, r);
      ConcatLength(blocks, i, |lengths| * |offsets|);
      PositionSplit(i, j, k, |lengths|, |offsets|);
    }
  }

  lemma PositionSplit(i: nat, j: nat, k: nat, b: nat, c: nat)
    ensures Position(i, j, k, b, c) == i * (b * c) + Position(0, j, k, 0, c)
  {
    assert (i * b + j) * c == i * b * c + j * c;
    assert i * b * c == i * (b * c);
  }

  /** Every tuple of the cross product takes its skip from the skip list, so
      when all skips are positive so is every tuple's. */
  lemma CombinationsSkips(skips: seq<nat>, lengths: seq<nat>, offsets: seq<nat>)
    ensures forall t :: t in Combinations(skips, lengths, offsets) ==> t.skip in skips
  {
    var blocks := Blocks(skips, lengths, offsets);
    forall t | t in Combinations(skips, lengths, offsets)
      ensures t.skip in skips
    {
      ConcatMember(blocks, |skips|, t);
      var i :| 0 <= i < |skips| && t in blocks[i];
      var rows := Rows(skips[i], lengths, offsets);
      ConcatMember(rows, |lengths|, t);
    }
  }

  lemma PrefixExtend<T>(a: seq<T>, b: seq<T>, x: seq<T>)
    requires a <= b
    ensures a <= b + x
  {
    assert (b + x)[..|a|] == b[..|a|];
  }

  // ---------------------------------------------------------------------
  // Paired mode: pad with 0 to the longest list, then zip
  // ---------------------------------------------------------------------

  function Max3(a: nat, b: nat, c: nat): (m: nat)
    ensures m >= a && m >= b && m >= c
    ensures m == a || m == b || m == c
  {
    if a >= b && a >= c then a else if b >= c then b else c
  }

  /** `Vec::resize`: truncate to `n`, or extend with copies of `value`. */
  function Resize(v: seq<nat>, n: nat, value: nat): (r: seq<nat>)
    ensures |r| == n
    ensures forall i :: 0 <= i < n && i < |v| ==> r[i] == v[i]
    ensures forall i :: |v| <= i < n ==> r[i] == value
  {
    if n <= |v| then v[..n] else v + seq(n - |v|, _ => value)
  }

  /** Lock-step walk of three lists of one length: ((skip, offset), length). */
  function Zip3(skips: seq<nat>, offsets: seq<nat>, lengths: seq<nat>): seq<Tuple>
    requires |skips| == |offsets| == |lengths|
  {
    if skips == [] then []
    else [Tuple(skips[0], offsets[0], lengths[0])] + Zip3(skips[1..], offsets[1..], lengths[1..])
  }

  lemma {:induction false} Zip3At(skips: seq<nat>, offsets: seq<nat>, lengths: seq<nat>)
    requires |skips| == |offsets| == |lengths|
    ensures |Zip3(skips, offsets, lengths)| == |skips|
    ensures forall i :: 0 <= i < |skips| ==> Zip3(skips, offsets, lengths)[i] == Tuple(skips[i], offsets[i], lengths[i])
    decreases |skips|
  {
    if skips != [] {
      Zip3At(skips[1..], offsets[1..], lengths[1..]);
    }
  }

  /** The tuples of paired mode. */
  function Paired(skips: seq<nat>, lengths: seq<nat>, offsets: seq<nat>): seq<Tuple> {
    var n := Max3(|skips|, |lengths|, |offsets|);
    Zip3(Resize(skips, n, 0), Resize(offsets, n, 0), Resize(lengths, n, 0))
  }

  /** Paired mode visits max(|skips|, |lengths|, |offsets|) tuples; the i-th
      takes the i-th entry of each list, and 0 where a list has run out (never
      a repeat of its last entry). */
  lemma PairedAt(skips: seq<nat>, lengths: seq<nat>, offsets: seq<nat>)
    ensures |Paired(skips, lengths, offsets)| == Max3(|skips|, |lengths|, |offsets|)
    ensures forall i :: 0 <= i < |Paired(skips, lengths, offsets)| ==>
              var t := Paired(skips, lengths, offsets)[i];
              && t.skip == (if i < |skips| then skips[i] else 0)
              && t.pickOffset == (if i < |offsets| then offsets[i] else 0)
              && t.pickLength == (if i < |lengths| then lengths[i] else 0)
  {
    var n := Max3(|skips|, |lengths|, |offsets|);
    Zip3At(Resize(skips, n, 0), Resize(offsets, n, 0), Resize(lengths, n, 0));
  }
}
