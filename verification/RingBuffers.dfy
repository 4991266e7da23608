/** Fixed-size buffers that answer questions about an unbounded history; exact reals. */
module RingBuffers {
  import opened Wrappers
  import opened Reals

  function Mean(xs: seq<real>): real
    requires xs != []
  {
    Sum(xs) / |xs| as real
  }

  function MeanOrNan(xs: seq<real>): Option<real> { if xs == [] then None else Some(Mean(xs)) }

  /** The last `n` elements, or all of them. */
  function Last<T>(xs: seq<T>, n: nat): (r: seq<T>)
    ensures |r| == if |xs| < n then |xs| else n
  {
    if |xs| <= n then xs else xs[|xs| - n..]
  }

  lemma LastSnoc<T>(xs: seq<T>, x: T, n: nat)
    requires n > 0
    ensures Last(xs + [x], n) == if |xs| < n then xs + [x] else Last(xs, n)[1..] + [x]
  {
  }

  // ----- moving average

  function Next(i: nat, n: nat): nat
    requires n > 0
  {
    (i + 1) % n
  }

  lemma NextIs(i: nat, n: nat)
    requires i < n
    ensures Next(i, n) == if i + 1 == n then 0 else i + 1
  {
    if i + 1 < n {
      SmallMod(i + 1, n);
    }
  }

  lemma NextInRange(i: nat, n: nat)
    requires n > 0
    ensures Next(i, n) < n
  {
  }

  lemma SmallMod(i: nat, n: nat)
    requires i < n
    ensures i % n == i
  {
  }

  function AtMost(n: nat, cap: nat): nat { if n <= cap then n else cap }

  /** Overwriting the oldest element of a rotated window and moving on drops it from the front. */
  lemma RotateOn<T>(buf: seq<T>, i: nat, x: T)
    requires i < |buf|
    ensures var b, j := buf[i := x], Next(i, |buf|);
      j < |b| && b[j..] + b[..j] == (buf[i..] + buf[..i])[1..] + [x]
  {
    NextIs(i, |buf|);
    hide Next;
    var b := buf[i := x];
    assert b[i + 1..] == buf[i + 1..];
    assert b[..i + 1] == buf[..i] + [x];
    assert (buf[i..] + buf[..i])[1..] == buf[i + 1..] + buf[..i];
    assert buf[i + 1..] + buf[..i] + [x] == b[i + 1..] + b[..i + 1];
    if i + 1 == |buf| {
      assert b[0..] + b[..0] == b[i + 1..] + b[..i + 1];
    }
  }

  /** Until it is full the buffer is the history and zeros; then it is the last window, rotated. */
  predicate Holds(buf: seq<real>, index: nat, count: nat, history: seq<real>) {
    && index < |buf| && count == AtMost(|history|, |buf|)
    && if count < |buf|
       then index == count && buf[..index] == history && forall j | index <= j < |buf| :: buf[j] == 0.0
       else buf[index..] + buf[..index] == Last(history, |buf|)
  }

  lemma HoldsOneMore(buf: seq<real>, index: nat, count: nat, history: seq<real>, x: real)
    requires Holds(buf, index, count, history)
    ensures Holds(buf[index := x], Next(index, |buf|), AtMost(count + 1, |buf|), history + [x])
    ensures Sum(Last(history + [x], |buf|)) == Sum(Last(history, |buf|)) - buf[index] + x
  {
    var w := |buf|;
    LastSnoc(history, x, w);
    hide Last, Next;
    if count < w {
      SumSnoc(history, x);
      FillOne(buf, index, history, x);
    } else {
      var window := Last(history, w);
      RotateOn(buf, index, x);
      assert window[0] == buf[index];
      SumSnoc(window[1..], x);
    }
  }

  lemma FillOne(buf: seq<real>, index: nat, history: seq<real>, x: real)
    requires |history| == index < |buf| && Holds(buf, index, index, history)
    ensures Holds(buf[index := x], Next(index, |buf|), index + 1, history + [x])
    ensures Last(history, |buf|) == history
  {
    NextIs(index, |buf|);
    hide Next;
    var b := buf[index := x];
    assert b[..index + 1] == history + [x];
    if index + 1 == |buf| {
      assert b[0..] + b[..0] == b;
    }
  }

  class MovingAverage {
    const buffer: array<real>
    var index: nat
    var count: nat
    var sum: real
    ghost var history: seq<real>

    ghost predicate Valid()
      reads this, buffer
    {
      Holds(buffer[..], index, count, history) && sum == Sum(Last(history, buffer.Length))
    }

    constructor (windowSize: nat)
      requires windowSize > 0
      ensures Valid() && history == [] && buffer.Length == windowSize && fresh(buffer)
    {
      buffer := new real[windowSize](_ => 0.0);
      index, count, sum, history := 0, 0, 0.0, [];
    }

    method AddValue(x: real)
      requires Valid()
      modifies this, buffer
      ensures Valid() && history == old(history) + [x]
    {
      HoldsOneMore(buffer[..], index, count, history, x);
      hide Sum, Last, Next, AtMost;
      NextInRange(index, buffer.Length);
      ghost var b, k := buffer[..], index;
      sum := sum - buffer[index];
      buffer[index] := x;
      sum := sum + x;
      index := Next(index, buffer.Length);
      count := AtMost(count + 1, buffer.Length);
      history := history + [x];
      assert buffer[..] == b[k := x];
      hide Holds;
    }

    /** The mean of the last `windowSize` values, of all while there are fewer, of nothing as NaN. */
    method GetAverage() returns (mean: Option<real>)
      requires Valid()
      ensures mean == MeanOrNan(Last(history, buffer.Length)) && (mean == None <==> history == [])
    {
      hide Sum;
      if count == 0 {
        return None;
      }
      mean := Some(sum / count as real);
    }
  }

  // ----- bounded queue of points

  class NPQueue<T> {
    const maxlen: nat
    var arr: seq<T>
    ghost var history: seq<T>

    ghost predicate Valid()
      reads this
    {
      maxlen > 0 && arr == Last(history, maxlen)
    }

    constructor (maxlen: nat)
      requires maxlen > 0
      ensures Valid() && history == [] && this.maxlen == maxlen
    {
      this.maxlen := maxlen;
      arr, history := [], [];
    }

    method Append(pt: T)
      requires Valid()
      modifies this
      ensures Valid() && history == old(history) + [pt] && arr == Last(history, maxlen)
    {
      LastSnoc(history, pt, maxlen);
      if |arr| < maxlen {
        arr := arr + [pt];
      } else {
        arr := arr[1..] + [pt];
      }
      history := history + [pt];
    }
  }

  // ----- block averages

  /** The means of the completed blocks, and the samples of the one in progress. */
  datatype Blocks = Blocks(done: seq<real>, current: seq<real>) {
    function Add(blockSize: nat, x: real): Blocks {
      var c := current + [x];
      if |c| == blockSize then Blocks(done + [Mean(c)], []) else Blocks(done, c)
    }

    function AddAll(blockSize: nat, xs: seq<real>): Blocks
      decreases |xs|
    {
      if xs == [] then this else AddAll(blockSize, xs[..|xs| - 1]).Add(blockSize, xs[|xs| - 1])
    }
  }

  /** The k-th run of blockSize samples. */
  predicate IsRun(blockSize: nat, xs: seq<real>, k: nat, run: seq<real>) {
    |run| == blockSize && k * blockSize + blockSize <= |xs| && run == xs[k * blockSize..k * blockSize + blockSize]
  }

  ghost predicate IsRunMean(blockSize: nat, xs: seq<real>, k: nat, mean: real) {
    exists run | IsRun(blockSize, xs, k, run) && run != [] :: mean == Mean(run)
  }

  lemma RunsStay(blockSize: nat, xs: seq<real>, x: real, k: nat, mean: real)
    requires IsRunMean(blockSize, xs, k, mean)
    ensures IsRunMean(blockSize, xs + [x], k, mean)
  {
    var run :| IsRun(blockSize, xs, k, run) && run != [] && mean == Mean(run);
    assert IsRun(blockSize, xs + [x], k, run);
  }

  /** From a fresh start, block k averages exactly the k-th run of blockSize samples, and the rest is current. */
  lemma {:induction false} BlocksAverageRuns(blockSize: nat, xs: seq<real>)
    requires blockSize > 0
    ensures var b := Blocks([], []).AddAll(blockSize, xs); var q := |b.done| * blockSize;
      && q <= |xs| && b.current == xs[q..] && |b.current| < blockSize
      && forall k | 0 <= k < |b.done| :: IsRunMean(blockSize, xs, k, b.done[k])
    decreases |xs|
  {
    if xs != [] {
      hide Mean, IsRunMean;
      var j := |xs| - 1;
      var before, x := xs[..j], xs[j];
      BlocksAverageRuns(blockSize, before);
      var a := Blocks([], []).AddAll(blockSize, before);
      assert xs == before + [x];
      forall k | 0 <= k < |a.done| ensures IsRunMean(blockSize, xs, k, a.done[k]) {
        RunsStay(blockSize, before, x, k, a.done[k]);
      }
      OneMoreSample(blockSize, before, x, a);
    }
  }

  lemma OneMoreSample(blockSize: nat, xs: seq<real>, x: real, a: Blocks)
    requires blockSize > 0 && |a.done| * blockSize <= |xs|
    requires a.current == xs[|a.done| * blockSize..] && |a.current| < blockSize
    ensures var b := a.Add(blockSize, x); var q := |b.done| * blockSize;
      && q <= |xs| + 1 && b.current == (xs + [x])[q..] && |b.current| < blockSize
      && (b.done == a.done || (|b.done| == |a.done| + 1 && b.done[..|a.done|] == a.done
                               && IsRunMean(blockSize, xs + [x], |a.done|, b.done[|a.done|])))
  {
    var q, c := |a.done| * blockSize, a.current + [x];
    assert c == (xs + [x])[q..];
    if |c| == blockSize {
      assert (|a.done| + 1) * blockSize == q + blockSize;
      assert IsRun(blockSize, xs + [x], |a.done|, c);
    }
  }

  /** `v` is the mean of `n` samples, and `x` one more. */
  function RunningMean(n: nat, v: real, x: real): real {
    (n as real * v + x) / (n + 1) as real
  }

  class BlockAverage {
    const numBlocks: nat
    const blockSize: nat
    const values: array<real>
    var blockIdx: nat
    var idx: nat
    var validBlocks: nat
    ghost var blocks: Blocks

    ghost predicate Valid()
      reads this, values
    {
      values.Length == numBlocks && Tracks(values[..], blockSize, blockIdx, idx, validBlocks, blocks)
    }

    /** Starting with `validBlocks` blocks counts the initial value as that many completed means. */
    constructor (numBlocks: nat, blockSize: nat, validBlocks: nat, initial: real)
      requires numBlocks > 0 && blockSize > 0 && validBlocks <= numBlocks
      ensures Valid() && fresh(values)
      ensures this.numBlocks == numBlocks && this.blockSize == blockSize
      ensures blocks == Blocks(seq(validBlocks, _ => initial), [])
    {
      this.numBlocks, this.blockSize := numBlocks, blockSize;
      values := new real[numBlocks](_ => initial);
      blockIdx, idx := validBlocks % numBlocks, 0;
      this.validBlocks := validBlocks;
      blocks := Blocks(seq(validBlocks, _ => initial), []);
      new;
      assert values[..] == seq(numBlocks, _ => initial);
      StartTracks(numBlocks, blockSize, validBlocks, initial);
      hide Tracks;
    }

    method Update(x: real)
      requires Valid()
      modifies this, values
      ensures Valid() && blocks == old(blocks).Add(blockSize, x)
    {
      ghost var v, b := values[..], blockIdx;
      TracksOneMore(v, blockSize, blockIdx, idx, validBlocks, blocks, x);
      TracksInRange(v, blockSize, blockIdx, idx, validBlocks, blocks);
      NextIs(idx, blockSize);
      hide Tracks, RunningMean, Blocks.Add, Next, AtMost;
      values[blockIdx] := RunningMean(idx, values[blockIdx], x);
      assert values[..] == v[b := values[b]];
      idx := Next(idx, blockSize);
      if idx == 0 {
        NextInRange(blockIdx, numBlocks);
        blockIdx := Next(blockIdx, numBlocks);
        validBlocks := AtMost(validBlocks + 1, numBlocks);
      }
      blocks := blocks.Add(blockSize, x);
    }

    /** The mean over the completed blocks other than the slot in progress, which are the last
        numBlocks - 1 of them, and the same with the block in progress added. */
    method Get() returns (validMean: Option<real>, currentMean: Option<real>)
      requires Valid()
      ensures validMean == MeanOrNan(Last(blocks.done, numBlocks - 1))
      ensures currentMean == MeanOrNan(Last(blocks.done, numBlocks - 1)
                                       + if blocks.current == [] then [] else [Mean(blocks.current)])
      ensures validMean == None <==> blocks.done == [] || numBlocks == 1
    {
      var picked: seq<real> := [];
      hide Sum, Slots;
      SlotInRange(values[..], blockIdx, blocks.done);
      for i := 0 to validBlocks
        invariant picked == Others(values[..], i, blockIdx)
      {
        if i != blockIdx {
          picked := picked + [values[i]];
        }
      }
      OthersAreLast(values[..], validBlocks, blockIdx, blocks.done);
      validMean := MeanOrNan(picked);
      currentMean := MeanOrNan(if idx > 0 then picked + [values[blockIdx]] else picked);
      SameMean(picked, Last(blocks.done, numBlocks - 1), if idx > 0 then [values[blockIdx]] else []);
      SameMean(picked, Last(blocks.done, numBlocks - 1), []);
      assert picked + [] == picked && Last(blocks.done, numBlocks - 1) + [] == Last(blocks.done, numBlocks - 1);
    }
  }

  /** The first `n` slots without slot `i`. */
  function Others(values: seq<real>, n: nat, i: nat): seq<real>
    requires n <= |values|
  {
    if n <= i then values[..n] else values[..i] + values[i + 1..n]
  }

  lemma SlotInRange(values: seq<real>, i: nat, done: seq<real>)
    ensures Slots(values, i, done) ==> i < |values|
  {
  }

  lemma OthersAreLast(values: seq<real>, n: nat, i: nat, done: seq<real>)
    requires Slots(values, i, done) && n == AtMost(|done|, |values|)
    ensures var picked, last := Others(values, n, i), Last(done, |values| - 1);
      |picked| == |last| && Sum(picked) == Sum(last)
  {
    hide Sum;
    if |done| >= |values| {
      SumAppend(values[..i], values[i + 1..]);
      SumAppend(values[i + 1..], values[..i]);
      assert values[i + 1..n] == values[i + 1..];
    } else {
      assert Others(values, n, i) == values[..i];
    }
  }

  lemma SameMean(a: seq<real>, b: seq<real>, c: seq<real>)
    requires |a| == |b| && Sum(a) == Sum(b)
    ensures MeanOrNan(a + c) == MeanOrNan(b + c)
  {
    SumAppend(a, c);
    SumAppend(b, c);
    hide Sum;
  }

  /** The slots other than `i` hold the last completed means, oldest first after `i`. */
  predicate Slots(values: seq<real>, i: nat, done: seq<real>) {
    && i < |values|
    && if |done| < |values| then i == |done| && values[..i] == done
       else values[i + 1..] + values[..i] == Last(done, |values| - 1)
  }

  /** The buffer against what it tracks. */
  predicate Tracks(values: seq<real>, blockSize: nat, blockIdx: nat, idx: nat, validBlocks: nat, blocks: Blocks) {
    && idx == |blocks.current| < blockSize
    && validBlocks == AtMost(|blocks.done|, |values|)
    && Slots(values, blockIdx, blocks.done)
    && (idx > 0 ==> values[blockIdx] == Mean(blocks.current))
  }

  lemma StartTracks(numBlocks: nat, blockSize: nat, validBlocks: nat, initial: real)
    requires numBlocks > 0 && blockSize > 0 && validBlocks <= numBlocks
    ensures Tracks(seq(numBlocks, _ => initial), blockSize, validBlocks % numBlocks, 0, validBlocks,
                   Blocks(seq(validBlocks, _ => initial), []))
  {
    if validBlocks < numBlocks {
      SmallMod(validBlocks, numBlocks);
    } else {
      var s: seq<real> := seq(numBlocks, _ => initial);
      assert s[1..] + s[..0] == s[1..];
    }
  }

  lemma TracksInRange(values: seq<real>, blockSize: nat, blockIdx: nat, idx: nat, validBlocks: nat, blocks: Blocks)
    requires Tracks(values, blockSize, blockIdx, idx, validBlocks, blocks)
    ensures blockIdx < |values| && idx < blockSize
  {
  }

  lemma TracksOneMore(values: seq<real>, blockSize: nat, blockIdx: nat, idx: nat, validBlocks: nat, blocks: Blocks, x: real)
    requires Tracks(values, blockSize, blockIdx, idx, validBlocks, blocks)
    ensures var v := values[blockIdx := RunningMean(idx, values[blockIdx], x)];
      if idx + 1 == blockSize
      then Tracks(v, blockSize, Next(blockIdx, |values|), 0, AtMost(validBlocks + 1, |values|), blocks.Add(blockSize, x))
      else Tracks(v, blockSize, blockIdx, idx + 1, validBlocks, blocks.Add(blockSize, x))
  {
    var c := blocks.current;
    MeanOneMore(c, values[blockIdx], x);
    var m := Mean(c + [x]);
    SlotIsFree(values, blockIdx, blocks.done, m);
    SlotCompleted(values[blockIdx := m], blockIdx, blocks.done);
    hide Mean, Slots, RunningMean, Next;
  }

  /** Slot `i` is free to change ... */
  lemma SlotIsFree(values: seq<real>, i: nat, done: seq<real>, m: real)
    requires Slots(values, i, done)
    ensures Slots(values[i := m], i, done)
  {
    var v := values[i := m];
    assert v[..i] == values[..i] && v[i + 1..] == values[i + 1..];
    hide Last;
  }

  /** ... and completing it moves on to the oldest. */
  lemma SlotCompleted(values: seq<real>, i: nat, done: seq<real>)
    requires Slots(values, i, done)
    ensures Slots(values, Next(i, |values|), done + [values[i]])
  {
    var w, m := |values|, values[i];
    NextIs(i, w);
    if |done| < w {
      assert values[..i + 1] == done + [m];
      if i + 1 == w {
        assert values[1..] + values[..0] == (done + [m])[1..];
      }
    } else if w > 1 {
      LastSnoc(done, m, w - 1);
      RotatePast(values, i);
      hide Last, Next;
    }
  }

  lemma RotatePast(values: seq<real>, i: nat)
    requires i < |values| && |values| > 1
    ensures var j := Next(i, |values|);
      j < |values| && values[j + 1..] + values[..j] == (values[i + 1..] + values[..i])[1..] + [values[i]]
  {
    NextIs(i, |values|);
    hide Next;
    var rest := values[i + 1..] + values[..i];
    if i + 1 < |values| {
      assert rest[1..] == values[i + 2..] + values[..i];
      assert values[..i + 1] == values[..i] + [values[i]];
    } else {
      assert rest == values[..i] && values == values[..i] + [values[i]];
      assert values[1..] == values[..i][1..] + [values[i]];
    }
  }

  lemma MeanOneMore(c: seq<real>, v: real, x: real)
    requires c != [] ==> v == Mean(c)
    ensures RunningMean(|c|, v, x) == Mean(c + [x])
  {
    SumSnoc(c, x);
    if c != [] {
      MeanTimesLength(c);
    }
    hide Sum;
    assert |c| as real * v == Sum(c);
  }

  lemma MeanTimesLength(c: seq<real>)
    requires c != []
    ensures |c| as real * Mean(c) == Sum(c)
  {
  }
}
