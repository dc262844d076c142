/**
 * The buffered batch writer inside `CopyCollection` of MongoToolsLib/SharedMethods.cs.
 * Documents are appended to a buffer in stream order; when the buffer holds
 * `insertBatchSize` documents it is written and cleared. A failed full-batch write
 * is retried once and a second failure aborts the copy.
 *
 * `SafeInsertBatch` is an oracle: its outcomes are an input schedule `faults`,
 * one entry per call (`true` = the call throws); calls past the end succeed.
 */
module Batching {

  /** The batches of exactly `size` elements written from inside the loop, in order. */
  function FullBatches<T>(s: seq<T>, size: nat): seq<seq<T>>
    requires size >= 1
    decreases |s|
  {
    if |s| < size then [] else [s[..size]] + FullBatches(s[size..], size)
  }

  /** What is left in the buffer when the stream ends. */
  function Remainder<T>(s: seq<T>, size: nat): seq<T>
    requires size >= 1
    decreases |s|
  {
    if |s| < size then s else Remainder(s[size..], size)
  }

  function Flatten<T>(bs: seq<seq<T>>): seq<T> {
    if bs == [] then [] else bs[0] + Flatten(bs[1..])
  }

  /** The full batches and the remainder, in order, are the stream. */
  lemma {:induction false} BatchesPartition<T>(s: seq<T>, size: nat)
    requires size >= 1
    ensures Flatten(FullBatches(s, size)) + Remainder(s, size) == s
    decreases |s|
  {
    if |s| >= size {
      BatchesPartition(s[size..], size);
      assert FullBatches(s, size)[1..] == FullBatches(s[size..], size);
      assert s == s[..size] + s[size..];
    }
  }

  /** Every full batch has exactly `size` elements and the remainder has fewer. */
  lemma {:induction false} BatchSizes<T>(s: seq<T>, size: nat)
    requires size >= 1
    ensures forall k :: 0 <= k < |FullBatches(s, size)| ==> |FullBatches(s, size)[k]| == size
    ensures |Remainder(s, size)| < size
    decreases |s|
  {
    if |s| >= size {
      BatchSizes(s[size..], size);
      assert FullBatches(s, size)[1..] == FullBatches(s[size..], size);
    }
  }

  lemma {:induction false} FlattenAppend<T>(xs: seq<seq<T>>, ys: seq<seq<T>>)
    ensures Flatten(xs + ys) == Flatten(xs) + Flatten(ys)
  {
    if xs != [] {
      FlattenAppend(xs[1..], ys);
      assert (xs + ys)[1..] == xs[1..] + ys;
    } else {
      assert xs + ys == ys;
    }
  }

  /** The outcome of the writes: the batches written, the unused schedule, and whether the copy aborted. */
  datatype WriteOutcome<T> = WriteOutcome(written: seq<seq<T>>, faults: seq<bool>, aborted: bool)

  /** Whether the next `SafeInsertBatch` call throws. */
  predicate Fails(faults: seq<bool>) {
    faults != [] && faults[0]
  }

  function Next(faults: seq<bool>): seq<bool> {
    if faults == [] then [] else faults[1..]
  }

  function Prepend<T>(batch: seq<T>, o: WriteOutcome<T>): WriteOutcome<T> {
    o.(written := [batch] + o.written)
  }

  /** The outcome of writing the rest, after `done` was written. */
  function After<T>(done: seq<seq<T>>, o: WriteOutcome<T>): WriteOutcome<T> {
    o.(written := done + o.written)
  }

  /**
   * Writing full batches in order: each is tried, and tried once more if the
   * first call throws; a second failure ends the loop with `aborted`.
   */
  function WriteFull<T>(batches: seq<seq<T>>, faults: seq<bool>): WriteOutcome<T>
    decreases |batches|
  {
    if batches == [] then WriteOutcome([], faults, false)
    else if !Fails(faults) then Prepend(batches[0], WriteFull(batches[1..], Next(faults)))
    else if !Fails(Next(faults)) then Prepend(batches[0], WriteFull(batches[1..], Next(Next(faults))))
    else WriteOutcome([], Next(Next(faults)), true)
  }

  /**
   * The batches written are the leading batches, in order, each once; the loop
   * aborts exactly when it leaves some batch unwritten.
   */
  lemma {:induction false} WrittenArePrefix<T>(batches: seq<seq<T>>, faults: seq<bool>)
    ensures var o := WriteFull(batches, faults);
      |o.written| <= |batches| && o.written == batches[..|o.written|] &&
      (o.aborted <==> |o.written| < |batches|)
    decreases |batches|
  {
    if batches != [] {
      if !Fails(faults) {
        WrittenArePrefix(batches[1..], Next(faults));
      } else if !Fails(Next(faults)) {
        WrittenArePrefix(batches[1..], Next(Next(faults)));
      }
    }
  }

  /** The calls left after the loop are the tail of the schedule: the loop only consumes calls. */
  lemma {:induction false} LeftoverIsSuffix<T>(batches: seq<seq<T>>, faults: seq<bool>)
    ensures var o := WriteFull(batches, faults);
      |o.faults| <= |faults| && o.faults == faults[|faults| - |o.faults|..]
    decreases |batches|
  {
    if batches != [] {
      var once := Next(faults);
      assert once == faults[|faults| - |once|..];
      if !Fails(faults) {
        LeftoverIsSuffix(batches[1..], once);
      } else {
        var twice := Next(once);
        assert twice == faults[|faults| - |twice|..];
        if !Fails(once) {
          LeftoverIsSuffix(batches[1..], twice);
        }
      }
    }
  }

  /** No two consecutive calls throw. */
  predicate NoDoubleFault(faults: seq<bool>) {
    forall i :: 0 <= i < |faults| - 1 ==> !(faults[i] && faults[i + 1])
  }

  /** A single failure is always absorbed by the retry: without two failures in a row every batch is written. */
  lemma {:induction false} SingleFaultsAreRetried<T>(batches: seq<seq<T>>, faults: seq<bool>)
    requires NoDoubleFault(faults)
    ensures WriteFull(batches, faults) == WriteOutcome(batches, WriteFull(batches, faults).faults, false)
    decreases |batches|
  {
    if batches != [] {
      assert NoDoubleFault(Next(faults)) by {
        if faults != [] {
          forall i | 0 <= i < |Next(faults)| - 1 ensures !(Next(faults)[i] && Next(faults)[i + 1]) {
            assert Next(faults)[i] == faults[i + 1] && Next(faults)[i + 1] == faults[i + 2];
          }
        }
      }
      if !Fails(faults) {
        SingleFaultsAreRetried(batches[1..], Next(faults));
      } else {
        assert NoDoubleFault(Next(Next(faults))) by {
          forall i | 0 <= i < |Next(Next(faults))| - 1
            ensures !(Next(Next(faults))[i] && Next(Next(faults))[i + 1])
          {
            assert Next(Next(faults))[i] == Next(faults)[i + 1];
            assert Next(Next(faults))[i + 1] == Next(faults)[i + 2];
          }
        }
        SingleFaultsAreRetried(batches[1..], Next(Next(faults)));
      }
      assert batches == [batches[0]] + batches[1..];
    }
  }

  /** Two failures in a row on a batch abort the copy at that batch: the retry is not repeated. */
  lemma SecondFailureAborts<T>(batches: seq<seq<T>>, faults: seq<bool>)
    requires batches != [] && |faults| >= 2 && faults[0] && faults[1]
    ensures WriteFull(batches, faults) == WriteOutcome([], faults[2..], true)
  {
    assert Next(faults)[0] == faults[1];
    assert Next(Next(faults)) == faults[2..];
  }

  /** The schedule left after one write with its retry. */
  function Retried(faults: seq<bool>): seq<bool> {
    if Fails(faults) then Next(Next(faults)) else Next(faults)
  }

  /**
   * `SafeInsertBatch` with the retry of `CopyCollection`: one call, and one more if
   * it throws. `ok` is false when the second call throws too (the exception escapes).
   */
  method InsertWithRetry(faults: seq<bool>) returns (rest: seq<bool>, ok: bool)
    ensures ok == !(Fails(faults) && Fails(Next(faults)))
    ensures rest == Retried(faults)
  {
    rest, ok := Next(faults), true;
    if Fails(faults) {
      ok := !Fails(rest);
      rest := Next(rest);
    }
  }

  /** Writing a batch in front of others: it is written, or both of its calls fail and the loop aborts. */
  lemma WriteFullCons<T>(b: seq<T>, bs: seq<seq<T>>, faults: seq<bool>)
    ensures WriteFull([b] + bs, faults) ==
      if Fails(faults) && Fails(Next(faults)) then WriteOutcome([], Retried(faults), true)
      else Prepend(b, WriteFull(bs, Retried(faults)))
  {
    assert ([b] + bs)[1..] == bs;
  }

  lemma AfterPrepend<T>(done: seq<seq<T>>, b: seq<T>, o: WriteOutcome<T>)
    ensures After(done, Prepend(b, o)) == After(done + [b], o)
  {
    assert done + ([b] + o.written) == (done + [b]) + o.written;
  }

  lemma SliceExtend<T>(s: seq<T>, a: nat, b: nat)
    requires a <= b < |s|
    ensures s[a..b] + [s[b]] == s[a..b + 1]
  {
  }

  lemma SliceSplit<T>(s: seq<T>, a: nat, b: nat)
    requires a <= b <= |s|
    ensures s[a..][..b - a] == s[a..b] && s[a..][b - a..] == s[b..]
  {
  }

  /**
   * The buffer loop of `CopyCollection` over the documents the query yields: append,
   * and when the buffer reaches `size`, write it (retrying once) and clear it.
   * Returns what was written, the unused schedule, whether a second failure aborted
   * the loop, and the buffer left at the end.
   */
  method WriteStream<T>(stream: seq<T>, size: nat, faults: seq<bool>)
    returns (written: seq<seq<T>>, rest: seq<bool>, aborted: bool, buffer: seq<T>)
    requires size >= 1
    ensures WriteOutcome(written, rest, aborted) == WriteFull(FullBatches(stream, size), faults)
    ensures !aborted ==> buffer == Remainder(stream, size)
  {
    ghost var total := WriteFull(FullBatches(stream, size), faults);
    written, rest, aborted, buffer := [], faults, false, [];
    var i := 0;
    ghost var start := 0;
    assert stream[0..] == stream;
    while i < |stream|
      invariant 0 <= start <= i <= |stream| && i - start < size
      invariant buffer == stream[start..i]
      invariant Remainder(stream, size) == Remainder(stream[start..], size)
      invariant total == After(written, WriteFull(FullBatches(stream[start..], size), rest))
      decreases |stream| - i
    {
      SliceExtend(stream, start, i);
      buffer := buffer + [stream[i]];
      i := i + 1;
      if |buffer| >= size {
        SliceSplit(stream, start, i);
        assert FullBatches(stream[start..], size) == [buffer] + FullBatches(stream[i..], size);
        WriteFullCons(buffer, FullBatches(stream[i..], size), rest);
        var ok;
        rest, ok := InsertWithRetry(rest);
        if !ok {
          aborted := true;
          assert written + [] == written;
          break;
        }
        AfterPrepend(written, buffer, WriteFull(FullBatches(stream[i..], size), rest));
        written := written + [buffer];
        buffer := [];
        start := i;
      }
    }
    if !aborted {
      assert total == After(written, WriteOutcome([], rest, false));
    }
  }

  /**
   * What the loop writes is the start of the stream; when it does not abort, that
   * and the buffer it leaves make up the whole stream.
   */
  lemma WrittenIsPrefix<T>(stream: seq<T>, size: nat, faults: seq<bool>)
    requires size >= 1
    ensures var o := WriteFull(FullBatches(stream, size), faults);
      |Flatten(o.written)| <= |stream| && Flatten(o.written) == stream[..|Flatten(o.written)|] &&
      (!o.aborted ==> Flatten(o.written) + Remainder(stream, size) == stream)
  {
    WrittenArePrefix(FullBatches(stream, size), faults);
    BatchesPartition(stream, size);
    LeadingBatches(stream, FullBatches(stream, size), Remainder(stream, size),
                   WriteFull(FullBatches(stream, size), faults).written);
  }

  /** Leading batches of a partition of a stream flatten to a prefix of it. */
  lemma LeadingBatches<T>(stream: seq<T>, bs: seq<seq<T>>, rest: seq<T>, written: seq<seq<T>>)
    requires Flatten(bs) + rest == stream
    requires |written| <= |bs| && written == bs[..|written|]
    ensures |Flatten(written)| <= |stream| && Flatten(written) == stream[..|Flatten(written)|]
    ensures |written| == |bs| ==> Flatten(written) + rest == stream
  {
    var k := |written|;
    FlattenSplit(bs, k);
    ConcatPrefix(Flatten(written), Flatten(bs[k..]), rest, stream);
    if k == |bs| {
      assert written == bs;
    }
  }

  lemma ConcatPrefix<T>(w: seq<T>, x: seq<T>, rest: seq<T>, stream: seq<T>)
    requires (w + x) + rest == stream
    ensures |w| <= |stream| && w == stream[..|w|]
  {
    assert stream == w + (x + rest);
  }

  lemma FlattenSplit<T>(bs: seq<seq<T>>, k: nat)
    requires k <= |bs|
    ensures Flatten(bs[..k]) + Flatten(bs[k..]) == Flatten(bs)
  {
    assert bs == bs[..k] + bs[k..];
    FlattenAppend(bs[..k], bs[k..]);
  }

  /** Every batch written from inside the loop has exactly `size` documents. */
  lemma WrittenSizes<T>(stream: seq<T>, size: nat, faults: seq<bool>)
    requires size >= 1
    ensures var o := WriteFull(FullBatches(stream, size), faults);
      forall k :: 0 <= k < |o.written| ==> |o.written[k]| == size
  {
    WrittenArePrefix(FullBatches(stream, size), faults);
    BatchSizes(stream, size);
  }

  /** With no failing call every batch is written and the schedule stays empty. */
  lemma {:induction false} WriteFullNoFaults<T>(batches: seq<seq<T>>)
    ensures WriteFull(batches, []) == WriteOutcome(batches, [], false)
    decreases |batches|
  {
    if batches != [] {
      WriteFullNoFaults(batches[1..]);
      assert batches == [batches[0]] + batches[1..];
    }
  }
}
