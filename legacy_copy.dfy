/**
 * The two buffer loops of the older MongoDB tool, MongoDB/SharedMethods.cs.
 *
 * `CopyCollection` reads the source in natural order, inserts the buffer whenever it
 * holds `insertBatchSize` documents and clears it whether or not the insert threw,
 * so a failed batch is lost. `DuplicateCollection` reads in `_id` order and inserts
 * the buffer after every document, clearing it only on success, so a failed batch is
 * sent again with the next document.
 *
 * `InsertBatch` is an oracle: the k-th call of one copy throws iff `faults[k]` is
 * `true`; calls past the end of the schedule succeed. The natural order of a
 * collection is an input; `Drop`, `GetIndexes` and `EnsureIndex` are recorded in a
 * report of what the copy did to the target.
 */
module LegacyCopy {
  import opened Wrappers
  import opened Text
  import opened SafeCursor
  import opened Indexes
  import Batching

  /** The legacy guard: the full name `database.collection` contains `system.`, ignoring case. */
  predicate LegacySystemNamespace(database: string, collection: string) {
    ContainsIgnoreCase(database + "." + collection, "system.")
  }

  /** A collection whose name starts with `system.`, in any case, is skipped. */
  lemma SystemCollectionSkipped(database: string, prefix: string, rest: string)
    requires EqualsIgnoreCase(prefix, "system.")
    ensures LegacySystemNamespace(database, prefix + rest)
  {
    var full := database + "." + (prefix + rest);
    var at := |database| + 1;
    assert full[at..at + |prefix|] == prefix;
    assert Lowered(full)[at..at + |prefix|] == Lowered(prefix);
    ContainsAt(Lowered(full), Lowered("system."), at);
  }

  /**
   * The guard tests the full name, so every collection of a database whose name
   * ends in `system` (in any case) is skipped too.
   */
  lemma DatabaseEndingInSystemSkipped(stem: string, suffix: string, collection: string)
    requires EqualsIgnoreCase(suffix, "system")
    ensures LegacySystemNamespace(stem + suffix, collection)
  {
    var full := stem + suffix + "." + collection;
    var at := |stem|;
    var dotted := suffix + ".";
    assert full[at..at + |dotted|] == dotted;
    assert Lowered(full)[at..at + |dotted|] == Lowered(dotted);
    assert Lowered(dotted) == Lowered("system.") by {
      assert |dotted| == 7;
      forall k | 0 <= k < 7 ensures Lowered(dotted)[k] == Lowered("system.")[k] {
        if k < 6 {
          assert Lowered(suffix)[k] == Lowered("system")[k];
        }
      }
    }
    ContainsAt(Lowered(full), Lowered("system."), at);
  }

  /** Whether the k-th `InsertBatch` call throws. */
  predicate Throws(faults: seq<bool>, k: nat) {
    k < |faults| && faults[k]
  }

  /** No call throws. */
  predicate NoFaults(faults: seq<bool>) {
    forall k :: 0 <= k < |faults| ==> !faults[k]
  }

  /**
   * A copy in progress: the batches passed to `InsertBatch` so far (one per call),
   * those inserted, those whose insert threw and were given up, and the buffer.
   */
  datatype Buffered = Buffered(sent: seq<seq<Document>>, inserted: seq<seq<Document>>,
                               lost: seq<seq<Document>>, buffer: seq<Document>)

  const Empty := Buffered([], [], [], [])

  /** The calls that succeeded, in call order. */
  function Kept(sent: seq<seq<Document>>, faults: seq<bool>): seq<seq<Document>>
    decreases |sent|
  {
    if sent == [] then []
    else
      var n := |sent| - 1;
      Kept(sent[..n], faults) + (if Throws(faults, n) then [] else [sent[n]])
  }

  /** The calls that threw, in call order. */
  function Failed(sent: seq<seq<Document>>, faults: seq<bool>): seq<seq<Document>>
    decreases |sent|
  {
    if sent == [] then []
    else
      var n := |sent| - 1;
      Failed(sent[..n], faults) + (if Throws(faults, n) then [sent[n]] else [])
  }

  lemma KeptSnoc(sent: seq<seq<Document>>, b: seq<Document>, faults: seq<bool>)
    ensures Kept(sent + [b], faults) == Kept(sent, faults) + (if Throws(faults, |sent|) then [] else [b])
    ensures Failed(sent + [b], faults) == Failed(sent, faults) + (if Throws(faults, |sent|) then [b] else [])
  {
    assert (sent + [b])[..|sent|] == sent;
  }

  lemma FlattenSnoc(bs: seq<seq<Document>>, b: seq<Document>)
    ensures Batching.Flatten(bs + [b]) == Batching.Flatten(bs) + b
  {
    Batching.FlattenAppend(bs, [b]);
    assert Batching.Flatten([b]) == b + Batching.Flatten([]);
  }

  /** One `InsertBatch` of the buffer that clears it whether or not the call throws. */
  function Flush(st: Buffered, faults: seq<bool>): Buffered {
    if Throws(faults, |st.sent|) then
      Buffered(st.sent + [st.buffer], st.inserted, st.lost + [st.buffer], [])
    else
      Buffered(st.sent + [st.buffer], st.inserted + [st.buffer], st.lost, [])
  }

  /** After the loop: a non-empty buffer is inserted once; if that throws it is only logged. */
  function Drain(st: Buffered, faults: seq<bool>): Buffered {
    if st.buffer == [] then st else Flush(st, faults)
  }

  /** The number of documents in a flushed batch: a batch size of 0 flushes every document. */
  function Cap(size: nat): nat {
    if size < 1 then 1 else size
  }

  /** One document of `CopyCollection`: buffered, and the buffer flushed once it holds `size` documents. */
  function DropStep(st: Buffered, d: Document, size: nat, faults: seq<bool>): Buffered {
    var next := st.(buffer := st.buffer + [d]);
    if |next.buffer| >= size then Flush(next, faults) else next
  }

  /** The loop of `CopyCollection` over the documents, in order. */
  function DropLoop(docs: seq<Document>, size: nat, faults: seq<bool>): Buffered
    decreases |docs|
  {
    if docs == [] then Empty
    else DropStep(DropLoop(docs[..|docs| - 1], size, faults), docs[|docs| - 1], size, faults)
  }

  /**
   * Every document is sent or still buffered, in order, and every call either
   * inserted its batch or lost it, according to the schedule.
   */
  predicate Accounted(st: Buffered, docs: seq<Document>, faults: seq<bool>) {
    Batching.Flatten(st.sent) + st.buffer == docs &&
    st.inserted == Kept(st.sent, faults) && st.lost == Failed(st.sent, faults)
  }

  /** Every batch sent from inside the loop holds exactly `c` documents, and the buffer fewer. */
  predicate Sized(st: Buffered, c: nat) {
    (forall k :: 0 <= k < |st.sent| ==> |st.sent[k]| == c) && |st.buffer| < c
  }

  lemma FlushAccounted(st: Buffered, docs: seq<Document>, faults: seq<bool>)
    requires Accounted(st, docs, faults)
    ensures Accounted(Flush(st, faults), docs, faults)
  {
    FlattenSnoc(st.sent, st.buffer);
    KeptSnoc(st.sent, st.buffer, faults);
  }

  lemma BufferAccounted(st: Buffered, docs: seq<Document>, d: Document, faults: seq<bool>)
    requires Accounted(st, docs, faults)
    ensures Accounted(st.(buffer := st.buffer + [d]), docs + [d], faults)
  {
  }

  /** One document keeps the loop's accounting and batch sizes. */
  lemma DropStepAccounted(st: Buffered, docs: seq<Document>, d: Document, size: nat, faults: seq<bool>)
    requires Accounted(st, docs, faults) && Sized(st, Cap(size))
    ensures Accounted(DropStep(st, d, size, faults), docs + [d], faults)
    ensures Sized(DropStep(st, d, size, faults), Cap(size))
  {
    var next := st.(buffer := st.buffer + [d]);
    BufferAccounted(st, docs, d, faults);
    if |next.buffer| >= size {
      assert |next.buffer| == Cap(size);
      FlushAccounted(next, docs + [d], faults);
      FlushSized(next, Cap(size), faults);
    }
  }

  lemma FlushSized(st: Buffered, c: nat, faults: seq<bool>)
    requires (forall k :: 0 <= k < |st.sent| ==> |st.sent[k]| == c) && |st.buffer| == c && c >= 1
    ensures Sized(Flush(st, faults), c)
  {
  }

  /** The loop of `CopyCollection` keeps every document accounted for, in batches of `Cap(size)`. */
  lemma {:induction false} DropLoopAccounted(docs: seq<Document>, size: nat, faults: seq<bool>)
    ensures Accounted(DropLoop(docs, size, faults), docs, faults)
    ensures Sized(DropLoop(docs, size, faults), Cap(size))
    decreases |docs|
  {
    if docs != [] {
      var init := docs[..|docs| - 1];
      var d := docs[|docs| - 1];
      assert docs == init + [d];
      DropLoopAccounted(init, size, faults);
      DropStepAccounted(DropLoop(init, size, faults), init, d, size, faults);
    }
  }

  /**
   * The whole of `CopyCollection`'s writing: the documents are sent once each, in
   * order, in batches of `Cap(size)` and a shorter last one; each batch is inserted
   * or lost according to its call.
   */
  lemma DropCopyAccounted(docs: seq<Document>, size: nat, faults: seq<bool>)
    ensures var st := Drain(DropLoop(docs, size, faults), faults);
      Batching.Flatten(st.sent) == docs && st.buffer == [] &&
      st.inserted == Kept(st.sent, faults) && st.lost == Failed(st.sent, faults) &&
      (forall k :: 0 <= k < |st.sent| ==> 1 <= |st.sent[k]| <= Cap(size)) &&
      (forall k :: 0 <= k < |st.sent| - 1 ==> |st.sent[k]| == Cap(size))
  {
    var st := DropLoop(docs, size, faults);
    DropLoopAccounted(docs, size, faults);
    if st.buffer != [] {
      FlushAccounted(st, docs, faults);
    }
  }

  /** With a schedule free of faults every call succeeds. */
  lemma {:induction false} KeptWithoutFaults(sent: seq<seq<Document>>, faults: seq<bool>)
    requires NoFaults(faults)
    ensures Kept(sent, faults) == sent && Failed(sent, faults) == []
    decreases |sent|
  {
    if sent != [] {
      var n := |sent| - 1;
      KeptWithoutFaults(sent[..n], faults);
      assert sent == sent[..n] + [sent[n]];
    }
  }

  /** Each sent document ends up inserted or lost, never both and never twice. */
  lemma {:induction false} KeptAndFailedCount(sent: seq<seq<Document>>, faults: seq<bool>)
    ensures |Batching.Flatten(Kept(sent, faults))| + |Batching.Flatten(Failed(sent, faults))| ==
      |Batching.Flatten(sent)|
    decreases |sent|
  {
    if sent != [] {
      var n := |sent| - 1;
      var init := sent[..n];
      KeptAndFailedCount(init, faults);
      assert sent == init + [sent[n]];
      FlattenSnoc(init, sent[n]);
      KeptSnoc(init, sent[n], faults);
      if Throws(faults, n) {
        assert Kept(init, faults) + [] == Kept(init, faults);
        FlattenSnoc(Failed(init, faults), sent[n]);
      } else {
        assert Failed(init, faults) + [] == Failed(init, faults);
        FlattenSnoc(Kept(init, faults), sent[n]);
      }
    }
  }

  /** Without faults `CopyCollection` inserts every document, in order. */
  lemma DropCopyWithoutFaults(docs: seq<Document>, size: nat, faults: seq<bool>)
    requires NoFaults(faults)
    ensures Batching.Flatten(Drain(DropLoop(docs, size, faults), faults).inserted) == docs
    ensures Drain(DropLoop(docs, size, faults), faults).lost == []
  {
    DropCopyAccounted(docs, size, faults);
    KeptWithoutFaults(Drain(DropLoop(docs, size, faults), faults).sent, faults);
  }

  /** Whatever the faults, the documents inserted and lost together number the documents read. */
  lemma DropCopyConserves(docs: seq<Document>, size: nat, faults: seq<bool>)
    ensures var st := Drain(DropLoop(docs, size, faults), faults);
      |Batching.Flatten(st.inserted)| + |Batching.Flatten(st.lost)| == |docs|
  {
    var st := Drain(DropLoop(docs, size, faults), faults);
    DropCopyAccounted(docs, size, faults);
    KeptAndFailedCount(st.sent, faults);
  }

  /** What a legacy copy did: the target collection's name, whether it was dropped, the batches inserted and lost, and the index requests. */
  datatype Report = Report(target: string, dropped: bool, inserted: seq<seq<Document>>,
                           lost: seq<seq<Document>>, indexes: seq<IndexRequest>, threw: bool)

  /**
   * `CopyCollection`: the buffer's capacity must not be negative (the list
   * constructor throws before anything happens); the target, of the same name, is
   * dropped when asked before the system guard; a guarded collection is then left
   * alone; otherwise the documents are copied in natural order with failed batches
   * lost, and the indexes other than `_id_` recreated from the source's flags.
   */
  method CopyCollection(database: string, collection: string, natural: seq<Document>,
                        sourceIndexes: seq<IndexInfo>, insertBatchSize: int, copyIndexes: bool,
                        dropCollections: bool, faults: seq<bool>)
    returns (r: Report)
    ensures r.target == collection
    ensures r.threw <==> insertBatchSize < 0
    ensures r.dropped <==> insertBatchSize >= 0 && dropCollections
    ensures insertBatchSize < 0 || LegacySystemNamespace(database, collection) ==>
      r.inserted == [] && r.lost == [] && r.indexes == []
    ensures insertBatchSize >= 0 && !LegacySystemNamespace(database, collection) ==>
      var st := Drain(DropLoop(natural, insertBatchSize, faults), faults);
      r.inserted == st.inserted && r.lost == st.lost &&
      r.indexes == (if copyIndexes then Singles(Recreated(sourceIndexes, false, false)) else [])
  {
    r := Report(collection, false, [], [], [], false);
    if insertBatchSize < 0 {
      r := r.(threw := true);
      return;
    }
    if dropCollections {
      r := r.(dropped := true);
    }
    if LegacySystemNamespace(database, collection) {
      return;
    }
    var buffer: seq<Document> := [];
    var inserted: seq<seq<Document>> := [];
    var lost: seq<seq<Document>> := [];
    var calls := 0;
    for i := 0 to |natural|
      invariant var st := DropLoop(natural[..i], insertBatchSize, faults);
        inserted == st.inserted && lost == st.lost && buffer == st.buffer && calls == |st.sent|
    {
      assert natural[..i + 1][..i] == natural[..i];
      buffer := buffer + [natural[i]];
      if |buffer| >= insertBatchSize {
        if Throws(faults, calls) {
          lost := lost + [buffer];
        } else {
          inserted := inserted + [buffer];
        }
        buffer := [];
        calls := calls + 1;
      }
    }
    assert natural[..|natural|] == natural;
    if |buffer| > 0 {
      if Throws(faults, calls) {
        lost := lost + [buffer];
      } else {
        inserted := inserted + [buffer];
      }
    }
    r := r.(inserted := inserted, lost := lost);
    if copyIndexes {
      var requests := LegacyIndexes(sourceIndexes);
      r := r.(indexes := requests);
    }
  }

  /**
   * One document of `DuplicateCollection`: buffered, then the whole buffer is sent;
   * on success it is cleared, on failure it is kept for the next call.
   */
  function ResendStep(st: Buffered, d: Document, faults: seq<bool>): Buffered {
    var next := st.(buffer := st.buffer + [d]);
    if Throws(faults, |st.sent|) then next.(sent := next.sent + [next.buffer])
    else Flush(next, faults)
  }

  /** The loop of `DuplicateCollection` over the documents, in order. */
  function ResendLoop(docs: seq<Document>, faults: seq<bool>): Buffered
    decreases |docs|
  {
    if docs == [] then Empty
    else ResendStep(ResendLoop(docs[..|docs| - 1], faults), docs[|docs| - 1], faults)
  }

  /**
   * The invariant of `DuplicateCollection`'s loop after `docs`: the inserted
   * batches followed by the buffer are the documents read, one call was made per
   * document, and the buffer is not empty exactly when the last call threw.
   */
  predicate Resent(st: Buffered, docs: seq<Document>, faults: seq<bool>) {
    Batching.Flatten(st.inserted) + st.buffer == docs && st.lost == [] &&
    st.inserted == Kept(st.sent, faults) && |st.sent| == |docs| &&
    (st.buffer != [] <==> docs != [] && Throws(faults, |docs| - 1))
  }

  lemma ResendStepKeepsAll(st: Buffered, docs: seq<Document>, d: Document, faults: seq<bool>)
    requires Resent(st, docs, faults)
    ensures Resent(ResendStep(st, d, faults), docs + [d], faults)
  {
    var next := st.(buffer := st.buffer + [d]);
    KeptSnoc(st.sent, next.buffer, faults);
    if !Throws(faults, |st.sent|) {
      FlattenSnoc(st.inserted, next.buffer);
    }
  }

  /** The loop of `DuplicateCollection` loses nothing. */
  lemma {:induction false} ResendLoopKeepsAll(docs: seq<Document>, faults: seq<bool>)
    ensures Resent(ResendLoop(docs, faults), docs, faults)
    decreases |docs|
  {
    if docs != [] {
      var init := docs[..|docs| - 1];
      var d := docs[|docs| - 1];
      assert docs == init + [d];
      ResendLoopKeepsAll(init, faults);
      ResendStepKeepsAll(ResendLoop(init, faults), init, d, faults);
    }
  }

  /**
   * The whole of `DuplicateCollection`'s writing: the inserted documents followed by
   * the lost ones are the documents read, in order; at most one batch is lost, and
   * only when both the last call of the loop and the final call throw.
   */
  lemma DuplicateAccounted(docs: seq<Document>, faults: seq<bool>)
    ensures var st := Drain(ResendLoop(docs, faults), faults);
      Batching.Flatten(st.inserted) + Batching.Flatten(st.lost) == docs && |st.lost| <= 1 &&
      (st.lost != [] <==> docs != [] && Throws(faults, |docs| - 1) && Throws(faults, |docs|))
  {
    var st := ResendLoop(docs, faults);
    ResendLoopKeepsAll(docs, faults);
    var fin := Drain(st, faults);
    if st.buffer == [] {
      assert Batching.Flatten(fin.lost) == [];
    } else if Throws(faults, |st.sent|) {
      assert Batching.Flatten(fin.lost) == st.buffer + Batching.Flatten([]);
    } else {
      FlattenSnoc(st.inserted, st.buffer);
    }
  }

  /** Each batch holds exactly the document of the same position. */
  predicate OnePerBatch(inserted: seq<seq<Document>>, docs: seq<Document>) {
    |inserted| == |docs| && forall k :: 0 <= k < |docs| ==> inserted[k] == [docs[k]]
  }

  lemma OnePerBatchSnoc(inserted: seq<seq<Document>>, docs: seq<Document>, d: Document)
    requires OnePerBatch(inserted, docs)
    ensures OnePerBatch(inserted + [[d]], docs + [d])
  {
  }

  /** Without faults `DuplicateCollection` inserts one document per call, in order. */
  lemma {:induction false} DuplicateWithoutFaults(docs: seq<Document>, faults: seq<bool>)
    requires NoFaults(faults)
    ensures ResendLoop(docs, faults).buffer == []
    ensures OnePerBatch(ResendLoop(docs, faults).inserted, docs)
    decreases |docs|
  {
    if docs != [] {
      var init := docs[..|docs| - 1];
      var d := docs[|docs| - 1];
      assert docs == init + [d];
      DuplicateWithoutFaults(init, faults);
      ResendLoopKeepsAll(init, faults);
      var st := ResendLoop(init, faults);
      assert !Throws(faults, |st.sent|);
      assert st.buffer + [d] == [d];
      OnePerBatchSnoc(st.inserted, init, d);
    }
  }

  /** When only the first call throws, that call's batch is the one lost and every other is inserted. */
  lemma FirstCallLost(sent: seq<seq<Document>>)
    requires sent != []
    ensures Failed(sent, [true]) == [sent[0]] && Kept(sent, [true]) == sent[1..]
  {
    var rest := sent[1..];
    assert sent == [sent[0]] + rest;
    LaterCallsSucceed([sent[0]], rest, [true]);
    assert Failed([sent[0]], [true]) == [sent[0]] && Kept([sent[0]], [true]) == [] by {
      assert [sent[0]][..0] == [];
    }
    KeptWithoutFaults(rest, []);
  }

  /**
   * A single failure under `CopyCollection`: with one document per batch and the
   * first call throwing, the first document is lost for good and the rest inserted.
   */
  lemma FirstFailureLostByCopy(docs: seq<Document>)
    requires docs != []
    ensures Drain(DropLoop(docs, 1, [true]), [true]).lost == [docs[..1]]
    ensures Batching.Flatten(Drain(DropLoop(docs, 1, [true]), [true]).inserted) == docs[1..]
  {
    var st := Drain(DropLoop(docs, 1, [true]), [true]);
    DropCopyAccounted(docs, 1, [true]);
    var sent := st.sent;
    assert sent != [];
    assert Batching.Flatten(sent) == sent[0] + Batching.Flatten(sent[1..]);
    assert |sent[0]| == 1;
    FirstCallLost(sent);
  }

  /**
   * The same failure under `DuplicateCollection`: the first document is sent again
   * with the second, and every document is inserted.
   */
  lemma FirstFailureResentByDuplicate(docs: seq<Document>)
    requires |docs| >= 2
    ensures Drain(ResendLoop(docs, [true]), [true]).lost == []
    ensures Batching.Flatten(Drain(ResendLoop(docs, [true]), [true]).inserted) == docs
  {
    DuplicateAccounted(docs, [true]);
    assert !Throws([true], |docs|);
    assert Batching.Flatten<Document>([]) == [];
  }

  /** Calls past the end of the schedule succeed. */
  lemma {:induction false} LaterCallsSucceed(first: seq<seq<Document>>, rest: seq<seq<Document>>, faults: seq<bool>)
    requires |first| >= |faults|
    ensures Kept(first + rest, faults) == Kept(first, faults) + Kept(rest, [])
    ensures Failed(first + rest, faults) == Failed(first, faults)
    decreases |rest|
  {
    if rest == [] {
      assert first + rest == first;
    } else {
      var n := |rest| - 1;
      LaterCallsSucceed(first, rest[..n], faults);
      assert first + rest == (first + rest[..n]) + [rest[n]];
      KeptSnoc(first + rest[..n], rest[n], faults);
      KeptSnoc(rest[..n], rest[n], []);
      assert rest == rest[..n] + [rest[n]];
    }
  }

  /**
   * `DuplicateCollection`: the buffer's capacity must not be negative; the target is
   * the collection named `collection + duplicationSuffix` in the same database,
   * never dropped; a guarded collection is left alone; otherwise the documents are
   * read in `_id` order and sent after each one, a failed batch being sent again,
   * and the indexes other than `_id_` recreated from the source's flags.
   */
  method DuplicateCollection(database: string, collection: string, duplicationSuffix: string,
                             c: seq<Document>, sourceIndexes: seq<IndexInfo>, insertBatchSize: int,
                             copyIndexes: bool, faults: seq<bool>)
    returns (r: Report)
    ensures r.target == collection + duplicationSuffix && !r.dropped
    ensures r.threw <==> insertBatchSize < 0
    ensures insertBatchSize < 0 || LegacySystemNamespace(database, collection) ==>
      r.inserted == [] && r.lost == [] && r.indexes == []
    ensures insertBatchSize >= 0 && !LegacySystemNamespace(database, collection) ==>
      var st := Drain(ResendLoop(Find(c, None, None), faults), faults);
      r.inserted == st.inserted && r.lost == st.lost &&
      r.indexes == (if copyIndexes then Singles(Recreated(sourceIndexes, false, false)) else [])
  {
    r := Report(collection + duplicationSuffix, false, [], [], [], false);
    if insertBatchSize < 0 {
      r := r.(threw := true);
      return;
    }
    if LegacySystemNamespace(database, collection) {
      return;
    }
    var docs := Find(c, None, None);
    var buffer: seq<Document> := [];
    var inserted: seq<seq<Document>> := [];
    var calls := 0;
    for i := 0 to |docs|
      invariant var st := ResendLoop(docs[..i], faults);
        inserted == st.inserted && st.lost == [] && buffer == st.buffer && calls == |st.sent|
    {
      assert docs[..i + 1][..i] == docs[..i];
      buffer := buffer + [docs[i]];
      if !Throws(faults, calls) {
        inserted := inserted + [buffer];
        buffer := [];
      }
      calls := calls + 1;
    }
    assert docs[..|docs|] == docs;
    var lost: seq<seq<Document>> := [];
    if |buffer| > 0 {
      if Throws(faults, calls) {
        lost := [buffer];
      } else {
        inserted := inserted + [buffer];
      }
    }
    r := r.(inserted := inserted, lost := lost);
    if copyIndexes {
      var requests := LegacyIndexes(sourceIndexes);
      r := r.(indexes := requests);
    }
  }

  /** The documents `DuplicateCollection` inserts come in strictly ascending `_id` order. */
  lemma DuplicateInIdOrder(c: seq<Document>, faults: seq<bool>)
    requires Ascending(c)
    ensures Ascending(Batching.Flatten(Drain(ResendLoop(Find(c, None, None), faults), faults).inserted))
  {
    var docs := Find(c, None, None);
    FindSpec(c, None, None);
    DuplicateAccounted(docs, faults);
    var ins := Batching.Flatten(Drain(ResendLoop(docs, faults), faults).inserted);
    assert ins == docs[..|ins|];
  }
}
