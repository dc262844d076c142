/**
 * The copy of the older Migrate tool, Migrate/Migrator.cs: `DatabaseCopy` and the
 * two `CollectionsCopy` overloads call `CopyCollection` for each collection in turn.
 * That copy reads the source in `_id` order and inserts a batch whenever the
 * buffer reaches `insertBatchSize`, then the remainder; nothing catches a failed
 * insert, so it ends the copy and the whole dispatch loop.
 *
 * A source database is given by its listed collection names and, per collection,
 * its documents in `_id` order and its indexes. `InsertBatch` outcomes are a schedule
 * per collection, as in the other legacy copy.
 */
module LegacyMigrator {
  import opened Wrappers
  import opened SafeCursor
  import opened Indexes
  import opened LegacyCopy
  import Resolver
  import Batching

  /** A copy in progress, and whether an insert has thrown. */
  datatype Halting = Halting(st: Buffered, threw: bool)

  /**
   * One document: buffered; a buffer that reached `size` is inserted and cleared,
   * and if the insert throws the copy is over.
   */
  function HaltStep(h: Halting, d: Document, size: nat, faults: seq<bool>): Halting {
    if h.threw then h
    else
      var next := h.st.(buffer := h.st.buffer + [d]);
      if |next.buffer| < size then Halting(next, false)
      else Halting(Flush(next, faults), Throws(faults, |next.sent|))
  }

  /** The loop over the documents, in order. */
  function HaltLoop(docs: seq<Document>, size: nat, faults: seq<bool>): Halting
    decreases |docs|
  {
    if docs == [] then Halting(Empty, false)
    else HaltStep(HaltLoop(docs[..|docs| - 1], size, faults), docs[|docs| - 1], size, faults)
  }

  /** After the loop: a non-empty remainder is inserted once, unless the copy is already over. */
  function HaltDrain(h: Halting, faults: seq<bool>): Halting {
    if h.threw || h.st.buffer == [] then h
    else Halting(Flush(h.st, faults), Throws(faults, |h.st.sent|))
  }

  /** None of the first `n` calls throws. */
  predicate NoneThrow(faults: seq<bool>, n: nat) {
    forall k :: 0 <= k < n ==> !Throws(faults, k)
  }

  /**
   * The loop's invariant after `docs`: until a call throws, the batches sent and the
   * buffer are the documents and every batch was inserted; once one throws, the
   * batches sent are a prefix of the documents, that last batch is the one lost and
   * every earlier call succeeded.
   */
  predicate Halted(h: Halting, docs: seq<Document>, faults: seq<bool>) {
    var sent := h.st.sent;
    if !h.threw then
      Batching.Flatten(sent) + h.st.buffer == docs && h.st.inserted == sent && h.st.lost == [] &&
      NoneThrow(faults, |sent|)
    else
      sent != [] && h.st.buffer == [] &&
      |Batching.Flatten(sent)| <= |docs| && Batching.Flatten(sent) == docs[..|Batching.Flatten(sent)|] &&
      h.st.inserted == sent[..|sent| - 1] && h.st.lost == [sent[|sent| - 1]] &&
      NoneThrow(faults, |sent| - 1) && Throws(faults, |sent| - 1)
  }

  lemma HaltedFlush(st: Buffered, docs: seq<Document>, faults: seq<bool>)
    requires Batching.Flatten(st.sent) + st.buffer == docs && st.inserted == st.sent && st.lost == []
    requires NoneThrow(faults, |st.sent|)
    ensures Halted(Halting(Flush(st, faults), Throws(faults, |st.sent|)), docs, faults)
  {
    var sent := st.sent + [st.buffer];
    FlattenSnoc(st.sent, st.buffer);
    assert sent[..|sent| - 1] == st.sent;
    assert docs[..|docs|] == docs;
  }

  lemma HaltStepKeeps(h: Halting, docs: seq<Document>, d: Document, size: nat, faults: seq<bool>)
    requires Halted(h, docs, faults)
    ensures Halted(HaltStep(h, d, size, faults), docs + [d], faults)
  {
    if h.threw {
      var m := |Batching.Flatten(h.st.sent)|;
      assert (docs + [d])[..m] == docs[..m];
    } else {
      var next := h.st.(buffer := h.st.buffer + [d]);
      if |next.buffer| >= size {
        HaltedFlush(next, docs + [d], faults);
      }
    }
  }

  lemma {:induction false} HaltLoopKeeps(docs: seq<Document>, size: nat, faults: seq<bool>)
    ensures Halted(HaltLoop(docs, size, faults), docs, faults)
    decreases |docs|
  {
    if docs != [] {
      var init := docs[..|docs| - 1];
      var d := docs[|docs| - 1];
      assert docs == init + [d];
      HaltLoopKeeps(init, size, faults);
      HaltStepKeeps(HaltLoop(init, size, faults), init, d, size, faults);
    }
  }

  /** Once an insert has thrown, later documents change nothing. */
  lemma {:induction false} HaltSticks(docs: seq<Document>, k: nat, size: nat, faults: seq<bool>)
    requires k <= |docs| && HaltLoop(docs[..k], size, faults).threw
    ensures HaltLoop(docs, size, faults) == HaltLoop(docs[..k], size, faults)
    decreases |docs|
  {
    if k < |docs| {
      var init := docs[..|docs| - 1];
      assert init[..k] == docs[..k];
      HaltSticks(init, k, size, faults);
    } else {
      assert docs[..k] == docs;
    }
  }

  /** One document keeps the batches sent at `Cap(size)` documents and the buffer shorter. */
  lemma HaltStepSized(h: Halting, d: Document, size: nat, faults: seq<bool>)
    requires Sized(h.st, Cap(size))
    ensures Sized(HaltStep(h, d, size, faults).st, Cap(size))
  {
    if !h.threw {
      var next := h.st.(buffer := h.st.buffer + [d]);
      if |next.buffer| >= size {
        assert |next.buffer| == Cap(size);
        FlushSized(next, Cap(size), faults);
      }
    }
  }

  /** Inside the loop a batch is sent exactly when the buffer reaches `Cap(size)` documents. */
  lemma {:induction false} HaltLoopSized(docs: seq<Document>, size: nat, faults: seq<bool>)
    ensures Sized(HaltLoop(docs, size, faults).st, Cap(size))
    decreases |docs|
  {
    if docs != [] {
      HaltLoopSized(docs[..|docs| - 1], size, faults);
      HaltStepSized(HaltLoop(docs[..|docs| - 1], size, faults), docs[|docs| - 1], size, faults);
    }
  }

  /** The remainder sent after the loop is shorter than a full batch and not empty. */
  lemma DrainSized(h: Halting, size: nat, faults: seq<bool>)
    requires Sized(h.st, Cap(size))
    ensures var sent := HaltDrain(h, faults).st.sent;
      (forall k :: 0 <= k < |sent| ==> 1 <= |sent[k]| <= Cap(size)) &&
      (forall k :: 0 <= k < |sent| - 1 ==> |sent[k]| == Cap(size))
  {
  }

  /** Every batch sent was either inserted or lost, in call order. */
  lemma HaltedSent(h: Halting, docs: seq<Document>, faults: seq<bool>)
    requires Halted(h, docs, faults)
    ensures h.st.inserted + h.st.lost == h.st.sent
  {
    if h.threw {
      var n := |h.st.sent| - 1;
      assert h.st.sent == h.st.sent[..n] + [h.st.sent[n]];
    }
  }

  /**
   * The writing of the Migrate copy: the documents inserted, then those of the batch
   * that threw, are a prefix of the documents read; the copy throws exactly when
   * the call after the inserted batches threw, and no earlier call did; when nothing
   * throws every document is inserted, in order. The batches, inserted then lost,
   * hold `Cap(size)` documents each, except a shorter last one.
   */
  lemma HaltedCopy(docs: seq<Document>, size: nat, faults: seq<bool>)
    ensures var h := HaltDrain(HaltLoop(docs, size, faults), faults);
      var done := Batching.Flatten(h.st.inserted) + Batching.Flatten(h.st.lost);
      |done| <= |docs| && done == docs[..|done|] &&
      NoneThrow(faults, |h.st.inserted|) &&
      (h.threw ==> |h.st.lost| == 1 && Throws(faults, |h.st.inserted|)) &&
      (!h.threw ==> h.st.lost == [] && Batching.Flatten(h.st.inserted) == docs)
    ensures var h := HaltDrain(HaltLoop(docs, size, faults), faults);
      var batches := h.st.inserted + h.st.lost;
      (forall k :: 0 <= k < |batches| ==> 1 <= |batches[k]| <= Cap(size)) &&
      (forall k :: 0 <= k < |batches| - 1 ==> |batches[k]| == Cap(size))
  {
    var h := HaltLoop(docs, size, faults);
    HaltLoopKeeps(docs, size, faults);
    HaltLoopSized(docs, size, faults);
    DrainSized(h, size, faults);
    var fin := HaltDrain(h, faults);
    if !h.threw && h.st.buffer != [] {
      HaltedFlush(h.st, docs, faults);
    }
    HaltedSent(fin, docs, faults);
    var sent := fin.st.sent;
    if fin.threw {
      assert sent == fin.st.inserted + fin.st.lost;
      Batching.FlattenAppend(fin.st.inserted, fin.st.lost);
    } else {
      assert Batching.Flatten(fin.st.lost) == [];
    }
  }

  /** Without faults the Migrate copy inserts every document and does not throw. */
  lemma HaltedWithoutFaults(docs: seq<Document>, size: nat, faults: seq<bool>)
    requires NoFaults(faults)
    ensures !HaltDrain(HaltLoop(docs, size, faults), faults).threw
    ensures Batching.Flatten(HaltDrain(HaltLoop(docs, size, faults), faults).st.inserted) == docs
  {
    HaltedCopy(docs, size, faults);
  }

  /**
   * The report of the Migrate `CopyCollection` for collection `col`: a negative
   * capacity throws before anything; the target, of the same name, is dropped when
   * asked before the system guard; a guarded collection is left alone; otherwise the
   * documents are copied in `_id` order until an insert throws, and the indexes other
   * than `_id_` recreated when the copy finished.
   */
  function CopyOutcome(database: string, col: string, c: seq<Document>, sourceIndexes: seq<IndexInfo>,
                       insertBatchSize: int, copyIndexes: bool, dropCollections: bool,
                       faults: seq<bool>): (r: Report)
    ensures r.target == col
    ensures r.dropped <==> insertBatchSize >= 0 && dropCollections
  {
    if insertBatchSize < 0 then Report(col, false, [], [], [], true)
    else if LegacySystemNamespace(database, col) then Report(col, dropCollections, [], [], [], false)
    else
      var h := HaltDrain(HaltLoop(Find(c, None, None), insertBatchSize, faults), faults);
      Report(col, dropCollections, h.st.inserted, h.st.lost,
             if copyIndexes && !h.threw then Singles(Recreated(sourceIndexes, false, false)) else [],
             h.threw)
  }

  /**
   * The batches of a copy, inserted then lost, hold `insertBatchSize` documents each
   * (one for a size of 0), except a shorter last one.
   */
  lemma CopiedInBatches(database: string, col: string, c: seq<Document>, sourceIndexes: seq<IndexInfo>,
                        insertBatchSize: int, copyIndexes: bool, dropCollections: bool, faults: seq<bool>)
    ensures var r := CopyOutcome(database, col, c, sourceIndexes, insertBatchSize, copyIndexes, dropCollections, faults);
      var batches := r.inserted + r.lost;
      insertBatchSize >= 0 ==>
        (forall k :: 0 <= k < |batches| ==> 1 <= |batches[k]| <= Cap(insertBatchSize)) &&
        (forall k :: 0 <= k < |batches| - 1 ==> |batches[k]| == Cap(insertBatchSize))
  {
    if insertBatchSize >= 0 && !LegacySystemNamespace(database, col) {
      HaltedCopy(Find(c, None, None), insertBatchSize, faults);
    }
  }

  /** The drop comes before the guard: a system collection's target is still dropped, and nothing is written. */
  lemma SystemTargetDropped(database: string, col: string, c: seq<Document>, sourceIndexes: seq<IndexInfo>,
                            insertBatchSize: nat, copyIndexes: bool, faults: seq<bool>)
    requires LegacySystemNamespace(database, col)
    ensures var r := CopyOutcome(database, col, c, sourceIndexes, insertBatchSize, copyIndexes, true, faults);
      r.dropped && r.inserted == [] && r.lost == [] && r.indexes == [] && !r.threw
  {
  }

  /** A copy that does not throw reads every document of the collection, in `_id` order, and inserts it. */
  lemma CopiedInIdOrder(database: string, col: string, c: seq<Document>, sourceIndexes: seq<IndexInfo>,
                        insertBatchSize: nat, copyIndexes: bool, dropCollections: bool, faults: seq<bool>)
    requires Ascending(c) && !LegacySystemNamespace(database, col)
    ensures var r := CopyOutcome(database, col, c, sourceIndexes, insertBatchSize, copyIndexes, dropCollections, faults);
      !r.threw ==> Batching.Flatten(r.inserted) == Find(c, None, None) && Ascending(Batching.Flatten(r.inserted))
  {
    FindSpec(c, None, None);
    HaltedCopy(Find(c, None, None), insertBatchSize, faults);
  }

  /**
   * `CopyCollection` of Migrate/Migrator.cs, over the collection `c` in `_id`
   * order; its report is `CopyOutcome`.
   */
  method CopyCollection(database: string, col: string, c: seq<Document>, sourceIndexes: seq<IndexInfo>,
                        insertBatchSize: int, copyIndexes: bool, dropCollections: bool, faults: seq<bool>)
    returns (r: Report)
    ensures r == CopyOutcome(database, col, c, sourceIndexes, insertBatchSize, copyIndexes, dropCollections, faults)
  {
    if insertBatchSize < 0 {
      return Report(col, false, [], [], [], true);
    }
    r := Report(col, dropCollections, [], [], [], false);
    if LegacySystemNamespace(database, col) {
      return;
    }
    var docs := Find(c, None, None);
    var buffer: seq<Document> := [];
    var inserted: seq<seq<Document>> := [];
    var calls := 0;
    var i := 0;
    while i < |docs|
      invariant 0 <= i <= |docs|
      invariant var h := HaltLoop(docs[..i], insertBatchSize, faults);
        !h.threw && h.st.lost == [] && inserted == h.st.inserted && buffer == h.st.buffer && calls == |h.st.sent|
    {
      assert docs[..i + 1][..i] == docs[..i];
      buffer := buffer + [docs[i]];
      i := i + 1;
      if |buffer| >= insertBatchSize {
        if Throws(faults, calls) {
          HaltSticks(docs, i, insertBatchSize, faults);
          r := r.(inserted := inserted, lost := [buffer], threw := true);
          return;
        }
        inserted := inserted + [buffer];
        buffer := [];
        calls := calls + 1;
      }
    }
    assert docs[..|docs|] == docs;
    if |buffer| > 0 {
      if Throws(faults, calls) {
        r := r.(inserted := inserted, lost := [buffer], threw := true);
        return;
      }
      inserted := inserted + [buffer];
    }
    r := r.(inserted := inserted);
    if copyIndexes {
      var requests := LegacyIndexes(sourceIndexes);
      r := r.(indexes := requests);
    }
  }

  /** A source database: its name, its listed collections, and each collection's documents (in `_id` order) and indexes. */
  datatype SourceDb = SourceDb(name: string, names: seq<string>, docs: string -> seq<Document>,
                               indexes: string -> seq<IndexInfo>)

  /** The copy options shared by every collection. */
  datatype Settings = Settings(insertBatchSize: int, copyIndexes: bool, dropCollections: bool)

  /** The defaults of the three entry points: batches of 100, indexes copied, nothing dropped. */
  const Defaults := Settings(100, true, false)

  function Outcome(db: SourceDb, col: string, s: Settings, faults: string -> seq<bool>): Report {
    CopyOutcome(db.name, col, db.docs(col), db.indexes(col), s.insertBatchSize, s.copyIndexes,
                s.dropCollections, faults(col))
  }

  /** The last copy threw, which ends the dispatch loop. */
  predicate Stopped(reports: seq<Report>) {
    reports != [] && reports[|reports| - 1].threw
  }

  /** The copies of the collections, in order, up to and including the first that throws. */
  function CopyAll(db: SourceDb, cols: seq<string>, s: Settings, faults: string -> seq<bool>): seq<Report>
    decreases |cols|
  {
    if cols == [] then []
    else
      var prev := CopyAll(db, cols[..|cols| - 1], s, faults);
      if Stopped(prev) then prev else prev + [Outcome(db, cols[|cols| - 1], s, faults)]
  }

  /** The k-th report is the copy of the k-th collection. */
  predicate Dispatched(db: SourceDb, cols: seq<string>, s: Settings, faults: string -> seq<bool>, rs: seq<Report>) {
    |rs| <= |cols| && forall k :: 0 <= k < |rs| ==> rs[k] == Outcome(db, cols[k], s, faults)
  }

  lemma DispatchedSnoc(db: SourceDb, cols: seq<string>, col: string, s: Settings, faults: string -> seq<bool>,
                       rs: seq<Report>)
    requires Dispatched(db, cols, s, faults, rs)
    ensures Dispatched(db, cols + [col], s, faults, rs)
    ensures |rs| == |cols| ==> Dispatched(db, cols + [col], s, faults, rs + [Outcome(db, col, s, faults)])
  {
  }

  /**
   * The dispatch loop copies the collections in the given order, each once, to a
   * target of the same name; it stops right after the first copy that throws, so
   * later collections are not copied.
   */
  lemma {:induction false} CopyAllInOrder(db: SourceDb, cols: seq<string>, s: Settings, faults: string -> seq<bool>)
    ensures Dispatched(db, cols, s, faults, CopyAll(db, cols, s, faults))
    ensures forall k :: 0 <= k < |CopyAll(db, cols, s, faults)| - 1 ==> !CopyAll(db, cols, s, faults)[k].threw
    ensures |CopyAll(db, cols, s, faults)| < |cols| ==> Stopped(CopyAll(db, cols, s, faults))
    decreases |cols|
  {
    if cols != [] {
      var init := cols[..|cols| - 1];
      var col := cols[|cols| - 1];
      assert cols == init + [col];
      CopyAllInOrder(db, init, s, faults);
      DispatchedSnoc(db, init, col, s, faults, CopyAll(db, init, s, faults));
    }
  }

  /** Every report names, as its target, the collection it copied. */
  lemma TargetsAreSources(db: SourceDb, cols: seq<string>, s: Settings, faults: string -> seq<bool>)
    ensures var rs := CopyAll(db, cols, s, faults);
      |rs| <= |cols| && forall k :: 0 <= k < |rs| ==> rs[k].target == cols[k]
  {
    CopyAllInOrder(db, cols, s, faults);
  }

  /** Once a copy has thrown, later collections change nothing. */
  lemma {:induction false} CopyAllSticks(db: SourceDb, cols: seq<string>, k: nat, s: Settings, faults: string -> seq<bool>)
    requires k <= |cols| && Stopped(CopyAll(db, cols[..k], s, faults))
    ensures CopyAll(db, cols, s, faults) == CopyAll(db, cols[..k], s, faults)
    decreases |cols|
  {
    if k < |cols| {
      var init := cols[..|cols| - 1];
      assert init[..k] == cols[..k];
      CopyAllSticks(db, init, k, s, faults);
    } else {
      assert cols[..k] == cols;
    }
  }

  /** A negative batch size makes the first copy throw, so nothing is copied. */
  lemma NegativeBatchSizeStopsAtOnce(db: SourceDb, cols: seq<string>, s: Settings, faults: string -> seq<bool>)
    requires cols != [] && s.insertBatchSize < 0
    ensures CopyAll(db, cols, s, faults) == [Report(cols[0], false, [], [], [], true)]
  {
    var one := CopyAll(db, cols[..1], s, faults);
    assert cols[..1][..0] == [] && cols[..1][0] == cols[0];
    assert CopyAll(db, cols[..1][..0], s, faults) == [];
    assert Outcome(db, cols[0], s, faults) == Report(cols[0], false, [], [], [], true);
    assert one == [Report(cols[0], false, [], [], [], true)];
    CopyAllSticks(db, cols, 1, s, faults);
  }

  /** The loop shared by the three entry points: one `CopyCollection` per name, stopping when one throws. */
  method CopyCollections(db: SourceDb, cols: seq<string>, s: Settings, faults: string -> seq<bool>)
    returns (reports: seq<Report>)
    ensures reports == CopyAll(db, cols, s, faults)
  {
    reports := [];
    var i := 0;
    while i < |cols|
      invariant 0 <= i <= |cols|
      invariant reports == CopyAll(db, cols[..i], s, faults) && !Stopped(reports)
    {
      var col := cols[i];
      var r := CopyCollection(db.name, col, db.docs(col), db.indexes(col), s.insertBatchSize,
                              s.copyIndexes, s.dropCollections, faults(col));
      assert cols[..i + 1][..i] == cols[..i];
      reports := reports + [r];
      i := i + 1;
      if r.threw {
        CopyAllSticks(db, cols, i, s, faults);
        return;
      }
    }
    assert cols[..|cols|] == cols;
  }

  /** `DatabaseCopy`: every listed collection, in listing order. */
  method DatabaseCopy(db: SourceDb, s: Settings, faults: string -> seq<bool>) returns (reports: seq<Report>)
    ensures reports == CopyAll(db, db.names, s, faults)
    ensures |reports| <= |db.names| && forall k :: 0 <= k < |reports| ==> reports[k].target == db.names[k]
  {
    reports := CopyCollections(db, db.names, s, faults);
    TargetsAreSources(db, db.names, s, faults);
  }

  /** `CollectionsCopy` with a list: the listed names, in list order, whether or not the source lists them. */
  method CollectionsCopy(db: SourceDb, collectionsToCopy: seq<string>, s: Settings, faults: string -> seq<bool>)
    returns (reports: seq<Report>)
    ensures reports == CopyAll(db, collectionsToCopy, s, faults)
    ensures |reports| <= |collectionsToCopy| &&
      forall k :: 0 <= k < |reports| ==> reports[k].target == collectionsToCopy[k]
  {
    reports := CopyCollections(db, collectionsToCopy, s, faults);
    TargetsAreSources(db, collectionsToCopy, s, faults);
  }

  /** `CollectionsCopy` with a mask: the listed collections whose name contains the mask (ordinal, case-sensitive), in listing order. */
  method CollectionsCopyMasked(db: SourceDb, collectionsNameMask: string, s: Settings, faults: string -> seq<bool>)
    returns (reports: seq<Report>)
    ensures reports == CopyAll(db, Resolver.Masked(db.names, collectionsNameMask), s, faults)
    ensures forall k :: 0 <= k < |reports| ==>
      reports[k].target in db.names && Text.Contains(reports[k].target, collectionsNameMask)
  {
    var selected := Resolver.Masked(db.names, collectionsNameMask);
    reports := CopyCollections(db, selected, s, faults);
    TargetsAreSources(db, selected, s, faults);
    assert forall k :: 0 <= k < |reports| ==> reports[k].target in selected by {
      forall k | 0 <= k < |reports| ensures reports[k].target in selected {
        assert reports[k].target == selected[k];
      }
    }
  }
}
