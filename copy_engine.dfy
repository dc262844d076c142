/**
 * `CopyCollection` and `CreateCollection` of MongoToolsLib/SharedMethods.cs: the
 * copy of one collection from a source database to a target database.
 *
 * The driver is replaced by inputs: the source collection (absent, or its documents
 * in `_id` order), the answers of `IsCapped` and `GetStats` (absent when the call
 * throws), the target collection as it is before the copy, whether `Drop` throws,
 * the target server's version, and the fault schedules of the source cursor and of
 * `SafeInsertBatch`. What the copy does to the target is its report: whether the
 * target was dropped, the configuration it was created with, the index requests
 * sent, and the batches inserted.
 */
module CopyEngine {
  import opened Wrappers
  import opened Text
  import opened SafeCursor
  import opened Batching
  import opened StorageConfig
  import opened Indexes

  /** How a collection copy ends. */
  datatype Status =
    | Copied             // the copy ran to its end
    | Failed             // an exception reached the handler around the copy
    | SkippedSystem      // a system collection, or a collection of the system or local database
    | SkippedMissing     // the source collection does not exist
    | SkippedCapped      // capped collections are not copied
    | SkippedExisting    // skip-existing, and the target already holds documents
    | SkippedNotSmaller  // if-smaller, and the target holds at least as many documents as the source
    | DropFailed         // the target had to be dropped and the drop threw

  /**
   * The source collection: its namespace, its documents (`None` when it does not
   * exist), the answers of `IsCapped` and of `GetStats().AverageObjectSize` (`None`
   * when the call throws) and its index listing. The average is a double in the
   * statistics; `averageObjectSize` is its value after the `(int)` cast, so an
   * average below one arrives as 0.
   */
  datatype Source = Source(database: string, name: string, docs: Option<seq<Document>>,
                           capped: Option<bool>, averageObjectSize: Option<int>, indexes: seq<IndexInfo>)

  /**
   * The target collection before the copy, whether dropping it throws, and its
   * server's version: major, minor, and `MajorRevision` (the high half of the
   * fourth version component).
   */
  datatype Target = Target(docs: Option<seq<Document>>, dropFails: bool, major: int, minor: int, majorRevision: int)

  /** The options `CopyCollection` reads. */
  datatype CopyOptions = CopyOptions(
    skipExisting: bool,           // skip-existing
    resume: bool,                 // resume
    ifSmaller: bool,              // if-smaller
    copyIndexesBefore: bool,      // copy-indexes-before
    indexesBackground: bool,      // indexes-background
    indexesSparse: bool,          // indexes-sparse
    configString: Option<string>, // collection-wt-configString
    compressor: Option<string>,   // collection-wt-block-compressor
    allocation: Option<string>)   // collection-wt-allocation

  /** The fault schedules of the source cursor's `MoveNext` and of `SafeInsertBatch`. */
  datatype Faults = Faults(cursor: seq<bool>, insert: seq<bool>)

  /**
   * What a copy did: how it ended, whether the target was dropped, the configuration
   * entries the target was created with (`None`: no create call), the index requests
   * sent, and the batches inserted, in order.
   */
  datatype CopyReport = CopyReport(status: Status, dropped: bool, created: Option<seq<string>>,
                                   indexRequests: seq<IndexRequest>, batches: seq<seq<Document>>)

  /** An exit that leaves the target untouched. */
  function Quiet(status: Status): CopyReport {
    CopyReport(status, false, None, [], [])
  }

  /** The target collection's name: the source's own name unless a non-empty one is given. */
  function TargetName(sourceName: string, targetName: Option<string>): (r: string)
    ensures targetName.Some? && targetName.value != "" ==> r == targetName.value
    ensures targetName.None? || targetName.value == "" ==> r == sourceName
  {
    if targetName.None? || targetName.value == "" then sourceName else targetName.value
  }

  /**
   * The safety guard: a namespace containing `system.`, or a collection of the
   * `system` or `local` database, all ignoring case.
   */
  predicate IsSystemNamespace(database: string, collection: string) {
    ContainsIgnoreCase(database + "." + collection, "system.") ||
    EqualsIgnoreCase(database, "system") || EqualsIgnoreCase(database, "local")
  }

  /** Every collection whose name starts with `system.`, in any case, is guarded. */
  lemma SystemCollectionsAreGuarded(database: string, prefix: string, rest: string)
    requires EqualsIgnoreCase(prefix, "system.")
    ensures IsSystemNamespace(database, prefix + rest)
  {
    var full := database + "." + (prefix + rest);
    var at := |database| + 1;
    assert full[at..at + |prefix|] == prefix;
    assert Lowered(full)[at..at + |prefix|] == Lowered(prefix);
    ContainsAt(Lowered(full), Lowered("system."), at);
  }

  /** C#'s `int` division, which truncates toward zero. */
  function Quotient(a: int, b: int): int
    requires b != 0
  {
    var q := (if a < 0 then -a else a) / (if b < 0 then -b else b);
    if (a < 0) == (b < 0) then q else -q
  }

  /** One more than the number of whole objects of the average size that fit in 4 MB, capped at 200. */
  lemma BatchesFit(average: int)
    requires average != 0
    ensures var computed := Quotient(4194304, average) + 1;
      var bounded := if computed > 200 then 200 else computed;
      average > 0 ==>
        (bounded < 200 ==> (bounded - 1) * average <= 4194304 < bounded * average) &&
        (bounded == 200 <==> 199 * average <= 4194304)
  {
    if average > 0 {
      var q := 4194304 / average;
      assert Quotient(4194304, average) == q;
      QuotientBounds(4194304, average);
      if q >= 199 {
        ScaleMonotone(199, q, average);
      } else {
        ScaleMonotone(q + 1, 199, average);
      }
    }
  }

  /** Integer division brackets its dividend between two multiples of the divisor. */
  lemma QuotientBounds(n: nat, d: int)
    requires d > 0
    ensures (n / d) * d <= n < (n / d + 1) * d
  {
    var q, r := n / d, n % d;
    assert n == q * d + r && 0 <= r < d;
    assert (q + 1) * d == q * d + d;
  }

  /** Scaling by a positive factor keeps the order. */
  lemma ScaleMonotone(a: int, b: int, c: int)
    requires a <= b && c > 0
    ensures a * c <= b * c
  {
    assert b * c - a * c == (b - a) * c;
  }

  /**
   * The insert batch size: a requested size of at least one is kept; otherwise
   * 4 MB over the average object size, plus one, capped at 200. When the capped
   * check or the statistics call throws, or the average is zero (the division
   * throws; an average below one is cast to zero), the size stays unset and the
   * sanity check makes it 100.
   */
  function AutoBatchSize(requested: int, capped: Option<bool>, averageObjectSize: Option<int>): (size: int)
    requires capped != Some(true)
    ensures size >= 1
    ensures requested >= 1 ==> size == requested
    ensures requested < 1 ==> size <= 200
    ensures requested < 1 && (capped.None? || averageObjectSize.None? || averageObjectSize == Some(0)) ==> size == 100
    ensures requested < 1 && capped == Some(false) && averageObjectSize.Some? && averageObjectSize.value > 0 ==>
      (size < 200 ==> (size - 1) * averageObjectSize.value <= 4194304 < size * averageObjectSize.value) &&
      (size == 200 <==> 199 * averageObjectSize.value <= 4194304)
  {
    if requested >= 1 then requested
    else if capped.None? || averageObjectSize.None? || averageObjectSize.value == 0 then 100
    else
      var computed := Quotient(4194304, averageObjectSize.value) + 1;
      var bounded := if computed > 200 then 200 else computed;
      BatchesFit(averageObjectSize.value);
      if bounded <= 0 then 100 else bounded
  }

  /** Documents of about 40 KB give batches of 105; small documents hit the cap of 200. */
  lemma AutoBatchSizeExamples()
    ensures AutoBatchSize(-1, Some(false), Some(40000)) == 105
    ensures AutoBatchSize(0, Some(false), Some(1000)) == 200
    ensures AutoBatchSize(0, None, Some(1000)) == 100
    ensures AutoBatchSize(500, Some(false), Some(1000)) == 500
  {
  }

  /** The `_id` of the target's last document in `_id` order (the resume query); `None` for an empty target. */
  function MaxId(docs: seq<Document>): (r: Option<int>)
    ensures r.None? <==> docs == []
    ensures Ascending(docs) && r.Some? ==> forall k :: 0 <= k < |docs| ==> docs[k].id <= r.value
  {
    if docs == [] then None else Some(docs[|docs| - 1].id)
  }

  /** The `last` document the copy resumes after: the target's maximum `_id`, with resume on. */
  function ResumeFloor(target: Option<seq<Document>>, options: CopyOptions): Option<int> {
    if target.Some? && options.resume then MaxId(target.value) else None
  }

  /**
   * The early exits of the checks on an existing target. The if-smaller exit is
   * the skip the code logs; `TargetVerdictAsWritten` is the code as written.
   */
  function TargetVerdict(target: Option<seq<Document>>, total: nat, options: CopyOptions): Option<Status> {
    if target.None? then None
    else if options.skipExisting && |target.value| > 0 then Some(SkippedExisting)
    else if options.ifSmaller && |target.value| >= total then Some(SkippedNotSmaller)
    else None
  }

  /**
   * The checks as written: the if-smaller exit formats `last["_id"]` into its log
   * message, which throws when there is no `last` document, so the exit reaches the
   * outer handler as an error.
   */
  function TargetVerdictAsWritten(target: Option<seq<Document>>, total: nat, options: CopyOptions): Option<Status> {
    if target.None? then None
    else if options.skipExisting && |target.value| > 0 then Some(SkippedExisting)
    else if options.ifSmaller && |target.value| >= total then
      Some(if ResumeFloor(target, options).None? then Failed else SkippedNotSmaller)
    else None
  }

  /**
   * Without resume, an if-smaller exit is reported as a failed copy by the code as
   * written; both versions agree everywhere else.
   */
  lemma IfSmallerWithoutResumeFails(target: seq<Document>, total: nat, options: CopyOptions)
    requires !(options.skipExisting && |target| > 0) && options.ifSmaller && |target| >= total && !options.resume
    ensures TargetVerdictAsWritten(Some(target), total, options) == Some(Failed)
    ensures TargetVerdict(Some(target), total, options) == Some(SkippedNotSmaller)
  {
  }

  lemma VerdictsAgreeOtherwise(target: Option<seq<Document>>, total: nat, options: CopyOptions)
    requires TargetVerdictAsWritten(target, total, options) != TargetVerdict(target, total, options)
    ensures target.Some? && options.ifSmaller && ResumeFloor(target, options).None?
    ensures TargetVerdict(target, total, options) == Some(SkippedNotSmaller)
  {
  }

  /** The checks on an existing target as written (`asWritten`) or as corrected. */
  function Verdict(asWritten: bool, target: Option<seq<Document>>, total: nat, options: CopyOptions): Option<Status> {
    if asWritten then TargetVerdictAsWritten(target, total, options) else TargetVerdict(target, total, options)
  }

  /** The server test of `CreateIndexes` as written (`asWritten`) or as corrected. */
  predicate Legacy(asWritten: bool, target: Target) {
    if asWritten then LegacyServerAsWritten(target.major, target.majorRevision) else LegacyServer(target.major, target.minor)
  }

  /** Both versions of the checks exit for the same targets; only the status of the if-smaller exit differs. */
  lemma VerdictsExitAlike(asWritten: bool, target: Option<seq<Document>>, total: nat, options: CopyOptions)
    ensures Verdict(asWritten, target, total, options).None? <==> TargetVerdict(target, total, options).None?
    ensures Verdict(asWritten, target, total, options) != TargetVerdict(target, total, options) ==>
      asWritten && Verdict(asWritten, target, total, options) == Some(Failed)
  {
  }

  /**
   * The drop decision on an existing target that passed the checks: with
   * drop-collections, or with creation options and an empty target; never when the
   * copy resumes after a document.
   */
  predicate DropsTarget(target: Option<seq<Document>>, total: nat, options: CopyOptions, dropCollections: bool) {
    target.Some? && TargetVerdict(target, total, options).None? &&
    (dropCollections || (HasCollectionCreationOptions(options.compressor, options.allocation) && |target.value| == 0)) &&
    ResumeFloor(target, options).None?
  }

  /** Resume never drops a target that holds documents. */
  lemma ResumeKeepsTarget(target: seq<Document>, total: nat, options: CopyOptions, dropCollections: bool)
    requires options.resume && DropsTarget(Some(target), total, options, dropCollections)
    ensures target == []
  {
  }

  /** The copy passes the guard, the existence and the capped checks. */
  predicate Starts(source: Source) {
    !IsSystemNamespace(source.database, source.name) && source.docs.Some? && source.capped != Some(true)
  }

  /** The copy gets as far as creating the target and reading the source. */
  predicate Copies(source: Source, target: Target, options: CopyOptions, dropCollections: bool) {
    Starts(source) && TargetVerdict(target.docs, |source.docs.value|, options).None? &&
    !(DropsTarget(target.docs, |source.docs.value|, options, dropCollections) && target.dropFails)
  }

  /** Every batch holds between one and `size` documents, and all but the last exactly `size`. */
  predicate BatchShape(batches: seq<seq<Document>>, size: int) {
    forall k :: 0 <= k < |batches| ==> 1 <= |batches[k]| <= size && (k < |batches| - 1 ==> |batches[k]| == size)
  }

  /**
   * The transfer ends in an exception: the cursor's error budget runs out, or a full
   * batch fails twice in a row.
   */
  predicate TransferFails(docs: seq<Document>, floor: Option<int>, size: nat, faults: Faults)
    requires size >= 1
  {
    var all := Find(docs, None, floor);
    var run := QueryRun(faults.cursor, |all|, 0);
    run.failed || (run.count <= |all| && WriteFull(FullBatches(all[..run.count], size), faults.insert).aborted)
  }

  /**
   * The copy loop: the documents above `floor` come from `SafeQuery` in `_id` order
   * and are inserted in batches of `size`; the last, shorter batch is inserted once
   * the cursor ends, and its failure is only logged.
   */
  method Transfer(docs: seq<Document>, floor: Option<int>, size: nat, faults: Faults)
    returns (batches: seq<seq<Document>>, failed: bool)
    requires Ascending(docs) && size >= 1
    ensures |Flatten(batches)| <= |Find(docs, None, floor)|
    ensures Flatten(batches) == Find(docs, None, floor)[..|Flatten(batches)|]
    ensures BatchShape(batches, size)
    ensures failed == TransferFails(docs, floor, size, faults)
    // without an exception only a remainder shorter than a batch can be missing, and only when its insert fails
    ensures !failed ==> |Find(docs, None, floor)| - |Flatten(batches)| < size
    ensures !failed && true !in faults.insert ==> Flatten(batches) == Find(docs, None, floor)
    ensures faults.cursor == [] && faults.insert == [] ==> !failed && Flatten(batches) == Find(docs, None, floor)
  {
    var yielded, readFailed := SafeQuery(docs, None, floor, faults.cursor);
    var written, rest, aborted, buffer := WriteStream(yielded, size, faults.insert);
    WrittenIsPrefix(yielded, size, faults.insert);
    WrittenSizes(yielded, size, faults.insert);
    BatchSizes(yielded, size);
    LeftoverIsSuffix(FullBatches(yielded, size), faults.insert);
    batches, failed := written, readFailed || aborted;
    if true !in faults.insert && rest != [] {
      assert rest[0] == faults.insert[|faults.insert| - |rest|];
    }
    if !failed && |buffer| > 0 && !Fails(rest) {
      FlattenAppend(written, [buffer]);
      assert Flatten([buffer]) == buffer;
      batches := written + [buffer];
    }
    if faults.cursor == [] && faults.insert == [] {
      WriteFullNoFaults(FullBatches(yielded, size));
    }
  }

  /**
   * `CreateCollection`: nothing when the target exists; otherwise the configuration
   * list is built and the collection created with it if it is not empty (a failing
   * create is only logged).
   */
  method CreateCollection(targetExists: bool, options: CopyOptions) returns (created: Option<seq<string>>)
    ensures targetExists ==> created.None?
    ensures !targetExists ==> (created.Some? <==> WantsConfig(options.configString, options.compressor, options.allocation))
    ensures created.Some? ==>
      Where(created.value, IsUserEntry) == Where(ParseConfigString(options.configString), IsUserEntry)
    ensures created.Some? ==>
      Where(created.value, IsCompressorEntry) ==
        if ValidCompressor(options.compressor) then [CompressorKey + Lowered(options.compressor.value)]
        else Where(ParseConfigString(options.configString), IsCompressorEntry)
    ensures created.Some? && AllocationPreset(options.allocation).Some? ==>
      var es := PresetEntries(AllocationPreset(options.allocation).value);
      Where(created.value, IsAllocationSizeEntry) == [es[0]] &&
      Where(created.value, IsLeafPageMaxEntry) == [es[1]] &&
      Where(created.value, IsInternalPageMaxEntry) == [es[2]]
    ensures created.Some? && AllocationPreset(options.allocation).None? ==>
      Where(created.value, IsPageEntry) == Where(ParseConfigString(options.configString), IsPageEntry)
  {
    if targetExists {
      return None;
    }
    var config := BuildConfig(options.configString, options.compressor, options.allocation);
    if |config| > 0 {
      created := Some(config);
    } else {
      created := None;
    }
  }

  /**
   * `CopyCollection`: the guards, the batch size, the checks on an existing target,
   * the drop, the create, the indexes before or after, and the copy loop.
   */
  method CopyCollection(source: Source, target: Target, insertBatchSize: int, copyIndexes: bool,
                        dropCollections: bool, options: CopyOptions, faults: Faults, asWritten: bool)
    returns (report: CopyReport)
    requires source.docs.Some? ==> Ascending(source.docs.value)
    requires target.docs.Some? ==> Ascending(target.docs.value)
    // every early exit leaves the target untouched
    ensures IsSystemNamespace(source.database, source.name) ==> report == Quiet(SkippedSystem)
    ensures !IsSystemNamespace(source.database, source.name) && source.docs.None? ==> report == Quiet(SkippedMissing)
    ensures !IsSystemNamespace(source.database, source.name) && source.docs.Some? && source.capped == Some(true) ==>
      report == Quiet(SkippedCapped)
    ensures Starts(source) && Verdict(asWritten, target.docs, |source.docs.value|, options).Some? ==>
      report == Quiet(Verdict(asWritten, target.docs, |source.docs.value|, options).value)
    ensures Starts(source) && TargetVerdict(target.docs, |source.docs.value|, options).None? &&
            DropsTarget(target.docs, |source.docs.value|, options, dropCollections) && target.dropFails ==>
      report == Quiet(DropFailed)
    // otherwise the copy runs, to its end or to an exception
    ensures Copies(source, target, options, dropCollections) <==>
      (report.status == Copied || report.status == Failed) &&
      !(Starts(source) && Verdict(asWritten, target.docs, |source.docs.value|, options).Some?)
    ensures report.dropped <==>
      Copies(source, target, options, dropCollections) && DropsTarget(target.docs, |source.docs.value|, options, dropCollections)
    ensures Copies(source, target, options, dropCollections) ==>
      (report.created.Some? <==>
        (target.docs.None? || report.dropped) && WantsConfig(options.configString, options.compressor, options.allocation))
    ensures Copies(source, target, options, dropCollections) ==>
      report.indexRequests ==
        if options.copyIndexesBefore || (copyIndexes && report.status == Copied)
        then Requests(source.indexes, options.indexesBackground, options.indexesSparse, Legacy(asWritten, target))
        else []
    // what is inserted: the source's documents above the resume point, in `_id` order, in batches
    ensures Copies(source, target, options, dropCollections) ==>
      var all := Find(source.docs.value, None, ResumeFloor(target.docs, options));
      |Flatten(report.batches)| <= |all| && Flatten(report.batches) == all[..|Flatten(report.batches)|]
    ensures Copies(source, target, options, dropCollections) ==>
      BatchShape(report.batches, AutoBatchSize(insertBatchSize, source.capped, source.averageObjectSize))
    ensures Copies(source, target, options, dropCollections) ==>
      (report.status == Failed <==>
        TransferFails(source.docs.value, ResumeFloor(target.docs, options),
                      AutoBatchSize(insertBatchSize, source.capped, source.averageObjectSize), faults))
    // a copy that ends without an exception misses at most a remainder whose insert failed
    ensures Copies(source, target, options, dropCollections) && report.status == Copied ==>
      |Find(source.docs.value, None, ResumeFloor(target.docs, options))| - |Flatten(report.batches)| <
        AutoBatchSize(insertBatchSize, source.capped, source.averageObjectSize)
    ensures Copies(source, target, options, dropCollections) && report.status == Copied && true !in faults.insert ==>
      Flatten(report.batches) == Find(source.docs.value, None, ResumeFloor(target.docs, options))
    ensures Copies(source, target, options, dropCollections) && faults.cursor == [] && faults.insert == [] ==>
      report.status == Copied &&
      Flatten(report.batches) == Find(source.docs.value, None, ResumeFloor(target.docs, options))
  {
    if IsSystemNamespace(source.database, source.name) {
      return Quiet(SkippedSystem);
    }
    if source.docs.None? {
      return Quiet(SkippedMissing);
    }
    var docs := source.docs.value;
    if source.capped == Some(true) {
      return Quiet(SkippedCapped);
    }
    var size := AutoBatchSize(insertBatchSize, source.capped, source.averageObjectSize);

    var last: Option<int> := None;
    var drop := dropCollections;
    var dropped := false;
    if target.docs.Some? {
      var existing := target.docs.value;
      if options.skipExisting && |existing| > 0 {
        return Quiet(SkippedExisting);
      }
      if options.resume {
        last := MaxId(existing);
      }
      if options.ifSmaller && |existing| >= |docs| {
        if asWritten && last.None? {
          // the skip message formats `last["_id"]`, which throws without a `last` document
          return Quiet(Failed);
        }
        return Quiet(SkippedNotSmaller);
      }
      if HasCollectionCreationOptions(options.compressor, options.allocation) && |existing| == 0 {
        drop := true;
      }
      if drop && last.None? {
        if target.dropFails {
          return Quiet(DropFailed);
        }
        dropped := true;
      }
    }
    assert last == ResumeFloor(target.docs, options);

    report := Proceed(source, target, dropped, last, size, copyIndexes, options, faults, asWritten);
  }

  /**
   * The copy after the checks on the target: create the target, copy the indexes
   * when they go first, run the copy loop, then copy the indexes when they go last.
   */
  method Proceed(source: Source, target: Target, dropped: bool, last: Option<int>, size: nat,
                 copyIndexes: bool, options: CopyOptions, faults: Faults, asWritten: bool)
    returns (report: CopyReport)
    requires source.docs.Some? && Ascending(source.docs.value) && size >= 1
    ensures report.status == Copied || report.status == Failed
    ensures report.dropped == dropped
    ensures report.created.Some? <==>
      (target.docs.None? || dropped) && WantsConfig(options.configString, options.compressor, options.allocation)
    ensures report.indexRequests ==
      if options.copyIndexesBefore || (copyIndexes && report.status == Copied)
      then Requests(source.indexes, options.indexesBackground, options.indexesSparse, Legacy(asWritten, target))
      else []
    ensures |Flatten(report.batches)| <= |Find(source.docs.value, None, last)|
    ensures Flatten(report.batches) == Find(source.docs.value, None, last)[..|Flatten(report.batches)|]
    ensures BatchShape(report.batches, size)
    ensures report.status == Failed <==> TransferFails(source.docs.value, last, size, faults)
    ensures report.status == Copied ==> |Find(source.docs.value, None, last)| - |Flatten(report.batches)| < size
    ensures report.status == Copied && true !in faults.insert ==>
      Flatten(report.batches) == Find(source.docs.value, None, last)
    ensures faults.cursor == [] && faults.insert == [] ==>
      report.status == Copied && Flatten(report.batches) == Find(source.docs.value, None, last)
  {
    var created := CreateCollection(target.docs.Some? && !dropped, options);
    var legacy := Legacy(asWritten, target);
    var requests: seq<IndexRequest> := [];
    if options.copyIndexesBefore {
      requests := CreateIndexes(source.indexes, options.indexesBackground, options.indexesSparse, legacy);
    }

    var batches, failed := Transfer(source.docs.value, last, size, faults);
    if failed {
      return CopyReport(Failed, dropped, created, requests, batches);
    }

    if copyIndexes && !options.copyIndexesBefore {
      requests := CreateIndexes(source.indexes, options.indexesBackground, options.indexesSparse, legacy);
    }
    report := CopyReport(Copied, dropped, created, requests, batches);
  }

  /**
   * What the copy inserts never collides with the target when resuming: every
   * document above the resume point has an `_id` above every document of the target.
   */
  lemma ResumeSkipsTarget(docs: seq<Document>, target: seq<Document>, options: CopyOptions)
    requires Ascending(target) && options.resume
    ensures forall i, j :: 0 <= i < |Find(docs, None, ResumeFloor(Some(target), options))| && 0 <= j < |target| ==>
      target[j].id < Find(docs, None, ResumeFloor(Some(target), options))[i].id
  {
    var floor := ResumeFloor(Some(target), options);
    FindSpec(docs, None, floor);
    forall i, j | 0 <= i < |Find(docs, None, floor)| && 0 <= j < |target|
      ensures target[j].id < Find(docs, None, floor)[i].id
    {
      assert Find(docs, None, floor)[i] in Find(docs, None, floor);
    }
  }

  /**
   * Resuming after an interrupted copy, whose target holds the first `n` documents
   * of the source in `_id` order, inserts exactly the documents that are missing.
   */
  lemma ResumeCompletesCopy(docs: seq<Document>, n: nat, options: CopyOptions)
    requires Ascending(docs) && n <= |docs| && options.resume
    ensures Find(docs, None, ResumeFloor(Some(docs[..n]), options)) == docs[n..]
  {
    FindAll(docs);
    if n > 0 {
      ResumeIsSuffix(docs, None, None, n);
    }
  }

  /** With no filter and no floor a find returns the whole collection. */
  lemma {:induction false} FindAll(docs: seq<Document>)
    ensures Find(docs, None, None) == docs
  {
    if docs != [] {
      FindAll(docs[1..]);
      assert docs == [docs[0]] + docs[1..];
    }
  }
}
