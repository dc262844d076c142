/**
 * Index copying: `CreateIndexes` of MongoToolsLib/SharedMethods.cs, and the index
 * loops of the legacy copies (MongoDB/SharedMethods.cs, Migrate/Migrator.cs).
 *
 * The driver's `GetIndexes` listing is an input; what the model produces is the
 * sequence of index-creation requests sent to the target.
 */
module Indexes {
  import opened Wrappers

  /** An index of the source collection (`IndexInfo`); `ttl` is `None` for `TimeSpan.MaxValue`. */
  datatype IndexInfo = IndexInfo(name: string, key: string, background: bool, sparse: bool,
                                 unique: bool, dropDups: bool, ttl: Option<int>)

  /** The options an index is recreated with on the target. */
  datatype IndexSpec = IndexSpec(name: string, key: string, background: bool, sparse: bool,
                                 unique: bool, dropDups: bool, ttl: Option<int>)

  /** A request to the target: one index (`CreateIndex`/`EnsureIndex`) or one `createIndexes` command. */
  datatype IndexRequest = Single(spec: IndexSpec) | Command(specs: seq<IndexSpec>)

  /** The default index every collection has; it is never copied. */
  const IdIndex := "_id_"

  /**
   * The options of `CreateIndexes`: the source's background and sparse flags, each
   * OR-ed with its `indexes-background` / `indexes-sparse` override; the rest copied.
   */
  function Recreate(idx: IndexInfo, backgroundOption: bool, sparseOption: bool): IndexSpec {
    IndexSpec(idx.name, idx.key, idx.background || backgroundOption, idx.sparse || sparseOption,
              idx.unique, idx.dropDups, idx.ttl)
  }

  /** The options of the legacy copies: taken from the source index alone. */
  function LegacyRecreate(idx: IndexInfo): IndexSpec {
    IndexSpec(idx.name, idx.key, idx.background, idx.sparse, idx.unique, idx.dropDups, idx.ttl)
  }

  /** The indexes that are copied, recreated, in listing order. */
  function Recreated(indexes: seq<IndexInfo>, backgroundOption: bool, sparseOption: bool): seq<IndexSpec> {
    if indexes == [] then []
    else
      (if indexes[0].name == IdIndex then [] else [Recreate(indexes[0], backgroundOption, sparseOption)])
      + Recreated(indexes[1..], backgroundOption, sparseOption)
  }

  /**
   * Exactly the indexes other than `_id_` are recreated: every spec comes from a
   * listed index that is not `_id_`, and every such index has its spec.
   */
  lemma {:induction false} RecreatedSpec(indexes: seq<IndexInfo>, backgroundOption: bool, sparseOption: bool)
    ensures forall s :: s in Recreated(indexes, backgroundOption, sparseOption) <==>
      exists idx :: idx in indexes && idx.name != IdIndex && s == Recreate(idx, backgroundOption, sparseOption)
  {
    if indexes != [] {
      RecreatedSpec(indexes[1..], backgroundOption, sparseOption);
      assert forall idx :: idx in indexes <==> idx == indexes[0] || idx in indexes[1..];
    }
  }

  /** No request ever recreates the `_id_` index, and the overrides only ever turn flags on. */
  lemma {:induction false} RecreatedFlags(indexes: seq<IndexInfo>, backgroundOption: bool, sparseOption: bool)
    ensures forall k :: 0 <= k < |Recreated(indexes, backgroundOption, sparseOption)| ==>
      var s := Recreated(indexes, backgroundOption, sparseOption)[k];
      s.name != IdIndex && (backgroundOption ==> s.background) && (sparseOption ==> s.sparse)
  {
    if indexes != [] {
      RecreatedFlags(indexes[1..], backgroundOption, sparseOption);
    }
  }

  /** Without overrides an index is recreated exactly as the legacy copies recreate it. */
  lemma NoOverrideIsLegacy(idx: IndexInfo)
    ensures Recreate(idx, false, false) == LegacyRecreate(idx)
  {
  }

  /**
   * `CreateIndexes`: for each listed index other than `_id_`, in order, a server
   * older than 2.6 gets one `CreateIndex` request; a newer one gets the spec added
   * to a `createIndexes` command, sent once at the end if it is not empty.
   */
  method CreateIndexes(indexes: seq<IndexInfo>, backgroundOption: bool, sparseOption: bool, legacyServer: bool)
    returns (requests: seq<IndexRequest>)
    ensures legacyServer ==> requests == Singles(Recreated(indexes, backgroundOption, sparseOption))
    ensures !legacyServer ==>
      requests == (if Recreated(indexes, backgroundOption, sparseOption) == [] then []
                   else [Command(Recreated(indexes, backgroundOption, sparseOption))])
    ensures requests == Requests(indexes, backgroundOption, sparseOption, legacyServer)
  {
    requests := [];
    var indexList: seq<IndexSpec> := [];
    for i := 0 to |indexes|
      invariant indexList == Recreated(indexes[..i], backgroundOption, sparseOption)
      invariant legacyServer ==> requests == Singles(indexList)
      invariant !legacyServer ==> requests == []
    {
      var idx := indexes[i];
      RecreatedStep(indexes, i, backgroundOption, sparseOption);
      if idx.name != IdIndex {
        var spec := Recreate(idx, backgroundOption, sparseOption);
        if legacyServer {
          SinglesAppend(indexList, spec);
          requests := requests + [Single(spec)];
        }
        indexList := indexList + [spec];
      }
    }
    assert indexes[..|indexes|] == indexes;
    if !legacyServer && |indexList| > 0 {
      requests := requests + [Command(indexList)];
    }
  }

  /** The requests `CreateIndexes` sends, as one value. */
  function Requests(indexes: seq<IndexInfo>, backgroundOption: bool, sparseOption: bool, legacyServer: bool)
    : seq<IndexRequest>
  {
    var specs := Recreated(indexes, backgroundOption, sparseOption);
    if legacyServer then Singles(specs) else if specs == [] then [] else [Command(specs)]
  }

  /**
   * Every request carries only recreated indexes: the `_id_` index is never sent,
   * whichever kind of server receives the requests.
   */
  lemma RequestsOmitIdIndex(indexes: seq<IndexInfo>, backgroundOption: bool, sparseOption: bool, legacyServer: bool)
    ensures forall r :: r in Requests(indexes, backgroundOption, sparseOption, legacyServer) ==>
      (r.Single? ==> r.spec.name != IdIndex) &&
      (r.Command? ==> forall s :: s in r.specs ==> s.name != IdIndex)
  {
    var specs := Recreated(indexes, backgroundOption, sparseOption);
    RecreatedFlags(indexes, backgroundOption, sparseOption);
    forall r | r in Requests(indexes, backgroundOption, sparseOption, legacyServer)
      ensures (r.Single? ==> r.spec.name != IdIndex) &&
              (r.Command? ==> forall s :: s in r.specs ==> s.name != IdIndex)
    {
      if legacyServer {
        var k :| 0 <= k < |specs| && Singles(specs)[k] == r;
      }
    }
  }

  /**
   * The server test of `CreateIndexes` as written: `Major < 2 && MajorRevision < 6`.
   * `MajorRevision` is the high half of the fourth version component, never 6 or
   * more for a server version, so the test reduces to `Major < 2`.
   */
  predicate LegacyServerAsWritten(major: int, majorRevision: int) {
    major < 2 && majorRevision < 6
  }

  /** The test the comment and `createIndexes` call for: a server older than 2.6. */
  predicate LegacyServer(major: int, minor: int) {
    major < 2 || (major == 2 && minor < 6)
  }

  /**
   * A 2.4 server (which has no `createIndexes` command) is sent the command by the
   * test as written, and single `CreateIndex` requests by the corrected test.
   */
  lemma LegacyServerMisclassified()
    ensures !LegacyServerAsWritten(2, 0) && LegacyServer(2, 4)
    ensures forall major, minor, majorRevision :: majorRevision < 6 && LegacyServerAsWritten(major, majorRevision) ==>
      LegacyServer(major, minor)
  {
  }

  /** One request per spec, in order. */
  function Singles(specs: seq<IndexSpec>): (r: seq<IndexRequest>)
    ensures |r| == |specs| && forall k :: 0 <= k < |specs| ==> r[k] == Single(specs[k])
  {
    if specs == [] then [] else [Single(specs[0])] + Singles(specs[1..])
  }

  lemma SinglesAppend(specs: seq<IndexSpec>, spec: IndexSpec)
    ensures Singles(specs + [spec]) == Singles(specs) + [Single(spec)]
  {
  }

  /**
   * The wait after an index creation timed out: up to 30 polls of `IndexExists`,
   * stopping at the first that reports the index (a poll that throws reports
   * nothing). `found[k]` is the answer of poll `k`; polls past its end find nothing.
   */
  method WaitForIndex(found: seq<bool>) returns (polls: nat)
    ensures 1 <= polls <= 30
    ensures forall k :: 0 <= k < polls - 1 ==> !Reports(found, k)
    ensures polls < 30 ==> Reports(found, polls - 1)
  {
    var i := 0;
    polls := 0;
    while i < 30
      invariant 0 <= i <= 30 && polls == i
      invariant forall k :: 0 <= k < i ==> !Reports(found, k)
    {
      polls := polls + 1;
      if Reports(found, i) {
        break;
      }
      i := i + 1;
    }
  }

  predicate Reports(found: seq<bool>, k: nat) {
    k < |found| && found[k]
  }

  /**
   * The index loop of the legacy copies: one `EnsureIndex` per listed index other
   * than `_id_`, with the source's own options.
   */
  method LegacyIndexes(indexes: seq<IndexInfo>) returns (requests: seq<IndexRequest>)
    ensures requests == Singles(Recreated(indexes, false, false))
  {
    requests := [];
    for i := 0 to |indexes|
      invariant requests == Singles(Recreated(indexes[..i], false, false))
    {
      var idx := indexes[i];
      RecreatedStep(indexes, i, false, false);
      if idx.name != IdIndex {
        NoOverrideIsLegacy(idx);
        SinglesAppend(Recreated(indexes[..i], false, false), LegacyRecreate(idx));
        requests := requests + [Single(LegacyRecreate(idx))];
      }
    }
    assert indexes[..|indexes|] == indexes;
  }

  /** One more listed index: its spec is appended unless it is `_id_`. */
  lemma RecreatedStep(indexes: seq<IndexInfo>, i: int, backgroundOption: bool, sparseOption: bool)
    requires 0 <= i < |indexes|
    ensures Recreated(indexes[..i + 1], backgroundOption, sparseOption) ==
      Recreated(indexes[..i], backgroundOption, sparseOption)
      + (if indexes[i].name == IdIndex then [] else [Recreate(indexes[i], backgroundOption, sparseOption)])
  {
    assert indexes[..i + 1] == indexes[..i] + [indexes[i]];
    RecreatedSnoc(indexes[..i], indexes[i], backgroundOption, sparseOption);
  }

  lemma {:induction false} RecreatedSnoc(indexes: seq<IndexInfo>, idx: IndexInfo, backgroundOption: bool, sparseOption: bool)
    ensures Recreated(indexes + [idx], backgroundOption, sparseOption) ==
      Recreated(indexes, backgroundOption, sparseOption)
      + (if idx.name == IdIndex then [] else [Recreate(idx, backgroundOption, sparseOption)])
  {
    if indexes != [] {
      RecreatedSnoc(indexes[1..], idx, backgroundOption, sparseOption);
      assert (indexes + [idx])[1..] == indexes[1..] + [idx];
    } else {
      assert [idx][1..] == [];
    }
  }
}
