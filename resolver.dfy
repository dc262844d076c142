/**
 * The mapping resolution of MongoToolsLib/Migrator.cs. `ListDatabases` and
 * `ListCollections` turn the name tokens of the command line (an exact name, a name
 * in another case, a `src=dst` rename, a wildcard) into (source, target) pairs over
 * the names the source server lists; `DatabaseCopy` turns the pairs into copy tasks,
 * skipping a collection that would be copied onto itself; the mask overload of
 * `CollectionsCopy` selects collections by substring.
 *
 * The name listings are inputs. The generators are lazy in the code; here they are
 * the sequences they yield.
 */
module Resolver {
  import opened Wrappers
  import opened Text
  import opened Wildcard

  /** A (source, target) name pair. */
  datatype Pair = Pair(source: string, target: string)

  /** `names.FirstOrDefault(name => k.Equals(name, OrdinalIgnoreCase))`. */
  function FirstIgnoreCase(names: seq<string>, k: string): (r: Option<string>)
    ensures r.Some? ==> r.value in names && EqualsIgnoreCase(r.value, k)
    ensures r.None? <==> forall n :: n in names ==> !EqualsIgnoreCase(n, k)
  {
    if names == [] then None
    else if EqualsIgnoreCase(k, names[0]) then Some(names[0])
    else FirstIgnoreCase(names[1..], k)
  }

  /** The name found is the first one in listing order that equals `k` ignoring case. */
  lemma {:induction false} FirstIgnoreCaseIsFirst(names: seq<string>, k: string)
    requires FirstIgnoreCase(names, k).Some?
    ensures exists i :: (0 <= i < |names| && names[i] == FirstIgnoreCase(names, k).value &&
                         forall j :: 0 <= j < i ==> !EqualsIgnoreCase(names[j], k))
  {
    if !EqualsIgnoreCase(k, names[0]) {
      FirstIgnoreCaseIsFirst(names[1..], k);
      var i :| 0 <= i < |names[1..]| && names[1..][i] == FirstIgnoreCase(names[1..], k).value &&
        forall j :: 0 <= j < i ==> !EqualsIgnoreCase(names[1..][j], k);
      assert names[i + 1] == FirstIgnoreCase(names, k).value;
      forall j | 0 <= j < i + 1 ensures !EqualsIgnoreCase(names[j], k) {
        if j > 0 {
          assert names[j] == names[1..][j - 1];
        }
      }
    } else {
      assert names[0] == FirstIgnoreCase(names, k).value;
    }
  }

  /**
   * The lookup of a token: the token itself when it is listed (ordinal), else the
   * first listed name equal to it ignoring case.
   */
  function Resolve(names: seq<string>, k: string): (r: Option<string>)
    ensures k in names ==> r == Some(k)
    ensures r.Some? ==> r.value in names && EqualsIgnoreCase(r.value, k)
    ensures r.None? <==> forall n :: n in names ==> !EqualsIgnoreCase(n, k)
  {
    if k in names then Some(k) else FirstIgnoreCase(names, k)
  }

  /** A `src=dst` token: an `=` after the first character. */
  predicate IsRename(k: string) {
    IndexOf(k, '=') > 0
  }

  /**
   * The pair of a `src=dst` token: the lookup of the text before the `=`, and the
   * second piece of the split on `=`. Nothing when the source is not found or
   * either side is empty.
   */
  function RenamePair(names: seq<string>, k: string): (r: seq<Pair>)
    requires IsRename(k)
    ensures |r| <= 1
    ensures r != [] ==> r[0].source in names && r[0].source != "" && r[0].target != ""
  {
    SplitAtFirst(k, '=');
    var split := Split(k, {'='});
    var found := Resolve(names, split[0]);
    if found.None? || found.value == "" || split[1] == "" then [] else [Pair(found.value, split[1])]
  }

  /**
   * The rename pair in plain terms: the source is looked up by the text before the
   * first `=` and the target is the text after it, up to any second `=`.
   */
  lemma RenamePairSpec(names: seq<string>, k: string)
    requires IsRename(k)
    ensures var i := IndexOf(k, '=');
      var found := Resolve(names, k[..i]);
      var target := Before(k[i + 1..], '=');
      RenamePair(names, k) == if found.None? || found.value == "" || target == "" then [] else [Pair(found.value, target)]
  {
    SplitAtFirst(k, '=');
  }

  /** The listed names a token matches as a case-insensitive wildcard, in listing order. */
  function Matching(names: seq<string>, k: string): (r: seq<string>)
    ensures |r| <= |names|
    ensures forall n :: n in r <==> n in names && WildcardIsMatch(Some(k), Some(n), true)
  {
    if names == [] then []
    else (if WildcardIsMatch(Some(k), Some(names[0]), true) then [names[0]] else []) + Matching(names[1..], k)
  }

  /** Each name mapped to itself. */
  function Identity(names: seq<string>): (r: seq<Pair>)
    ensures |r| == |names| && forall i :: 0 <= i < |names| ==> r[i] == Pair(names[i], names[i])
  {
    if names == [] then [] else [Pair(names[0], names[0])] + Identity(names[1..])
  }

  /** The pairs of one database token without a target list: a rename, else a wildcard expansion. */
  function DatabaseTokenPairs(databases: seq<string>, k: string): seq<Pair> {
    if IsRename(k) then RenamePair(databases, k) else Identity(Matching(databases, k))
  }

  function TokenPairs(databases: seq<string>, tokens: seq<string>): seq<Pair> {
    if tokens == [] then [] else DatabaseTokenPairs(databases, tokens[0]) + TokenPairs(databases, tokens[1..])
  }

  /** The pairs yielded, and whether the enumeration threw before its end. */
  datatype Listing = Listing(pairs: seq<Pair>, failed: bool)

  /**
   * The i-th source token, looked up, paired with the i-th target. An unfound token
   * is skipped before the target is read; a found one past the end of the target
   * list reads out of range and ends the enumeration with an exception.
   */
  function Zipped(databases: seq<string>, sources: seq<string>, targets: seq<string>, i: nat): Listing
    decreases |sources| - i
  {
    if i >= |sources| then Listing([], false)
    else
      var found := Resolve(databases, sources[i]);
      if found.None? || found.value == "" then Zipped(databases, sources, targets, i + 1)
      else if i >= |targets| then Listing([], true)
      else if targets[i] == "" then Zipped(databases, sources, targets, i + 1)
      else
        var rest := Zipped(databases, sources, targets, i + 1);
        Listing([Pair(found.value, targets[i])] + rest.pairs, rest.failed)
  }

  /**
   * `ListDatabases`: nothing for a null source list; an empty target list counts as
   * none; without targets each token is a rename or a wildcard, with targets the
   * lists are paired by position.
   */
  function ListDatabases(databases: seq<string>, sources: Option<seq<string>>, targets: Option<seq<string>>): Listing {
    if sources.None? then Listing([], false)
    else if targets.None? || targets.value == [] then Listing(TokenPairs(databases, sources.value), false)
    else Zipped(databases, sources.value, targets.value, 0)
  }

  /** An empty target list is the same as no target list. */
  lemma EmptyTargetsAreNoTargets(databases: seq<string>, sources: Option<seq<string>>)
    ensures ListDatabases(databases, sources, Some([])) == ListDatabases(databases, sources, None)
  {
  }

  /** A wildcard token maps every listed database it matches to itself, in listing order, and nothing else. */
  lemma WildcardTokenPairs(databases: seq<string>, k: string)
    requires !IsRename(k)
    ensures forall p :: p in DatabaseTokenPairs(databases, k) <==>
      p.source == p.target && p.source in databases && WildcardIsMatch(Some(k), Some(p.source), true)
  {
    var m := Matching(databases, k);
    forall p ensures p in Identity(m) <==> p.source == p.target && p.source in m {
      if p in Identity(m) {
        var i :| 0 <= i < |m| && Identity(m)[i] == p;
      }
      if p.source == p.target && p.source in m {
        var i :| 0 <= i < |m| && m[i] == p.source;
        assert Identity(m)[i] == p;
      }
    }
  }

  /** With a target list at least as long as the source list the enumeration never throws. */
  lemma {:induction false} ZippedComplete(databases: seq<string>, sources: seq<string>, targets: seq<string>, i: nat)
    requires |targets| >= |sources|
    ensures !Zipped(databases, sources, targets, i).failed
    decreases |sources| - i
  {
    if i < |sources| {
      ZippedComplete(databases, sources, targets, i + 1);
    }
  }

  /**
   * Every pair of the positional pairing is a found source token and the target at
   * the same position, which is never empty.
   */
  lemma {:induction false} ZippedPairs(databases: seq<string>, sources: seq<string>, targets: seq<string>, i: nat)
    ensures forall p :: p in Zipped(databases, sources, targets, i).pairs ==>
      exists j :: i <= j < |sources| && j < |targets| && Resolve(databases, sources[j]) == Some(p.source) &&
        p.target == targets[j] && p.source != "" && p.target != ""
    decreases |sources| - i
  {
    if i < |sources| {
      ZippedPairs(databases, sources, targets, i + 1);
    }
  }

  /** A source token the positional pairing uses: it resolves to a non-empty database name. */
  predicate Found(databases: seq<string>, token: string) {
    Resolve(databases, token).Some? && Resolve(databases, token).value != ""
  }

  /**
   * Every found source token with a non-empty target at its position yields its
   * pair, whether or not the enumeration throws later on.
   */
  lemma {:induction false} ZippedFindsAll(databases: seq<string>, sources: seq<string>, targets: seq<string>, i: nat)
    ensures forall j :: i <= j < |sources| && j < |targets| && Found(databases, sources[j]) && targets[j] != "" ==>
      Pair(Resolve(databases, sources[j]).value, targets[j]) in Zipped(databases, sources, targets, i).pairs
    decreases |sources| - i
  {
    if i < |sources| {
      ZippedFindsAll(databases, sources, targets, i + 1);
    }
  }

  /** The enumeration throws exactly when a found source token has no target at its position. */
  lemma {:induction false} ZippedFails(databases: seq<string>, sources: seq<string>, targets: seq<string>, i: nat)
    ensures Zipped(databases, sources, targets, i).failed <==>
      exists j :: i <= j < |sources| && |targets| <= j && Found(databases, sources[j])
  {
    if Zipped(databases, sources, targets, i).failed {
      var j := ZippedFailsWhere(databases, sources, targets, i);
    }
    if exists j :: i <= j < |sources| && |targets| <= j && Found(databases, sources[j]) {
      var j :| i <= j < |sources| && |targets| <= j && Found(databases, sources[j]);
      ZippedFailsAt(databases, sources, targets, i, j);
    }
  }

  /** A failed enumeration names the source token that has no target. */
  lemma {:induction false} ZippedFailsWhere(databases: seq<string>, sources: seq<string>, targets: seq<string>, i: nat)
    returns (j: nat)
    requires Zipped(databases, sources, targets, i).failed
    ensures i <= j < |sources| && |targets| <= j && Found(databases, sources[j])
    decreases |sources| - i
  {
    ZippedFailsStep(databases, sources, targets, i);
    if |targets| <= i && Found(databases, sources[i]) {
      j := i;
    } else {
      j := ZippedFailsWhere(databases, sources, targets, i + 1);
    }
  }

  /** A found source token past the end of the targets makes the enumeration fail. */
  lemma {:induction false} ZippedFailsAt(databases: seq<string>, sources: seq<string>, targets: seq<string>, i: nat, j: nat)
    requires i <= j < |sources| && |targets| <= j && Found(databases, sources[j])
    ensures Zipped(databases, sources, targets, i).failed
    decreases j - i
  {
    ZippedFailsStep(databases, sources, targets, i);
    if i < j {
      ZippedFailsAt(databases, sources, targets, i + 1, j);
    }
  }

  /** One position of the pairing: it fails here, or later. */
  lemma ZippedFailsStep(databases: seq<string>, sources: seq<string>, targets: seq<string>, i: nat)
    requires i < |sources|
    ensures Zipped(databases, sources, targets, i).failed <==>
      (|targets| <= i && Found(databases, sources[i])) || Zipped(databases, sources, targets, i + 1).failed
  {
  }

  /** The pairs of one collection entry: an exact name wins, then a rename, then a wildcard. */
  function CollectionEntryPairs(names: seq<string>, c: string): seq<Pair> {
    if c in names then [Pair(c, c)]
    else if IsRename(c) then RenamePair(names, c)
    else Identity(Matching(names, c))
  }

  function EntryPairs(names: seq<string>, entries: seq<string>): seq<Pair> {
    if entries == [] then [] else CollectionEntryPairs(names, entries[0]) + EntryPairs(names, entries[1..])
  }

  /** `ListCollections`: every collection to itself without a list; otherwise entry by entry, not de-duplicated. */
  function ListCollections(names: seq<string>, collections: Option<seq<string>>): seq<Pair> {
    if collections.None? || collections.value == [] then Identity(names) else EntryPairs(names, collections.value)
  }

  /** Entries are resolved independently and their pairs concatenated in entry order. */
  lemma {:induction false} EntryPairsAppend(names: seq<string>, xs: seq<string>, ys: seq<string>)
    ensures EntryPairs(names, xs + ys) == EntryPairs(names, xs) + EntryPairs(names, ys)
  {
    if xs != [] {
      var zs := xs + ys;
      assert zs[0] == xs[0] && zs[1..] == xs[1..] + ys;
      EntryPairsAppend(names, xs[1..], ys);
      var head := CollectionEntryPairs(names, xs[0]);
      assert EntryPairs(names, zs) == head + EntryPairs(names, xs[1..] + ys);
      assert EntryPairs(names, xs) == head + EntryPairs(names, xs[1..]);
    } else {
      assert xs + ys == ys;
    }
  }

  /**
   * Every pair of a collection list is a listed collection mapped to itself or
   * renamed to a non-empty name.
   */
  lemma {:induction false} EntryPairsListed(names: seq<string>, entries: seq<string>)
    ensures forall p :: p in EntryPairs(names, entries) ==> p.source in names && (p.target == p.source || p.target != "")
  {
    if entries != [] {
      EntryPairsListed(names, entries[1..]);
      var c := entries[0];
      if c !in names && !IsRename(c) {
        var m := Matching(names, c);
        forall p | p in Identity(m) ensures p.source in names && p.target == p.source {
          var i :| 0 <= i < |m| && Identity(m)[i] == p;
        }
      }
    }
  }

  /** The mask overload: the listed names that contain the mask (ordinal), in listing order. */
  function Masked(names: seq<string>, mask: string): (r: seq<string>)
    ensures |r| <= |names|
    ensures forall n :: n in r <==> n in names && Contains(n, mask)
  {
    if names == [] then []
    else (if Contains(names[0], mask) then [names[0]] else []) + Masked(names[1..], mask)
  }

  /** The empty mask selects every collection, in order. */
  lemma {:induction false} EmptyMaskSelectsAll(names: seq<string>)
    ensures Masked(names, "") == names
  {
    if names != [] {
      EmptyMaskSelectsAll(names[1..]);
      assert StartsWith(names[0], "");
      assert names == [names[0]] + names[1..];
    }
  }

  /** A copy task of `DatabaseCopy` (`CopyInfo`); database objects are given by name. */
  datatype CopyTask = CopyTask(sourceDatabase: string, targetDatabase: string,
                               sourceCollection: string, targetCollection: string,
                               batchSize: int, copyIndexes: bool, dropCollections: bool)

  /**
   * The self-copy test: the same server, the same database object and the same
   * collection name. The database objects of a pair are one object when both come
   * from one server object (`sharedServer`) under the same name.
   */
  predicate IsSelfCopy(db: Pair, col: Pair, sameServer: bool, sharedServer: bool) {
    sameServer && sharedServer && db.source == db.target && col.source == col.target
  }

  function TaskFor(db: Pair, col: Pair, batchSize: int, copyIndexes: bool, dropCollections: bool): CopyTask {
    CopyTask(db.source, db.target, col.source, col.target, batchSize, copyIndexes, dropCollections)
  }

  /** The settings every task of one `DatabaseCopy` call shares. */
  datatype CopySettings = CopySettings(sameServer: bool, sharedServer: bool, batchSize: int,
                                       copyIndexes: bool, dropCollections: bool)

  /** The tasks of one database pair, for its collection pairs in order. */
  function CollectionTasks(db: Pair, cols: seq<Pair>, settings: CopySettings): seq<CopyTask> {
    if cols == [] then []
    else
      var col := cols[|cols| - 1];
      CollectionTasks(db, cols[..|cols| - 1], settings) +
      (if IsSelfCopy(db, col, settings.sameServer, settings.sharedServer) then []
       else [TaskFor(db, col, settings.batchSize, settings.copyIndexes, settings.dropCollections)])
  }

  /** The tasks of every database pair, in order. */
  function Tasks(dbs: seq<Pair>, collectionsOf: string -> seq<string>, collections: Option<seq<string>>,
                 settings: CopySettings): seq<CopyTask>
  {
    if dbs == [] then []
    else
      var db := dbs[|dbs| - 1];
      Tasks(dbs[..|dbs| - 1], collectionsOf, collections, settings) +
      CollectionTasks(db, ListCollections(collectionsOf(db.source), collections), settings)
  }

  /**
   * Every task is the task of a collection pair of one of the database pairs, and
   * exactly the pairs that are not self-copies have their task.
   */
  lemma {:induction false} CollectionTasksSpec(db: Pair, cols: seq<Pair>, settings: CopySettings)
    ensures forall t :: t in CollectionTasks(db, cols, settings) <==>
      exists col :: col in cols && !IsSelfCopy(db, col, settings.sameServer, settings.sharedServer) &&
        t == TaskFor(db, col, settings.batchSize, settings.copyIndexes, settings.dropCollections)
  {
    if cols != [] {
      CollectionTasksSpec(db, cols[..|cols| - 1], settings);
      assert cols == cols[..|cols| - 1] + [cols[|cols| - 1]];
    }
  }

  /** No task copies a collection onto itself. */
  lemma {:induction false} NoSelfCopyTasks(dbs: seq<Pair>, collectionsOf: string -> seq<string>,
                                           collections: Option<seq<string>>, settings: CopySettings)
    ensures forall t :: t in Tasks(dbs, collectionsOf, collections, settings) ==>
      !(settings.sameServer && settings.sharedServer &&
        t.sourceDatabase == t.targetDatabase && t.sourceCollection == t.targetCollection)
  {
    if dbs != [] {
      var db := dbs[|dbs| - 1];
      NoSelfCopyTasks(dbs[..|dbs| - 1], collectionsOf, collections, settings);
      CollectionTasksSpec(db, ListCollections(collectionsOf(db.source), collections), settings);
    }
  }

  /** One more database pair adds its collection tasks after those of the pairs before it. */
  lemma TasksStep(dbs: seq<Pair>, i: nat, collectionsOf: string -> seq<string>,
                  collections: Option<seq<string>>, settings: CopySettings)
    requires i < |dbs|
    ensures Tasks(dbs[..i + 1], collectionsOf, collections, settings) ==
      Tasks(dbs[..i], collectionsOf, collections, settings) +
      CollectionTasks(dbs[i], ListCollections(collectionsOf(dbs[i].source), collections), settings)
  {
    assert dbs[..i + 1][..i] == dbs[..i];
  }

  /**
   * `DatabaseCopy` (server overload): the thread count clamped to at least one, and
   * one task per resolved (database, collection) mapping that is not a self-copy, in
   * enumeration order. When the database enumeration throws, the tasks added until
   * then stay and the exception leaves the call (`failed`).
   */
  method DatabaseCopy(databases: seq<string>, collectionsOf: string -> seq<string>,
                      sources: Option<seq<string>>, targets: Option<seq<string>>,
                      collections: Option<seq<string>>, threads: int, settings: CopySettings)
    returns (workers: int, tasks: seq<CopyTask>, failed: bool)
    ensures workers == if threads <= 1 then 1 else threads
    ensures tasks == Tasks(ListDatabases(databases, sources, targets).pairs, collectionsOf, collections, settings)
    ensures failed == ListDatabases(databases, sources, targets).failed
  {
    workers := threads;
    if threads <= 1 {
      workers := 1;
    }
    var listing := ListDatabases(databases, sources, targets);
    tasks := AddDatabaseTasks(listing.pairs, collectionsOf, collections, settings);
    failed := listing.failed;
  }

  /** The outer loop of `DatabaseCopy`: the tasks of each database pair, in order. */
  method AddDatabaseTasks(dbs: seq<Pair>, collectionsOf: string -> seq<string>,
                          collections: Option<seq<string>>, settings: CopySettings)
    returns (tasks: seq<CopyTask>)
    ensures tasks == Tasks(dbs, collectionsOf, collections, settings)
  {
    tasks := [];
    for i := 0 to |dbs|
      invariant tasks == Tasks(dbs[..i], collectionsOf, collections, settings)
    {
      var db := dbs[i];
      tasks := AddCollectionTasks(tasks, db, ListCollections(collectionsOf(db.source), collections), settings);
      TasksStep(dbs, i, collectionsOf, collections, settings);
    }
    assert dbs[..|dbs|] == dbs;
  }

  /** The inner loop of `DatabaseCopy`: one task per collection pair that is not a self-copy. */
  method AddCollectionTasks(tasks0: seq<CopyTask>, db: Pair, cols: seq<Pair>, settings: CopySettings)
    returns (tasks: seq<CopyTask>)
    ensures tasks == tasks0 + CollectionTasks(db, cols, settings)
  {
    tasks := tasks0;
    for j := 0 to |cols|
      invariant tasks == tasks0 + CollectionTasks(db, cols[..j], settings)
    {
      assert cols[..j + 1][..j] == cols[..j];
      if IsSelfCopy(db, cols[j], settings.sameServer, settings.sharedServer) {
        continue;
      }
      tasks := tasks + [TaskFor(db, cols[j], settings.batchSize, settings.copyIndexes, settings.dropCollections)];
    }
    assert cols[..|cols|] == cols;
  }
}
