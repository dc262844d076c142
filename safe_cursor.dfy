/**
 * The resumable source cursor `SafeQuery` of MongoToolsLib/SharedMethods.cs.
 *
 * A collection is given by its `_id` index: its documents in strictly ascending
 * `_id` order, the order in which a find sorted on `_id` returns them. Cursor
 * faults are an input schedule: the k-th `MoveNext` call fails iff the k-th
 * entry of the schedule is `true`; calls past the end of the schedule succeed.
 */
module SafeCursor {
  import opened Wrappers

  /** A stored document: its `_id` key and the rest of its content. */
  datatype Document = Document(id: int, body: string)

  /** A caller's filter (`IMongoQuery`); `None` is the null query. */
  type Query = Option<Document -> bool>

  predicate Accepts(query: Query, d: Document) {
    query.None? || query.value(d)
  }

  /** The `key > last[key]` filter; `None` when there is no usable `last` document. */
  predicate Above(id: int, floor: Option<int>) {
    floor.None? || id > floor.value
  }

  /** Strictly ascending `_id` order: the order of the `_id` index. */
  predicate Ascending(s: seq<Document>) {
    forall i, j :: 0 <= i < j < |s| ==> s[i].id < s[j].id
  }

  /** The server-side filter `query AND _id > floor`. */
  predicate Matches(d: Document, query: Query, floor: Option<int>) {
    Above(d.id, floor) && Accepts(query, d)
  }

  /**
   * `Find(query AND _id > floor).SetSortOrder("_id")` over a collection given in
   * `_id` order: the matching documents, in that order.
   */
  function Find(c: seq<Document>, query: Query, floor: Option<int>): seq<Document> {
    if c == [] then []
    else if Matches(c[0], query, floor) then [c[0]] + Find(c[1..], query, floor)
    else Find(c[1..], query, floor)
  }

  /**
   * A find returns every matching document of the collection and nothing else,
   * in `_id` order.
   */
  lemma {:induction false} FindSpec(c: seq<Document>, query: Query, floor: Option<int>)
    ensures forall d :: d in Find(c, query, floor) <==> d in c && Matches(d, query, floor)
    ensures Ascending(c) ==> Ascending(Find(c, query, floor))
  {
    if c != [] {
      var rest := Find(c[1..], query, floor);
      FindSpec(c[1..], query, floor);
      assert c == [c[0]] + c[1..];
      if Matches(c[0], query, floor) && Ascending(c) {
        forall k | 0 <= k < |rest| ensures c[0].id < rest[k].id {
          assert rest[k] in c[1..];
          var j :| 0 <= j < |c[1..]| && c[1..][j] == rest[k];
          assert c[j + 1] == rest[k];
        }
      }
    }
  }

  /** Raising the floor to a key below every document changes nothing. */
  lemma {:induction false} FindAboveAll(c: seq<Document>, query: Query, floor: Option<int>, x: int)
    requires Above(x, floor)
    requires forall k :: 0 <= k < |c| ==> c[k].id > x
    ensures Find(c, query, Some(x)) == Find(c, query, floor)
  {
    if c != [] {
      FindAboveAll(c[1..], query, floor, x);
    }
  }

  /** A find over documents whose keys all exceed `b` returns only such documents. */
  lemma {:induction false} FindBounded(c: seq<Document>, query: Query, floor: Option<int>, b: int)
    requires forall k :: 0 <= k < |c| ==> c[k].id > b
    ensures forall k :: 0 <= k < |Find(c, query, floor)| ==> Find(c, query, floor)[k].id > b
  {
    if c != [] {
      FindBounded(c[1..], query, floor, b);
    }
  }

  /**
   * Reopening the cursor with `_id > last` after `i` documents of a find were
   * read gives exactly the rest of that find: no document is skipped or repeated.
   */
  lemma {:induction false} ResumeIsSuffix(c: seq<Document>, query: Query, floor: Option<int>, i: nat)
    requires Ascending(c)
    requires 0 < i <= |Find(c, query, floor)|
    ensures Find(c, query, Some(Find(c, query, floor)[i - 1].id)) == Find(c, query, floor)[i..]
  {
    var s := Find(c, query, floor);
    var x := s[i - 1].id;
    var rest := Find(c[1..], query, floor);
    assert Ascending(c[1..]);
    assert forall k :: 0 <= k < |c[1..]| ==> c[1..][k].id > c[0].id;
    FindBounded(c[1..], query, floor, c[0].id);
    if Matches(c[0], query, floor) {
      assert s == [c[0]] + rest;
      if i == 1 {
        FindAboveAll(c[1..], query, floor, x);
      } else {
        assert s[i - 1] == rest[i - 2] && s[i..] == rest[i - 1..];
        ResumeIsSuffix(c[1..], query, floor, i - 1);
      }
    } else {
      ResumeIsSuffix(c[1..], query, floor, i);
    }
  }

  /** What a cursor run comes to: how many documents it yields, and whether it ends by rethrowing. */
  datatype QueryOutcome = QueryOutcome(count: nat, failed: bool)

  /** The outcome of a run that had already yielded `done` documents before `o` began. */
  function After(done: nat, o: QueryOutcome): QueryOutcome {
    QueryOutcome(done + o.count, o.failed)
  }

  /**
   * The run of `SafeQuery` as a function of the remaining fault schedule, the number of
   * documents still to come and the current consecutive-error count: a fault with
   * more than four errors already counted is rethrown, any other fault is counted and
   * the cursor reopened; a success yields the next document or, if none is left, ends
   * the query. Past the end of the schedule every call succeeds.
   */
  function QueryRun(faults: seq<bool>, remaining: nat, errors: nat): QueryOutcome
    decreases |faults|, 1
  {
    if faults == [] then QueryOutcome(remaining, false) else MoveNext(faults, remaining, errors)
  }

  /** One `MoveNext` call, failing iff `faults[0]`, and the rest of the run after it. */
  function MoveNext(faults: seq<bool>, remaining: nat, errors: nat): QueryOutcome
    requires faults != []
    decreases |faults|, 0
  {
    if faults[0] then
      if errors > 4 then QueryOutcome(0, true) else QueryRun(faults[1..], remaining, errors + 1)
    else if remaining == 0 then QueryOutcome(0, false)
    else After(1, QueryRun(faults[1..], remaining - 1, 0))
  }

  /**
   * A run never yields more documents than the stream holds, and a run that does
   * not fail yields all of them.
   */
  lemma {:induction false} QueryRunBounds(faults: seq<bool>, remaining: nat, errors: nat)
    ensures QueryRun(faults, remaining, errors).count <= remaining
    ensures !QueryRun(faults, remaining, errors).failed ==> QueryRun(faults, remaining, errors).count == remaining
  {
    if faults != [] {
      if faults[0] {
        if errors <= 4 {
          QueryRunBounds(faults[1..], remaining, errors + 1);
        }
      } else if remaining > 0 {
        QueryRunBounds(faults[1..], remaining - 1, 0);
      }
    }
  }

  /** `faults[i..i+n]` are all failures. */
  predicate FaultRun(faults: seq<bool>, i: nat, n: nat) {
    i + n <= |faults| && forall j :: i <= j < i + n ==> faults[j]
  }

  /** The number of successful calls in a schedule prefix. */
  function Successes(faults: seq<bool>): nat {
    if faults == [] then 0 else (if faults[0] then 0 else 1) + Successes(faults[1..])
  }

  /**
   * The error budget runs out: the schedule starts with the `6 - errors` faults that
   * exhaust it, or holds six consecutive faults that begin before the stream has
   * been read to its end.
   */
  predicate Exhausts(faults: seq<bool>, remaining: nat, errors: nat)
    requires errors <= 5
  {
    FaultRun(faults, 0, 6 - errors) ||
    exists i :: 0 <= i <= |faults| && FaultRun(faults, i, 6) && Successes(faults[..i]) <= remaining
  }

  lemma FaultRunTail(faults: seq<bool>, i: nat, n: nat)
    requires faults != []
    ensures FaultRun(faults, i + 1, n) <==> FaultRun(faults[1..], i, n)
    ensures FaultRun(faults, 0, n + 1) <==> faults[0] && FaultRun(faults[1..], 0, n)
  {
    if FaultRun(faults[1..], i, n) {
      forall j | i + 1 <= j < i + 1 + n ensures faults[j] {
        assert faults[j] == faults[1..][j - 1];
      }
    }
    if faults[0] && FaultRun(faults[1..], 0, n) {
      forall j | 0 <= j < n + 1 ensures faults[j] {
        if j > 0 { assert faults[j] == faults[1..][j - 1]; }
      }
    }
  }

  lemma SuccessesTail(faults: seq<bool>, i: nat)
    requires 0 < i <= |faults|
    ensures Successes(faults[..i]) == (if faults[0] then 0 else 1) + Successes(faults[1..][..i - 1])
  {
    assert faults[..i][1..] == faults[1..][..i - 1];
  }

  /** After a fault that does not exhaust the budget, the budget runs out iff it runs out for the rest. */
  lemma ExhaustsAfterFault(faults: seq<bool>, remaining: nat, errors: nat)
    requires faults != [] && faults[0] && errors <= 4
    ensures Exhausts(faults, remaining, errors) <==> Exhausts(faults[1..], remaining, errors + 1)
  {
    var rest := faults[1..];
    FaultRunTail(faults, 0, 5 - errors);
    if Exhausts(rest, remaining, errors + 1) && !FaultRun(rest, 0, 5 - errors) {
      var i :| 0 <= i <= |rest| && FaultRun(rest, i, 6) && Successes(rest[..i]) <= remaining;
      FaultRunTail(faults, i, 6);
      SuccessesTail(faults, i + 1);
      assert FaultRun(faults, i + 1, 6) && Successes(faults[..i + 1]) <= remaining;
    }
    if Exhausts(faults, remaining, errors) && !FaultRun(faults, 0, 6 - errors) {
      var i :| 0 <= i <= |faults| && FaultRun(faults, i, 6) && Successes(faults[..i]) <= remaining;
      assert i != 0;
      FaultRunTail(faults, i - 1, 6);
      SuccessesTail(faults, i);
      assert FaultRun(rest, i - 1, 6) && Successes(rest[..i - 1]) <= remaining;
    }
  }

  /** After a success, the budget runs out iff it runs out, afresh, for the rest of a shorter stream. */
  lemma ExhaustsAfterSuccess(faults: seq<bool>, remaining: nat, errors: nat)
    requires faults != [] && !faults[0] && errors <= 5 && remaining > 0
    ensures Exhausts(faults, remaining, errors) <==> Exhausts(faults[1..], remaining - 1, 0)
  {
    var rest := faults[1..];
    FaultRunTail(faults, 0, 5 - errors);
    if Exhausts(rest, remaining - 1, 0) {
      var i :| 0 <= i <= |rest| && FaultRun(rest, i, 6) && Successes(rest[..i]) <= remaining - 1;
      FaultRunTail(faults, i, 6);
      SuccessesTail(faults, i + 1);
      assert FaultRun(faults, i + 1, 6) && Successes(faults[..i + 1]) <= remaining;
    }
    if Exhausts(faults, remaining, errors) {
      var i :| 0 <= i <= |faults| && FaultRun(faults, i, 6) && Successes(faults[..i]) <= remaining;
      FaultRunTail(faults, 0, 5);
      assert i != 0;
      FaultRunTail(faults, i - 1, 6);
      SuccessesTail(faults, i);
      assert FaultRun(rest, i - 1, 6) && Successes(rest[..i - 1]) <= remaining - 1;
    }
  }

  /** With the stream read to its end, a success ends the query and the budget can no longer run out. */
  lemma ExhaustsAtEnd(faults: seq<bool>, errors: nat)
    requires faults != [] && !faults[0] && errors <= 5
    ensures !Exhausts(faults, 0, errors)
  {
    FaultRunTail(faults, 0, 5 - errors);
    forall i | 0 < i <= |faults|
      ensures Successes(faults[..i]) > 0
    {
      SuccessesTail(faults, i);
    }
    FaultRunTail(faults, 0, 5);
  }

  /**
   * A run fails, rethrowing the sixth consecutive cursor error, exactly when the error
   * budget runs out.
   */
  lemma {:induction false} QueryRunFails(faults: seq<bool>, remaining: nat, errors: nat)
    requires errors <= 5
    ensures QueryRun(faults, remaining, errors).failed <==> Exhausts(faults, remaining, errors)
    decreases |faults|
  {
    if faults != [] {
      if faults[0] {
        if errors <= 4 {
          QueryRunFails(faults[1..], remaining, errors + 1);
          ExhaustsAfterFault(faults, remaining, errors);
        } else {
          assert FaultRun(faults, 0, 1);
        }
      } else if remaining == 0 {
        ExhaustsAtEnd(faults, errors);
      } else {
        QueryRunFails(faults[1..], remaining - 1, 0);
        ExhaustsAfterSuccess(faults, remaining, errors);
      }
    }
  }

  lemma PrefixConcat(s: seq<Document>, n: nat, m: nat)
    requires n + m <= |s|
    ensures s[..n] + s[n..][..m] == s[..n + m]
  {
  }

  /** A prefix of a find keeps its order and holds only matching documents of the collection. */
  lemma FindPrefix(c: seq<Document>, query: Query, floor: Option<int>, n: nat)
    requires Ascending(c) && n <= |Find(c, query, floor)|
    ensures Ascending(Find(c, query, floor)[..n])
    ensures forall d :: d in Find(c, query, floor)[..n] ==> d in c && Matches(d, query, floor)
  {
    var s := Find(c, query, floor);
    FindSpec(c, query, floor);
    forall d | d in s[..n] ensures d in s {
      var k :| 0 <= k < n && s[..n][k] == d;
      assert s[k] == d;
    }
  }

  /**
   * The inner `while (running)` loop of `SafeQuery` over one opened cursor: it reads
   * documents until a `MoveNext` call fails or the cursor is exhausted. It returns how
   * many documents it read (they are `cursor[..read]`), the rest of the fault schedule,
   * the consecutive-error count, and whether the query ended (`!ended`: the cursor is
   * to be reopened) or failed.
   */
  method ReadCursor(cursor: seq<Document>, faults: seq<bool>, errors: nat, ghost total: QueryOutcome, ghost done: nat)
    returns (read: nat, rest: seq<bool>, errorsAfter: nat, ended: bool, failed: bool)
    requires errors <= 5
    requires total == After(done, QueryRun(faults, |cursor|, errors))
    ensures read <= |cursor| && errorsAfter <= 5
    ensures failed ==> ended
    ensures |rest| <= |faults| && (!ended ==> |rest| < |faults|)
    ensures ended ==> total == QueryOutcome(done + read, failed)
    ensures !ended ==> total == After(done + read, QueryRun(rest, |cursor| - read, errorsAfter))
  {
    read, rest, errorsAfter, ended, failed := 0, faults, errors, false, false;
    var running := true;
    while running
      invariant read <= |cursor| && errorsAfter <= 5 && |rest| <= |faults|
      invariant failed ==> !running
      invariant running ==> total == After(done + read, QueryRun(rest, |cursor| - read, errorsAfter))
      invariant !running ==> total.count == done + read && total.failed == failed
      decreases |cursor| - read
    {
      var fault := rest != [] && rest[0];
      if rest != [] {
        rest := rest[1..];
      }
      if fault {
        if errorsAfter > 4 {
          failed := true;
          running := false;
        } else {
          errorsAfter := errorsAfter + 1;
        }
        break;
      }
      if read == |cursor| {
        running := false;
        break;
      }
      read := read + 1;
      errorsAfter := 0;
    }
    ended := !running;
  }

  /**
   * Opens a cursor on `_id > lastKey` (or on the original floor before anything
   * was read): after `n` documents it yields the rest of the original find.
   */
  method OpenCursor(c: seq<Document>, query: Query, last: Option<int>, lastKey: Option<int>, ghost n: nat)
    returns (cursor: seq<Document>)
    requires Ascending(c) && n <= |Find(c, query, last)|
    requires lastKey == if n == 0 then last else Some(Find(c, query, last)[n - 1].id)
    ensures cursor == Find(c, query, last)[n..]
  {
    cursor := Find(c, query, lastKey);
    if n > 0 {
      ResumeIsSuffix(c, query, last, n);
    }
  }

  /** The key the next cursor resumes after: the `_id` of the last document yielded. */
  function ResumeKey(last: Option<int>, yielded: seq<Document>): Option<int> {
    if yielded == [] then last else Some(yielded[|yielded| - 1].id)
  }

  /**
   * One pass of the outer loop of `SafeQuery`: reopen the cursor after the last
   * yielded document, read from it, and append what was read.
   */
  method ReadOnce(c: seq<Document>, query: Query, last: Option<int>, before: seq<Document>,
                  faults: seq<bool>, errors: nat, ghost total: QueryOutcome)
    returns (yielded: seq<Document>, rest: seq<bool>, errorsAfter: nat, ended: bool, failed: bool)
    requires Ascending(c) && errors <= 5
    requires |before| <= |Find(c, query, last)| && before == Find(c, query, last)[..|before|]
    requires total == After(|before|, QueryRun(faults, |Find(c, query, last)| - |before|, errors))
    ensures |yielded| <= |Find(c, query, last)| && yielded == Find(c, query, last)[..|yielded|]
    ensures errorsAfter <= 5 && (failed ==> ended)
    ensures |rest| <= |faults| && (!ended ==> |rest| < |faults|)
    ensures ended ==> total == QueryOutcome(|yielded|, failed)
    ensures !ended ==> total == After(|yielded|, QueryRun(rest, |Find(c, query, last)| - |yielded|, errorsAfter))
  {
    ghost var s := Find(c, query, last);
    ghost var n := |before|;
    var cursor := OpenCursor(c, query, last, ResumeKey(last, before), n);
    var read;
    read, rest, errorsAfter, ended, failed := ReadCursor(cursor, faults, errors, total, n);
    PrefixConcat(s, n, read);
    yielded := before + cursor[..read];
  }

  /**
   * `SafeQuery`: yields the documents of the find above `last` in `_id` order. A
   * failing `MoveNext` is retried by reopening the cursor after the last yielded
   * `_id`; after five consecutive failures the sixth is rethrown (`failed`).
   */
  method SafeQuery(c: seq<Document>, query: Query, last: Option<int>, faults: seq<bool>)
    returns (yielded: seq<Document>, failed: bool)
    requires Ascending(c)
    ensures var o := QueryRun(faults, |Find(c, query, last)|, 0);
      o.count <= |Find(c, query, last)| && yielded == Find(c, query, last)[..o.count] && failed == o.failed
    ensures Ascending(yielded)
    ensures forall d :: d in yielded ==> d in c && Matches(d, query, last)
    ensures !failed ==> yielded == Find(c, query, last)
  {
    ghost var s := Find(c, query, last);
    ghost var total := QueryRun(faults, |s|, 0);
    var errorCount := 0;
    var running := true;
    var pending := faults;
    yielded := [];
    failed := false;
    while running
      invariant |yielded| <= |s| && yielded == s[..|yielded|]
      invariant errorCount <= 5
      invariant running ==> total == After(|yielded|, QueryRun(pending, |s| - |yielded|, errorCount))
      invariant !running ==> total == QueryOutcome(|yielded|, failed)
      decreases |pending|, if running then 1 else 0
    {
      var ended;
      yielded, pending, errorCount, ended, failed := ReadOnce(c, query, last, yielded, pending, errorCount, total);
      running := !ended;
    }
    QueryRunBounds(faults, |s|, 0);
    FindPrefix(c, query, last, |yielded|);
  }
}
