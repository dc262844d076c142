/**
 * Option reading and sanity checks of the MongoCopy front-end
 * (MongoTools/MongoCopy/Migrate.cs): `ParseArgumentAsList` and `ParseArguments`.
 *
 * The options are the map the command-line tokenizer builds. `FlexibleOptions`
 * converts a stored text to the type asked for; integers are read as `int.Parse`
 * reads them (an optional sign, digits, within the range of an `int`), booleans as
 * `bool.Parse` does, and the reading of a text as a JSON
 * string array is the parameter `asArray`. `CloseApplication(code, true)` is the
 * `Exit(code)` outcome; the static fields `ParseArguments` assigns are the
 * returned `Settings`.
 */
module MigrateArgs {
  import opened Wrappers
  import opened Text
  import opened Wildcard
  import Resolver

  type Options = map<string, string>

  /** `options[key]`: the stored text, or null. */
  function Lookup(options: Options, key: string): Option<string> {
    if key in options then Some(options[key]) else None
  }

  /** `bool.Parse`: "true" or "false" in any case, around white space. */
  function ParseBool(s: string): Option<bool> {
    var t := Trim(s);
    if EqualsIgnoreCase(t, "true") then Some(true)
    else if EqualsIgnoreCase(t, "false") then Some(false)
    else None
  }

  /** `options.Get(key, default)` for an integer: the default when absent or not a number. */
  function GetInt(options: Options, key: string, default: int): int {
    if key in options && ParseInt(options[key]).Some? then ParseInt(options[key]).value else default
  }

  /** `options.Get(key, default)` for a boolean. */
  function GetBool(options: Options, key: string, default: bool): bool {
    if key in options && ParseBool(options[key]).Some? then ParseBool(options[key]).value else default
  }

  /** `options.Get(key, default)` for a string. */
  function GetText(options: Options, key: string, default: Option<string>): Option<string> {
    if key in options then Some(options[key]) else default
  }

  /** `String.IsNullOrEmpty`. */
  predicate NullOrEmpty(s: Option<string>) {
    s.None? || s.value == []
  }

  const ListSeparators: set<char> := {',', ';'}

  /** The list before trimming: the string array if the option reads as one, else its text cut at the separators. */
  function RawList(options: Options, asArray: string -> Option<seq<string>>, key: string): seq<string> {
    if key in options && asArray(options[key]).Some? then asArray(options[key]).value
    else Split(Lookup(options, key).GetOr(""), ListSeparators)
  }

  /**
   * `ParseArgumentAsList`: the option read as a string array if it is one, else its
   * text (empty when absent) cut at every `,` and `;`; each item trimmed, empty items
   * dropped, order kept.
   */
  function ParseArgumentAsList(options: Options, asArray: string -> Option<seq<string>>, key: string)
    : (items: seq<string>)
    ensures items == TrimmedItems(RawList(options, asArray, key))
    ensures forall k :: 0 <= k < |items| ==>
      items[k] != [] && !IsWhiteSpace(items[k][0]) && !IsWhiteSpace(items[k][|items[k]| - 1])
    ensures key !in options ==> items == []
  {
    var list := RawList(options, asArray, key);
    TrimmedItemsShape(list);
    NothingListed(options, asArray, key);
    TrimmedItems(list)
  }

  /** An absent option reads as the empty text, which lists nothing. */
  lemma NothingListed(options: Options, asArray: string -> Option<seq<string>>, key: string)
    ensures key !in options ==> TrimmedItems(RawList(options, asArray, key)) == []
  {
    if key !in options {
      var parts := Split("", ListSeparators);
      assert RawList(options, asArray, key) == parts;
      assert parts == [[]];
      assert IsBlank([]);
      assert Trim([]) == [];
      assert parts[1..] == [];
    }
  }

  /** No character of `s` is in `cs`. */
  predicate Avoids(s: string, cs: set<char>) {
    forall c :: c in s ==> c !in cs
  }

  lemma {:induction false} SplitAvoids(s: string, seps: set<char>)
    ensures forall k :: 0 <= k < |Split(s, seps)| ==> Avoids(Split(s, seps)[k], seps)
    decreases |s|
  {
    if s != [] {
      SplitAvoids(s[1..], seps);
      var rest := Split(s[1..], seps);
      if s[0] !in seps {
        assert Avoids([s[0]] + rest[0], seps) by {
          forall c | c in [s[0]] + rest[0] ensures c !in seps {
            if c != s[0] {
              assert c in rest[0];
            }
          }
        }
      }
    }
  }

  lemma TrimWithin(s: string)
    ensures forall c :: c in Trim(s) ==> c in s
  {
    var t := TrimStartBy(s, IsWhiteSpace);
    var r := TrimEndBy(t, IsWhiteSpace);
    assert Trim(s) == r;
    forall c | c in r ensures c in s {
      var i :| 0 <= i < |r| && r[i] == c;
      assert t[i] == c;
      assert s[|s| - |t| + i] == c;
    }
  }

  lemma {:induction false} TrimmedItemsAvoid(parts: seq<string>, cs: set<char>)
    requires forall k :: 0 <= k < |parts| ==> Avoids(parts[k], cs)
    ensures forall k :: 0 <= k < |TrimmedItems(parts)| ==> Avoids(TrimmedItems(parts)[k], cs)
  {
    if parts != [] {
      TrimmedItemsAvoid(parts[1..], cs);
      TrimWithin(parts[0]);
      assert Avoids(Trim(parts[0]), cs);
    }
  }

  /**
   * A list given as text never yields an item holding a separator: every item is a
   * trimmed, non-empty piece between separators.
   */
  lemma ListFromTextHasNoSeparators(options: Options, asArray: string -> Option<seq<string>>, key: string)
    requires key in options && asArray(options[key]).None?
    ensures forall k :: 0 <= k < |ParseArgumentAsList(options, asArray, key)| ==>
      ',' !in ParseArgumentAsList(options, asArray, key)[k] && ';' !in ParseArgumentAsList(options, asArray, key)[k]
  {
    var parts := Split(options[key], ListSeparators);
    SplitAvoids(options[key], ListSeparators);
    TrimmedItemsAvoid(parts, ListSeparators);
    assert RawList(options, asArray, key) == parts;
  }

  /** What `ParseArguments` leaves in the static fields. */
  datatype Settings = Settings(
    sourceUri: Option<string>, sourceServer: Option<string>, sourceUsername: Option<string>,
    sourcePassword: Option<string>, sourceAuthDatabase: Option<string>,
    targetUri: Option<string>, targetServer: Option<string>, targetUsername: Option<string>,
    targetPassword: Option<string>, targetAuthDatabase: Option<string>,
    insertBatchSize: int, threads: int, copyIndexes: bool, dropCollections: bool,
    sourceDatabases: seq<string>, targetDatabases: Option<seq<string>>, collections: seq<string>)

  /** `ParseArguments` either exits the process with a code or leaves the settings. */
  datatype Parsed = Exit(code: int) | Accepted(settings: Settings)

  /** The fields `ParseArguments` reads before its checks; the collections are read after them. */
  function Read(options: Options, asArray: string -> Option<seq<string>>): Settings {
    Settings(
      Lookup(options, "source"), Lookup(options, "sourceServer"), Lookup(options, "sourceUsername"),
      Lookup(options, "sourcePassword"),
      GetText(options, "sourceAuthDatabase", Lookup(options, "authDatabaseNameSource")),
      Lookup(options, "target"), Lookup(options, "targetServer"), Lookup(options, "targetUsername"),
      Lookup(options, "targetPassword"),
      GetText(options, "targetAuthDatabase", Lookup(options, "authDatabaseNameTarget")),
      GetInt(options, "insertBatchSize", -1), GetInt(options, "threads", 1),
      GetBool(options, "copy-indexes", true), GetBool(options, "drop-collections", false),
      ParseArgumentAsList(options, asArray, "sourceDatabase"),
      Some(ParseArgumentAsList(options, asArray, "targetDatabase")),
      [])
  }

  predicate AnyWildcard(names: seq<string>) {
    exists i :: 0 <= i < |names| && HasWildcard(Some(names[i]))
  }

  /**
   * The sanity checks, in order; the first that fails gives the exit code.
   * `secondWildcardTest` is the list the -105 test looks at.
   */
  function FirstFailure(s: Settings, secondWildcardTest: seq<string>): Option<int> {
    var targets := s.targetDatabases.GetOr([]);
    if NullOrEmpty(s.sourceUri) && NullOrEmpty(s.sourceServer) then Some(-101)
    else if NullOrEmpty(s.targetUri) && NullOrEmpty(s.targetServer) then Some(-102)
    else if s.sourceDatabases == [] then Some(-103)
    else if targets == [] then None
    else if AnyWildcard(s.sourceDatabases) then Some(-104)
    else if AnyWildcard(secondWildcardTest) then Some(-105)
    else if |s.sourceDatabases| != |targets| then Some(-106)
    else None
  }

  /** The outcome once the checks have picked their verdict. */
  function Outcome(options: Options, asArray: string -> Option<seq<string>>, failure: Option<int>): Parsed {
    var s := Read(options, asArray);
    if failure.Some? then Exit(failure.value)
    else
      var targets := if s.targetDatabases.GetOr([]) == [] then None else s.targetDatabases;
      Accepted(s.(targetDatabases := targets,
                  collections := ParseArgumentAsList(options, asArray, "collections")))
  }

  /**
   * `ParseArguments` as written: the -105 test, meant for the target names, looks
   * at the source names again, so it never exits with -105 and a wildcard target
   * list goes on to the length test.
   */
  function ParseArgumentsAsWritten(options: Options, asArray: string -> Option<seq<string>>): (r: Parsed)
    ensures var s := Read(options, asArray);
      var missingSource := NullOrEmpty(s.sourceUri) && NullOrEmpty(s.sourceServer);
      var missingTarget := NullOrEmpty(s.targetUri) && NullOrEmpty(s.targetServer);
      var sources := s.sourceDatabases;
      var targets := s.targetDatabases.value;
      && (r == Exit(-101) <==> missingSource)
      && (r == Exit(-102) <==> !missingSource && missingTarget)
      && (r == Exit(-103) <==> !missingSource && !missingTarget && sources == [])
      && (r == Exit(-104) <==> !missingSource && !missingTarget && sources != [] && targets != []
                                && AnyWildcard(sources))
      && (r == Exit(-106) <==> !missingSource && !missingTarget && sources != [] && targets != []
                                && !AnyWildcard(sources) && |sources| != |targets|)
      && (r.Exit? ==> r.code in {-101, -102, -103, -104, -106})
  {
    var s := Read(options, asArray);
    Outcome(options, asArray, FirstFailure(s, s.sourceDatabases))
  }

  /**
   * `ParseArguments`, with the -105 test on the target names. Each exit code is
   * given by its own condition, in the order the checks run; an empty target list
   * is replaced by none.
   */
  function ParseArguments(options: Options, asArray: string -> Option<seq<string>>): (r: Parsed)
    ensures var s := Read(options, asArray);
      var missingSource := NullOrEmpty(s.sourceUri) && NullOrEmpty(s.sourceServer);
      var missingTarget := NullOrEmpty(s.targetUri) && NullOrEmpty(s.targetServer);
      var sources := s.sourceDatabases;
      var targets := s.targetDatabases.value;
      && (r == Exit(-101) <==> missingSource)
      && (r == Exit(-102) <==> !missingSource && missingTarget)
      && (r == Exit(-103) <==> !missingSource && !missingTarget && sources == [])
      && (r.Exit? && r.code in {-104, -105, -106} ==>
            !missingSource && !missingTarget && sources != [] && targets != [])
      && (r == Exit(-104) <==> !missingSource && !missingTarget && sources != [] && targets != []
                                && AnyWildcard(sources))
      && (r == Exit(-105) <==> !missingSource && !missingTarget && sources != [] && targets != []
                                && !AnyWildcard(sources) && AnyWildcard(targets))
      && (r == Exit(-106) <==> !missingSource && !missingTarget && sources != [] && targets != []
                                && !AnyWildcard(sources) && !AnyWildcard(targets) && |sources| != |targets|)
      && (r.Exit? ==> r.code in {-101, -102, -103, -104, -105, -106})
  {
    var s := Read(options, asArray);
    Outcome(options, asArray, FirstFailure(s, s.targetDatabases.GetOr([])))
  }

  /**
   * `ParseArguments` as the code runs it: the fields are read, the checks run one
   * after another and the first that fails exits (the -105 test looks at the source
   * names, as written); an empty target list is overwritten with none, and the
   * collections are read last.
   */
  method ParseArgumentsInOrder(options: Options, asArray: string -> Option<seq<string>>) returns (r: Parsed)
    ensures r == ParseArgumentsAsWritten(options, asArray)
  {
    var s := Read(options, asArray);
    if NullOrEmpty(s.sourceUri) && NullOrEmpty(s.sourceServer) {
      return Exit(-101);
    }
    if NullOrEmpty(s.targetUri) && NullOrEmpty(s.targetServer) {
      return Exit(-102);
    }
    if |s.sourceDatabases| == 0 {
      return Exit(-103);
    }
    var targets := s.targetDatabases;
    if |targets.value| == 0 {
      targets := None;
    } else {
      if AnyWildcard(s.sourceDatabases) {
        return Exit(-104);
      }
      if AnyWildcard(s.sourceDatabases) {
        return Exit(-105);
      }
      if |s.sourceDatabases| != |targets.value| {
        return Exit(-106);
      }
    }
    var collections := ParseArgumentAsList(options, asArray, "collections");
    r := Accepted(s.(targetDatabases := targets, collections := collections));
  }

  /**
   * Accepted settings are consistent: both endpoints are given, at least one source
   * database is named, and a target list, when kept, is as long as the source list
   * and free of wildcards on both sides. Every list item is trimmed and non-empty.
   */
  lemma AcceptedSettings(options: Options, asArray: string -> Option<seq<string>>)
    requires ParseArguments(options, asArray).Accepted?
    ensures var s := ParseArguments(options, asArray).settings;
      && !(NullOrEmpty(s.sourceUri) && NullOrEmpty(s.sourceServer))
      && !(NullOrEmpty(s.targetUri) && NullOrEmpty(s.targetServer))
      && s.sourceDatabases != []
      && (s.targetDatabases.Some? ==>
            s.targetDatabases.value != [] && |s.targetDatabases.value| == |s.sourceDatabases|
            && !AnyWildcard(s.sourceDatabases) && !AnyWildcard(s.targetDatabases.value))
      && s.sourceDatabases == Read(options, asArray).sourceDatabases
      && s.collections == ParseArgumentAsList(options, asArray, "collections")
  {
  }

  /**
   * The settings the checks as written accept are consistent in the same way,
   * except that a kept target list may hold wildcards.
   */
  lemma AcceptedSettingsAsWritten(options: Options, asArray: string -> Option<seq<string>>)
    requires ParseArgumentsAsWritten(options, asArray).Accepted?
    ensures var s := ParseArgumentsAsWritten(options, asArray).settings;
      && !(NullOrEmpty(s.sourceUri) && NullOrEmpty(s.sourceServer))
      && !(NullOrEmpty(s.targetUri) && NullOrEmpty(s.targetServer))
      && s.sourceDatabases != []
      && (s.targetDatabases.Some? ==>
            s.targetDatabases.value != [] && |s.targetDatabases.value| == |s.sourceDatabases|
            && !AnyWildcard(s.sourceDatabases))
      && s.sourceDatabases == Read(options, asArray).sourceDatabases
      && s.collections == ParseArgumentAsList(options, asArray, "collections")
  {
  }

  /**
   * The two versions of the checks differ only where the corrected one exits with
   * -105; there the code as written accepts the settings or exits with -106.
   */
  lemma AsWrittenDiffersOnlyAt105(options: Options, asArray: string -> Option<seq<string>>)
    ensures ParseArgumentsAsWritten(options, asArray) != ParseArguments(options, asArray) ==>
      ParseArguments(options, asArray) == Exit(-105) &&
      (ParseArgumentsAsWritten(options, asArray).Accepted? || ParseArgumentsAsWritten(options, asArray) == Exit(-106))
  {
  }

  /**
   * With both endpoints and source databases given, an empty target list is
   * accepted as no target list: the source names are used on the target.
   */
  lemma EmptyTargetListReusesSources(options: Options, asArray: string -> Option<seq<string>>)
    requires var s := Read(options, asArray);
      !(NullOrEmpty(s.sourceUri) && NullOrEmpty(s.sourceServer))
      && !(NullOrEmpty(s.targetUri) && NullOrEmpty(s.targetServer))
      && s.sourceDatabases != []
    requires "targetDatabase" !in options
    ensures ParseArguments(options, asArray).Accepted?
    ensures ParseArguments(options, asArray).settings.targetDatabases.None?
  {
  }

  /** Without the options the defaults hold: automatic batch size, one thread, indexes copied, nothing dropped. */
  lemma Defaults(options: Options, asArray: string -> Option<seq<string>>)
    requires "insertBatchSize" !in options && "threads" !in options
    requires "copy-indexes" !in options && "drop-collections" !in options
    ensures var s := Read(options, asArray);
      s.insertBatchSize == -1 && s.threads == 1 && s.copyIndexes && !s.dropCollections
  {
  }

  /** A batch size or thread count written as an `int` is read back as that number. */
  lemma NumbersReadBack(options: Options, asArray: string -> Option<seq<string>>, size: int, threads: int)
    requires "insertBatchSize" in options && options["insertBatchSize"] == IntToString(size)
    requires "threads" in options && options["threads"] == IntToString(threads)
    requires Int32Min <= size <= Int32Max && Int32Min <= threads <= Int32Max
    ensures Read(options, asArray).insertBatchSize == size && Read(options, asArray).threads == threads
  {
    ParseIntToString(size);
    ParseIntToString(threads);
  }

  /** A number too large for an `int` cannot be read, so the defaults are used. */
  lemma OverflowReadsDefault(options: Options, asArray: string -> Option<seq<string>>, size: int, threads: int)
    requires "insertBatchSize" in options && options["insertBatchSize"] == IntToString(size)
    requires "threads" in options && options["threads"] == IntToString(threads)
    ensures (size < Int32Min || Int32Max < size) ==> Read(options, asArray).insertBatchSize == -1
    ensures (threads < Int32Min || Int32Max < threads) ==> Read(options, asArray).threads == 1
  {
    if size < Int32Min || Int32Max < size {
      ParseIntOverflow(size);
    }
    if threads < Int32Min || Int32Max < threads {
      ParseIntOverflow(threads);
    }
  }

  /**
   * Settings accepted by the checks as written (and so by the corrected ones, which
   * accept fewer) never make the database enumeration run out of target names: with
   * a target list, it pairs the lists position by position without failing.
   */
  lemma AcceptedListsNeverRunOut(options: Options, asArray: string -> Option<seq<string>>, databases: seq<string>)
    requires ParseArgumentsAsWritten(options, asArray).Accepted?
    ensures var s := ParseArgumentsAsWritten(options, asArray).settings;
      !Resolver.ListDatabases(databases, Some(s.sourceDatabases), s.targetDatabases).failed
  {
    var s := ParseArgumentsAsWritten(options, asArray).settings;
    AcceptedSettingsAsWritten(options, asArray);
    if s.targetDatabases.Some? {
      Resolver.ZippedComplete(databases, s.sourceDatabases, s.targetDatabases.value, 0);
    }
  }

  /** The checks as written never exit with -105: it repeats the -104 test, which has already passed. */
  lemma SecondWildcardTestUnreachable(options: Options, asArray: string -> Option<seq<string>>)
    ensures ParseArgumentsAsWritten(options, asArray) != Exit(-105)
  {
  }

  /**
   * A wildcard target name such as "copy*" beside the plain source name "app" is
   * accepted by the checks as written and rejected with -105 by the corrected ones.
   */
  lemma WildcardTargetAccepted()
    ensures var s := Settings(Some("mongodb://a"), None, None, None, None,
                              Some("mongodb://b"), None, None, None, None,
                              -1, 1, true, false, ["app"], Some(["copy*"]), []);
      FirstFailure(s, s.sourceDatabases).None? && FirstFailure(s, s.targetDatabases.value) == Some(-105)
  {
    var s := Settings(Some("mongodb://a"), None, None, None, None,
                      Some("mongodb://b"), None, None, None, None,
                      -1, 1, true, false, ["app"], Some(["copy*"]), []);
    assert HasWildcard(Some(s.targetDatabases.value[0]));
    assert !AnyWildcard(s.sourceDatabases) by {
      assert "app"[0] == 'a' && "app"[1] == 'p' && "app"[2] == 'p';
    }
  }
}
