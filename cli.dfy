/**
 * `ParseCommandLineArguments` of MongoToolsLib/SimpleHelpers/ConsoleUtils.cs: the
 * command-line tokenizer. It walks the arguments once with two variables, whether
 * a tag is open and the last tag seen, and sets keys of the options map.
 *
 * The options object is a map from key to value whose `Set` assigns a key.
 */
module CommandLine {
  import opened Wrappers
  import opened Text

  /** The options read so far and the tokenizer's two variables. */
  datatype ArgState = ArgState(options: map<string, string>, openTag: bool, lastTag: Option<string>)

  const Start := ArgState(map[], false, None)

  /** An argument that starts with `-` or `/` (an ordinal `StartsWith`). */
  predicate HasMarker(arg: string) {
    arg != [] && (arg[0] == '-' || arg[0] == '/')
  }

  /** A key or tag name: trimmed, then stripped of all leading `-` and `/`. */
  function OptionName(s: string): string {
    TrimMarkers(Trim(s))
  }

  /** A `key=value` argument: an `=` after the first character, read as one while no tag is open or when marked. */
  predicate IsKeyValue(st: ArgState, arg: string) {
    IndexOf(arg, '=') > 0 && (HasMarker(arg) || !st.openTag)
  }

  function KeyOf(arg: string): string
    requires IndexOf(arg, '=') > 0
  {
    OptionName(arg[..IndexOf(arg, '=')])
  }

  function ValueOf(arg: string): string
    requires IndexOf(arg, '=') > 0
  {
    Trim(arg[IndexOf(arg, '=') + 1..])
  }

  /**
   * One argument: a `key=value` sets the key and closes any tag; a marked argument
   * sets its name to "true" and opens it as the last tag; any other argument is the
   * value of the last tag, if there is one, and closes it.
   */
  function Step(st: ArgState, arg: string): ArgState {
    if IsKeyValue(st, arg) then
      ArgState(st.options[KeyOf(arg) := ValueOf(arg)], false, None)
    else if HasMarker(arg) then
      var tag := OptionName(arg);
      ArgState(st.options[tag := "true"], true, Some(tag))
    else if st.lastTag.Some? then
      ArgState(st.options[st.lastTag.value := Trim(arg)], false, st.lastTag)
    else st
  }

  /** The state after the arguments, from left to right. */
  function Run(st: ArgState, args: seq<string>): ArgState
    decreases |args|
  {
    if args == [] then st else Run(Step(st, args[0]), args[1..])
  }

  lemma {:induction false} RunSnoc(st: ArgState, args: seq<string>, arg: string)
    ensures Run(st, args + [arg]) == Step(Run(st, args), arg)
    decreases |args|
  {
    if args == [] {
      assert ([] + [arg])[1..] == [];
    } else {
      assert (args + [arg])[1..] == args[1..] + [arg];
      RunSnoc(Step(st, args[0]), args[1..], arg);
    }
  }

  lemma {:induction false} RunAppend(st: ArgState, xs: seq<string>, ys: seq<string>)
    ensures Run(st, xs + ys) == Run(Run(st, xs), ys)
    decreases |xs|
  {
    if xs == [] {
      assert xs + ys == ys;
    } else {
      assert (xs + ys)[1..] == xs[1..] + ys;
      RunAppend(Step(st, xs[0]), xs[1..], ys);
    }
  }

  /**
   * `ParseCommandLineArguments`: empty options for null arguments; otherwise one
   * step per argument, in order.
   */
  method ParseCommandLineArguments(args: Option<seq<string>>) returns (options: map<string, string>)
    ensures args.None? ==> options == map[]
    ensures args.Some? ==> options == Run(Start, args.value).options
  {
    options := map[];
    if args.Some? {
      var a := args.value;
      var openTag := false;
      var lastTag: Option<string> := None;
      for ix := 0 to |a|
        invariant options == Run(Start, a[..ix]).options
        invariant openTag == Run(Start, a[..ix]).openTag
        invariant lastTag == Run(Start, a[..ix]).lastTag
      {
        var arg := a[ix];
        ghost var before := Run(Start, a[..ix]);
        RunSnoc(Start, a[..ix], arg);
        PrefixSnoc(a, ix);
        var hasStartingMarker := HasMarker(arg);
        var p := IndexOf(arg, '=');
        if p > 0 && (hasStartingMarker || !openTag) {
          StepKeyValue(before, arg);
          options := options[OptionName(arg[..p]) := Trim(arg[p + 1..])];
          lastTag := None;
          openTag := false;
        } else if hasStartingMarker {
          StepFlag(before, arg);
          lastTag := Some(OptionName(arg));
          options := options[lastTag.value := "true"];
          openTag := true;
        } else if lastTag.Some? {
          StepValue(before, arg);
          options := options[lastTag.value := Trim(arg)];
          openTag := false;
        } else {
          StepIgnored(before, arg);
        }
      }
      assert a[..|a|] == a;
    }
  }

  lemma PrefixSnoc(a: seq<string>, ix: int)
    requires 0 <= ix < |a|
    ensures a[..ix + 1] == a[..ix] + [a[ix]]
  {
  }

  lemma StepKeyValue(st: ArgState, arg: string)
    requires IsKeyValue(st, arg)
    ensures Step(st, arg) == ArgState(st.options[KeyOf(arg) := ValueOf(arg)], false, None)
  {
  }

  lemma StepFlag(st: ArgState, arg: string)
    requires !IsKeyValue(st, arg) && HasMarker(arg)
    ensures Step(st, arg) == ArgState(st.options[OptionName(arg) := "true"], true, Some(OptionName(arg)))
  {
  }

  lemma StepValue(st: ArgState, arg: string)
    requires !IsKeyValue(st, arg) && !HasMarker(arg) && st.lastTag.Some?
    ensures Step(st, arg) == ArgState(st.options[st.lastTag.value := Trim(arg)], false, st.lastTag)
  {
  }

  lemma StepIgnored(st: ArgState, arg: string)
    requires !IsKeyValue(st, arg) && !HasMarker(arg) && st.lastTag.None?
    ensures Step(st, arg) == st
  {
  }

  /** A marked `key=value` argument always sets its key, whatever came before. */
  lemma MarkedKeyValueSets(st: ArgState, arg: string)
    requires IndexOf(arg, '=') > 0 && HasMarker(arg)
    ensures Step(st, arg).options == st.options[KeyOf(arg) := ValueOf(arg)]
    ensures !Step(st, arg).openTag && Step(st, arg).lastTag.None?
  {
  }

  /** A marked argument without `=` past its first character sets its name to "true" and opens it. */
  lemma FlagSetsTrue(st: ArgState, arg: string)
    requires IndexOf(arg, '=') <= 0 && HasMarker(arg)
    ensures Step(st, arg) == ArgState(st.options[OptionName(arg) := "true"], true, Some(OptionName(arg)))
  {
  }

  /**
   * After a tag, unmarked arguments are its values, even ones holding `=`: the first
   * sets the tag and closes it, and since the last tag is kept, a further unmarked
   * argument without `=` past its first character sets the same key again.
   */
  lemma {:induction false} BareTokensAfterTag(prefix: seq<string>, tag: string, b1: string, b2: string)
    requires IndexOf(tag, '=') <= 0 && HasMarker(tag)
    requires !HasMarker(b1) && !HasMarker(b2) && IndexOf(b2, '=') <= 0
    ensures Run(Start, prefix + [tag] + [b1]).options ==
      Run(Start, prefix).options[OptionName(tag) := Trim(b1)]
    ensures Run(Start, prefix + [tag] + [b1] + [b2]).options ==
      Run(Start, prefix).options[OptionName(tag) := Trim(b2)]
  {
    var name := OptionName(tag);
    var p1 := prefix + [tag];
    var p2 := p1 + [b1];
    var p3 := p2 + [b2];
    RunSnoc(Start, prefix, tag);
    RunSnoc(Start, p1, b1);
    RunSnoc(Start, p2, b2);
    var s0 := Run(Start, prefix);
    StepFlag(s0, tag);
    var s1 := Run(Start, p1);
    StepValue(s1, b1);
    var s2 := Run(Start, p2);
    StepValue(s2, b2);
    UpdateTwice(s0.options, name, "true", Trim(b1));
    UpdateTwice(s0.options, name, Trim(b1), Trim(b2));
  }

  /** Setting a key twice leaves the second value. */
  lemma UpdateTwice(m: map<string, string>, k: string, first: string, second: string)
    ensures m[k := first][k := second] == m[k := second]
  {
  }

  /**
   * Unmarked arguments change nothing before any tag and right after a `key=value`:
   * such an argument is either another `key=value` or ignored.
   */
  lemma BareTokenIgnored(st: ArgState, arg: string)
    requires st.lastTag.None? && !st.openTag && !HasMarker(arg) && IndexOf(arg, '=') <= 0
    ensures Step(st, arg) == st
  {
  }

  lemma {:induction false} LeadingBareTokensIgnored(bare: seq<string>, rest: seq<string>)
    requires forall i :: 0 <= i < |bare| ==> !HasMarker(bare[i]) && IndexOf(bare[i], '=') <= 0
    ensures Run(Start, bare + rest) == Run(Start, rest)
    decreases |bare|
  {
    if bare == [] {
      assert bare + rest == rest;
    } else {
      assert (bare + rest)[1..] == bare[1..] + rest;
      BareTokenIgnored(Start, bare[0]);
      LeadingBareTokensIgnored(bare[1..], rest);
    }
  }

  /** An argument whose `=` is its first character is never a `key=value`. */
  lemma LeadingEqualsIsNotKeyValue(st: ArgState, arg: string)
    requires arg != [] && arg[0] == '='
    ensures !IsKeyValue(st, arg)
    ensures Step(st, arg).options ==
      if st.lastTag.Some? then st.options[st.lastTag.value := Trim(arg)] else st.options
  {
  }

  /** `k` is a name argument `arg` can set: its tag name, or its key when it holds `=` past its first character. */
  predicate NamedBy(arg: string, k: string) {
    k == OptionName(arg) || (IndexOf(arg, '=') > 0 && k == KeyOf(arg))
  }

  /** The last tag, when there is one, is a key of the options. */
  predicate TagStored(st: ArgState) {
    st.lastTag.Some? ==> st.lastTag.value in st.options
  }

  /** A step sets no key other than the name of the argument or the last tag, and keeps the last tag stored. */
  lemma StepKeys(st: ArgState, arg: string)
    ensures forall k :: k in Step(st, arg).options ==>
      (k in st.options || NamedBy(arg, k) || (st.lastTag.Some? && k == st.lastTag.value))
    ensures TagStored(st) ==> TagStored(Step(st, arg))
  {
    if IsKeyValue(st, arg) {
      StepKeyValue(st, arg);
    } else if HasMarker(arg) {
      StepFlag(st, arg);
    } else if st.lastTag.Some? {
      StepValue(st, arg);
    } else {
      StepIgnored(st, arg);
    }
  }

  /**
   * Every key of the options comes from some argument: a `key=value` key or a tag
   * name (the value of a tag is stored under that tag's own name).
   */
  lemma {:induction false} KeysFromArguments(st: ArgState, args: seq<string>)
    requires TagStored(st)
    ensures forall k :: k in Run(st, args).options ==>
      (k in st.options || exists i :: 0 <= i < |args| && NamedBy(args[i], k))
    decreases |args|
  {
    if args != [] {
      var next := Step(st, args[0]);
      StepKeys(st, args[0]);
      KeysFromArguments(next, args[1..]);
      forall k | k in Run(st, args).options
        ensures k in st.options || exists i :: 0 <= i < |args| && NamedBy(args[i], k)
      {
        if k !in next.options {
          var i :| 0 <= i < |args[1..]| && NamedBy(args[1..][i], k);
          assert args[1..][i] == args[i + 1];
        } else if k !in st.options {
          assert NamedBy(args[0], k);
        }
      }
    }
  }
}
