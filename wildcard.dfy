/**
 * Glob-style name selection (`*` and `?`) used to pick databases and
 * collections: `HasWildcard`, `WildcardToRegex` and `WildcardIsMatch` of
 * MongoToolsLib/SharedMethods.cs. The regular expression text is built
 * exactly as the source does (`Regex.Escape`, then two `Replace` calls);
 * its meaning under the .NET regex engine is stated directly by `GlobMatch`.
 */
module Wildcard {
  import opened Wrappers
  import opened Text

  /** `HasWildcard`: a non-null pattern containing `*` or `?`. */
  predicate HasWildcard(pattern: Option<string>) {
    pattern.Some? && ('*' in pattern.value || '?' in pattern.value)
  }

  /** The characters `Regex.Escape` prefixes with a backslash. */
  predicate IsRegexMeta(c: char) {
    c in "\\*+?|{[()^$.# "
  }

  /** `Regex.Escape` of one character. */
  function EscapeChar(c: char): (r: string)
    ensures r != [] && r[0] != '*' && r[0] != '?'
    ensures |r| == 1 ==> r[0] == c && r[0] != '\\'
    ensures |r| == 2 ==> r[0] == '\\' && (r[1] == '*' <==> c == '*') && (r[1] == '?' <==> c == '?')
    ensures |r| <= 2
  {
    if c == '\t' then "\\t"
    else if c == '\n' then "\\n"
    else if c == '\r' then "\\r"
    else if c == '\U{000C}' then "\\f"
    else if IsRegexMeta(c) then ['\\', c]
    else [c]
  }

  /** Concatenates `piece(c)` over the characters of `s`. */
  function Pieces(s: string, piece: char -> string): string {
    if s == [] then [] else piece(s[0]) + Pieces(s[1..], piece)
  }

  /** `Regex.Escape`. */
  function Escape(s: string): string {
    Pieces(s, EscapeChar)
  }

  /**
   * `WildcardToRegex`: a null pattern gives the empty string; otherwise the escaped
   * pattern with `\*` replaced by `.*` and `\?` by `.`, an optional `^` and a final `$`.
   */
  function WildcardToRegex(pattern: Option<string>, anchorOnStart: bool): string {
    if pattern.None? then ""
    else
      var body := ReplaceAll(ReplaceAll(Escape(pattern.value), "\\*", ".*"), "\\?", ".");
      (if anchorOnStart then "^" else "") + body + "$"
  }

  /** The regex text each pattern character ends up as. */
  function RegexPiece(c: char): string {
    if c == '*' then ".*" else if c == '?' then "." else EscapeChar(c)
  }

  /** The text after the first replacement, character by character. */
  function StarPiece(c: char): string {
    if c == '*' then ".*" else EscapeChar(c)
  }

  lemma EscapeHead(s: string)
    requires s != []
    ensures Escape(s) != [] && Escape(s)[0] != '*' && Escape(s)[0] != '?'
  {
    assert Escape(s) == EscapeChar(s[0]) + Escape(s[1..]);
  }

  lemma StarPiecesHead(s: string)
    requires s != []
    ensures Pieces(s, StarPiece) != [] && Pieces(s, StarPiece)[0] != '?'
  {
    assert Pieces(s, StarPiece) == StarPiece(s[0]) + Pieces(s[1..], StarPiece);
  }

  /** The first `Replace` turns each escaped `*` into `.*` and touches nothing else. */
  lemma {:induction false} ReplaceStars(s: string)
    ensures ReplaceAll(Escape(s), "\\*", ".*") == Pieces(s, StarPiece)
  {
    if s != [] {
      ReplaceStars(s[1..]);
      var c, rest := s[0], Escape(s[1..]);
      var e := EscapeChar(c);
      assert Escape(s) == e + rest;
      assert rest != [] ==> rest[0] != '*' by {
        if s[1..] != [] { EscapeHead(s[1..]); }
      }
      if c == '*' {
        ReplaceHead(rest, "\\*", ".*");
      } else {
        ReplaceSkipPiece(e, rest, "\\*", ".*");
      }
    }
  }

  /** The second `Replace` turns each escaped `?` into `.` and touches nothing else. */
  lemma {:induction false} ReplaceQuestionMarks(s: string)
    ensures ReplaceAll(Pieces(s, StarPiece), "\\?", ".") == Pieces(s, RegexPiece)
  {
    if s != [] {
      ReplaceQuestionMarks(s[1..]);
      var c, rest := s[0], Pieces(s[1..], StarPiece);
      var e := StarPiece(c);
      assert Pieces(s, StarPiece) == e + rest;
      assert rest != [] ==> rest[0] != '?' by {
        if s[1..] != [] { StarPiecesHead(s[1..]); }
      }
      if c == '?' {
        ReplaceHead(rest, "\\?", ".");
      } else {
        ReplaceSkipPiece(e, rest, "\\?", ".");
      }
    }
  }

  /**
   * The regex built for a pattern is the anchors around one piece per pattern
   * character: `*` becomes `.*`, `?` becomes `.` and every other character
   * stands for itself (escaped when it is a regex metacharacter).
   */
  lemma WildcardToRegexPieces(pattern: string, anchorOnStart: bool)
    ensures WildcardToRegex(Some(pattern), anchorOnStart)
            == (if anchorOnStart then "^" else "") + Pieces(pattern, RegexPiece) + "$"
  {
    ReplaceStars(pattern);
    ReplaceQuestionMarks(pattern);
  }

  /** One pattern character against one input character, as the regex compares them. */
  predicate SameChar(p: char, c: char, ignoreCase: bool) {
    if ignoreCase then Lower(p) == Lower(c) else p == c
  }

  /**
   * What the anchored regex `^...$` built by `WildcardToRegex` accepts: `*` is a run
   * of characters other than a line feed, `?` one such character, anything else the
   * character itself; `$` also accepts a single final line feed.
   */
  predicate GlobMatch(p: string, s: string, ignoreCase: bool)
    decreases |p| + |s|
  {
    if p == [] then s == [] || s == "\n"
    else if p[0] == '*' then
      GlobMatch(p[1..], s, ignoreCase) || (s != [] && s[0] != '\n' && GlobMatch(p, s[1..], ignoreCase))
    else if p[0] == '?' then s != [] && s[0] != '\n' && GlobMatch(p[1..], s[1..], ignoreCase)
    else s != [] && SameChar(p[0], s[0], ignoreCase) && GlobMatch(p[1..], s[1..], ignoreCase)
  }

  /** `String.IsNullOrWhiteSpace`. */
  predicate IsNullOrWhiteSpace(s: Option<string>) {
    s.None? || IsBlank(s.value)
  }

  /**
   * `WildcardIsMatch`: equal strings (both null included) match; a null or blank
   * side never matches otherwise; a pattern without wildcards is compared as a string;
   * any other pattern is matched as a whole-string glob.
   */
  predicate WildcardIsMatch(pattern: Option<string>, input: Option<string>, ignoreCase: bool) {
    if input == pattern then true
    else if IsNullOrWhiteSpace(pattern) || IsNullOrWhiteSpace(input) then false
    else if !HasWildcard(pattern) then
      (if ignoreCase then EqualsIgnoreCase(input.value, pattern.value) else input.value == pattern.value)
    else GlobMatch(pattern.value, input.value, ignoreCase)
  }

  /** Case-folded equality of two non-empty strings, one character at a time. */
  lemma LoweredCons(a: string, b: string)
    requires a != [] && b != []
    ensures EqualsIgnoreCase(a, b) <==> Lower(a[0]) == Lower(b[0]) && EqualsIgnoreCase(a[1..], b[1..])
  {
    assert Lowered(a) == [Lower(a[0])] + Lowered(a[1..]);
    assert Lowered(b) == [Lower(b[0])] + Lowered(b[1..]);
  }

  /** Without wildcards, the case-insensitive glob reading of a pattern is case-folded equality on single-line names. */
  lemma {:induction false} PlainGlobIsEquality(p: string, s: string)
    requires '*' !in p && '?' !in p && '\n' !in s
    ensures GlobMatch(p, s, true) <==> EqualsIgnoreCase(p, s)
  {
    if p != [] && s != [] {
      PlainGlobIsEquality(p[1..], s[1..]);
      LoweredCons(p, s);
    } else if p != [] {
      assert |Lowered(p)| != |Lowered(s)|;
    }
  }

  /** Without wildcards, the case-sensitive glob reading of a pattern is string equality on single-line names. */
  lemma {:induction false} PlainGlobIsOrdinalEquality(p: string, s: string)
    requires '*' !in p && '?' !in p && '\n' !in s
    ensures GlobMatch(p, s, false) <==> p == s
  {
    if p != [] && s != [] {
      PlainGlobIsOrdinalEquality(p[1..], s[1..]);
      assert p == [p[0]] + p[1..] && s == [s[0]] + s[1..];
    }
  }

  /** `*` alone accepts every single-line name. */
  lemma {:induction false} StarMatchesAll(s: string, ignoreCase: bool)
    requires '\n' !in s
    ensures GlobMatch("*", s, ignoreCase)
  {
    if s != [] {
      StarMatchesAll(s[1..], ignoreCase);
    }
  }

  /** A pattern of `n` question marks accepts exactly the single-line names of length `n`. */
  lemma {:induction false} QuestionMarksMatchLength(n: nat, s: string, ignoreCase: bool)
    requires '\n' !in s
    ensures GlobMatch(seq(n, _ => '?'), s, ignoreCase) <==> |s| == n
  {
    var p := seq(n, _ => '?');
    if n > 0 && s != [] {
      assert p[1..] == seq(n - 1, _ => '?');
      QuestionMarksMatchLength(n - 1, s[1..], ignoreCase);
    }
  }

  /** Matches compose: a name made of two matching parts matches the joined pattern. */
  lemma {:induction false} GlobConcat(p1: string, s1: string, p2: string, s2: string, ignoreCase: bool)
    requires '\n' !in s1
    requires GlobMatch(p1, s1, ignoreCase) && GlobMatch(p2, s2, ignoreCase)
    ensures GlobMatch(p1 + p2, s1 + s2, ignoreCase)
    decreases |p1| + |s1|
  {
    if p1 == [] {
      assert p1 + p2 == p2 && s1 + s2 == s2;
    } else if p1[0] == '*' {
      assert (p1 + p2)[1..] == p1[1..] + p2;
      if GlobMatch(p1[1..], s1, ignoreCase) {
        GlobConcat(p1[1..], s1, p2, s2, ignoreCase);
      } else {
        GlobConcat(p1, s1[1..], p2, s2, ignoreCase);
        assert (s1 + s2)[1..] == s1[1..] + s2;
      }
    } else {
      assert (p1 + p2)[1..] == p1[1..] + p2;
      assert (s1 + s2)[1..] == s1[1..] + s2;
      GlobConcat(p1[1..], s1[1..], p2, s2, ignoreCase);
    }
  }

  /** A pattern without `*` only accepts single-line names as long as itself. */
  lemma {:induction false} StarFreeLength(p: string, s: string, ignoreCase: bool)
    requires '*' !in p && '\n' !in s && GlobMatch(p, s, ignoreCase)
    ensures |s| == |p|
  {
    if p != [] {
      StarFreeLength(p[1..], s[1..], ignoreCase);
    }
  }

  /** A wildcard-free prefix followed by `*` accepts every single-line name that starts with the prefix. */
  lemma PrefixStarMatches(p: string, rest: string, ignoreCase: bool)
    requires '*' !in p && '?' !in p && '\n' !in p && '\n' !in rest
    requires !IsBlank(p + rest)
    ensures WildcardIsMatch(Some(p + "*"), Some(p + rest), ignoreCase)
  {
    StarMatchesAll(rest, ignoreCase);
    if ignoreCase {
      PlainGlobIsEquality(p, p);
    } else {
      PlainGlobIsOrdinalEquality(p, p);
    }
    GlobConcat(p, p, "*", rest, ignoreCase);
    var q := p + "*";
    assert q[|p|] == '*' && !IsWhiteSpace(q[|p|]);
  }

  /**
   * A pattern without `*` never accepts a single-line name of another length, whether
   * it is compared as a plain string or matched as a glob.
   */
  lemma StarFreeNeedsLength(p: string, s: string, ignoreCase: bool)
    requires '*' !in p && '\n' !in s && |s| != |p|
    ensures !WildcardIsMatch(Some(p), Some(s), ignoreCase)
  {
    assert |Lowered(s)| != |Lowered(p)|;
    if GlobMatch(p, s, ignoreCase) {
      StarFreeLength(p, s, ignoreCase);
    }
  }

  /** `user_*` accepts `user_2024`; `user_??` does not. */
  lemma WildcardExamples()
    ensures WildcardIsMatch(Some("user_*"), Some("user_2024"), true)
    ensures !WildcardIsMatch(Some("user_??"), Some("user_2024"), true)
  {
    var p, rest := "user_", "2024";
    assert p + rest == "user_2024" && p + "*" == "user_*";
    assert !IsWhiteSpace((p + rest)[0]);
    PrefixStarMatches(p, rest, true);
    StarFreeNeedsLength("user_??", "user_2024", true);
  }
}
