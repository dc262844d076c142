/**
 * The .NET string operations the tools rely on, stated over `seq<char>`:
 * `Char.IsWhiteSpace`, `Trim`, `TrimStart(chars)`, `IndexOf(char)`,
 * `Split(chars)`, `String.Join`, `Replace`, `Contains`, ordinal
 * case-insensitive comparison (ASCII folding) and `Convert.ToString(int)`.
 */
module Text {
  import opened Wrappers

  /** `Char.IsWhiteSpace`: the Unicode white-space characters. */
  predicate IsWhiteSpace(c: char) {
    c == ' ' || '\t' <= c <= '\r' || c == '\U{0085}' || c == '\U{00A0}' || c == '\U{1680}'
    || '\U{2000}' <= c <= '\U{200A}' || c == '\U{2028}' || c == '\U{2029}'
    || c == '\U{202F}' || c == '\U{205F}' || c == '\U{3000}'
  }

  /** `String.IsNullOrWhiteSpace` for a non-null string. */
  predicate IsBlank(s: string) {
    forall i :: 0 <= i < |s| ==> IsWhiteSpace(s[i])
  }

  /** Drops the longest prefix whose characters all satisfy `drop`. */
  function TrimStartBy(s: string, drop: char -> bool): (r: string)
    ensures |r| <= |s| && r == s[|s| - |r|..]
    ensures r == [] || !drop(r[0])
    ensures forall i :: 0 <= i < |s| - |r| ==> drop(s[i])
  {
    if s != [] && drop(s[0]) then TrimStartBy(s[1..], drop) else s
  }

  /** Drops the longest suffix whose characters all satisfy `drop`. */
  function TrimEndBy(s: string, drop: char -> bool): (r: string)
    ensures |r| <= |s| && r == s[..|r|]
    ensures r == [] || !drop(r[|r| - 1])
    ensures forall i :: |r| <= i < |s| ==> drop(s[i])
  {
    if s != [] && drop(s[|s| - 1]) then TrimEndBy(s[..|s| - 1], drop) else s
  }

  /** `String.Trim()`. */
  function Trim(s: string): (r: string)
    ensures r == [] || (!IsWhiteSpace(r[0]) && !IsWhiteSpace(r[|r| - 1]))
    ensures IsBlank(s) <==> r == []
  {
    var t := TrimStartBy(s, IsWhiteSpace);
    var r := TrimEndBy(t, IsWhiteSpace);
    assert r != [] ==> r[0] == t[0];
    assert t != [] ==> !IsWhiteSpace(s[|s| - |t|]);
    assert t != [] ==> r != [];
    r
  }

  /** `s.TrimStart('-', '/')`: drops leading option markers. */
  function TrimMarkers(s: string): (r: string)
    ensures r == [] || (r[0] != '-' && r[0] != '/')
  {
    TrimStartBy(s, c => c == '-' || c == '/')
  }

  /** `s.IndexOf(c)`: the first position of `c`, or -1. */
  function IndexOf(s: string, c: char): (r: int)
    ensures -1 <= r < |s|
    ensures r == -1 <==> c !in s
    ensures r >= 0 ==> s[r] == c && c !in s[..r]
  {
    if s == [] then -1
    else if s[0] == c then 0
    else
      var k := IndexOf(s[1..], c);
      assert s == [s[0]] + s[1..];
      if k < 0 then -1 else
        assert s[..k + 1] == [s[0]] + s[1..][..k];
        k + 1
  }

  /** `s.Split(seps)`: cuts at every separator and keeps empty pieces. */
  function Split(s: string, seps: set<char>): (parts: seq<string>)
    ensures |parts| >= 1
  {
    if s == [] then [[]]
    else
      var rest := Split(s[1..], seps);
      if s[0] in seps then [[]] + rest else [[s[0]] + rest[0]] + rest[1..]
  }

  /** `String.Join(sep, parts)`. */
  function Join(parts: seq<string>, sep: string): string {
    if parts == [] then []
    else if |parts| == 1 then parts[0]
    else parts[0] + sep + Join(parts[1..], sep)
  }

  /** No piece of `parts` contains the character `c`. */
  predicate NoneContains(parts: seq<string>, c: char) {
    forall i :: 0 <= i < |parts| ==> c !in parts[i]
  }

  /** Prepending a character to the first piece prepends it to the join. */
  lemma JoinPrepend(a: char, parts: seq<string>, sep: string)
    requires parts != []
    ensures Join([[a] + parts[0]] + parts[1..], sep) == [a] + Join(parts, sep)
  {
    var q := [[a] + parts[0]] + parts[1..];
    if |parts| > 1 {
      assert q[1..] == parts[1..];
      assert Join(q, sep) == ([a] + parts[0]) + sep + Join(parts[1..], sep);
    }
  }

  /** Joining the pieces of a split restores the string. */
  lemma {:induction false} JoinSplit(s: string, c: char)
    ensures Join(Split(s, {c}), [c]) == s
  {
    if s != [] {
      JoinSplit(s[1..], c);
      var rest := Split(s[1..], {c});
      assert s == [s[0]] + s[1..];
      if s[0] == c {
        var parts := [[]] + rest;
        assert parts[1..] == rest;
        assert Join(parts, [c]) == [] + [c] + Join(rest, [c]);
      } else {
        JoinPrepend(s[0], rest, [c]);
      }
    }
  }

  /** Splitting a join on a character no piece contains gives the pieces back. */
  lemma {:induction false} SplitJoin(parts: seq<string>, c: char)
    requires |parts| >= 1 && NoneContains(parts, c)
    ensures Split(Join(parts, [c]), {c}) == parts
  {
    if |parts| == 1 {
      SplitPiece(parts[0], [], c);
      assert Join(parts, [c]) == parts[0] + [];
    } else {
      SplitJoin(parts[1..], c);
      var tail := Join(parts[1..], [c]);
      assert Split([c] + tail, {c}) == [[]] + parts[1..] by {
        assert ([c] + tail)[1..] == tail;
      }
      SplitPiece(parts[0], [c] + tail, c);
      assert Join(parts, [c]) == parts[0] + ([c] + tail);
      assert parts[0] + [] == parts[0];
      assert parts == [parts[0]] + parts[1..];
    }
  }

  /** A non-separator character in front joins the first piece. */
  lemma SplitNonSeparator(a: char, s: string, c: char)
    requires a != c
    ensures Split([a] + s, {c}) == [[a] + Split(s, {c})[0]] + Split(s, {c})[1..]
  {
    assert ([a] + s)[1..] == s;
  }

  /** The text before the first `c`, or all of `s`. */
  function Before(s: string, c: char): string {
    if c in s then s[..IndexOf(s, c)] else s
  }

  /** The first piece of a split is the text before the first separator. */
  lemma {:induction false} SplitHead(s: string, c: char)
    ensures Split(s, {c})[0] == Before(s, c)
  {
    if s != [] {
      SplitHead(s[1..], c);
      if s[0] != c {
        SplitNonSeparator(s[0], s[1..], c);
        assert s == [s[0]] + s[1..];
        if c in s[1..] {
          assert s[..IndexOf(s, c)] == [s[0]] + s[1..][..IndexOf(s[1..], c)];
        }
      }
    }
  }

  /**
   * Splitting at a character that occurs: the first piece is the text before its
   * first occurrence and the second the text after it, up to the next one.
   */
  lemma SplitAtFirst(s: string, c: char)
    requires c in s
    ensures |Split(s, {c})| >= 2
    ensures Split(s, {c})[0] == s[..IndexOf(s, c)]
    ensures Split(s, {c})[1] == Before(s[IndexOf(s, c) + 1..], c)
  {
    var i := IndexOf(s, c);
    SplitAtIndex(s, i, c);
    SplitHead(s[i + 1..], c);
  }

  /** Splitting at the first separator, found at `i`. */
  lemma SplitAtIndex(s: string, i: int, c: char)
    requires 0 <= i < |s| && s[i] == c && c !in s[..i]
    ensures Split(s, {c}) == [s[..i]] + Split(s[i + 1..], {c})
  {
    assert s == s[..i] + [c] + s[i + 1..];
    SplitAround(s[..i], s[i + 1..], c);
  }

  /** A separator cuts off the separator-free text in front of it as one piece. */
  lemma SplitAround(p: string, rest: string, c: char)
    requires c !in p
    ensures Split(p + [c] + rest, {c}) == [p] + Split(rest, {c})
  {
    var tail := [c] + rest;
    assert Split(tail, {c}) == [[]] + Split(rest, {c}) by {
      assert tail[0] == c && tail[1..] == rest;
    }
    assert p + [c] + rest == p + tail;
    SplitPiece(p, tail, c);
    assert p + [] == p;
  }

  /** A separator-free piece in front of a string extends the first part of its split. */
  lemma {:induction false} SplitPiece(piece: string, rest: string, c: char)
    requires c !in piece
    ensures Split(piece + rest, {c}) == [piece + Split(rest, {c})[0]] + Split(rest, {c})[1..]
  {
    var tail := Split(rest, {c});
    if piece == [] {
      assert piece + rest == rest;
      assert [] + tail[0] == tail[0];
      assert tail == [tail[0]] + tail[1..];
    } else {
      SplitPiece(piece[1..], rest, c);
      var r := Split(piece[1..] + rest, {c});
      assert r[0] == piece[1..] + tail[0] && r[1..] == tail[1..];
      assert piece + rest == [piece[0]] + (piece[1..] + rest);
      SplitNonSeparator(piece[0], piece[1..] + rest, c);
      assert [piece[0]] + (piece[1..] + tail[0]) == piece + tail[0];
    }
  }

  /** `s.Replace(pat, rep)`: every non-overlapping occurrence, scanned left to right. */
  function ReplaceAll(s: string, pat: string, rep: string): string
    requires pat != []
    decreases |s|
  {
    if |s| < |pat| then s
    else if s[..|pat|] == pat then rep + ReplaceAll(s[|pat|..], pat, rep)
    else [s[0]] + ReplaceAll(s[1..], pat, rep)
  }

  /** Removing a one-character string leaves no occurrence of it and keeps every other character. */
  lemma {:induction false} RemoveCharAll(s: string, c: char)
    ensures c !in ReplaceAll(s, [c], [])
    ensures |ReplaceAll(s, [c], [])| <= |s|
    ensures c !in s ==> ReplaceAll(s, [c], []) == s
  {
    if s != [] {
      RemoveCharAll(s[1..], c);
      assert s[..1] == [s[0]];
    }
  }

  /** A two-character pattern cannot match at a character that does not begin it. */
  lemma ReplaceSkip(y: char, t: string, pat: string, rep: string)
    requires |pat| == 2
    requires y != pat[0] || t == [] || t[0] != pat[1]
    ensures ReplaceAll([y] + t, pat, rep) == [y] + ReplaceAll(t, pat, rep)
  {
    var s := [y] + t;
    if |s| >= 2 {
      assert s[..2] != pat by { assert s[0] == y && s[1] == t[0]; }
      assert s[1..] == t;
    }
  }

  /** A piece of at most two characters that holds no occurrence of a two-character pattern, and cannot start one with what follows, is copied as it is. */
  lemma ReplaceSkipPiece(e: string, rest: string, pat: string, rep: string)
    requires |pat| == 2 && |e| <= 2
    requires rest == [] || rest[0] != pat[1]
    requires |e| == 2 ==> e[0] != pat[0] || e[1] != pat[1]
    ensures ReplaceAll(e + rest, pat, rep) == e + ReplaceAll(rest, pat, rep)
  {
    if |e| == 1 {
      ReplaceSkip(e[0], rest, pat, rep);
      assert e + rest == [e[0]] + rest;
    } else if |e| == 2 {
      assert e + rest == [e[0]] + ([e[1]] + rest);
      ReplaceSkip(e[0], [e[1]] + rest, pat, rep);
      ReplaceSkip(e[1], rest, pat, rep);
      assert [e[0]] + ([e[1]] + ReplaceAll(rest, pat, rep)) == e + ReplaceAll(rest, pat, rep);
    } else {
      assert e + rest == rest;
    }
  }

  /** A string that begins with the pattern is rewritten from its head. */
  lemma ReplaceHead(t: string, pat: string, rep: string)
    requires pat != []
    ensures ReplaceAll(pat + t, pat, rep) == rep + ReplaceAll(t, pat, rep)
  {
    var s := pat + t;
    assert s[..|pat|] == pat && s[|pat|..] == t;
  }

  /** `Char.ToLowerInvariant` restricted to ASCII. */
  function Lower(c: char): char {
    if 'A' <= c <= 'Z' then (c as int + 32) as char else c
  }

  function Lowered(s: string): (r: string)
    ensures |r| == |s| && forall i :: 0 <= i < |s| ==> r[i] == Lower(s[i])
  {
    seq(|s|, i requires 0 <= i < |s| => Lower(s[i]))
  }

  /** `a.Equals(b, StringComparison.OrdinalIgnoreCase)`. */
  predicate EqualsIgnoreCase(a: string, b: string) {
    Lowered(a) == Lowered(b)
  }

  /** `s.StartsWith(p, StringComparison.OrdinalIgnoreCase)`. */
  predicate StartsWithIgnoreCase(s: string, p: string) {
    |p| <= |s| && EqualsIgnoreCase(s[..|p|], p)
  }

  /** `s.StartsWith(p, StringComparison.Ordinal)`. */
  predicate StartsWith(s: string, p: string) {
    |p| <= |s| && s[..|p|] == p
  }

  /** `s.Contains(sub)` (ordinal). */
  predicate Contains(s: string, sub: string)
    decreases |s|
  {
    StartsWith(s, sub) || (s != [] && Contains(s[1..], sub))
  }

  /** `s.IndexOf(sub, StringComparison.OrdinalIgnoreCase) >= 0`. */
  predicate ContainsIgnoreCase(s: string, sub: string) {
    Contains(Lowered(s), Lowered(sub))
  }

  /** An occurrence of `sub` at a position is found by `Contains`. */
  lemma {:induction false} ContainsAt(s: string, sub: string, i: nat)
    requires i + |sub| <= |s| && s[i..i + |sub|] == sub
    ensures Contains(s, sub)
  {
    if i > 0 {
      assert s[1..][i - 1..i - 1 + |sub|] == s[i..i + |sub|];
      ContainsAt(s[1..], sub, i - 1);
    }
  }

  /** `Contains` holds exactly when there is an occurrence at some position. */
  lemma {:induction false} ContainsWitness(s: string, sub: string) returns (i: nat)
    requires Contains(s, sub)
    ensures i + |sub| <= |s| && s[i..i + |sub|] == sub
  {
    if StartsWith(s, sub) {
      i := 0;
    } else {
      var j := ContainsWitness(s[1..], sub);
      assert s[1..][j..j + |sub|] == s[j + 1..j + 1 + |sub|];
      i := j + 1;
    }
  }

  function DigitChar(d: nat): char
    requires d < 10
  {
    ('0' as int + d) as char
  }

  /** The decimal digits of a natural number, most significant first. */
  function NatToString(n: nat): (r: string)
    ensures r != [] && AllDigits(r)
    decreases n
  {
    if n < 10 then [DigitChar(n)] else NatToString(n / 10) + [DigitChar(n % 10)]
  }

  /** `Convert.ToString(int)` with the invariant culture: an optional minus sign, then the digits. */
  function IntToString(i: int): (r: string)
    ensures r != []
  {
    if i < 0 then "-" + NatToString(-i) else NatToString(i)
  }

  predicate AllDigits(s: string) {
    forall i :: 0 <= i < |s| ==> '0' <= s[i] <= '9'
  }

  /** The value of a run of decimal digits. */
  function DigitsValue(s: string): (n: nat)
    requires AllDigits(s)
    decreases |s|
  {
    if s == [] then 0 else 10 * DigitsValue(s[..|s| - 1]) + (s[|s| - 1] as int - '0' as int)
  }

  /** The white space `NumberStyles.Integer` allows around a number. */
  predicate IsNumberSpace(c: char) {
    c == ' ' || '\t' <= c <= '\r'
  }

  /** The range of a C# `int`. */
  const Int32Min: int := -0x8000_0000
  const Int32Max: int := 0x7FFF_FFFF

  /**
   * `int.Parse`: white space around an optional `+` or `-` and at least one digit,
   * giving a value that fits an `int`; anything else fails (the overflow too).
   */
  function ParseInt(s: string): (r: Option<int>)
    ensures r.Some? ==> Int32Min <= r.value <= Int32Max
  {
    var t := TrimEndBy(TrimStartBy(s, IsNumberSpace), IsNumberSpace);
    var signed := t != [] && (t[0] == '-' || t[0] == '+');
    var digits := if signed then t[1..] else t;
    if digits == [] || !AllDigits(digits) then None
    else
      var v := if signed && t[0] == '-' then -(DigitsValue(digits) as int) else DigitsValue(digits);
      if Int32Min <= v <= Int32Max then Some(v) else None
  }

  lemma {:induction false} DigitsOfNat(n: nat)
    ensures DigitsValue(NatToString(n)) == n
    decreases n
  {
    var r := NatToString(n);
    if n >= 10 {
      DigitsOfNat(n / 10);
      assert r[..|r| - 1] == NatToString(n / 10);
    }
  }

  /** A string with no number white space at either end is left as it is. */
  lemma NumberUnpadded(r: string)
    requires r != [] && !IsNumberSpace(r[0]) && !IsNumberSpace(r[|r| - 1])
    ensures TrimEndBy(TrimStartBy(r, IsNumberSpace), IsNumberSpace) == r
  {
    assert TrimStartBy(r, IsNumberSpace) == r;
    assert TrimEndBy(r, IsNumberSpace) == r;
  }

  /** The sign and digits `ParseInt` reads in the printed form of an integer. */
  lemma PrintedForm(i: int)
    ensures var r := IntToString(i);
      r == TrimEndBy(TrimStartBy(r, IsNumberSpace), IsNumberSpace) &&
      (i < 0 ==> |r| > 1 && r[0] == '-' && AllDigits(r[1..]) && DigitsValue(r[1..]) == -i) &&
      (i >= 0 ==> r[0] != '-' && r[0] != '+' && AllDigits(r) && DigitsValue(r) == i)
  {
    var r := IntToString(i);
    if i < 0 {
      var d := NatToString(-i);
      DigitsOfNat(-i);
      assert r[1..] == d;
      assert r[|r| - 1] == d[|d| - 1];
    } else {
      DigitsOfNat(i);
    }
    NumberUnpadded(r);
  }

  /** Reading back the printed form of an `int` gives the integer. */
  lemma ParseIntToString(i: int)
    requires Int32Min <= i <= Int32Max
    ensures ParseInt(IntToString(i)) == Some(i)
  {
    PrintedForm(i);
  }

  /** The printed form of an integer outside the `int` range does not parse. */
  lemma ParseIntOverflow(i: int)
    requires i < Int32Min || Int32Max < i
    ensures ParseInt(IntToString(i)) == None
  {
    PrintedForm(i);
  }

  /** A leading `+` is accepted, as `int.Parse` accepts it. */
  lemma ParseIntPlusSigned(i: int)
    requires 0 <= i <= Int32Max
    ensures ParseInt("+" + IntToString(i)) == Some(i)
  {
    PrintedForm(i);
    var r := IntToString(i);
    var s := "+" + r;
    assert s[|s| - 1] == r[|r| - 1];
    NumberUnpadded(s);
    assert s[1..] == r;
  }

  /** `parts.Select(i => i.Trim()).Where(i => !String.IsNullOrEmpty(i))`. */
  function TrimmedItems(parts: seq<string>): seq<string> {
    if parts == [] then []
    else
      var t := Trim(parts[0]);
      (if t == [] then [] else [t]) + TrimmedItems(parts[1..])
  }

  /** The item a part contributes: its trim, unless that is empty. */
  function Kept(p: string): seq<string> {
    if Trim(p) == [] then [] else [Trim(p)]
  }

  /** The contributions `f` makes for each part, in order. */
  function Gather(parts: seq<string>, f: string -> seq<string>): seq<string> {
    if parts == [] then [] else f(parts[0]) + Gather(parts[1..], f)
  }

  lemma {:induction false} GatherAppend(a: seq<string>, b: seq<string>, f: string -> seq<string>)
    ensures Gather(a + b, f) == Gather(a, f) + Gather(b, f)
  {
    if a == [] {
      assert a + b == b;
    } else {
      var ab := a + b;
      assert ab[0] == a[0] && ab[1..] == a[1..] + b;
      GatherAppend(a[1..], b, f);
      var head := f(a[0]);
      assert Gather(ab, f) == head + Gather(a[1..] + b, f);
      assert Gather(a, f) == head + Gather(a[1..], f);
    }
  }

  lemma {:induction false} GatherMembers(parts: seq<string>, f: string -> seq<string>, t: string)
    ensures t in Gather(parts, f) <==> exists k :: 0 <= k < |parts| && t in f(parts[k])
  {
    if parts != [] {
      GatherMembers(parts[1..], f, t);
      if exists k :: 0 <= k < |parts| && t in f(parts[k]) {
        var k :| 0 <= k < |parts| && t in f(parts[k]);
        if k > 0 {
          assert t in f(parts[1..][k - 1]);
        }
      }
      if exists k :: 0 <= k < |parts[1..]| && t in f(parts[1..][k]) {
        var k :| 0 <= k < |parts[1..]| && t in f(parts[1..][k]);
        assert t in f(parts[k + 1]);
      }
    }
  }

  lemma {:induction false} TrimmedItemsGather(parts: seq<string>)
    ensures TrimmedItems(parts) == Gather(parts, Kept)
  {
    if parts != [] {
      TrimmedItemsGather(parts[1..]);
    }
  }

  /** A trimmed item: non-empty, with no white space at either end. */
  predicate Tidy(e: string) {
    e != [] && !IsWhiteSpace(e[0]) && !IsWhiteSpace(e[|e| - 1])
  }

  /** Concatenating lists of trimmed items gives a list of trimmed items. */
  lemma TidyConcat(xs: seq<string>, ys: seq<string>)
    requires forall k :: 0 <= k < |xs| ==> Tidy(xs[k])
    requires forall k :: 0 <= k < |ys| ==> Tidy(ys[k])
    ensures forall k :: 0 <= k < |xs + ys| ==> Tidy((xs + ys)[k])
  {
    forall k | 0 <= k < |xs + ys| ensures Tidy((xs + ys)[k]) {
      if k >= |xs| {
        assert (xs + ys)[k] == ys[k - |xs|];
      }
    }
  }

  /** Every item kept is non-empty and has no white space at either end. */
  lemma {:induction false} TrimmedItemsShape(parts: seq<string>)
    ensures forall k :: 0 <= k < |TrimmedItems(parts)| ==> Tidy(TrimmedItems(parts)[k])
  {
    if parts != [] {
      TrimmedItemsShape(parts[1..]);
      var t := Trim(parts[0]);
      var head: seq<string> := if t == [] then [] else [t];
      assert forall k :: 0 <= k < |head| ==> Tidy(head[k]);
      assert TrimmedItems(parts) == head + TrimmedItems(parts[1..]);
      TidyConcat(head, TrimmedItems(parts[1..]));
    }
  }

  /** Trimming a list piece by piece: the items of a concatenation are the items of each part, in order. */
  lemma TrimmedItemsAppend(a: seq<string>, b: seq<string>)
    ensures TrimmedItems(a + b) == TrimmedItems(a) + TrimmedItems(b)
  {
    TrimmedItemsGather(a + b);
    TrimmedItemsGather(a);
    TrimmedItemsGather(b);
    GatherAppend(a, b, Kept);
  }

  /** An item is kept exactly when it is the non-empty trim of some part. */
  lemma TrimmedItemsMembers(parts: seq<string>, t: string)
    ensures t in TrimmedItems(parts) <==> t != [] && exists k :: 0 <= k < |parts| && Trim(parts[k]) == t
  {
    TrimmedItemsGather(parts);
    GatherMembers(parts, Kept, t);
    forall k | 0 <= k < |parts|
      ensures t in Kept(parts[k]) <==> t != [] && Trim(parts[k]) == t
    {
      KeptMembers(parts[k], t);
    }
  }

  /** What one part contributes: its trim, when that is not empty. */
  lemma KeptMembers(p: string, t: string)
    ensures t in Kept(p) <==> t != [] && Trim(p) == t
  {
  }

  /** `xs.Where(keep)`: the elements satisfying `keep`, in order. */
  function Where(xs: seq<string>, keep: string -> bool): (r: seq<string>)
    ensures |r| <= |xs|
  {
    if xs == [] then [] else (if keep(xs[0]) then [xs[0]] else []) + Where(xs[1..], keep)
  }

  lemma {:induction false} WhereAppend(xs: seq<string>, ys: seq<string>, keep: string -> bool)
    ensures Where(xs + ys, keep) == Where(xs, keep) + Where(ys, keep)
  {
    if xs != [] {
      WhereAppend(xs[1..], ys, keep);
      assert (xs + ys)[1..] == xs[1..] + ys;
    } else {
      assert xs + ys == ys;
    }
  }
}
