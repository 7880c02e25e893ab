/** The parts of Java's `String`, `Integer` and `Character` behaviour the payroll code relies on.
    Strings are sequences of `char`, which are Unicode scalar values (Java's are UTF-16 code units);
    digits are ASCII only and case mapping is ASCII only. */
module Text {
  import opened Wrappers

  // ---------------------------------------------------------------------------
  // Trimming and blankness
  // ---------------------------------------------------------------------------

  /** `String.trim` removes every leading and trailing code unit up to U+0020. */
  predicate IsTrimmed(c: char) { c <= ' ' }

  function TrimStart(s: string): (r: string)
    ensures |r| <= |s| && r == s[|s| - |r|..]
    ensures forall k :: 0 <= k < |s| - |r| ==> IsTrimmed(s[k])
    ensures r == [] || !IsTrimmed(r[0])
  {
    if |s| > 0 && IsTrimmed(s[0]) then TrimStart(s[1..]) else s
  }

  function TrimEnd(s: string): (r: string)
    ensures |r| <= |s| && r == s[..|r|]
    ensures forall k :: |r| <= k < |s| ==> IsTrimmed(s[k])
    ensures r == [] || !IsTrimmed(r[|r| - 1])
  {
    if |s| > 0 && IsTrimmed(s[|s| - 1]) then TrimEnd(s[..|s| - 1]) else s
  }

  /** Java's `s.trim()`. */
  function Trim(s: string): (r: string)
    ensures |r| <= |s|
    ensures r == [] || (!IsTrimmed(r[0]) && !IsTrimmed(r[|r| - 1]))
  {
    TrimEnd(TrimStart(s))
  }

  /** The trim is a piece of the input, and everything outside that piece is trimmable. */
  lemma TrimIsSlice(s: string)
    ensures exists i :: TrimsTo(s, i, Trim(s))
  {
    var t := TrimStart(s);
    assert TrimsTo(s, |s| - |t|, Trim(s));
  }

  /** `r` is the piece of `s` starting at `i`, and everything of `s` outside it is trimmable. */
  predicate TrimsTo(s: string, i: int, r: string) {
    0 <= i <= |s| - |r| && r == s[i..i + |r|]
    && (forall k :: 0 <= k < i ==> IsTrimmed(s[k]))
    && (forall k :: i + |r| <= k < |s| ==> IsTrimmed(s[k]))
  }

  /** Trimmable padding around a piece with untrimmable ends is removed, and nothing more. */
  lemma TrimPadded(left: string, s: string, right: string)
    requires s != [] && !IsTrimmed(s[0]) && !IsTrimmed(s[|s| - 1])
    requires forall k :: 0 <= k < |left| ==> IsTrimmed(left[k])
    requires forall k :: 0 <= k < |right| ==> IsTrimmed(right[k])
    ensures Trim(left + s + right) == s
  {
    TrimStartPast(left, s + right);
    assert left + s + right == left + (s + right);
    TrimEndPast(s, right);
  }

  /** Trimmable units before an untrimmable one are all removed from the front. */
  lemma {:induction false} TrimStartPast(left: string, t: string)
    requires t != [] && !IsTrimmed(t[0])
    requires forall k :: 0 <= k < |left| ==> IsTrimmed(left[k])
    ensures TrimStart(left + t) == t
  {
    if left == [] {
      assert left + t == t;
    } else {
      assert (left + t)[1..] == left[1..] + t;
      TrimStartPast(left[1..], t);
    }
  }

  /** Trimmable units after an untrimmable one are all removed from the end. */
  lemma {:induction false} TrimEndPast(t: string, right: string)
    requires t != [] && !IsTrimmed(t[|t| - 1])
    requires forall k :: 0 <= k < |right| ==> IsTrimmed(right[k])
    ensures TrimEnd(t + right) == t
  {
    if right == [] {
      assert t + right == t;
    } else {
      assert (t + right)[..|t + right| - 1] == t + right[..|right| - 1];
      TrimEndPast(t, right[..|right| - 1]);
    }
  }

  lemma TrimIdempotent(s: string)
    ensures Trim(Trim(s)) == Trim(s)
  {
    var t := Trim(s);
    if t != [] {
      assert TrimStart(t) == t;
      assert TrimEnd(t) == t;
    }
  }

  /** A string with no trimmable code unit at either end is its own trim. */
  lemma TrimOfTrimmed(s: string)
    requires s == [] || (!IsTrimmed(s[0]) && !IsTrimmed(s[|s| - 1]))
    ensures Trim(s) == s
  {
    if s == [] {
      assert TrimStart(s) == s && TrimEnd(s) == s;
    } else {
      NothingToTrimStart(s);
      NothingToTrimEnd(s);
    }
    assert Trim(s) == TrimEnd(TrimStart(s));
  }

  lemma NothingToTrimStart(s: string)
    requires s != [] && !IsTrimmed(s[0])
    ensures TrimStart(s) == s
  {
  }

  lemma NothingToTrimEnd(s: string)
    requires s != [] && !IsTrimmed(s[|s| - 1])
    ensures TrimEnd(s) == s
  {
  }

  /** `s.trim().isEmpty()`, stated without computing the trim: every code unit is trimmable. */
  predicate TrimsToEmpty(s: string) {
    forall k :: 0 <= k < |s| ==> IsTrimmed(s[k])
  }

  lemma TrimEmptyIff(s: string)
    ensures Trim(s) == [] <==> TrimsToEmpty(s)
  {
    var t := TrimStart(s);
    if TrimsToEmpty(s) {
      assert t == [];
    }
    if Trim(s) == [] {
      assert t == [];
    }
  }

  /** Stated as a lemma so that long concatenations can be regrouped without unfolding them. */
  lemma ConcatAssociative(a: string, b: string, c: string)
    ensures (a + b) + c == a + (b + c)
  {
  }

  /** `Character.isWhitespace`: the Unicode space, line and paragraph separators other than the
      no-break spaces, plus the ASCII controls TAB, LF, VT, FF, CR and FS, GS, RS, US. */
  predicate IsWhitespace(c: char) {
    c == ' ' || ('\t' <= c <= '\r') || ('\U{1C}' <= c <= '\U{1F}')
    || c == '\U{1680}' || ('\U{2000}' <= c <= '\U{2006}') || ('\U{2008}' <= c <= '\U{200A}')
    || c == '\U{2028}' || c == '\U{2029}' || c == '\U{205F}' || c == '\U{3000}'
  }

  /** Java's `s.isBlank()`. */
  function IsBlank(s: string): (r: bool)
    ensures s == [] ==> r
    ensures r && (forall k :: 0 <= k < |s| ==> s[k] <= '\U{7F}') ==> TrimsToEmpty(s)
    ensures (exists k :: 0 <= k < |s| && IsDigit(s[k])) ==> !r
  {
    forall k :: 0 <= k < |s| ==> IsWhitespace(s[k])
  }

  // ---------------------------------------------------------------------------
  // Searching
  // ---------------------------------------------------------------------------

  predicate StartsWith(s: string, prefix: string) {
    |prefix| <= |s| && s[..|prefix|] == prefix
  }

  predicate EndsWith(s: string, suffix: string) {
    |suffix| <= |s| && s[|s| - |suffix|..] == suffix
  }

  /** Java's `s.contains(part)`. */
  predicate Contains(s: string, part: string)
    decreases |s|
  {
    StartsWith(s, part) || (|s| > 0 && Contains(s[1..], part))
  }

  lemma {:induction false} ContainsAt(s: string, part: string, i: nat)
    requires i + |part| <= |s| && s[i..i + |part|] == part
    ensures Contains(s, part)
  {
    if i > 0 {
      assert s[1..][i - 1..i - 1 + |part|] == part;
      ContainsAt(s[1..], part, i - 1);
    }
  }

  /** Lower-casing keeps a part of the string as a lower-cased part. */
  lemma LowerKeepsPart(s: string, part: string)
    ensures Contains(s, part) ==> Contains(ToLower(s), ToLower(part))
  {
    if Contains(s, part) {
      var i := ContainsWithin(s, part);
      assert ToLower(s)[i..i + |part|] == ToLower(part);
      ContainsAt(ToLower(s), ToLower(part), i);
    }
  }

  /** A part already in lower case is still found once the text is lowered. */
  lemma LowerKeepsLowerPart(s: string, part: string)
    requires forall k :: 0 <= k < |part| ==> LowerChar(part[k]) == part[k]
    ensures Contains(s, part) ==> Contains(ToLower(s), part)
  {
    LowerKeepsPart(s, part);
    assert ToLower(part) == part;
  }

  /** `part` occurs in `s` at position `i`. */
  predicate OccursAt(s: string, part: string, i: int) {
    0 <= i && i + |part| <= |s| && s[i..i + |part|] == part
  }

  /** A part found at no position is not contained. */
  lemma {:induction false} NotContained(s: string, part: string)
    requires forall i :: !OccursAt(s, part, i)
    ensures !Contains(s, part)
    decreases |s|
  {
    if |s| > 0 {
      forall i
        ensures !OccursAt(s[1..], part, i)
      {
        if 0 <= i && i + |part| <= |s| - 1 {
          assert s[1..][i..i + |part|] == s[i + 1..i + 1 + |part|];
          assert !OccursAt(s, part, i + 1);
        }
      }
      NotContained(s[1..], part);
    }
    assert !OccursAt(s, part, 0);
    if |part| <= |s| {
      assert s[0..|part|] == s[..|part|];
    }
  }

  lemma {:induction false} ContainsWithin(s: string, part: string) returns (i: nat)
    requires Contains(s, part)
    ensures i + |part| <= |s| && s[i..i + |part|] == part
    decreases |s|
  {
    if StartsWith(s, part) {
      i := 0;
    } else {
      var j := ContainsWithin(s[1..], part);
      i := j + 1;
      assert s[i..i + |part|] == s[1..][j..j + |part|];
    }
  }

  // ---------------------------------------------------------------------------
  // Case mapping (ASCII)
  // ---------------------------------------------------------------------------

  function LowerChar(c: char): char {
    if 'A' <= c <= 'Z' then (c as int + 32) as char else c
  }

  function UpperChar(c: char): char {
    if 'a' <= c <= 'z' then (c as int - 32) as char else c
  }

  /** Java's `s.toLowerCase()`, restricted to ASCII letters. */
  function ToLower(s: string): (r: string)
    ensures |r| == |s|
    ensures forall k :: 0 <= k < |s| ==> r[k] == LowerChar(s[k])
  {
    if s == [] then [] else [LowerChar(s[0])] + ToLower(s[1..])
  }

  /** Java's `s.toUpperCase()`, restricted to ASCII letters. */
  function ToUpper(s: string): (r: string)
    ensures |r| == |s|
    ensures forall k :: 0 <= k < |s| ==> r[k] == UpperChar(s[k])
  {
    if s == [] then [] else [UpperChar(s[0])] + ToUpper(s[1..])
  }

  /** Java's `a.equalsIgnoreCase(b)`, restricted to ASCII letters. */
  function EqualsIgnoreCase(a: string, b: string): (r: bool)
    ensures r <==> |a| == |b| && forall k :: 0 <= k < |a| ==> LowerChar(a[k]) == LowerChar(b[k])
    ensures a == b ==> r
  {
    ToLower(a) == ToLower(b)
  }

  // ---------------------------------------------------------------------------
  // Replacing, splitting and joining
  // ---------------------------------------------------------------------------

  /** Java's `s.replace(target, replacement)`: every non-overlapping occurrence, left to right. */
  function Replace(s: string, target: string, replacement: string): (r: string)
    requires |target| > 0
    ensures !Contains(s, target) ==> r == s
    decreases |s|
  {
    if |s| < |target| then s
    else if s[..|target|] == target then replacement + Replace(s[|target|..], target, replacement)
    else [s[0]] + Replace(s[1..], target, replacement)
  }

  /** What `replace` does with an occurrence: the text before the first occurrence is kept, the
      occurrence becomes the replacement, and the search resumes just after it. */
  lemma {:induction false} ReplaceFirst(a: string, target: string, b: string, replacement: string)
    requires |target| > 0 && !Contains(a + target[..|target| - 1], target)
    ensures Replace(a + target + b, target, replacement) == a + replacement + Replace(b, target, replacement)
    decreases |a|
  {
    if a == [] {
      ReplaceHit(target, b, replacement);
    } else {
      var s := a + target + b;
      EarlyMiss(a, target, b);
      ReplaceMiss(s, target, replacement);
      ReplaceFirst(a[1..], target, b, replacement);
      ReplaceRegroup(a, target, b, replacement, Replace(b, target, replacement));
    }
  }

  /** The first unit of `a` put back in front of the rest. */
  lemma ReplaceRegroup(a: string, target: string, b: string, replacement: string, rest: string)
    requires a != []
    ensures (a + target + b)[1..] == a[1..] + target + b
    ensures [(a + target + b)[0]] + (a[1..] + replacement + rest) == a + replacement + rest
  {
    assert (a + target + b)[0] == a[0];
    assert a == [a[0]] + a[1..];
  }

  /** An occurrence at the front becomes the replacement, and the search resumes after it. */
  lemma ReplaceHit(target: string, b: string, replacement: string)
    requires |target| > 0
    ensures Replace([] + target + b, target, replacement) == [] + replacement + Replace(b, target, replacement)
  {
    var s := [] + target + b;
    assert s[..|target|] == target && s[|target|..] == b;
  }

  /** No occurrence in `a` nor straddling its end: none starts at the front, nor in `a[1..]`. */
  lemma EarlyMiss(a: string, target: string, b: string)
    requires |target| > 0 && a != [] && !Contains(a + target[..|target| - 1], target)
    ensures (a + target + b)[..|target|] != target
    ensures !Contains(a[1..] + target[..|target| - 1], target)
  {
    var early := a + target[..|target| - 1];
    assert !StartsWith(early, target) && !Contains(early[1..], target);
    assert (a + target + b)[..|target|] == early[..|target|];
    assert early[1..] == a[1..] + target[..|target| - 1];
  }

  /** Where the target does not start, `replace` keeps the first unit and goes on. */
  lemma ReplaceMiss(s: string, target: string, replacement: string)
    requires 0 < |target| <= |s| && s[..|target|] != target
    ensures Replace(s, target, replacement) == [s[0]] + Replace(s[1..], target, replacement)
  {
  }

  /** The pieces of `s` between the occurrences of `sep`, empty pieces included. */
  function SplitAll(s: string, sep: char): (r: seq<string>)
    ensures |r| >= 1
    ensures forall k :: 0 <= k < |r| ==> sep !in r[k]
  {
    if s == [] then [""]
    else
      var rest := SplitAll(s[1..], sep);
      if s[0] == sep then [""] + rest else [[s[0]] + rest[0]] + rest[1..]
  }

  function Join(parts: seq<string>, sep: string): string {
    if parts == [] then ""
    else if |parts| == 1 then parts[0]
    else parts[0] + sep + Join(parts[1..], sep)
  }

  /** Joining a piece in front of two or more: the piece, the separator, the join of the rest. */
  lemma JoinCons(piece: string, parts: seq<string>, sep: string)
    requires parts != []
    ensures Join([piece] + parts, sep) == piece + sep + Join(parts, sep)
  {
    assert ([piece] + parts)[1..] == parts;
  }

  /** Joining a piece after one or more: the join so far, the separator, the piece. */
  lemma {:induction false} JoinSnoc(parts: seq<string>, piece: string, sep: string)
    requires parts != []
    ensures Join(parts + [piece], sep) == Join(parts, sep) + sep + piece
    decreases |parts|
  {
    if |parts| == 1 {
      JoinCons(parts[0], [piece], sep);
      assert parts + [piece] == [parts[0]] + [piece];
    } else {
      JoinSnoc(parts[1..], piece, sep);
      assert parts + [piece] == [parts[0]] + (parts[1..] + [piece]);
      JoinCons(parts[0], parts[1..] + [piece], sep);
    }
  }

  /** The pieces with "~" between every two of them. */
  function Tilded(parts: seq<string>): (r: seq<string>)
    ensures |parts| >= 1 ==> |r| == 2 * |parts| - 1
  {
    if |parts| <= 1 then parts else [parts[0], "~"] + Tilded(parts[1..])
  }

  /** The pieces stand at the even places, the "~" marks at the odd ones. */
  lemma {:induction false} TildedAt(parts: seq<string>, k: nat)
    requires k < |parts|
    ensures 2 * k < |Tilded(parts)| && Tilded(parts)[2 * k] == parts[k]
    ensures k < |parts| - 1 ==> Tilded(parts)[2 * k + 1] == "~"
  {
    if k > 0 {
      TildedAt(parts[1..], k - 1);
    }
  }

  /** A character in no piece, and not '~', is in no piece of the marked list. */
  lemma {:induction false} TildedAvoids(parts: seq<string>, c: char)
    requires c != '~'
    requires forall k :: 0 <= k < |parts| ==> c !in parts[k]
    ensures forall j :: 0 <= j < |Tilded(parts)| ==> c !in Tilded(parts)[j]
  {
    if |parts| > 1 {
      assert forall k :: 0 <= k < |parts| - 1 ==> parts[1..][k] == parts[k + 1];
      TildedAvoids(parts[1..], c);
      var rest := Tilded(parts[1..]);
      assert Tilded(parts) == [parts[0], "~"] + rest;
      assert forall j :: 2 <= j < |Tilded(parts)| ==> Tilded(parts)[j] == rest[j - 2];
    }
  }

  /** Joining with "#~#" is joining the pieces and "~" marks with '#'. */
  lemma {:induction false} JoinTilded(parts: seq<string>)
    ensures Join(parts, "#~#") == Join(Tilded(parts), ['#'])
  {
    assert ['#'] == "#";
    if |parts| > 1 {
      var rest := Tilded(parts[1..]);
      var joined := Join(rest, "#");
      JoinTilded(parts[1..]);
      assert parts == [parts[0]] + parts[1..];
      JoinCons(parts[0], parts[1..], "#~#");
      assert Tilded(parts) == [parts[0]] + (["~"] + rest);
      JoinCons("~", rest, "#");
      JoinCons(parts[0], ["~"] + rest, "#");
      assert "#" + ("~" + "#" + joined) == "#~#" + joined;
    }
  }

  /** No piece of a printed number is a '#'. */
  lemma IntToStringPlain(i: int, c: char)
    requires c != '-' && !IsDigit(c)
    ensures c !in IntToString(i)
  {
    var r := IntToString(i);
    if i < 0 {
      assert forall k :: 1 <= k < |r| ==> r[k] == r[1..][k - 1];
    }
  }

  /** Splitting on a character and joining the pieces with it gives back the original string. */
  lemma {:induction false} JoinSplitAll(s: string, sep: char)
    ensures Join(SplitAll(s, sep), [sep]) == s
  {
    if s != [] {
      var rest := SplitAll(s[1..], sep);
      JoinSplitAll(s[1..], sep);
      if s[0] == sep {
        assert SplitAll(s, sep) == [""] + rest;
      } else {
        var r := SplitAll(s, sep);
        assert r == [[s[0]] + rest[0]] + rest[1..];
        if |rest| == 1 {
          assert Join(rest, [sep]) == rest[0];
        } else {
          assert Join(rest, [sep]) == rest[0] + [sep] + Join(rest[1..], [sep]);
          assert r[1..] == rest[1..];
        }
      }
    }
  }

  /** A string without the separator is a single piece. */
  lemma {:induction false} SplitAllOfPlain(s: string, sep: char)
    requires sep !in s
    ensures SplitAll(s, sep) == [s]
  {
    if s != [] {
      SplitAllOfPlain(s[1..], sep);
      assert s == [s[0]] + s[1..];
    }
  }

  /** A piece without the separator, followed by the separator, is split off whole. */
  lemma {:induction false} SplitAllAfterPiece(piece: string, rest: string, sep: char)
    requires sep !in piece
    ensures SplitAll(piece + [sep] + rest, sep) == [piece] + SplitAll(rest, sep)
  {
    var whole := piece + [sep] + rest;
    if piece == [] {
      assert whole[1..] == rest;
    } else {
      assert whole[1..] == piece[1..] + [sep] + rest;
      SplitAllAfterPiece(piece[1..], rest, sep);
      assert piece == [piece[0]] + piece[1..];
    }
  }

  /** Joining pieces that avoid the separator and splitting again gives back the pieces. */
  lemma {:induction false} SplitAllJoin(parts: seq<string>, sep: char)
    requires |parts| >= 1
    requires forall k :: 0 <= k < |parts| ==> sep !in parts[k]
    ensures SplitAll(Join(parts, [sep]), sep) == parts
  {
    if |parts| == 1 {
      SplitAllOfPlain(parts[0], sep);
    } else {
      SplitAllJoin(parts[1..], sep);
      SplitAllAfterPiece(parts[0], Join(parts[1..], [sep]), sep);
    }
  }

  /** A character that is in no piece and not the separator is not in the joined string. */
  lemma {:induction false} JoinAvoids(parts: seq<string>, sep: string, c: char)
    requires c !in sep
    requires forall k :: 0 <= k < |parts| ==> c !in parts[k]
    ensures c !in Join(parts, sep)
  {
    if |parts| > 1 {
      JoinAvoids(parts[1..], sep, c);
    }
  }

  /** The joined string begins with the first piece. */
  lemma {:induction false} JoinStartsWithFirst(parts: seq<string>, sep: string)
    requires |parts| >= 1
    ensures |Join(parts, sep)| >= |parts[0]| && Join(parts, sep)[..|parts[0]|] == parts[0]
  {
    if |parts| > 1 {
      assert Join(parts, sep) == parts[0] + (sep + Join(parts[1..], sep));
    }
  }

  /** The joined string ends with the last piece. */
  lemma {:induction false} JoinEndsWithLast(parts: seq<string>, sep: string)
    requires |parts| >= 1
    ensures var j := Join(parts, sep); var last := parts[|parts| - 1];
      |j| >= |last| && j[|j| - |last|..] == last
  {
    if |parts| > 1 {
      JoinEndsWithLast(parts[1..], sep);
      assert Join(parts, sep) == (parts[0] + sep) + Join(parts[1..], sep);
    }
  }

  /** The separator occurs in a join of two or more pieces. */
  lemma JoinHasSeparator(parts: seq<string>, sep: char)
    requires |parts| >= 2
    ensures sep in Join(parts, [sep])
  {
    assert Join(parts, [sep]) == parts[0] + [sep] + Join(parts[1..], [sep]);
    assert Join(parts, [sep])[|parts[0]|] == sep;
  }

  /** Java's split of a join of two or more pieces, none holding the separator and the last not
      empty, gives back the pieces. */
  lemma JavaSplitJoin(parts: seq<string>, sep: char)
    requires |parts| >= 2 && parts[|parts| - 1] != ""
    requires forall k :: 0 <= k < |parts| ==> sep !in parts[k]
    ensures JavaSplit(Join(parts, [sep]), sep) == parts
  {
    JoinHasSeparator(parts, sep);
    SplitAllJoin(parts, sep);
  }

  function DropTrailingEmpty(parts: seq<string>): (r: seq<string>)
    ensures |r| <= |parts| && r == parts[..|r|]
    ensures r == [] || r[|r| - 1] != ""
    ensures forall k :: |r| <= k < |parts| ==> parts[k] == ""
  {
    if |parts| > 0 && parts[|parts| - 1] == "" then DropTrailingEmpty(parts[..|parts| - 1]) else parts
  }

  /** Java's `s.split(sep)` for a one-character, non-metacharacter separator: the string itself
      when the separator does not occur, otherwise the pieces with trailing empty pieces removed
      (so `"a:".split(":")` has one element and `":".split(":")` has none). */
  function JavaSplit(s: string, sep: char): (r: seq<string>)
    ensures sep !in s ==> r == [s]
    ensures forall k :: 0 <= k < |r| ==> sep !in r[k]
  {
    if sep !in s then [s] else DropTrailingEmpty(SplitAll(s, sep))
  }

  // ---------------------------------------------------------------------------
  // Decimal integers
  // ---------------------------------------------------------------------------

  const INT_MIN: int := -0x8000_0000
  const INT_MAX: int := 0x7FFF_FFFF
  const LONG_MIN: int := -0x8000_0000_0000_0000
  const LONG_MAX: int := 0x7FFF_FFFF_FFFF_FFFF

  predicate IsDigit(c: char) { '0' <= c <= '9' }

  predicate AllDigits(s: string) {
    forall k :: 0 <= k < |s| ==> IsDigit(s[k])
  }

  function DigitValue(c: char): nat
    requires IsDigit(c)
  {
    c as int - '0' as int
  }

  function DigitsValue(s: string): nat
    requires AllDigits(s)
  {
    if s == [] then 0 else 10 * DigitsValue(s[..|s| - 1]) + DigitValue(s[|s| - 1])
  }

  function DigitChar(d: nat): (c: char)
    requires d < 10
    ensures IsDigit(c) && DigitValue(c) == d
  {
    ('0' as int + d) as char
  }

  /** `Long.toString` of a non-negative number: decimal digits, no leading zero. */
  function NatToString(n: nat): (r: string)
    ensures |r| > 0 && AllDigits(r)
  {
    if n < 10 then [DigitChar(n)] else NatToString(n / 10) + [DigitChar(n % 10)]
  }

  /** The only number printed with a leading zero is zero itself, printed as "0". */
  lemma {:induction false} NatToStringNoLeadingZero(n: nat)
    ensures NatToString(n)[0] == '0' <==> n == 0
    ensures n == 0 <==> NatToString(n) == "0"
    ensures |NatToString(n)| > 1 ==> NatToString(n)[0] != '0'
  {
    if n >= 10 {
      NatToStringNoLeadingZero(n / 10);
      assert NatToString(n)[0] == NatToString(n / 10)[0];
    }
  }

  function Pow10(k: nat): (p: nat)
    ensures p >= 1
  {
    if k == 0 then 1 else 10 * Pow10(k - 1)
  }

  /** A number below `10^k` prints with at most `k` digits. */
  lemma {:induction false} NatToStringLength(n: nat, k: nat)
    requires 1 <= k && n < Pow10(k)
    ensures |NatToString(n)| <= k
  {
    if n >= 10 {
      NatToStringLength(n / 10, k - 1);
    }
  }

  /** `String.valueOf` of an `int` or `long`. */
  function IntToString(i: int): (r: string)
    ensures |r| > 0
    ensures i >= 0 ==> AllDigits(r) && DigitsValue(r) == i
    ensures i < 0 ==> r[0] == '-' && AllDigits(r[1..]) && DigitsValue(r[1..]) == 0 - i
  {
    if i < 0 then
      DigitsOfNatToString(0 - i);
      "-" + NatToString(0 - i)
    else
      DigitsOfNatToString(i);
      NatToString(i)
  }

  /** A printed number starts with a sign or digit and ends with a digit, so it has nothing to trim. */
  lemma IntToStringUntrimmed(i: int)
    ensures Trim(IntToString(i)) == IntToString(i)
  {
    var s := IntToString(i);
    if i < 0 {
      assert IsDigit(s[1..][|s| - 2]);
    } else {
      assert IsDigit(s[0]) && IsDigit(s[|s| - 1]);
    }
    TrimOfTrimmed(s);
  }

  /** Java's `Integer.parseInt(s)`: an optional sign, then at least one digit, in the `int` range. */
  function ParseInt(s: string): (r: Option<int>)
    ensures r.Some? ==> INT_MIN <= r.value <= INT_MAX
  {
    if s == [] then None
    else if s[0] == '-' || s[0] == '+' then
      if |s| == 1 || !AllDigits(s[1..]) then None
      else
        var v: int := if s[0] == '-' then 0 - (DigitsValue(s[1..]) as int) else DigitsValue(s[1..]);
        if INT_MIN <= v <= INT_MAX then Some(v) else None
    else if AllDigits(s) && DigitsValue(s) <= INT_MAX then Some(DigitsValue(s))
    else None
  }

  lemma {:induction false} DigitsOfNatToString(n: nat)
    ensures DigitsValue(NatToString(n)) == n
  {
    var r := NatToString(n);
    if n >= 10 {
      DigitsOfNatToString(n / 10);
      assert r[..|r| - 1] == NatToString(n / 10);
    }
  }

  /** Two digit strings of the same length and value are equal. */
  lemma {:induction false} DigitsDetermine(a: string, b: string)
    requires AllDigits(a) && AllDigits(b) && |a| == |b|
    requires DigitsValue(a) == DigitsValue(b)
    ensures a == b
  {
    if a != [] {
      var n := |a| - 1;
      assert DigitValue(a[n]) == DigitsValue(a) % 10;
      assert DigitValue(b[n]) == DigitsValue(b) % 10;
      DigitsDetermine(a[..n], b[..n]);
      assert a == a[..n] + [a[n]] && b == b[..n] + [b[n]];
    }
  }

  /** Printing an `int` and parsing it back gives the same number. */
  lemma ParseIntOfIntToString(i: int)
    requires INT_MIN <= i <= INT_MAX
    ensures ParseInt(IntToString(i)) == Some(i)
  {
    if i < 0 {
      var s := IntToString(i);
      assert s[1..] == NatToString(-i);
      DigitsOfNatToString(-i);
    } else {
      DigitsOfNatToString(i);
      assert NatToString(i)[0] != '-' && NatToString(i)[0] != '+';
    }
  }

  /** Java's narrowing of an integral value to `int`, saturating as a `double`-to-`int` cast does. */
  function SaturateInt(v: int): (r: int)
    ensures INT_MIN <= r <= INT_MAX
    ensures INT_MIN <= v <= INT_MAX ==> r == v
    ensures v < INT_MIN ==> r == INT_MIN
    ensures v > INT_MAX ==> r == INT_MAX
  {
    if v < INT_MIN then INT_MIN else if v > INT_MAX then INT_MAX else v
  }

  /** Narrowing to `long`, saturating as a `double`-to-`long` cast does. */
  function SaturateLong(v: int): (r: int)
    ensures LONG_MIN <= r <= LONG_MAX
    ensures LONG_MIN <= v <= LONG_MAX ==> r == v
    ensures v < LONG_MIN ==> r == LONG_MIN
    ensures v > LONG_MAX ==> r == LONG_MAX
  {
    if v < LONG_MIN then LONG_MIN else if v > LONG_MAX then LONG_MAX else v
  }
}
