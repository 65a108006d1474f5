/**
 * The JavaScript string operations the request handlers rely on, on strings
 * as sequences of characters: `startsWith`, `includes`, `split(' ')`,
 * `replace` with a string pattern, `trim`, and the character classes of the
 * password pattern.
 */
module Text {
  import opened Wrappers

  /** `s.startsWith(prefix)`. */
  predicate StartsWith(s: string, prefix: string) {
    |prefix| <= |s| && s[..|prefix|] == prefix
  }

  /** `needle` occurs in `hay` starting at position `i`. */
  predicate OccursAt(hay: string, needle: string, i: int) {
    0 <= i && i + |needle| <= |hay| && hay[i..i + |needle|] == needle
  }

  /** `hay.indexOf(needle, from)`, with `None` for -1. */
  function IndexOfFrom(hay: string, needle: string, from: nat): (r: Option<nat>)
    ensures r.Some? ==> from <= r.value && OccursAt(hay, needle, r.value)
    ensures r.Some? ==> forall j :: from <= j < r.value ==> !OccursAt(hay, needle, j)
    ensures r.None? ==> forall j :: from <= j ==> !OccursAt(hay, needle, j)
    decreases |hay| - from
  {
    if from + |needle| > |hay| then None
    else if hay[from..from + |needle|] == needle then Some(from)
    else IndexOfFrom(hay, needle, from + 1)
  }

  /** `hay.indexOf(needle)`: the first occurrence. */
  function IndexOf(hay: string, needle: string): Option<nat> {
    IndexOfFrom(hay, needle, 0)
  }

  /** `hay.includes(needle)`: a SUBSTRING test, true for the empty needle. */
  predicate Includes(hay: string, needle: string) {
    IndexOf(hay, needle).Some?
  }

  lemma IncludesIff(hay: string, needle: string)
    ensures Includes(hay, needle) <==> exists i :: OccursAt(hay, needle, i)
  {
    if Includes(hay, needle) {
      assert OccursAt(hay, needle, IndexOf(hay, needle).value);
    }
  }

  /** A string includes each of its contiguous pieces. */
  lemma {:induction false} IncludesPiece(pre: string, needle: string, post: string)
    ensures Includes(pre + needle + post, needle)
  {
    var hay := pre + needle + post;
    assert hay[|pre|..|pre| + |needle|] == needle;
    assert OccursAt(hay, needle, |pre|);
    IncludesIff(hay, needle);
  }

  /** `s.replace(pattern, replacement)` with a string pattern: only the FIRST occurrence is replaced. */
  function ReplaceFirst(s: string, pattern: string, replacement: string): (r: string)
    ensures !Includes(s, pattern) ==> r == s
    ensures Includes(s, pattern) ==>
      var i := IndexOf(s, pattern).value;
      |r| == |s| - |pattern| + |replacement| && r[..i] == s[..i] && r[i + |replacement|..] == s[i + |pattern|..]
  {
    match IndexOf(s, pattern)
    case None => s
    case Some(i) => s[..i] + replacement + s[i + |pattern|..]
  }

  /** Removing a leading occurrence of `pattern` leaves exactly what follows it. */
  lemma ReplaceLeading(pattern: string, rest: string)
    ensures ReplaceFirst(pattern + rest, pattern, "") == rest
  {
    var s := pattern + rest;
    assert OccursAt(s, pattern, 0);
    assert IndexOf(s, pattern) == Some(0);
  }

  /** Whatever a string includes, any string around it includes too. */
  lemma IncludesWithin(pre: string, x: string, post: string, needle: string)
    requires Includes(x, needle)
    ensures Includes(pre + x + post, needle)
  {
    var i := IndexOf(x, needle).value;
    assert x == x[..i] + needle + x[i + |needle|..];
    assert pre + x + post == (pre + x[..i]) + needle + (x[i + |needle|..] + post);
    IncludesPiece(pre + x[..i], needle, x[i + |needle|..] + post);
  }

  /** `s.split(sep)` for a one-character separator. */
  function Split(s: string, sep: char): (parts: seq<string>)
    ensures |parts| >= 1
    decreases |s|
  {
    if s == [] then [""]
    else
      var rest := Split(s[1..], sep);
      if s[0] == sep then [""] + rest else [[s[0]] + rest[0]] + rest[1..]
  }

  /** `parts.join(sep)`, the inverse of `Split`. */
  function Join(parts: seq<string>, sep: char): string
    requires |parts| >= 1
  {
    if |parts| == 1 then parts[0] else parts[0] + [sep] + Join(parts[1..], sep)
  }

  lemma {:induction false} JoinSplit(s: string, sep: char)
    ensures Join(Split(s, sep), sep) == s
    decreases |s|
  {
    if s != [] {
      var rest := Split(s[1..], sep);
      JoinSplit(s[1..], sep);
      if s[0] == sep {
        assert Split(s, sep)[1..] == rest;
      } else {
        var parts := Split(s, sep);
        if |rest| == 1 {
          assert parts == [[s[0]] + rest[0]];
        } else {
          assert parts[1..] == rest[1..];
          assert Join(rest, sep) == rest[0] + [sep] + Join(rest[1..], sep);
        }
      }
    }
  }

  /** A joined list includes each of its parts. */
  lemma {:induction false} JoinIncludesParts(parts: seq<string>, sep: char, k: nat)
    requires |parts| >= 1 && k < |parts|
    ensures Includes(Join(parts, sep), parts[k])
    decreases |parts|
  {
    if |parts| == 1 {
      IncludesPiece([], parts[0], []);
      assert [] + parts[0] + [] == parts[0];
    } else if k == 0 {
      IncludesPiece([], parts[0], [sep] + Join(parts[1..], sep));
      assert [] + parts[0] + ([sep] + Join(parts[1..], sep)) == Join(parts, sep);
    } else {
      JoinIncludesParts(parts[1..], sep, k - 1);
      IncludesWithin(parts[0] + [sep], Join(parts[1..], sep), [], parts[k]);
      assert parts[0] + [sep] + Join(parts[1..], sep) + [] == Join(parts, sep);
    }
  }

  lemma {:induction false} SplitPartsAvoidSeparator(s: string, sep: char)
    ensures forall k :: 0 <= k < |Split(s, sep)| ==> sep !in Split(s, sep)[k]
    decreases |s|
  {
    if s != [] {
      SplitPartsAvoidSeparator(s[1..], sep);
    }
  }

  /** A piece without the separator, then the separator, splits off as the first part. */
  lemma {:induction false} SplitAfterPiece(piece: string, sep: char, rest: string)
    requires sep !in piece
    ensures Split(piece + [sep] + rest, sep) == [piece] + Split(rest, sep)
    decreases |piece|
  {
    var s := piece + [sep] + rest;
    if piece == [] {
      assert s[1..] == rest;
    } else {
      assert s[1..] == piece[1..] + [sep] + rest;
      SplitAfterPiece(piece[1..], sep, rest);
      assert [piece[0]] + piece[1..] == piece;
    }
  }

  /** A string without the separator splits into itself alone. */
  lemma {:induction false} SplitWithoutSeparator(s: string, sep: char)
    requires sep !in s
    ensures Split(s, sep) == [s]
    decreases |s|
  {
    if s != [] {
      SplitWithoutSeparator(s[1..], sep);
      assert [s[0]] + s[1..] == s;
    }
  }

  /** The characters of the regular-expression class `\s`, which `trim` removes. */
  predicate IsWhitespace(c: char) {
    c == ' ' || c == '\t' || c == '\n' || c == '\r' || c == '\U{000B}' || c == '\U{000C}'
    || c == '\U{00A0}' || c == '\U{1680}' || ('\U{2000}' <= c <= '\U{200A}')
    || c == '\U{2028}' || c == '\U{2029}' || c == '\U{202F}' || c == '\U{205F}'
    || c == '\U{3000}' || c == '\U{FEFF}'
  }

  /** The characters `.` does not match in a JavaScript regular expression. */
  predicate IsLineTerminator(c: char) {
    c == '\n' || c == '\r' || c == '\U{2028}' || c == '\U{2029}'
  }

  function TrimStart(s: string): (r: string)
    ensures |r| <= |s| && r == s[|s| - |r|..]
    ensures forall k :: 0 <= k < |s| - |r| ==> IsWhitespace(s[k])
    ensures r == [] || !IsWhitespace(r[0])
  {
    if s != [] && IsWhitespace(s[0]) then TrimStart(s[1..]) else s
  }

  function TrimEnd(s: string): (r: string)
    ensures |r| <= |s| && r == s[..|r|]
    ensures forall k :: |r| <= k < |s| ==> IsWhitespace(s[k])
    ensures r == [] || !IsWhitespace(r[|r| - 1])
  {
    if s != [] && IsWhitespace(s[|s| - 1]) then TrimEnd(s[..|s| - 1]) else s
  }

  /** `s.trim()`. */
  function Trim(s: string): string {
    TrimEnd(TrimStart(s))
  }

  /** `r` is the piece of `s` at `i`, and everything of `s` around it is white space. */
  predicate TrimmedAt(s: string, r: string, i: int) {
    && OccursAt(s, r, i)
    && (forall k :: 0 <= k < i ==> IsWhitespace(s[k]))
    && (forall k :: i + |r| <= k < |s| ==> IsWhitespace(s[k]))
  }

  /** `trim` keeps a piece of the input, starts and ends on a non-space, and only spaces were cut. */
  lemma TrimShape(s: string)
    ensures exists i :: TrimmedAt(s, Trim(s), i)
    ensures Trim(s) == [] || (!IsWhitespace(Trim(s)[0]) && !IsWhitespace(Trim(s)[|Trim(s)| - 1]))
  {
    var t := TrimStart(s);
    var r := TrimEnd(t);
    assert r == Trim(s);
    var i := |s| - |t|;
    TrimEndAt(s, t, i);
    assert TrimmedAt(s, r, i);
    if r != [] {
      assert r[0] == t[0];
    }
  }

  /** What `TrimEnd` keeps of the suffix `t` of `s` starting at `i` is a piece of `s` followed only by spaces. */
  lemma TrimEndAt(s: string, t: string, i: nat)
    requires i <= |s| && t == s[i..]
    ensures OccursAt(s, TrimEnd(t), i)
    ensures forall k :: i + |TrimEnd(t)| <= k < |s| ==> IsWhitespace(s[k])
  {
    var r := TrimEnd(t);
    assert s[i..i + |r|] == t[..|r|];
    forall k | i + |r| <= k < |s| ensures IsWhitespace(s[k]) {
      assert s[k] == t[k - i];
    }
  }

  lemma TrimIdempotent(s: string)
    ensures Trim(Trim(s)) == Trim(s)
  {
    var r := Trim(s);
    TrimShape(s);
  }

  predicate IsLower(c: char) { 'a' <= c <= 'z' }
  predicate IsUpper(c: char) { 'A' <= c <= 'Z' }
  predicate IsDigit(c: char) { '0' <= c <= '9' }

  /** The first line of `s`: what `.*` at the start of a pattern can span. */
  function FirstLine(s: string): (r: string)
    ensures |r| <= |s| && r == s[..|r|]
    ensures forall k :: 0 <= k < |r| ==> !IsLineTerminator(r[k])
    ensures |r| < |s| ==> IsLineTerminator(s[|r|])
  {
    if s == [] || IsLineTerminator(s[0]) then [] else [s[0]] + FirstLine(s[1..])
  }

  predicate HasLower(s: string) { exists k :: 0 <= k < |s| && IsLower(s[k]) }
  predicate HasUpper(s: string) { exists k :: 0 <= k < |s| && IsUpper(s[k]) }
  predicate HasDigit(s: string) { exists k :: 0 <= k < |s| && IsDigit(s[k]) }

  /**
   * The regular expression `^(?=.*[a-z])(?=.*[A-Z])(?=.*\d).+$` without flags:
   * the three look-aheads and `.+$` can only see up to the first line
   * terminator, so the whole string must be one non-empty line holding a
   * lower-case letter, an upper-case letter and a digit.
   */
  predicate MatchesPasswordPattern(s: string) {
    var line := FirstLine(s);
    && HasLower(line) && HasUpper(line) && HasDigit(line)
    && |line| > 0 && line == s
  }

  lemma PasswordPatternIff(s: string)
    ensures MatchesPasswordPattern(s) <==>
      |s| > 0 && (forall k :: 0 <= k < |s| ==> !IsLineTerminator(s[k])) && HasLower(s) && HasUpper(s) && HasDigit(s)
  {
    var line := FirstLine(s);
    if |s| > 0 && (forall k :: 0 <= k < |s| ==> !IsLineTerminator(s[k])) {
      assert |line| == |s|;
    }
  }

  /** An optional sign followed by decimal digits: what validator.js's `isInt` accepts. */
  function DigitsValue(s: string): (n: nat)
    requires forall k :: 0 <= k < |s| ==> IsDigit(s[k])
  {
    if s == [] then 0
    else
      assert IsDigit(s[|s| - 1]);
      DigitsValue(s[..|s| - 1]) * 10 + (s[|s| - 1] as int - '0' as int)
  }

  predicate AllDigits(s: string) {
    |s| > 0 && forall k :: 0 <= k < |s| ==> IsDigit(s[k])
  }

  /** The integer an `isInt`-shaped string denotes, or `None` if it is not one. */
  function IntegerText(s: string): (r: Option<int>)
    ensures r.Some? ==> |s| > 0
    ensures AllDigits(s) ==> r == Some(DigitsValue(s))
  {
    if AllDigits(s) then Some(DigitsValue(s))
    else if |s| > 1 && s[0] == '+' && AllDigits(s[1..]) then Some(DigitsValue(s[1..]))
    else if |s| > 1 && s[0] == '-' && AllDigits(s[1..]) then Some(0 - DigitsValue(s[1..]))
    else None
  }

  /**
   * `s.length` in JavaScript, which Mongoose's `maxLength` compares: UTF-16
   * code units, two for a character outside the Basic Multilingual Plane.
   */
  function Utf16Length(s: string): (n: nat)
    ensures |s| <= n <= 2 * |s|
  {
    if s == [] then 0 else (if s[0] as int >= 0x1_0000 then 2 else 1) + Utf16Length(s[1..])
  }

  /**
   * The length validator.js's `isLength` compares: code points, leaving out
   * the variation selectors U+FE0E and U+FE0F.
   */
  function ValidatorLength(s: string): (n: nat)
    ensures n <= |s|
  {
    if s == [] then 0 else (if s[0] == '\U{FE0E}' || s[0] == '\U{FE0F}' then 0 else 1) + ValidatorLength(s[1..])
  }

  /** A character both length measures count once: inside the Basic Multilingual Plane and no variation selector. */
  predicate PlainChar(c: char) {
    c as int < 0x1_0000 && c != '\U{FE0E}' && c != '\U{FE0F}'
  }

  /** On text made of plain characters the two measures agree with the number of characters. */
  lemma {:induction false} PlainLengths(s: string)
    requires forall k :: 0 <= k < |s| ==> PlainChar(s[k])
    ensures Utf16Length(s) == |s| && ValidatorLength(s) == |s|
  {
    if s != [] {
      assert PlainChar(s[0]);
      PlainLengths(s[1..]);
    }
  }

  /** Both length measures add up over a concatenation. */
  lemma {:induction false} LengthsAppend(a: string, b: string)
    ensures Utf16Length(a + b) == Utf16Length(a) + Utf16Length(b)
    ensures ValidatorLength(a + b) == ValidatorLength(a) + ValidatorLength(b)
  {
    if a == [] {
      assert a + b == b;
    } else {
      assert (a + b)[0] == a[0] && (a + b)[1..] == a[1..] + b;
      LengthsAppend(a[1..], b);
    }
  }

  /** `n` copies of one character. */
  function Repeat(c: char, n: nat): (r: string)
    ensures |r| == n && forall k :: 0 <= k < n ==> r[k] == c
  {
    if n == 0 then [] else [c] + Repeat(c, n - 1)
  }

  /** A run of one character outside the Basic Multilingual Plane counts twice over for JavaScript and once for validator.js. */
  lemma {:induction false} AstralRunLengths(c: char, n: nat)
    requires c as int >= 0x1_0000
    ensures Utf16Length(Repeat(c, n)) == 2 * n && ValidatorLength(Repeat(c, n)) == n
  {
    if n > 0 {
      AstralRunLengths(c, n - 1);
      assert Repeat(c, n)[1..] == Repeat(c, n - 1);
    }
  }
}
