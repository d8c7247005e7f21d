/**
 * The string primitives of JavaScript and Python that the streaming code relies on:
 * `split`/`join`, `trim`/`strip` (whose whitespace sets differ between the two languages),
 * `lower`, substring search, `parseInt` and the decimal rendering of a number.
 */
module Strings {
  import opened Wrappers

  // ---------------------------------------------------------------- whitespace

  /** Whose notion of whitespace: ECMAScript's `String.prototype.trim`, or Python's `str.strip`. */
  datatype Space = JsSpace | PySpace

  /**
   * ECMAScript's WhiteSpace and LineTerminator code points (k = JsSpace), or the code points
   * for which Python's `str.isspace` holds (k = PySpace).
   */
  predicate IsSpace(k: Space, c: char) {
    match k
    case JsSpace =>
      c == '\t' || c == '\n' || c == '\U{B}' || c == '\U{C}' || c == '\r' || c == ' '
      || c == '\U{A0}' || c == '\U{1680}' || ('\U{2000}' <= c <= '\U{200A}')
      || c == '\U{2028}' || c == '\U{2029}' || c == '\U{202F}' || c == '\U{205F}'
      || c == '\U{3000}' || c == '\U{FEFF}'
    case PySpace =>
      ('\t' <= c <= '\r') || ('\U{1C}' <= c <= '\U{1F}') || c == ' ' || c == '\U{85}'
      || c == '\U{A0}' || c == '\U{1680}' || ('\U{2000}' <= c <= '\U{200A}')
      || c == '\U{2028}' || c == '\U{2029}' || c == '\U{202F}' || c == '\U{205F}'
      || c == '\U{3000}'
  }

  predicate AllSpace(k: Space, s: string) {
    forall i :: 0 <= i < |s| ==> IsSpace(k, s[i])
  }

  /** Removes the leading whitespace: what is left is a suffix starting with a non-space. */
  function TrimStart(k: Space, s: string): (r: string)
    ensures |r| <= |s| && r == s[|s| - |r|..]
    ensures forall i :: 0 <= i < |s| - |r| ==> IsSpace(k, s[i])
    ensures r != "" ==> !IsSpace(k, r[0])
    decreases |s|
  {
    if s != "" && IsSpace(k, s[0]) then TrimStart(k, s[1..]) else
      s
  }

  /** Removes the trailing whitespace: what is left is a prefix ending in a non-space. */
  function TrimEnd(k: Space, s: string): (r: string)
    ensures |r| <= |s| && r == s[..|r|]
    ensures forall i :: |r| <= i < |s| ==> IsSpace(k, s[i])
    ensures r != "" ==> !IsSpace(k, r[|r| - 1])
    decreases |s|
  {
    if s != "" && IsSpace(k, s[|s| - 1]) then TrimEnd(k, s[..|s| - 1]) else
      s
  }

  /** `s.trim()` in JavaScript (k = JsSpace) and `s.strip()` in Python (k = PySpace). */
  function Trim(k: Space, s: string): string {
    TrimEnd(k, TrimStart(k, s))
  }

  /**
   * `line.trim() === ''`, the test both frontend read loops use to skip a line, written as "every
   * character is JavaScript white space" (`BlankIsTrimEmpty` shows the two agree).
   */
  predicate IsBlank(line: string) {
    line == "" || (IsSpace(JsSpace, line[0]) && IsBlank(line[1..]))
  }

  /** Where the trimmed text starts in the untrimmed one: trimming keeps one contiguous slice. */
  function TrimOffset(k: Space, s: string): (a: nat)
    ensures a + |Trim(k, s)| <= |s| && Trim(k, s) == s[a..a + |Trim(k, s)|]
  {
    var t := TrimStart(k, s);
    var r := TrimEnd(k, t);
    var a := |s| - |t|;
    assert r == t[..|r|] == s[a..][..|r|];
    a
  }

  /** Trimming drops only whitespace around the slice it keeps. */
  lemma TrimDropsSpace(k: Space, s: string)
    ensures forall i :: 0 <= i < TrimOffset(k, s) ==> IsSpace(k, s[i])
    ensures forall i :: TrimOffset(k, s) + |Trim(k, s)| <= i < |s| ==> IsSpace(k, s[i])
  {
    var t := TrimStart(k, s);
    var r := TrimEnd(k, t);
    assert |s| - |t| == TrimOffset(k, s) && r == Trim(k, s);
    SuffixSpace(k, s, t, |r|);
  }

  /** Whitespace at the end of a suffix `t` of `s` is whitespace at the end of `s`. */
  lemma SuffixSpace(k: Space, s: string, t: string, n: nat)
    requires |t| <= |s| && t == s[|s| - |t|..]
    requires forall j :: n <= j < |t| ==> IsSpace(k, t[j])
    ensures forall i :: |s| - |t| + n <= i < |s| ==> IsSpace(k, s[i])
  {
    forall i | |s| - |t| + n <= i < |s| ensures IsSpace(k, s[i]) {
      assert s[i] == t[i - (|s| - |t|)];
    }
  }

  /** The trimmed text neither starts nor ends with whitespace. */
  lemma TrimEdges(k: Space, s: string)
    ensures Trim(k, s) != "" ==> !IsSpace(k, Trim(k, s)[0]) && !IsSpace(k, Trim(k, s)[|Trim(k, s)| - 1])
  {
    var t := TrimStart(k, s);
    var r := TrimEnd(k, t);
    assert r != "" ==> r[0] == t[0];
  }

  /** A string trims to nothing exactly when every character of it is whitespace. */
  lemma TrimEmptyIff(k: Space, s: string)
    ensures Trim(k, s) == "" <==> AllSpace(k, s)
  {
    var t := TrimStart(k, s);
    if t != "" {
      assert s[|s| - |t|] == t[0];
      TrimEndKeepsNonSpace(k, t);
    }
  }

  lemma {:induction false} BlankAllSpace(line: string)
    ensures IsBlank(line) <==> AllSpace(JsSpace, line)
    decreases |line|
  {
    if line != "" {
      BlankAllSpace(line[1..]);
      assert AllSpace(JsSpace, line) <==> IsSpace(JsSpace, line[0]) && AllSpace(JsSpace, line[1..]) by {
        if IsSpace(JsSpace, line[0]) && AllSpace(JsSpace, line[1..]) {
          forall i | 0 <= i < |line| ensures IsSpace(JsSpace, line[i]) {
            if i > 0 { assert line[i] == line[1..][i - 1]; }
          }
        }
      }
    }
  }

  /** The blank test is JavaScript's `line.trim() === ''`. */
  lemma BlankIsTrimEmpty(line: string)
    ensures IsBlank(line) <==> Trim(JsSpace, line) == ""
  {
    BlankAllSpace(line);
    TrimEmptyIff(JsSpace, line);
  }

  /** A string that starts with a non-space does not trim to nothing at its end. */
  lemma {:induction false} TrimEndKeepsNonSpace(k: Space, t: string)
    requires t != "" && !IsSpace(k, t[0])
    ensures TrimEnd(k, t) != ""
    decreases |t|
  {
    if |t| > 1 && IsSpace(k, t[|t| - 1]) {
      TrimEndKeepsNonSpace(k, t[..|t| - 1]);
    }
  }

  /** `strip` and `trim` are idempotent. */
  lemma TrimIdempotent(k: Space, s: string)
    ensures Trim(k, Trim(k, s)) == Trim(k, s)
  {
    var r := Trim(k, s);
    TrimEdges(k, s);
    assert TrimStart(k, r) == r;
    assert TrimEnd(k, r) == r;
  }

  // ---------------------------------------------------------------- search and case

  /** Python's `sub in s` and JavaScript's `s.includes(sub)`. */
  predicate Contains(s: string, sub: string)
    decreases |s|
  {
    sub <= s || (s != "" && Contains(s[1..], sub))
  }

  /** An occurrence at a known offset is found by the search. */
  lemma {:induction false} ContainsAt(s: string, sub: string, i: nat)
    requires i + |sub| <= |s| && s[i..i + |sub|] == sub
    ensures Contains(s, sub)
    decreases i
  {
    if i == 0 {
      assert sub <= s;
    } else {
      assert s[1..][i - 1..i - 1 + |sub|] == s[i..i + |sub|];
      ContainsAt(s[1..], sub, i - 1);
    }
  }

  /** The offset of the first occurrence of `sub` in `s`. */
  function ContainsIndex(s: string, sub: string): (i: nat)
    requires Contains(s, sub)
    ensures i + |sub| <= |s| && s[i..i + |sub|] == sub
    ensures forall j :: 0 <= j < i ==> !(sub <= s[j..])
    decreases |s|
  {
    if sub <= s then 0
    else
      var k := ContainsIndex(s[1..], sub);
      assert forall j :: 1 <= j <= k ==> s[j..] == s[1..][j - 1..];
      1 + k
  }

  /** Appending text on either side never loses an occurrence. */
  lemma ContainsAppend(s: string, t: string, sub: string)
    ensures Contains(s, sub) ==> Contains(s + t, sub) && Contains(t + s, sub)
  {
    if Contains(s, sub) {
      var j := ContainsIndex(s, sub);
      assert (s + t)[j..j + |sub|] == sub;
      ContainsAt(s + t, sub, j);
      assert (t + s)[|t| + j..|t| + j + |sub|] == sub;
      ContainsAt(t + s, sub, |t| + j);
    }
  }

  /**
   * Python's `str.lower` on one character, for the characters whose lower case is an ASCII
   * letter: A-Z and U+212A KELVIN SIGN (which lowers to 'k'). Every other character is kept.
   */
  function LowerChar(c: char): char {
    if 'A' <= c <= 'Z' then (c as int + 32) as char
    else if c == '\U{212A}' then 'k'
    else c
  }

  /** Python's `s.lower()`, character by character. */
  function Lower(s: string): (r: string)
    ensures |r| == |s|
    ensures forall i :: 0 <= i < |s| ==> r[i] == LowerChar(s[i])
  {
    if s == "" then "" else [LowerChar(s[0])] + Lower(s[1..])
  }

  lemma LowerAppend(s: string, t: string)
    ensures Lower(s + t) == Lower(s) + Lower(t)
  {
    assert Lower(s + t) == Lower(s) + Lower(t);
  }

  lemma LowerIdempotent(s: string)
    ensures Lower(Lower(s)) == Lower(s)
  {
  }

  // ---------------------------------------------------------------- split and join

  /** `parts.join(sep)` in JavaScript, `sep.join(parts)` in Python, for a one-character separator. */
  function Join(parts: seq<string>, sep: char): string {
    if |parts| == 0 then ""
    else if |parts| == 1 then parts[0]
    else parts[0] + [sep] + Join(parts[1..], sep)
  }

  /** The first position of `c` in `s`. */
  function IndexOf(s: string, c: char): (k: nat)
    requires c in s
    ensures k < |s| && s[k] == c && c !in s[..k]
  {
    if s[0] == c then 0
    else
      var k := 1 + IndexOf(s[1..], c);
      assert s[..k] == [s[0]] + s[1..][..k - 1];
      k
  }

  /**
   * `s.split(sep)` in JavaScript: the separator-free pieces between the occurrences of `sep`,
   * at least one of them, which `Join` puts back together into `s`.
   */
  function Split(s: string, sep: char): (parts: seq<string>)
    ensures |parts| >= 1
    ensures forall i :: 0 <= i < |parts| ==> sep !in parts[i]
    ensures Join(parts, sep) == s
    decreases |s|
  {
    if sep !in s then [s]
    else
      var k := IndexOf(s, sep);
      var rest := Split(s[k + 1..], sep);
      assert s == s[..k] + [sep] + s[k + 1..];
      [s[..k]] + rest
  }

  /** Splitting a join of separator-free pieces gives back exactly those pieces. */
  lemma {:induction false} SplitJoin(parts: seq<string>, sep: char)
    requires |parts| >= 1
    requires forall i :: 0 <= i < |parts| ==> sep !in parts[i]
    ensures Split(Join(parts, sep), sep) == parts
    decreases |parts|
  {
    var s := Join(parts, sep);
    if |parts| == 1 {
    } else {
      var tail := Join(parts[1..], sep);
      assert s == parts[0] + [sep] + tail;
      IndexOfAfter(parts[0], sep, tail);
      assert s[..|parts[0]|] == parts[0];
      assert s[|parts[0]| + 1..] == tail;
      assert Split(s, sep) == [parts[0]] + Split(tail, sep);
      SplitJoin(parts[1..], sep);
      assert parts == [parts[0]] + parts[1..];
    }
  }

  /** The first separator after a separator-free piece is the one right after it. */
  lemma {:induction false} IndexOfAfter(p: string, c: char, rest: string)
    requires c !in p
    ensures c in p + [c] + rest && IndexOf(p + [c] + rest, c) == |p|
    decreases |p|
  {
    var s := p + [c] + rest;
    assert s[|p|] == c;
    if p != [] {
      assert s[1..] == p[1..] + [c] + rest;
      IndexOfAfter(p[1..], c, rest);
    }
  }

  /** A join is empty exactly when there is no piece, or one empty piece. */
  lemma JoinEmptyIff(parts: seq<string>, sep: char)
    ensures Join(parts, sep) == "" <==> |parts| == 0 || (|parts| == 1 && parts[0] == "")
  {
    if |parts| >= 2 {
      assert |Join(parts, sep)| >= 1;
    }
  }

  // ---------------------------------------------------------------- numbers

  predicate IsDigit(c: char) {
    '0' <= c <= '9'
  }

  predicate AllDigits(s: string) {
    forall i :: 0 <= i < |s| ==> IsDigit(s[i])
  }

  function DigitChar(d: nat): (c: char)
    requires d < 10
    ensures IsDigit(c)
  {
    ('0' as int + d) as char
  }

  /** The number a string of decimal digits denotes. */
  function DigitsValue(s: string): nat
    requires AllDigits(s)
  {
    if s == "" then 0 else 10 * DigitsValue(s[..|s| - 1]) + (s[|s| - 1] as int - '0' as int)
  }

  /** `String(n)` (or `${n}` in a template literal) for a non-negative integer. */
  function ShowNat(n: nat): (r: string)
    ensures |r| >= 1 && AllDigits(r)
    ensures r[0] == '0' ==> n == 0
    decreases n
  {
    if n < 10 then [DigitChar(n)] else ShowNat(n / 10) + [DigitChar(n % 10)]
  }

  /** The decimal rendering denotes the number it renders. */
  lemma {:induction false} ShowNatValue(n: nat)
    ensures DigitsValue(ShowNat(n)) == n
    decreases n
  {
    if n >= 10 {
      var s := ShowNat(n);
      assert s[..|s| - 1] == ShowNat(n / 10);
      ShowNatValue(n / 10);
    }
  }

  /** Leading zeros do not change the value of a digit string. */
  lemma {:induction false} LeadingZeroValue(s: string)
    requires AllDigits(s)
    ensures AllDigits("0" + s) && DigitsValue("0" + s) == DigitsValue(s)
    decreases |s|
  {
    if s != "" {
      assert ("0" + s)[..|"0" + s| - 1] == "0" + s[..|s| - 1];
      LeadingZeroValue(s[..|s| - 1]);
    }
  }

  /** The longest prefix of `s` made of decimal digits. */
  function LeadingDigits(s: string): (r: string)
    ensures r <= s && AllDigits(r)
    ensures |r| < |s| ==> !IsDigit(s[|r|])
  {
    if s != "" && IsDigit(s[0]) then [s[0]] + LeadingDigits(s[1..]) else ""
  }

  /**
   * `parseInt(s, 10)`: skip leading whitespace, take an optional sign, then the longest run of
   * decimal digits. None stands for NaN, the result when there is no digit to read.
   */
  function ParseInt(s: string): Option<int> {
    var t := TrimStart(JsSpace, s);
    var negative := t != "" && t[0] == '-';
    var body := if t != "" && (t[0] == '-' || t[0] == '+') then t[1..] else t;
    var digits := LeadingDigits(body);
    if digits == "" then None
    else
      var value: int := DigitsValue(digits);
      Some(if negative then -value else value)
  }

  /** `parseInt` reads a plain string of digits as the number it denotes. */
  lemma ParseIntDigits(s: string)
    requires s != "" && AllDigits(s)
    ensures ParseInt(s) == Some(DigitsValue(s))
  {
    assert !IsSpace(JsSpace, s[0]);
    assert TrimStart(JsSpace, s) == s;
    assert s[0] != '-' && s[0] != '+';
    LeadingDigitsAll(s);
  }

  lemma {:induction false} LeadingDigitsAll(s: string)
    requires AllDigits(s)
    ensures LeadingDigits(s) == s
    decreases |s|
  {
    if s != "" {
      LeadingDigitsAll(s[1..]);
    }
  }

  /** `parseInt(String(n), 10) == n`. */
  lemma ParseIntShowNat(n: nat)
    ensures ParseInt(ShowNat(n)) == Some(n)
  {
    ParseIntDigits(ShowNat(n));
    ShowNatValue(n);
  }

  // ---------------------------------------------------------------- ordering

  /** The order of JavaScript's default `Array.prototype.sort` on strings, character by character. */
  predicate LexLess(a: string, b: string)
    decreases |a|
  {
    (a == "" && b != "")
    || (a != "" && b != "" && (a[0] < b[0] || (a[0] == b[0] && LexLess(a[1..], b[1..]))))
  }

  lemma {:induction false} LexLessIrreflexive(a: string)
    ensures !LexLess(a, a)
    decreases |a|
  {
    if a != "" { LexLessIrreflexive(a[1..]); }
  }

  lemma {:induction false} LexLessTransitive(a: string, b: string, c: string)
    requires LexLess(a, b) && LexLess(b, c)
    ensures LexLess(a, c)
    decreases |a|
  {
    if a != "" && a[0] == b[0] && b[0] == c[0] {
      LexLessTransitive(a[1..], b[1..], c[1..]);
    }
  }

  lemma {:induction false} LexLessTotal(a: string, b: string)
    ensures a == b || LexLess(a, b) || LexLess(b, a)
    decreases |a|
  {
    if a != "" && b != "" && a[0] == b[0] {
      LexLessTotal(a[1..], b[1..]);
      if a[1..] == b[1..] { assert a == [a[0]] + a[1..] && b == [b[0]] + b[1..]; }
    }
  }
}
