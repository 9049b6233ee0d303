/** String helpers shared by the JavaScript and the Python parts of the planner: the two
    languages' whitespace classes, trimming, ASCII case mapping, splitting and joining on a
    separator, and decimal formatting of integers. */
module Strings {

  /** Whitespace for JavaScript's `String.prototype.trim` and the regular-expression class
      `\s`: the WhiteSpace and LineTerminator code points of ECMA-262. */
  predicate IsJsSpace(c: char) {
    || c == '\t' || c == '\n' || c == '\U{B}' || c == '\U{C}' || c == '\r' || c == ' '
    || c == '\U{A0}' || c == '\U{1680}' || ('\U{2000}' <= c <= '\U{200A}')
    || c == '\U{2028}' || c == '\U{2029}' || c == '\U{202F}' || c == '\U{205F}'
    || c == '\U{3000}' || c == '\U{FEFF}'
  }

  /** The characters JavaScript's regular-expression `.` refuses to match. */
  predicate IsLineTerminator(c: char) {
    c == '\n' || c == '\r' || c == '\U{2028}' || c == '\U{2029}'
  }

  /** A text that JavaScript's regular-expression `.` matches character by character. */
  predicate NoLineTerminator(s: string) {
    forall i :: 0 <= i < |s| ==> !IsLineTerminator(s[i])
  }

  /** Whitespace for Python's `str.strip()`, `str.isspace()` and the regular-expression class
      `\s` on `str` patterns. */
  predicate IsPySpace(c: char) {
    || ('\t' <= c <= '\r') || ('\U{1C}' <= c <= ' ') || c == '\U{85}' || c == '\U{A0}'
    || c == '\U{1680}' || ('\U{2000}' <= c <= '\U{200A}') || c == '\U{2028}'
    || c == '\U{2029}' || c == '\U{202F}' || c == '\U{205F}' || c == '\U{3000}'
  }

  predicate IsAsciiDigit(c: char) {
    '0' <= c <= '9'
  }

  predicate AllSatisfy(s: string, p: char -> bool) {
    forall i :: 0 <= i < |s| ==> p(s[i])
  }

  /** The number of leading characters of `s` that satisfy `p`. */
  function LeadingRun(s: string, p: char -> bool): (n: nat)
    ensures n <= |s|
    ensures AllSatisfy(s[..n], p)
    ensures n < |s| ==> !p(s[n])
  {
    if s == [] || !p(s[0]) then 0 else 1 + LeadingRun(s[1..], p)
  }

  /** A prefix of characters satisfying `p`, followed by the end or by one that does not, is
      the leading run. */
  lemma {:induction false} LeadingRunStops(s: string, p: char -> bool, n: nat)
    requires n <= |s| && AllSatisfy(s[..n], p) && (n < |s| ==> !p(s[n]))
    ensures LeadingRun(s, p) == n
  {
    if n > 0 {
      assert s[..n][0] == s[0];
      assert s[1..][..n - 1] == s[..n][1..];
      LeadingRunStops(s[1..], p, n - 1);
    }
  }

  /** The number of trailing characters of `s` that satisfy `p`. */
  function TrailingRun(s: string, p: char -> bool): (n: nat)
    ensures n <= |s|
    ensures AllSatisfy(s[|s| - n..], p)
    ensures n < |s| ==> !p(s[|s| - n - 1])
  {
    if s == [] || !p(s[|s| - 1]) then 0 else 1 + TrailingRun(s[..|s| - 1], p)
  }

  /** `s` without its leading characters that satisfy `p` (Python's `lstrip(chars)`). */
  function TrimStartWith(s: string, p: char -> bool): (r: string)
    ensures |r| <= |s| && r == s[|s| - |r|..]
    ensures AllSatisfy(s[..|s| - |r|], p)
    ensures r == [] || !p(r[0])
  {
    s[LeadingRun(s, p)..]
  }

  /** `s` without its leading and trailing characters that satisfy `p`. */
  function TrimWith(s: string, p: char -> bool): (r: string)
    ensures |r| <= |s|
    ensures r == [] || (!p(r[0]) && !p(r[|r| - 1]))
    ensures r == [] <==> AllSatisfy(s, p)
  {
    var a := LeadingRun(s, p);
    var t := s[a..];
    var b := TrailingRun(t, p);
    assert a < |s| ==> !p(t[0]);
    t[..|t| - b]
  }

  /** Trimming keeps one contiguous stretch of the input: the part after the leading run. */
  lemma {:induction false} TrimWithIsMiddle(s: string, p: char -> bool)
    ensures var a := LeadingRun(s, p); var r := TrimWith(s, p);
      a + |r| <= |s| && r == s[a..a + |r|]
  {
    var a := LeadingRun(s, p);
    var t := s[a..];
    var m := |t| - TrailingRun(t, p);
    TrimWithIs(s, p, a, t, m);
    SliceOfSuffix(s, a, m);
  }

  lemma {:induction false} TrimWithIs(s: string, p: char -> bool, a: nat, t: string, m: nat)
    requires a == LeadingRun(s, p) && t == s[a..] && m == |t| - TrailingRun(t, p)
    ensures TrimWith(s, p) == t[..m]
  {
  }

  lemma {:induction false} SliceOfSuffix(s: string, a: nat, m: nat)
    requires a + m <= |s|
    ensures s[a..][..m] == s[a..a + m]
  {
  }

  /** JavaScript's `String.prototype.trim`. */
  function JsTrim(s: string): (r: string)
    ensures |r| <= |s|
    ensures r == [] || (!IsJsSpace(r[0]) && !IsJsSpace(r[|r| - 1]))
    ensures r == [] <==> AllSatisfy(s, IsJsSpace)
  {
    TrimWith(s, IsJsSpace)
  }

  /** Python's `str.strip()` with no argument. */
  function PyStrip(s: string): (r: string)
    ensures |r| <= |s|
    ensures r == [] || (!IsPySpace(r[0]) && !IsPySpace(r[|r| - 1]))
    ensures r == [] <==> AllSatisfy(s, IsPySpace)
  {
    TrimWith(s, IsPySpace)
  }

  /** Trimming a string that has no removable character at either end changes nothing. */
  lemma {:induction false} TrimWithKeepsTrimmed(s: string, p: char -> bool)
    requires s == [] || (!p(s[0]) && !p(s[|s| - 1]))
    ensures TrimWith(s, p) == s
  {
  }

  /** Trimming only removes characters: whatever is left was in the input. */
  lemma {:induction false} TrimWithKeepsChars(s: string, p: char -> bool, c: char)
    requires c in TrimWith(s, p)
    ensures c in s
  {
    TrimWithIsMiddle(s, p);
    var a := LeadingRun(s, p);
    var r := TrimWith(s, p);
    var i :| 0 <= i < |r| && r[i] == c;
    assert s[a + i] == r[i];
  }

  /** A character absent from the input is absent from its stripped form. */
  lemma {:induction false} PyStripKeepsOut(s: string, c: char)
    requires c !in s
    ensures c !in PyStrip(s)
  {
    if c in PyStrip(s) {
      TrimWithKeepsChars(s, IsPySpace, c);
    }
  }

  lemma {:induction false} PyStripIdempotent(s: string)
    ensures PyStrip(PyStrip(s)) == PyStrip(s)
  {
    TrimWithKeepsTrimmed(PyStrip(s), IsPySpace);
  }

  // ---------------------------------------------------------------------------------------
  // ASCII case mapping (the only letters the catalog and the lookups use)

  function UpperChar(c: char): (r: char)
    ensures 'a' <= c <= 'z' ==> r as int == c as int - 32
    ensures !('a' <= c <= 'z') ==> r == c
  {
    if 'a' <= c <= 'z' then (c as int - 32) as char else c
  }

  function LowerChar(c: char): (r: char)
    ensures 'A' <= c <= 'Z' ==> r as int == c as int + 32
    ensures !('A' <= c <= 'Z') ==> r == c
  {
    if 'A' <= c <= 'Z' then (c as int + 32) as char else c
  }

  /** `toUpperCase` / `upper()` on the ASCII letters. */
  function Upper(s: string): (r: string)
    ensures |r| == |s|
    ensures forall i :: 0 <= i < |s| ==> r[i] == UpperChar(s[i])
  {
    seq(|s|, i requires 0 <= i < |s| => UpperChar(s[i]))
  }

  /** `toLowerCase` / `lower()` on the ASCII letters. */
  function Lower(s: string): (r: string)
    ensures |r| == |s|
    ensures forall i :: 0 <= i < |s| ==> r[i] == LowerChar(s[i])
  {
    seq(|s|, i requires 0 <= i < |s| => LowerChar(s[i]))
  }

  lemma {:induction false} UpperIdempotent(s: string)
    ensures Upper(Upper(s)) == Upper(s)
  {
  }

  /** Text without upper-case ASCII letters is its own lower-case form. */
  lemma {:induction false} LowerOfLowerCase(s: string)
    requires forall i :: 0 <= i < |s| ==> !('A' <= s[i] <= 'Z')
    ensures Lower(s) == s
  {
    if s != [] {
      LowerOfLowerCase(s[1..]);
    }
  }

  lemma {:induction false} LowerIdempotent(s: string)
    ensures Lower(Lower(s)) == Lower(s)
  {
  }

  /** Lower-casing forgets a previous upper-casing. */
  lemma {:induction false} LowerOfUpper(s: string)
    ensures Lower(Upper(s)) == Lower(s)
  {
  }

  /** `c` repeated `n` times (Python's `c * n`). */
  function Repeat(c: char, n: nat): (r: string)
    ensures |r| == n && forall i :: 0 <= i < n ==> r[i] == c
  {
    seq(n, _ => c)
  }

  predicate StartsWith(s: string, prefix: string) {
    |prefix| <= |s| && s[..|prefix|] == prefix
  }

  /** The position of the first `c` in `s`. */
  function IndexOf(s: string, c: char): (k: nat)
    requires c in s
    ensures k < |s| && s[k] == c && c !in s[..k]
  {
    if s[0] == c then 0
    else
      assert c in s[1..] by { assert s == [s[0]] + s[1..]; }
      var k := 1 + IndexOf(s[1..], c);
      assert s[..k] == [s[0]] + s[1..][..k - 1];
      k
  }

  /** A position holding `c` with no `c` before it is the first one. */
  lemma {:induction false} IndexOfFirst(s: string, c: char, j: nat)
    requires j < |s| && s[j] == c && c !in s[..j]
    ensures IndexOf(s, c) == j
  {
    var k := IndexOf(s, c);
    assert forall i :: 0 <= i < j ==> s[i] != c by {
      forall i | 0 <= i < j ensures s[i] != c { assert s[..j][i] == s[i]; }
    }
    assert forall i :: 0 <= i < k ==> s[i] != c by {
      forall i | 0 <= i < k ensures s[i] != c { assert s[..k][i] == s[i]; }
    }
  }

  /** `s` with every `from` replaced by `to` (`str.replace` on one character). */
  function ReplaceChar(s: string, from: char, to: char): (r: string)
    ensures |r| == |s|
    ensures forall i :: 0 <= i < |s| ==> r[i] == (if s[i] == from then to else s[i])
  {
    seq(|s|, i requires 0 <= i < |s| => if s[i] == from then to else s[i])
  }

  // ---------------------------------------------------------------------------------------
  // Splitting and joining

  function Count(s: string, c: char): (n: nat)
    ensures n <= |s|
  {
    if s == [] then 0 else (if s[0] == c then 1 else 0) + Count(s[1..], c)
  }

  /** `s` with every occurrence of `c` removed. */
  function Remove(s: string, c: char): (r: string)
    ensures c !in r
    ensures |r| + Count(s, c) == |s|
  {
    if s == [] then [] else (if s[0] == c then [] else [s[0]]) + Remove(s[1..], c)
  }

  /** JavaScript's `s.split(sep)` for a one-character separator: the pieces between the
      separators, always at least one. */
  function Split(s: string, sep: char): (r: seq<string>)
    ensures |r| == Count(s, sep) + 1
    ensures forall i :: 0 <= i < |r| ==> sep !in r[i]
  {
    if s == [] then [[]]
    else if s[0] == sep then [[]] + Split(s[1..], sep)
    else
      var rest := Split(s[1..], sep);
      [[s[0]] + rest[0]] + rest[1..]
  }

  /** `sep.join(parts)` / `parts.join(sep)`. */
  function Join(parts: seq<string>, sep: string): string {
    if parts == [] then []
    else if |parts| == 1 then parts[0]
    else parts[0] + sep + Join(parts[1..], sep)
  }

  /** Splitting and then joining again on the same separator gives the input back. */
  lemma {:induction false} JoinSplit(s: string, sep: char)
    ensures Join(Split(s, sep), [sep]) == s
  {
    if s == [] {
    } else if s[0] == sep {
      JoinSplit(s[1..], sep);
      assert s == [sep] + s[1..];
    } else {
      var rest := Split(s[1..], sep);
      JoinSplit(s[1..], sep);
      if |rest| == 1 {
        assert s == [s[0]] + s[1..];
      } else {
        assert Join(rest, [sep]) == rest[0] + [sep] + Join(rest[1..], [sep]);
        assert s == [s[0]] + s[1..];
      }
    }
  }

  /** Appending a separator to `s` opens a new, empty last piece. */
  lemma {:induction false} SplitSnocSep(s: string, sep: char)
    ensures Split(s + [sep], sep) == Split(s, sep) + [[]]
  {
    if s == [] {
      assert s + [sep] == [sep] && [sep][1..] == [];
    } else {
      var t := s + [sep];
      assert t[0] == s[0] && t[1..] == s[1..] + [sep];
      SplitSnocSep(s[1..], sep);
      if s[0] != sep {
        var q := Split(s[1..], sep);
        assert (q + [[]])[0] == q[0] && (q + [[]])[1..] == q[1..] + [[]];
      }
    }
  }

  /** Extending the last of a list of pieces commutes with gluing `x` to its first piece. */
  lemma {:induction false} ExtendLastOfCons(x: string, q: seq<string>, c: char)
    requires |q| >= 1
    ensures var p := [x + q[0]] + q[1..];
      var q' := q[..|q| - 1] + [q[|q| - 1] + [c]];
      p[..|p| - 1] + [p[|p| - 1] + [c]] == [x + q'[0]] + q'[1..]
  {
    if |q| == 1 {
      assert x + q[0] + [c] == x + (q[0] + [c]);
    }
  }

  /** Appending any other character to `s` extends the last piece. */
  lemma {:induction false} SplitSnocOther(s: string, c: char, sep: char)
    requires c != sep
    ensures var p := Split(s, sep);
      Split(s + [c], sep) == p[..|p| - 1] + [p[|p| - 1] + [c]]
  {
    if s == [] {
      assert s + [c] == [c] && [c][1..] == [];
      assert Split([], sep) == [[]];
      assert [c] + [] == [c];
    } else {
      var t := s + [c];
      assert t[0] == s[0] && t[1..] == s[1..] + [c];
      SplitSnocOther(s[1..], c, sep);
      var q := Split(s[1..], sep);
      if s[0] == sep {
        var p := [[]] + q;
        assert p[..|p| - 1] == [[]] + q[..|q| - 1] && p[|p| - 1] == q[|q| - 1];
      } else {
        ExtendLastOfCons([s[0]], q, c);
      }
    }
  }

  /** Splitting `a`, a separator and `b` gives the pieces of `a` followed by those of `b`. */
  lemma {:induction false} SplitAround(a: string, b: string, sep: char)
    ensures Split(a + [sep] + b, sep) == Split(a, sep) + Split(b, sep)
  {
    if a == [] {
      assert a + [sep] + b == [sep] + b;
      assert ([sep] + b)[1..] == b;
    } else {
      var t := a + [sep] + b;
      assert t[0] == a[0] && t[1..] == a[1..] + [sep] + b;
      SplitAround(a[1..], b, sep);
      if a[0] != sep {
        var q := Split(a[1..], sep);
        assert Split(t, sep) == [[a[0]] + (q + Split(b, sep))[0]] + (q + Split(b, sep))[1..];
      }
    }
  }

  /** Concatenation is associative. */
  lemma AppendAssoc<T>(a: seq<T>, b: seq<T>, c: seq<T>)
    ensures a + (b + c) == (a + b) + c
  {
  }

  lemma {:induction false} CountAppend(a: string, b: string, c: char)
    ensures Count(a + b, c) == Count(a, c) + Count(b, c)
  {
    if a == [] {
      assert a + b == b;
    } else {
      assert (a + b)[0] == a[0] && (a + b)[1..] == a[1..] + b;
      CountAppend(a[1..], b, c);
    }
  }

  lemma {:induction false} CountAbsent(s: string, c: char)
    requires c !in s
    ensures Count(s, c) == 0
  {
    if s != [] {
      assert c !in s[1..];
      CountAbsent(s[1..], c);
    }
  }

  /** The pieces of a split, concatenated, are the input without its separators. */
  lemma {:induction false} ConcatSplit(s: string, sep: char)
    ensures Concat(Split(s, sep)) == Remove(s, sep)
  {
    if s != [] {
      ConcatSplit(s[1..], sep);
      if s[0] != sep {
        var q := Split(s[1..], sep);
        assert Concat(q) == q[0] + Concat(q[1..]);
      }
    }
  }

  /** Concatenation of all the strings of `parts`. */
  function Concat(parts: seq<string>): string {
    if parts == [] then [] else parts[0] + Concat(parts[1..])
  }

  lemma {:induction false} ConcatAppend(a: seq<string>, b: seq<string>)
    ensures Concat(a + b) == Concat(a) + Concat(b)
  {
    if a == [] {
      assert a + b == b;
    } else {
      assert (a + b)[0] == a[0] && (a + b)[1..] == a[1..] + b;
      assert Concat(a + b) == a[0] + Concat(a[1..] + b);
      ConcatAppend(a[1..], b);
      assert Concat(a) == a[0] + Concat(a[1..]);
      AppendAssoc(a[0], Concat(a[1..]), Concat(b));
    }
  }

  lemma {:induction false} RemoveAppend(a: string, b: string, c: char)
    ensures Remove(a + b, c) == Remove(a, c) + Remove(b, c)
  {
    if a == [] {
      assert a + b == b;
    } else {
      var h := if a[0] == c then [] else [a[0]];
      assert (a + b)[0] == a[0] && (a + b)[1..] == a[1..] + b;
      assert Remove(a + b, c) == h + Remove(a[1..] + b, c);
      RemoveAppend(a[1..], b, c);
      assert Remove(a, c) == h + Remove(a[1..], c);
      AppendAssoc(h, Remove(a[1..], c), Remove(b, c));
    }
  }

  // ---------------------------------------------------------------------------------------
  // Decimal numbers

  function DigitChar(d: nat): (c: char)
    requires d < 10
    ensures IsAsciiDigit(c)
  {
    ('0' as int + d) as char
  }

  function DigitValue(c: char): (d: nat)
    requires IsAsciiDigit(c)
    ensures d < 10 && DigitChar(d) == c
  {
    c as int - '0' as int
  }

  /** Python's `str(n)` and JavaScript's `String(n)` for a natural number. */
  function NatToString(n: nat): (r: string)
    ensures r != [] && AllSatisfy(r, IsAsciiDigit)
    ensures |r| > 1 ==> r[0] != '0'
    decreases n
  {
    if n < 10 then [DigitChar(n)] else NatToString(n / 10) + [DigitChar(n % 10)]
  }

  /** Python's `str(i)` for any integer. */
  function IntToString(i: int): string {
    if i < 0 then "-" + NatToString(-i) else NatToString(i)
  }

  /** The value of a run of decimal digits (`int(s)` / `parseInt(s, 10)` on digits only). */
  function DigitsValue(s: string): nat
    requires AllSatisfy(s, IsAsciiDigit)
  {
    if s == [] then 0 else DigitsValue(s[..|s| - 1]) * 10 + DigitValue(s[|s| - 1])
  }

  /** Reading back a formatted natural number gives the number. */
  lemma {:induction false} DigitsValueOfNatToString(n: nat)
    ensures DigitsValue(NatToString(n)) == n
    decreases n
  {
    if n >= 10 {
      var s := NatToString(n);
      DigitsValueOfNatToString(n / 10);
      assert s[..|s| - 1] == NatToString(n / 10);
    }
  }

  /** Different naturals are written differently. */
  lemma {:induction false} NatToStringInjective(m: nat, n: nat)
    requires NatToString(m) == NatToString(n)
    ensures m == n
  {
    DigitsValueOfNatToString(m);
    DigitsValueOfNatToString(n);
  }
}
