/**
 * The pieces of Rust's standard string library that the server relies on:
 * `char::is_whitespace`, `str::trim`, `str::split_whitespace`, `str::lines`,
 * `str::replace(pat, "")`, `str::starts_with`, `usize::to_string`,
 * `str::parse::<usize>` and itertools' `join`.
 *
 * Text is a `string`; each character stands for one byte of an ASCII
 * message, so `|s|` is what Rust's `String::len` returns.
 */
module Text {
  import opened Wrappers

  /**
   * `char::is_whitespace`: the Unicode White_Space property. Among ASCII
   * characters that is tab, line feed, vertical tab, form feed, carriage
   * return and space.
   */
  predicate IsWhitespace(c: char)
  {
    || ('\t' <= c <= '\r')
    || c == ' '
    || c == '\U{85}'
    || c == '\U{A0}'
    || c == '\U{1680}'
    || ('\U{2000}' <= c <= '\U{200A}')
    || c == '\U{2028}'
    || c == '\U{2029}'
    || c == '\U{202F}'
    || c == '\U{205F}'
    || c == '\U{3000}'
  }

  /** Among ASCII characters, exactly the six control and space characters are whitespace. */
  lemma AsciiWhitespace(c: char)
    requires c < '\U{80}'
    ensures IsWhitespace(c) <==> c in {'\t', '\n', '\U{B}', '\U{C}', '\r', ' '}
  {
  }

  predicate NoWhitespace(s: string) {
    forall i :: 0 <= i < |s| ==> !IsWhitespace(s[i])
  }

  /** The index of the first `c` in `s`, if there is one. */
  function FindChar(s: string, c: char): (r: Option<nat>)
    ensures r.None? <==> c !in s
    ensures r.Some? ==> r.value < |s| && s[r.value] == c && c !in s[..r.value]
  {
    if s == [] then None
    else if s[0] == c then Some(0)
    else match FindChar(s[1..], c)
      case None => None
      case Some(i) =>
        assert s[..i + 1] == [s[0]] + s[1..][..i];
        Some(i + 1)
  }

  lemma FindCharAt(s: string, c: char, i: nat)
    requires i < |s| && s[i] == c && c !in s[..i]
    ensures FindChar(s, c) == Some(i)
  {
    assert s[i] in s;
  }

  /* ---------------------------------------------------------------- trim */

  /** `str::trim_start`: drops the leading whitespace. */
  function TrimStart(s: string): (r: string)
    ensures |r| <= |s|
    ensures r != [] ==> !IsWhitespace(r[0])
    decreases |s|
  {
    if s != [] && IsWhitespace(s[0]) then TrimStart(s[1..]) else s
  }

  /** `str::trim_end`: drops the trailing whitespace. */
  function TrimEnd(s: string): (r: string)
    ensures |r| <= |s|
    ensures r != [] ==> !IsWhitespace(r[|r| - 1]) && r[0] == s[0]
    decreases |s|
  {
    if s != [] && IsWhitespace(s[|s| - 1]) then TrimEnd(s[..|s| - 1]) else s
  }

  /** `TrimStart` keeps a suffix of `s` and drops only whitespace. */
  lemma {:induction false} TrimStartIsSuffix(s: string)
    ensures TrimStart(s) == s[|s| - |TrimStart(s)|..]
    ensures forall k :: 0 <= k < |s| - |TrimStart(s)| ==> IsWhitespace(s[k])
    decreases |s|
  {
    if s != [] && IsWhitespace(s[0]) {
      TrimStartIsSuffix(s[1..]);
      forall k | 1 <= k < |s| - |TrimStart(s)|
        ensures IsWhitespace(s[k])
      {
        assert s[k] == s[1..][k - 1];
      }
    }
  }

  /** `TrimEnd` keeps a prefix of `s` and drops only whitespace. */
  lemma {:induction false} TrimEndIsPrefix(s: string)
    ensures TrimEnd(s) == s[..|TrimEnd(s)|]
    ensures forall k :: |TrimEnd(s)| <= k < |s| ==> IsWhitespace(s[k])
    decreases |s|
  {
    if s != [] && IsWhitespace(s[|s| - 1]) {
      TrimEndIsPrefix(s[..|s| - 1]);
    }
  }

  /** The number of whitespace characters `str::trim_start` removes. */
  function LeadingWhitespace(s: string): (n: nat)
    ensures n <= |s|
  {
    |s| - |TrimStart(s)|
  }

  /** `str::trim`: the result neither begins nor ends with whitespace. */
  function Trim(s: string): (r: string)
    ensures |r| <= |s|
    ensures r == [] || (!IsWhitespace(r[0]) && !IsWhitespace(r[|r| - 1]))
  {
    TrimEnd(TrimStart(s))
  }

  /**
   * What `Trim` leaves is the slice of `s` after removing its leading and
   * its trailing whitespace, and everything removed is whitespace.
   */
  lemma TrimIsSlice(s: string)
    ensures LeadingWhitespace(s) + |Trim(s)| <= |s|
    ensures Trim(s) == s[LeadingWhitespace(s)..LeadingWhitespace(s) + |Trim(s)|]
    ensures forall k :: 0 <= k < LeadingWhitespace(s) ==> IsWhitespace(s[k])
    ensures forall k :: LeadingWhitespace(s) + |Trim(s)| <= k < |s| ==> IsWhitespace(s[k])
  {
    var t := TrimStart(s);
    var r := TrimEnd(t);
    var i := |s| - |t|;
    TrimStartIsSuffix(s);
    TrimEndIsPrefix(t);
    assert r == s[i..i + |r|];
    forall k | i + |r| <= k < |s|
      ensures IsWhitespace(s[k])
    {
      assert s[k] == t[k - i];
    }
  }

  /** Text without surrounding whitespace is left as it is. */
  lemma TrimUnchanged(s: string)
    requires s == [] || (!IsWhitespace(s[0]) && !IsWhitespace(s[|s| - 1]))
    ensures Trim(s) == s
  {
  }

  /** Leading whitespace makes no difference to `Trim`. */
  lemma TrimLeadingWhitespace(c: char, s: string)
    requires IsWhitespace(c)
    ensures Trim([c] + s) == Trim(s)
  {
    assert ([c] + s)[1..] == s;
  }

  /* ---------------------------------------------------- split_whitespace */

  /** The length of the run of non-whitespace characters that starts `s`. */
  function TokenEnd(s: string): (n: nat)
    ensures n <= |s| && NoWhitespace(s[..n])
    ensures n < |s| ==> IsWhitespace(s[n])
  {
    if s == [] || IsWhitespace(s[0]) then 0
    else
      var n := 1 + TokenEnd(s[1..]);
      assert s[..n] == [s[0]] + s[1..][..n - 1];
      n
  }

  /**
   * `str::split_whitespace`: the maximal runs of non-whitespace characters,
   * in order.
   */
  function Words(s: string): (r: seq<string>)
    ensures forall i :: 0 <= i < |r| ==> r[i] != [] && NoWhitespace(r[i])
    decreases |s|
  {
    var t := TrimStart(s);
    if t == [] then []
    else
      var n := TokenEnd(t);
      [t[..n]] + Words(t[n..])
  }

  lemma {:induction false} TokenEndOf(w: string, rest: string)
    requires NoWhitespace(w)
    requires rest == [] || IsWhitespace(rest[0])
    ensures TokenEnd(w + rest) == |w|
    decreases |w|
  {
    if w != [] {
      assert (w + rest)[1..] == w[1..] + rest;
      TokenEndOf(w[1..], rest);
    } else {
      assert w + rest == rest;
    }
  }

  /** A word followed by whitespace (or nothing) is the first word. */
  lemma WordsCons(w: string, rest: string)
    requires w != [] && NoWhitespace(w)
    requires rest == [] || IsWhitespace(rest[0])
    ensures Words(w + rest) == [w] + Words(rest)
  {
    TokenEndOf(w, rest);
    assert TrimStart(w + rest) == w + rest;
    assert (w + rest)[..|w|] == w;
    assert (w + rest)[|w|..] == rest;
  }

  /** Leading whitespace is skipped. */
  lemma WordsLeadingWhitespace(c: char, s: string)
    requires IsWhitespace(c)
    ensures Words([c] + s) == Words(s)
  {
    assert ([c] + s)[1..] == s;
  }

  /** Words joined by single spaces are split back into those words. */
  lemma {:induction false} WordsOfJoin(parts: seq<string>)
    requires forall i :: 0 <= i < |parts| ==> parts[i] != [] && NoWhitespace(parts[i])
    ensures Words(Join(parts, " ")) == parts
    decreases |parts|
  {
    if |parts| == 1 {
      WordsCons(parts[0], []);
      assert parts[0] + [] == parts[0];
    } else if |parts| > 1 {
      var rest := Join(parts[1..], " ");
      assert Join(parts, " ") == parts[0] + ([' '] + rest);
      assert Words([' '] + rest) == parts[1..] by {
        WordsOfJoin(parts[1..]);
        WordsLeadingWhitespace(' ', rest);
      }
      WordsCons(parts[0], [' '] + rest);
    }
  }

  /** Three space-separated words are split back into those three words. */
  lemma WordsOfThree(a: string, b: string, c: string)
    requires a != [] && NoWhitespace(a)
    requires b != [] && NoWhitespace(b)
    requires c != [] && NoWhitespace(c)
    ensures Words(a + " " + b + " " + c) == [a, b, c]
  {
    assert Join([c], " ") == c;
    assert Join([b, c], " ") == b + " " + c by {
      assert [b, c][1..] == [c];
    }
    assert Join([a, b, c], " ") == a + " " + (b + " " + c) by {
      assert [a, b, c][1..] == [b, c];
    }
    assert a + " " + (b + " " + c) == a + " " + b + " " + c;
    WordsOfJoin([a, b, c]);
  }

  /* --------------------------------------------------------------- lines */

  /** Drops one trailing carriage return. */
  function StripCr(s: string): (r: string)
    ensures r == s || (s == r + "\r")
  {
    if s != [] && s[|s| - 1] == '\r' then s[..|s| - 1] else s
  }

  /**
   * `str::lines`: splits at every line feed; a line ending in "\r\n" loses
   * both characters, and a final line feed does not start an empty line.
   */
  function Lines(s: string): (r: seq<string>)
    ensures forall i :: 0 <= i < |r| ==> '\n' !in r[i]
    ensures s == [] <==> r == []
    decreases |s|
  {
    if s == [] then []
    else match FindChar(s, '\n')
      case None => [s]
      case Some(i) =>
        var line := StripCr(s[..i]);
        assert '\n' !in line by {
          assert line == s[..i] || line == s[..i][..i - 1];
        }
        [line] + Lines(s[i + 1..])
  }

  /** A line terminated by "\r\n" becomes one line without its terminator. */
  lemma LinesCrlf(line: string, rest: string)
    requires '\n' !in line
    ensures Lines(line + "\r\n" + rest) == [line] + Lines(rest)
  {
    var s := line + "\r\n" + rest;
    assert s[..|line| + 1] == line + "\r";
    FindCharAt(s, '\n', |line| + 1);
    assert s[..|line| + 1][..|line|] == line;
    assert s[|line| + 2..] == rest;
  }

  /** A non-empty line with no terminator is the only line. */
  lemma LinesLast(line: string)
    requires line != [] && '\n' !in line
    ensures Lines(line) == [line]
  {
  }

  /* -------------------------------------------------------- replace / starts_with */

  /** `str::starts_with`: `s` is `prefix` followed by some text. */
  predicate StartsWith(s: string, prefix: string) {
    |prefix| <= |s| && s[..|prefix|] == prefix
  }

  /** `pat` occurs somewhere in `s`. */
  ghost predicate Occurs(pat: string, s: string) {
    exists i :: 0 <= i <= |s| && StartsWith(s[i..], pat)
  }

  /**
   * `s.replace(pat, "")`: scans left to right and removes every
   * non-overlapping occurrence of `pat`. The result is never longer, it is
   * shorter by at least `|pat|` when `s` starts with `pat`, and it is `s`
   * itself when nothing was removed.
   */
  function RemoveAll(s: string, pat: string): (r: string)
    requires pat != []
    ensures |r| <= |s|
    ensures StartsWith(s, pat) ==> |r| <= |s| - |pat|
    ensures |r| == |s| ==> r == s
    decreases |s|
  {
    if |s| < |pat| then s
    else if s[..|pat|] == pat then RemoveAll(s[|pat|..], pat)
    else [s[0]] + RemoveAll(s[1..], pat)
  }

  /** An occurrence at the front is removed first. */
  lemma RemoveAllPrefix(pat: string, x: string)
    requires pat != []
    ensures RemoveAll(pat + x, pat) == RemoveAll(x, pat)
  {
    assert (pat + x)[..|pat|] == pat;
    assert (pat + x)[|pat|..] == x;
  }

  /** Text in which `pat` does not occur is left unchanged. */
  lemma {:induction false} RemoveAllAbsent(s: string, pat: string)
    requires pat != [] && !Occurs(pat, s)
    ensures RemoveAll(s, pat) == s
    decreases |s|
  {
    if |s| >= |pat| {
      assert s[0..] == s;
      assert !Occurs(pat, s[1..]) by {
        forall i | 0 <= i <= |s[1..]|
          ensures !StartsWith(s[1..][i..], pat)
        {
          assert s[1..][i..] == s[i + 1..];
        }
      }
      RemoveAllAbsent(s[1..], pat);
    }
  }

  /** A pattern cannot occur where its first character does not. */
  lemma AbsentFirstChar(pat: string, s: string)
    requires pat != [] && pat[0] !in s
    ensures !Occurs(pat, s)
  {
    forall i | 0 <= i <= |s|
      ensures !StartsWith(s[i..], pat)
    {
      if i < |s| {
        assert s[i..][0] in s;
      }
    }
  }

  /**
   * Removing a prefix: when the rest does not contain `pat`, the result is
   * exactly the text after the prefix.
   */
  lemma RemoveAllStripsPrefix(pat: string, x: string)
    requires pat != [] && !Occurs(pat, x)
    ensures RemoveAll(pat + x, pat) == x
  {
    RemoveAllPrefix(pat, x);
    RemoveAllAbsent(x, pat);
  }

  /* ------------------------------------------------- usize formatting / parsing */

  /** The largest `usize` on a 64-bit target. */
  const USIZE_MAX: nat := 0xFFFF_FFFF_FFFF_FFFF

  predicate IsDigit(c: char) {
    '0' <= c <= '9'
  }

  predicate IsDigits(s: string) {
    forall i :: 0 <= i < |s| ==> IsDigit(s[i])
  }

  function DigitChar(d: nat): (c: char)
    requires d < 10
    ensures IsDigit(c)
  {
    ('0' as int + d) as char
  }

  function DigitValue(c: char): (d: nat)
    requires IsDigit(c)
    ensures d < 10
  {
    c as int - '0' as int
  }

  /** The number a string of decimal digits denotes (leading zeros allowed). */
  function DigitsValue(s: string): nat
    requires IsDigits(s)
  {
    if s == [] then 0 else DigitsValue(s[..|s| - 1]) * 10 + DigitValue(s[|s| - 1])
  }

  /**
   * `n.to_string()`: the decimal numeral of `n`, non-empty, all digits, and
   * with no leading zero unless `n` is zero.
   */
  function Decimal(n: nat): (r: string)
    ensures r != [] && IsDigits(r)
    ensures r[0] == '0' <==> n == 0
  {
    if n < 10 then [DigitChar(n)] else Decimal(n / 10) + [DigitChar(n % 10)]
  }

  /** Reading the numeral back gives the number. */
  lemma {:induction false} DecimalValue(n: nat)
    ensures DigitsValue(Decimal(n)) == n
  {
    if n >= 10 {
      var s := Decimal(n);
      assert s[..|s| - 1] == Decimal(n / 10);
      DecimalValue(n / 10);
    }
  }

  /**
   * `s.parse::<usize>()`: an optional '+' followed by at least one decimal
   * digit, whose value fits in a `usize`; anything else is an error.
   */
  function ParseUsize(s: string): (r: Option<nat>)
    ensures r.Some? ==> r.value <= USIZE_MAX
    ensures s == [] || !(IsDigit(s[0]) || s[0] == '+') ==> r == None
  {
    var digits := if |s| >= 2 && s[0] == '+' then s[1..] else s;
    if digits != [] && IsDigits(digits) && DigitsValue(digits) <= USIZE_MAX
    then Some(DigitsValue(digits))
    else None
  }

  /** Parsing what `to_string` produced gives back the number. */
  lemma DecimalRoundTrip(n: nat)
    requires n <= USIZE_MAX
    ensures ParseUsize(Decimal(n)) == Some(n)
  {
    DecimalValue(n);
  }

  /* ---------------------------------------------------------------- join */

  /** itertools' `join`: the parts with `sep` between neighbours. */
  function Join(parts: seq<string>, sep: string): string {
    if parts == [] then []
    else if |parts| == 1 then parts[0]
    else parts[0] + sep + Join(parts[1..], sep)
  }

  /** The parts, each followed by `term`. */
  function Terminated(parts: seq<string>, term: string): string {
    if parts == [] then [] else parts[0] + term + Terminated(parts[1..], term)
  }

  /** A non-empty join followed by one more separator terminates every part. */
  lemma {:induction false} JoinThenSeparator(parts: seq<string>, sep: string)
    requires parts != []
    ensures Join(parts, sep) + sep == Terminated(parts, sep)
    decreases |parts|
  {
    if |parts| > 1 {
      JoinThenSeparator(parts[1..], sep);
    } else {
      assert parts[1..] == [];
    }
  }
}
