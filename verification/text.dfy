/** The string operations of JavaScript that the wallet tools rely on:
    `trim`, ASCII case mapping, `split` on a one-character separator,
    `startsWith`, the UTF-16 `length`, decimal rendering of counters, and
    the way Node's `readline` cuts a file into lines. */
module Text {

  /** JavaScript's `\s` class and the set `String.prototype.trim` strips:
      the WhiteSpace and LineTerminator code points of ECMAScript. */
  predicate IsSpace(c: char) {
    || c == '\t' || c == '\n' || c == '\U{000B}' || c == '\U{000C}' || c == '\r'
    || c == ' ' || c == '\U{00A0}' || c == '\U{1680}'
    || ('\U{2000}' <= c <= '\U{200A}')
    || c == '\U{2028}' || c == '\U{2029}' || c == '\U{202F}' || c == '\U{205F}'
    || c == '\U{3000}' || c == '\U{FEFF}'
  }

  predicate NoEdgeSpace(s: string) {
    s == [] || (!IsSpace(s[0]) && !IsSpace(s[|s| - 1]))
  }

  function TrimStart(s: string): (r: string)
    ensures |r| <= |s| && r == s[|s| - |r|..]
    ensures r == [] || !IsSpace(r[0])
    ensures forall i :: 0 <= i < |s| - |r| ==> IsSpace(s[i])
    decreases |s|
  {
    if s != [] && IsSpace(s[0]) then
      var r := TrimStart(s[1..]);
      assert s[1..][|s| - 1 - |r|..] == s[|s| - |r|..];
      r
    else s
  }

  function TrimEnd(s: string): (r: string)
    ensures |r| <= |s| && r == s[..|r|]
    ensures r == [] || !IsSpace(r[|r| - 1])
    ensures forall i :: |r| <= i < |s| ==> IsSpace(s[i])
    decreases |s|
  {
    if s != [] && IsSpace(s[|s| - 1]) then
      var r := TrimEnd(s[..|s| - 1]);
      assert s[..|s| - 1][..|r|] == s[..|r|];
      r
    else s
  }

  /** `s.trim()`: the result has no white space at either end, a string
      without white space at its ends is returned unchanged, and the
      result is empty exactly when the string is all white space. */
  function Trim(s: string): (r: string)
    ensures NoEdgeSpace(r)
    ensures NoEdgeSpace(s) <==> r == s
    ensures r == [] <==> forall i :: 0 <= i < |s| ==> IsSpace(s[i])
  {
    var t := TrimStart(s);
    TrimEdges(s, t);
    TrimFixedPoint(s, t);
    TrimEmpty(s, t);
    TrimEnd(t)
  }

  predicate AllSpace(s: string) {
    forall k :: 0 <= k < |s| ==> IsSpace(s[k])
  }

  /** `s.trim()` is `s` with its leading and trailing white space cut
      off: `s` is white space, then the result, then white space. With
      `NoEdgeSpace` from `Trim`'s contract this pins the result down: it
      runs from the first to the last character that is not white
      space. */
  lemma TrimSlice(s: string)
    ensures exists lead, trail :: s == lead + Trim(s) + trail && AllSpace(lead) && AllSpace(trail)
  {
    var t := TrimStart(s);
    var r := TrimEnd(t);
    assert Trim(s) == r;
    var lead := s[..|s| - |t|];
    var trail := t[|r|..];
    assert AllSpace(lead);
    assert AllSpace(trail);
    SplitAround(s, t, r, lead, trail);
  }

  lemma SplitAround(s: string, t: string, r: string, lead: string, trail: string)
    requires |t| <= |s| && t == s[|s| - |t|..] && lead == s[..|s| - |t|]
    requires |r| <= |t| && r == t[..|r|] && trail == t[|r|..]
    ensures s == lead + r + trail
  {
    assert t == r + trail;
    assert s == lead + t;
  }

  lemma TrimEdges(s: string, t: string)
    requires t == TrimStart(s)
    ensures NoEdgeSpace(TrimEnd(t))
  {
    var r := TrimEnd(t);
    if r != [] {
      assert r[0] == t[0];
    }
  }

  lemma TrimFixedPoint(s: string, t: string)
    requires t == TrimStart(s)
    ensures NoEdgeSpace(s) ==> TrimEnd(t) == s
  {
    if NoEdgeSpace(s) && s != [] {
      assert !IsSpace(s[0]);
      assert t == s;
      assert !IsSpace(t[|t| - 1]);
    }
  }

  lemma TrimEmpty(s: string, t: string)
    requires t == TrimStart(s)
    ensures TrimEnd(t) == [] <==> forall i :: 0 <= i < |s| ==> IsSpace(s[i])
  {
    if t != [] {
      assert s[|s| - |t|] == t[0];
      assert !IsSpace(t[0]);
    }
  }

  predicate StartsWith(s: string, prefix: string) {
    prefix <= s
  }

  /** Case mapping restricted to the ASCII letters. */
  function UpperChar(c: char): char {
    if 'a' <= c <= 'z' then (c as int - 32) as char else c
  }

  function LowerChar(c: char): char {
    if 'A' <= c <= 'Z' then (c as int + 32) as char else c
  }

  function ToUpper(s: string): string {
    seq(|s|, i requires 0 <= i < |s| => UpperChar(s[i]))
  }

  function ToLower(s: string): string {
    seq(|s|, i requires 0 <= i < |s| => LowerChar(s[i]))
  }

  predicate IsUpper(s: string) {
    forall i :: 0 <= i < |s| ==> !('a' <= s[i] <= 'z')
  }

  predicate IsLower(s: string) {
    forall i :: 0 <= i < |s| ==> !('A' <= s[i] <= 'Z')
  }

  lemma UpperIsUpper(s: string)
    ensures IsUpper(ToUpper(s)) && ToUpper(ToUpper(s)) == ToUpper(s)
  {
  }

  lemma LowerIsLower(s: string)
    ensures IsLower(ToLower(s)) && ToLower(ToLower(s)) == ToLower(s)
  {
  }

  /** The number of UTF-16 code units, which is what JavaScript's
      `length` counts: a code point outside the Basic Multilingual Plane
      takes two. */
  function Utf16Length(s: string): (n: nat)
    ensures |s| <= n <= 2 * |s|
  {
    if s == [] then 0
    else (if s[0] as int >= 0x1_0000 then 2 else 1) + Utf16Length(s[1..])
  }

  // ---------------------------------------------------------------------
  // split

  function Count(s: string, c: char): nat {
    if s == [] then 0 else (if s[0] == c then 1 else 0) + Count(s[1..], c)
  }

  /** `s.split(sep)` for a one-character separator: the pieces between
      separators, including empty ones; `"".split(sep)` is `[""]`. */
  function Split(s: string, sep: char): (parts: seq<string>)
    ensures |parts| == Count(s, sep) + 1
    ensures forall k :: 0 <= k < |parts| ==> sep !in parts[k]
    decreases |s|
  {
    if s == [] then [[]]
    else
      var rest := Split(s[1..], sep);
      if s[0] == sep then [[]] + rest
      else [[s[0]] + rest[0]] + rest[1..]
  }

  /** `parts.join(sep)`, the inverse of Split. */
  function Join(parts: seq<string>, sep: char): string
    requires |parts| >= 1
    decreases |parts|
  {
    if |parts| == 1 then parts[0] else parts[0] + [sep] + Join(parts[1..], sep)
  }

  lemma {:induction false} JoinSplit(s: string, sep: char)
    ensures Join(Split(s, sep), sep) == s
    decreases |s|
  {
    if s != [] {
      JoinSplit(s[1..], sep);
      var rest := Split(s[1..], sep);
      if s[0] == sep {
        assert Split(s, sep)[1..] == rest;
      } else {
        var parts := Split(s, sep);
        assert parts[1..] == rest[1..];
        if |rest| > 1 {
          assert Join(parts, sep) == [s[0]] + rest[0] + [sep] + Join(rest[1..], sep);
        }
      }
    }
  }

  /** A string with no separator splits into itself alone. */
  lemma {:induction false} SplitWithout(s: string, sep: char)
    requires sep !in s
    ensures Split(s, sep) == [s]
    decreases |s|
  {
    if s != [] {
      SplitWithout(s[1..], sep);
      assert [s[0]] + s[1..] == s;
    }
  }

  /** Splitting `a + [sep] + b` where `a` holds no separator yields `a`
      followed by the pieces of `b`. */
  lemma {:induction false} SplitAt(a: string, b: string, sep: char)
    requires sep !in a
    ensures Split(a + [sep] + b, sep) == [a] + Split(b, sep)
    decreases |a|
  {
    if a == [] {
      assert a + [sep] + b == [sep] + b;
      assert ([sep] + b)[1..] == b;
    } else {
      SplitAt(a[1..], b, sep);
      assert (a + [sep] + b)[1..] == a[1..] + [sep] + b;
      assert [a[0]] + a[1..] == a;
    }
  }

  // ---------------------------------------------------------------------
  // readline

  /** The lines Node's `readline` emits for `text`: `\n`, `\r\n` and a lone
      `\r` end a line, and a last line without terminator is emitted only
      when it is not empty. */
  function Lines(text: string): seq<string> {
    LinesFrom(text, [])
  }

  function LinesFrom(text: string, current: string): seq<string>
    decreases |text|
  {
    if text == [] then (if current == [] then [] else [current])
    else if text[0] == '\n' then [current] + LinesFrom(text[1..], [])
    else if text[0] == '\r' then
      [current] + LinesFrom(if |text| > 1 && text[1] == '\n' then text[2..] else text[1..], [])
    else LinesFrom(text[1..], current + [text[0]])
  }

  predicate NoBreak(line: string) {
    '\n' !in line && '\r' !in line
  }

  /** A sequence is its part before index `j`, its `j`-th element and its
      part after. */
  lemma Around<T>(s: seq<T>, j: nat)
    requires j < |s|
    ensures s == s[..j] + [s[j]] + s[j + 1..]
  {
  }

  /** Appending in two steps is appending the two parts at once. */
  lemma AppendTwice<T>(output: seq<T>, done: seq<T>, next: seq<T>)
    ensures output + done + next == output + (done + next)
  {
  }

  /** Each line followed by `\n`: what `content += `${line}\n`` builds. */
  function Unlines(lines: seq<string>): string
    decreases |lines|
  {
    if lines == [] then [] else lines[0] + "\n" + Unlines(lines[1..])
  }

  lemma {:induction false} UnlinesAppend(a: seq<string>, b: seq<string>)
    ensures Unlines(a + b) == Unlines(a) + Unlines(b)
    decreases |a|
  {
    if a != [] {
      assert (a + b)[1..] == a[1..] + b;
      UnlinesAppend(a[1..], b);
    } else {
      assert a + b == b;
    }
  }

  lemma {:induction false} LinesFromLine(line: string, rest: string, current: string)
    requires NoBreak(line)
    ensures LinesFrom(line + "\n" + rest, current) == [current + line] + Lines(rest)
    decreases |line|
  {
    if line == [] {
      assert (line + "\n" + rest)[1..] == rest;
      assert current + line == current;
    } else {
      assert (line + "\n" + rest)[1..] == line[1..] + "\n" + rest;
      LinesFromLine(line[1..], rest, current + [line[0]]);
      assert current + [line[0]] + line[1..] == current + line;
    }
  }

  /** readline recovers exactly the lines that were written one per `\n`. */
  lemma {:induction false} LinesOfUnlines(lines: seq<string>)
    requires forall k :: 0 <= k < |lines| ==> NoBreak(lines[k])
    ensures Lines(Unlines(lines)) == lines
    decreases |lines|
  {
    if lines != [] {
      LinesFromLine(lines[0], Unlines(lines[1..]), []);
      LinesOfUnlines(lines[1..]);
      assert [] + lines[0] == lines[0];
    }
  }

  /** Whether readline's line in progress is empty once `text` is
      consumed: the text ends with `\n`, or both are empty. */
  predicate EndsLine(text: string, current: string) {
    if text == [] then current == [] else text[|text| - 1] == '\n'
  }

  /** For text without `\r`, `text.split("\n")` gives readline's lines,
      plus one empty piece when the last line is left empty. */
  lemma {:induction false} SplitNewlines(text: string, current: string)
    requires '\r' !in text
    ensures var pieces := Split(text, '\n');
            [current + pieces[0]] + pieces[1..]
            == LinesFrom(text, current) + (if EndsLine(text, current) then [[]] else [])
    decreases |text|
  {
    if text == [] {
      assert current + [] == current;
    } else {
      var rest := Split(text[1..], '\n');
      if text[0] == '\n' {
        SplitNewlines(text[1..], []);
        assert Split(text, '\n') == [[]] + rest;
        assert [] + rest[0] == rest[0];
        assert [rest[0]] + rest[1..] == rest;
        assert EndsLine(text, current) == EndsLine(text[1..], []);
        var tail := if EndsLine(text, current) then [[]] else [];
        calc {
          [current + Split(text, '\n')[0]] + Split(text, '\n')[1..];
          { assert current + [] == current; }
          [current] + rest;
          [current] + (LinesFrom(text[1..], []) + tail);
          ([current] + LinesFrom(text[1..], [])) + tail;
          LinesFrom(text, current) + tail;
        }
      } else {
        SplitNewlines(text[1..], current + [text[0]]);
        assert current + ([text[0]] + rest[0]) == (current + [text[0]]) + rest[0];
        assert EndsLine(text, current) == EndsLine(text[1..], current + [text[0]]);
      }
    }
  }

  // ---------------------------------------------------------------------
  // numbers

  function DigitChar(d: nat): char
    requires d < 10
  {
    ('0' as int + d) as char
  }

  /** `${n}` for a non-negative integer: its digits, with no leading
      zero except in `"0"` itself. */
  function Decimal(n: nat): (s: string)
    ensures s != []
    ensures forall i :: 0 <= i < |s| ==> '0' <= s[i] <= '9'
    ensures s[0] == '0' <==> n == 0
  {
    if n < 10 then [DigitChar(n)] else Decimal(n / 10) + [DigitChar(n % 10)]
  }

  /** The number a string of decimal digits denotes, most significant
      digit first. */
  function DigitsValue(s: string): nat
    requires forall i :: 0 <= i < |s| ==> '0' <= s[i] <= '9'
    decreases |s|
  {
    if s == [] then 0
    else
      var n := |s| - 1;
      DigitsValue(s[..n]) * 10 + (s[n] as int - '0' as int)
  }

  /** The digits `Decimal` writes denote `n` again. */
  lemma {:induction false} DecimalValue(n: nat)
    ensures DigitsValue(Decimal(n)) == n
    decreases n
  {
    if n >= 10 {
      var s := Decimal(n);
      DecimalValue(n / 10);
      assert s[..|s| - 1] == Decimal(n / 10);
    }
  }
}
