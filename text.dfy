/**
 * String operations shared by the front end (JavaScript) and the backend (Python):
 * truthiness of optional strings, `split`/`join`, `strip`/`trim`, whitespace word
 * splitting, the text after the last separator, ASCII lower-casing and decimal
 * rendering of integers.
 */
module Text {
  import opened Wrappers

  /** JavaScript and Python truthiness of an optional string: present and non-empty. */
  predicate Truthy(s: Option<string>) {
    s.Some? && s.value != ""
  }

  /** `s || fallback` on an optional string. */
  function OrElse(s: Option<string>, fallback: string): string {
    if Truthy(s) then s.value else fallback
  }

  /** JavaScript `s.startsWith(prefix)` / Python `s.startswith(prefix)`. */
  predicate StartsWith(s: string, prefix: string) {
    |prefix| <= |s| && s[..|prefix|] == prefix
  }

  /** Python's `str.isspace()` characters, which are also what `\s`, `strip()` and `split()` use. */
  predicate IsPySpace(c: char) {
    c == ' ' || '\t' <= c <= '\r' || '\U{1C}' <= c <= '\U{1F}' || c == '\U{85}' || c == '\U{A0}'
    || c == '\U{1680}' || '\U{2000}' <= c <= '\U{200A}' || c == '\U{2028}' || c == '\U{2029}'
    || c == '\U{202F}' || c == '\U{205F}' || c == '\U{3000}'
  }

  /** The characters JavaScript's `String.prototype.trim()` removes. */
  predicate IsJsSpace(c: char) {
    c == ' ' || '\t' <= c <= '\r' || c == '\U{A0}' || c == '\U{1680}' || '\U{2000}' <= c <= '\U{200A}'
    || c == '\U{2028}' || c == '\U{2029}' || c == '\U{202F}' || c == '\U{205F}' || c == '\U{3000}'
    || c == '\U{FEFF}'
  }

  /** Python `s.rsplit(sep, 1)[-1]` and JavaScript `s.split(sep).pop()`: the longest suffix free of `sep`. */
  function AfterLast(s: string, sep: char): (r: string)
    ensures |r| <= |s| && r == s[|s| - |r|..]
    ensures sep !in r
    ensures |r| < |s| ==> s[|s| - |r| - 1] == sep
  {
    if s == [] then []
    else if s[|s| - 1] == sep then []
    else AfterLast(s[..|s| - 1], sep) + [s[|s| - 1]]
  }

  lemma InSuffix(s: string, from: int, q: int)
    requires 0 <= from <= |s|
    ensures from <= q < |s| ==> s[q] in s[from..]
  {
    if from <= q < |s| {
      assert s[q] == s[from..][q - from];
    }
  }

  /** The suffix after a separator that has none after it is the last segment. */
  lemma AfterLastAt(s: string, sep: char, p: int)
    requires 0 <= p < |s| && s[p] == sep && sep !in s[p + 1..]
    ensures AfterLast(s, sep) == s[p + 1..]
  {
    var r := AfterLast(s, sep);
    InSuffix(s, |s| - |r|, p);
    InSuffix(s, p + 1, |s| - |r| - 1);
    assert |r| == |s| - p - 1;
  }

  /** Python `s.split(sep)` / JavaScript `s.split(sep)` for a one-character separator. */
  function Split(s: string, sep: char): (parts: seq<string>)
    ensures |parts| >= 1
    ensures forall k :: 0 <= k < |parts| ==> sep !in parts[k]
  {
    if s == [] then [""]
    else
      var rest := Split(s[1..], sep);
      if s[0] == sep then [""] + rest else [[s[0]] + rest[0]] + rest[1..]
  }

  /** The summed lengths of the parts. */
  function TotalLength(parts: seq<string>): nat {
    if parts == [] then 0 else |parts[0]| + TotalLength(parts[1..])
  }

  /** Python `sep.join(parts)` / JavaScript `parts.join(sep)`. */
  function Join(parts: seq<string>, sep: string): (r: string)
    ensures parts == [] ==> r == ""
    ensures parts != [] ==> |r| == TotalLength(parts) + (|parts| - 1) * |sep|
  {
    if |parts| == 0 then ""
    else if |parts| == 1 then parts[0]
    else parts[0] + sep + Join(parts[1..], sep)
  }

  lemma JoinPrefixHead(a: string, x: string, tail: seq<string>, sep: string)
    ensures Join([a + x] + tail, sep) == a + Join([x] + tail, sep)
  {
    if |tail| > 0 {
      assert ([a + x] + tail)[1..] == tail;
      assert ([x] + tail)[1..] == tail;
    }
  }

  /** Joining the parts of a split with the separator gives back the text. */
  lemma {:induction false} JoinSplit(s: string, sep: char)
    ensures Join(Split(s, sep), [sep]) == s
  {
    if s != [] {
      var rest := Split(s[1..], sep);
      JoinSplit(s[1..], sep);
      if s[0] == sep {
        assert ([""] + rest)[1..] == rest;
      } else {
        JoinPrefixHead([s[0]], rest[0], rest[1..], [sep]);
        assert [rest[0]] + rest[1..] == rest;
      }
    }
  }

  lemma {:induction false} SplitNoSeparator(s: string, sep: char)
    requires sep !in s
    ensures Split(s, sep) == [s]
  {
    if s != [] {
      SplitNoSeparator(s[1..], sep);
      assert [s[0]] + s[1..] == s;
    }
  }

  lemma {:induction false} SplitAfterPart(a: string, sep: char, b: string)
    requires sep !in a
    ensures Split(a + [sep] + b, sep) == [a] + Split(b, sep)
  {
    if a == [] {
      assert a + [sep] + b == [sep] + b;
      assert ([sep] + b)[1..] == b;
    } else {
      assert (a + [sep] + b)[1..] == a[1..] + [sep] + b;
      SplitAfterPart(a[1..], sep, b);
      assert [a[0]] + a[1..] == a;
    }
  }

  /** Splitting a join of separator-free parts gives back the parts. */
  lemma {:induction false} SplitJoin(parts: seq<string>, sep: char)
    requires |parts| >= 1
    requires forall k :: 0 <= k < |parts| ==> sep !in parts[k]
    ensures Split(Join(parts, [sep]), sep) == parts
  {
    if |parts| == 1 {
      SplitNoSeparator(parts[0], sep);
    } else {
      SplitJoin(parts[1..], sep);
      SplitAfterPart(parts[0], sep, Join(parts[1..], [sep]));
      assert [parts[0]] + parts[1..] == parts;
    }
  }

  /** Python `s.lstrip()` / JavaScript `s.trimStart()` for the given whitespace set. */
  function TrimStart(s: string, space: char -> bool): (r: string)
    ensures |r| <= |s| && r == s[|s| - |r|..]
    ensures r != [] ==> !space(r[0])
    ensures forall i :: 0 <= i < |s| - |r| ==> space(s[i])
  {
    if s != [] && space(s[0]) then TrimStart(s[1..], space) else s
  }

  /** Python `s.rstrip()` / JavaScript `s.trimEnd()` for the given whitespace set. */
  function TrimEnd(s: string, space: char -> bool): (r: string)
    ensures |r| <= |s| && r == s[..|r|]
    ensures r != [] ==> !space(r[|r| - 1])
    ensures forall i :: |r| <= i < |s| ==> space(s[i])
  {
    if s != [] && space(s[|s| - 1]) then TrimEnd(s[..|s| - 1], space) else s
  }

  /** Python `s.strip()` / JavaScript `s.trim()`: empty exactly for all-whitespace text. */
  function Trim(s: string, space: char -> bool): (r: string)
    ensures r == [] <==> forall i :: 0 <= i < |s| ==> space(s[i])
    ensures r != [] ==> !space(r[0]) && !space(r[|r| - 1])
    ensures exists i :: 0 <= i <= |s| - |r| && r == s[i..][..|r|]
                        && (forall j :: 0 <= j < i ==> space(s[j]))
                        && (forall j :: i + |r| <= j < |s| ==> space(s[j]))
  {
    var t := TrimStart(s, space);
    TrimSlice(s, t, space);
    TrimEnd(t, space)
  }

  /** Trimming the end of the trimmed start leaves a slice with only whitespace around it. */
  lemma TrimSlice(s: string, t: string, space: char -> bool)
    requires t == TrimStart(s, space)
    ensures var r := TrimEnd(t, space);
            && |s| - |t| <= |s| - |r| && r == s[|s| - |t|..][..|r|]
            && (forall j :: 0 <= j < |s| - |t| ==> space(s[j]))
            && (forall j :: |s| - |t| + |r| <= j < |s| ==> space(s[j]))
  {
    var r := TrimEnd(t, space);
    var i := |s| - |t|;
    assert t == s[i..];
    forall j | i + |r| <= j < |s| ensures space(s[j]) {
      assert s[j] == t[j - i];
    }
  }

  /** A word as `split()` yields it: non-empty, no whitespace. */
  predicate IsWord(w: string, space: char -> bool) {
    w != [] && forall i :: 0 <= i < |w| ==> !space(w[i])
  }

  /** The longest whitespace-free prefix. */
  function TakeWord(s: string, space: char -> bool): (w: string)
    ensures |w| <= |s| && w == s[..|w|]
    ensures forall i :: 0 <= i < |w| ==> !space(w[i])
    ensures |w| < |s| ==> space(s[|w|])
  {
    if s == [] || space(s[0]) then [] else [s[0]] + TakeWord(s[1..], space)
  }

  /** Python `s.split()` with no argument: the maximal runs of non-whitespace, in order. */
  function Words(s: string, space: char -> bool): (ws: seq<string>)
    ensures forall k :: 0 <= k < |ws| ==> IsWord(ws[k], space)
    decreases |s|
  {
    var t := TrimStart(s, space);
    if t == [] then []
    else
      var w := TakeWord(t, space);
      assert w != [] by { assert !space(t[0]); }
      assert |t[|w|..]| < |s|;
      var rest := Words(t[|w|..], space);
      ConsWords(w, rest, space);
      [w] + rest
  }

  /** Text made only of whitespace has no words. */
  lemma BlankHasNoWords(s: string, space: char -> bool)
    requires forall i :: 0 <= i < |s| ==> space(s[i])
    ensures Words(s, space) == []
  {
  }

  lemma ConsWords(w: string, rest: seq<string>, space: char -> bool)
    requires forall i :: 0 <= i < |w| ==> !space(w[i])
    requires w != [] && forall k :: 0 <= k < |rest| ==> IsWord(rest[k], space)
    ensures forall k :: 0 <= k < |[w] + rest| ==> IsWord(([w] + rest)[k], space)
  {
    assert forall k :: 1 <= k < |[w] + rest| ==> ([w] + rest)[k] == rest[k - 1];
  }

  lemma {:induction false} TakeWordBeforeSpace(w: string, rest: string, space: char -> bool)
    requires forall i :: 0 <= i < |w| ==> !space(w[i])
    requires rest == [] || space(rest[0])
    ensures TakeWord(w + rest, space) == w
  {
    if w != [] {
      assert (w + rest)[1..] == w[1..] + rest;
      TakeWordBeforeSpace(w[1..], rest, space);
    } else {
      assert w + rest == rest;
    }
  }

  lemma WordsAfterSpace(c: char, rest: string, space: char -> bool)
    requires space(c)
    ensures Words([c] + rest, space) == Words(rest, space)
  {
    assert ([c] + rest)[1..] == rest;
    assert TrimStart([c] + rest, space) == TrimStart(rest, space);
  }

  lemma WordsAfterWord(w: string, rest: string, space: char -> bool)
    requires IsWord(w, space)
    requires rest == [] || space(rest[0])
    ensures Words(w + rest, space) == [w] + Words(rest, space)
  {
    var s := w + rest;
    assert s[0] == w[0];
    assert TrimStart(s, space) == s;
    TakeWordBeforeSpace(w, rest, space);
    assert s[|w|..] == rest;
  }

  lemma JoinSpaced(ws: seq<string>)
    requires |ws| > 1
    ensures Join(ws, " ") == ws[0] + ([' '] + Join(ws[1..], " "))
  {
  }

  lemma WordsOfSpacedJoin(w: string, rest: string, tail: seq<string>, space: char -> bool)
    requires space(' ') && IsWord(w, space)
    requires Words(rest, space) == tail
    ensures Words(w + ([' '] + rest), space) == [w] + tail
  {
    WordsAfterSpace(' ', rest, space);
    WordsAfterWord(w, [' '] + rest, space);
  }

  lemma HeadTail<T>(xs: seq<T>)
    requires xs != []
    ensures [xs[0]] + xs[1..] == xs
  {
  }

  /** Splitting words joined by one space gives back the words. */
  lemma {:induction false} WordsJoin(ws: seq<string>, space: char -> bool)
    requires space(' ')
    requires forall k :: 0 <= k < |ws| ==> IsWord(ws[k], space)
    ensures Words(Join(ws, " "), space) == ws
  {
    if |ws| == 1 {
      WordsAfterWord(ws[0], [], space);
      assert ws[0] + [] == ws[0];
    } else if |ws| > 1 {
      var tail := ws[1..];
      HeadTail(ws);
      WordsJoin(tail, space);
      JoinSpaced(ws);
      WordsOfSpacedJoin(ws[0], Join(tail, " "), tail, space);
    }
  }

  /** ASCII lower-casing of one character. */
  function LowerChar(c: char): char {
    if 'A' <= c <= 'Z' then (c as int + 32) as char else c
  }

  /** Python `s.lower()` / JavaScript `s.toLowerCase()`, restricted to ASCII letters. */
  function Lower(s: string): (r: string)
    ensures |r| == |s|
    ensures forall i :: 0 <= i < |s| ==> !('A' <= r[i] <= 'Z')
    ensures forall i :: 0 <= i < |s| ==> ('A' <= s[i] <= 'Z' ==> r[i] as int == s[i] as int + 32)
    ensures forall i :: 0 <= i < |s| ==> (!('A' <= s[i] <= 'Z') ==> r[i] == s[i])
  {
    seq(|s|, i requires 0 <= i < |s| => LowerChar(s[i]))
  }

  /** Lower-casing twice is lower-casing once. */
  lemma LowerIdempotent(s: string)
    ensures Lower(Lower(s)) == Lower(s)
  {
    var once := Lower(s);
    forall i | 0 <= i < |s| ensures Lower(once)[i] == once[i] {
      assert once[i] == LowerChar(s[i]);
    }
  }

  function DigitChar(d: nat): char
    requires d < 10
  {
    "0123456789"[d]
  }

  /** Decimal rendering of a natural number (JavaScript template interpolation of a number). */
  function Decimal(n: nat): (r: string)
    ensures r != [] && forall i :: 0 <= i < |r| ==> '0' <= r[i] <= '9'
    ensures r[0] == '0' <==> n == 0
  {
    if n < 10 then [DigitChar(n)] else Decimal(n / 10) + [DigitChar(n % 10)]
  }

  /** Value of a string of decimal digits. */
  function DigitsValue(s: string): nat
    requires forall i :: 0 <= i < |s| ==> '0' <= s[i] <= '9'
  {
    if s == [] then 0 else 10 * DigitsValue(s[..|s| - 1]) + (s[|s| - 1] as int - '0' as int)
  }

  /** Reading back a decimal rendering gives the number, so distinct numbers render differently. */
  lemma {:induction false} DecimalRoundTrip(n: nat)
    ensures DigitsValue(Decimal(n)) == n
  {
    if n >= 10 {
      DecimalRoundTrip(n / 10);
      var r := Decimal(n);
      assert r[..|r| - 1] == Decimal(n / 10);
    }
  }

  /** Decimal rendering of an integer, with a leading `-` when negative. */
  function IntText(i: int): string {
    if i < 0 then "-" + Decimal(-i) else Decimal(i)
  }
}
