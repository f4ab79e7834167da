/**
 * OCR post-processing in the backend (backend/app.py): dropping noisy lines, stripping stray
 * characters, removing likely-spurious English words around Devanagari or Sinhala text, the
 * script check, and the two loops that pick the best tesseract run. Tesseract itself is a
 * function from (languages, config) to its output, `None` standing for a raised error; Python's
 * `\w` class and `str.isalpha` are the predicates `word` and `alpha`.
 */
module Ocr {
  import opened Wrappers
  import opened Text

  // ---------------------------------------------------------------- character classes

  predicate IsDevanagari(c: char) { 'ऀ' <= c <= 'ॿ' }
  predicate IsSinhala(c: char) { '඀' <= c <= '෿' }
  predicate IsAsciiLetter(c: char) { 'a' <= c <= 'z' || 'A' <= c <= 'Z' }

  /** The scripts clean_ocr_text knows: "nep"/"nepali" and "sin"/"sinhala". */
  datatype Script = Devanagari | Sinhala

  function ScriptOf(target: string): (s: Option<Script>)
    ensures s == Some(Devanagari) <==> target == "nep" || target == "nepali"
    ensures s == Some(Sinhala) <==> target == "sin" || target == "sinhala"
  {
    if target in ["nep", "nepali"] then Some(Devanagari)
    else if target in ["sin", "sinhala"] then Some(Sinhala)
    else None
  }

  predicate InScript(c: char, script: Script) {
    match script
    case Devanagari => IsDevanagari(c)
    case Sinhala => IsSinhala(c)
  }

  /** `re.findall(r'[<script range>]', s)` is non-empty. */
  predicate HasScriptChar(s: string, script: Script) {
    exists i :: 0 <= i < |s| && InScript(s[i], script)
  }

  /** `re.findall(r'[a-zA-Z]', s)` is non-empty. */
  predicate HasAsciiLetter(s: string) {
    exists i :: 0 <= i < |s| && IsAsciiLetter(s[i])
  }

  // ---------------------------------------------------------------- regular-expression tests

  /** `re.search(r'(.)\1{k-1,}', s)`: some non-newline character repeats at least `k` times in a row. */
  predicate HasRun(s: string, k: nat) {
    exists i :: 0 <= i < |s| && i + k <= |s| && s[i] != '\n' && forall j :: i <= j < i + k ==> s[j] == s[i]
  }

  /** `w` occurs at `i` in `s` as a whole word, `\b` on both sides (the noise words are letters,
      which `\w` always matches). */
  predicate WordAt(s: string, i: int, w: string, word: char -> bool) {
    0 <= i && i + |w| <= |s| && s[i..i + |w|] == w
    && (i == 0 || !word(s[i - 1]))
    && (i + |w| == |s| || !word(s[i + |w|]))
  }

  /** `re.search(r'\b(w1|w2|...)\b', s)`. */
  predicate MentionsAny(s: string, noise: seq<string>, word: char -> bool) {
    exists k, i :: 0 <= k < |noise| && 0 <= i <= |s| && WordAt(s, i, noise[k], word)
  }

  // ---------------------------------------------------------------- remove_repeated_characters

  const LineNoise: seq<string> := ["jey", "ve", "je", "ye", "ey"]

  /** More than 60% of `s` is one character (`max_count / len > 0.6`, taken exactly). */
  predicate Dominated(s: string) {
    exists c :: c in s && 5 * multiset(s)[c] > 3 * |s|
  }

  /** The `char_counts` dictionary and `max(char_counts.values())`. */
  method MaxCharCount(s: string) returns (maxCount: nat)
    requires s != []
    ensures forall c :: multiset(s)[c] <= maxCount
    ensures exists c :: c in s && multiset(s)[c] == maxCount
  {
    var counts: map<char, nat> := map[];
    for i := 0 to |s|
      invariant forall c :: c in counts <==> c in s[..i]
      invariant forall c :: c in counts ==> counts[c] == multiset(s[..i])[c] >= 1
    {
      assert s[..i + 1] == s[..i] + [s[i]];
      counts := counts[s[i] := (if s[i] in counts then counts[s[i]] else 0) + 1];
    }
    assert s[..|s|] == s;
    maxCount := 0;
    ghost var argMax := s[0];
    var seen: set<char> := {};
    var toVisit := counts.Keys;
    while toVisit != {}
      invariant toVisit + seen == counts.Keys && toVisit !! seen
      invariant forall c :: c in seen ==> counts[c] <= maxCount
      invariant seen != {} ==> argMax in seen && counts[argMax] == maxCount
      invariant seen == {} ==> maxCount == 0
      decreases toVisit
    {
      var c :| c in toVisit;
      assert counts[c] >= 1;
      if counts[c] > maxCount {
        maxCount := counts[c];
        argMax := c;
      }
      seen := seen + {c};
      toVisit := toVisit - {c};
    }
    assert s[0] in counts;
  }

  /** The three tests a line of raw OCR output must pass to be kept. */
  predicate KeepLine(line: string, word: char -> bool)
    ensures |line| < 4 && !MentionsAny(Lower(line), LineNoise, word) ==> KeepLine(line, word)
  {
    && !HasRun(line, 4)
    && !(|Trim(line, IsPySpace)| > 5 && Dominated(Trim(line, IsPySpace)))
    && !MentionsAny(Lower(line), LineNoise, word)
  }

  /** The lines remove_repeated_characters keeps, in order. */
  function KeptLines(lines: seq<string>, word: char -> bool): (kept: seq<string>)
    ensures |kept| <= |lines|
    ensures forall k :: 0 <= k < |kept| ==> KeepLine(kept[k], word) && kept[k] in lines
  {
    if lines == [] then []
    else
      var init := lines[..|lines| - 1];
      var last := lines[|lines| - 1];
      assert forall l :: l in init ==> l in lines;
      KeptLines(init, word) + (if KeepLine(last, word) then [last] else [])
  }

  /** The filter keeps relative order: it distributes over concatenation. */
  lemma {:induction false} KeptLinesAppend(xs: seq<string>, ys: seq<string>, word: char -> bool)
    ensures KeptLines(xs + ys, word) == KeptLines(xs, word) + KeptLines(ys, word)
    decreases |ys|
  {
    if ys == [] {
      assert xs + ys == xs;
    } else {
      var init := ys[..|ys| - 1];
      assert (xs + ys)[..|xs + ys| - 1] == xs + init;
      assert (xs + ys)[|xs + ys| - 1] == ys[|ys| - 1];
      KeptLinesAppend(xs, init, word);
    }
  }

  /** One step of the line loop. */
  lemma KeptLinesStep(lines: seq<string>, i: int, word: char -> bool)
    requires 0 <= i < |lines|
    ensures KeptLines(lines[..i + 1], word) ==
              KeptLines(lines[..i], word) + (if KeepLine(lines[i], word) then [lines[i]] else [])
  {
    assert lines[..i + 1][..i] == lines[..i];
  }

  /** Comparing the largest count against 60% of the length decides whether one character dominates. */
  lemma DominatedByMax(s: string, maxCount: nat)
    requires forall c :: multiset(s)[c] <= maxCount
    requires exists c :: c in s && multiset(s)[c] == maxCount
    ensures Dominated(s) <==> 5 * maxCount > 3 * |s|
  {
  }

  /** remove_repeated_characters. */
  method RemoveRepeatedCharacters(text: string, word: char -> bool) returns (result: string)
    ensures result == Join(KeptLines(Split(text, '\n'), word), "\n")
  {
    var lines := Split(text, '\n');
    var cleaned: seq<string> := [];
    for i := 0 to |lines|
      invariant cleaned == KeptLines(lines[..i], word)
    {
      var line := lines[i];
      KeptLinesStep(lines, i, word);
      if HasRun(line, 4) {
        continue;
      }
      var stripped := Trim(line, IsPySpace);
      if |stripped| > 5 {
        var maxCount := MaxCharCount(stripped);
        DominatedByMax(stripped, maxCount);
        if 5 * maxCount > 3 * |stripped| {
          continue;
        }
      }
      if MentionsAny(Lower(line), LineNoise, word) {
        continue;
      }
      cleaned := cleaned + [line];
    }
    assert lines[..|lines|] == lines;
    result := Join(cleaned, "\n");
  }

  /** When some line survives, the output's lines are exactly the kept lines. */
  lemma RemovedLinesReadBack(text: string, word: char -> bool)
    requires KeptLines(Split(text, '\n'), word) != []
    ensures Split(Join(KeptLines(Split(text, '\n'), word), "\n"), '\n') == KeptLines(Split(text, '\n'), word)
  {
    var kept := KeptLines(Split(text, '\n'), word);
    assert "\n" == ['\n'];
    SplitJoin(kept, '\n');
  }

  // ---------------------------------------------------------------- clean_ocr_text

  /** The characters `re.sub(r'[^\w\s\u0900-\u097F\u0D80-\u0DFF\n।॥.,!?;:()]', '', text)` keeps. */
  predicate KeptChar(c: char, word: char -> bool) {
    word(c) || IsPySpace(c) || IsDevanagari(c) || IsSinhala(c) || c in ".,!?;:()"
  }

  function FilterChars(s: string, word: char -> bool): (r: string)
    ensures |r| <= |s|
    ensures forall i :: 0 <= i < |r| ==> KeptChar(r[i], word) && r[i] in s
    ensures forall c :: c in s && KeptChar(c, word) ==> c in r
  {
    if s == [] then []
    else (if KeptChar(s[0], word) then [s[0]] else []) + FilterChars(s[1..], word)
  }

  /** The character filter keeps relative order and multiplicity: it distributes over concatenation. */
  lemma {:induction false} FilterCharsAppend(a: string, b: string, word: char -> bool)
    ensures FilterChars(a + b, word) == FilterChars(a, word) + FilterChars(b, word)
  {
    if a != [] {
      var head := if KeptChar(a[0], word) then [a[0]] else [];
      assert (a + b)[0] == a[0];
      assert (a + b)[1..] == a[1..] + b;
      assert FilterChars(a + b, word) == head + FilterChars(a[1..] + b, word);
      assert FilterChars(a, word) == head + FilterChars(a[1..], word);
      FilterCharsAppend(a[1..], b, word);
    } else {
      assert a + b == b;
    }
  }

  /** Stripping the stray characters a second time changes nothing. */
  lemma {:induction false} FilterCharsIdempotent(s: string, word: char -> bool)
    ensures FilterChars(FilterChars(s, word), word) == FilterChars(s, word)
  {
    if s != [] {
      FilterCharsIdempotent(s[1..], word);
      var rest := FilterChars(s[1..], word);
      if KeptChar(s[0], word) {
        assert ([s[0]] + rest)[1..] == rest;
      } else {
        assert [] + rest == rest;
      }
    }
  }

  const DevanagariNoise: seq<string> := [
    "jey", "ve", "je", "ye", "the", "and", "or", "is", "be",
    "jeyy", "jeyyy", "jeyyyy", "jeyyyyy",
    "vey", "veyy", "veyyy",
    "jey", "jeyjey", "jeyjeyjey",
    "je", "jeje", "jejeje",
    "ye", "yeye", "yeyeye",
    "ey", "eyey", "eyeyey",
    "y", "yy", "yyy", "yyyy", "yyyyy",
    "e", "ee", "eee", "eeee", "eeeee",
    "j", "jj", "jjj", "jjjj", "jjjjj",
    "v", "vv", "vvv", "vvvv", "vvvvv"]
  const SinhalaNoise: seq<string> := ["jey", "ve", "je", "ye", "the", "and", "or", "is", "be"]

  function NoiseWords(script: Script): seq<string> {
    match script
    case Devanagari => DevanagariNoise
    case Sinhala => SinhalaNoise
  }

  /** A line without a character of the script is dropped when it has at most this many words. */
  function ShortLineLimit(script: Script): nat {
    match script
    case Devanagari => 1
    case Sinhala => 2
  }

  /** A word made of ASCII letters without any character of the script: a suspected OCR error. */
  predicate EnglishOnly(w: string, script: Script) {
    !HasScriptChar(w, script) && HasAsciiLetter(w)
  }

  /** The tests a word of a kept line must pass (the run test only for Devanagari). */
  predicate KeepWord(w: string, script: Script)
    ensures HasScriptChar(w, script) || !HasAsciiLetter(w) ==> KeepWord(w, script)
    ensures EnglishOnly(w, script) && |w| <= 3 ==> !KeepWord(w, script)
  {
    EnglishOnly(w, script) ==>
      && Lower(w) !in NoiseWords(script)
      && |w| > 3
      && (script == Devanagari ==> !HasRun(Lower(w), 3))
  }

  /** `filtered_words`: the words that pass, in order. */
  function KeptWords(ws: seq<string>, script: Script): (kept: seq<string>)
    ensures |kept| <= |ws|
    ensures forall k :: 0 <= k < |kept| ==> KeepWord(kept[k], script) && kept[k] in ws
    ensures forall w :: w in ws && KeepWord(w, script) ==> w in kept
  {
    if ws == [] then []
    else
      var init := ws[..|ws| - 1];
      var last := ws[|ws| - 1];
      assert ws == init + [last];
      assert forall w :: w in init ==> w in ws;
      KeptWords(init, script) + (if KeepWord(last, script) then [last] else [])
  }

  /** The word filter keeps relative order: it distributes over concatenation. */
  lemma {:induction false} KeptWordsAppend(xs: seq<string>, ys: seq<string>, script: Script)
    ensures KeptWords(xs + ys, script) == KeptWords(xs, script) + KeptWords(ys, script)
    decreases |ys|
  {
    if ys == [] {
      assert xs + ys == xs;
    } else {
      var init := ys[..|ys| - 1];
      assert (xs + ys)[..|xs + ys| - 1] == xs + init;
      assert (xs + ys)[|xs + ys| - 1] == ys[|ys| - 1];
      KeptWordsAppend(xs, init, script);
    }
  }

  lemma {:induction false} JoinSpacedNoNewline(ws: seq<string>)
    requires forall k :: 0 <= k < |ws| ==> '\n' !in ws[k]
    ensures '\n' !in Join(ws, " ")
  {
    if |ws| > 1 {
      JoinSpacedNoNewline(ws[1..]);
    }
  }

  /** What becomes of one line: dropped, or the space-joined kept words when they are not blank. */
  function CleanLine(line: string, script: Script): (r: Option<string>)
    ensures r.Some? ==> Trim(r.value, IsPySpace) != [] && '\n' !in r.value
    ensures r.Some? ==> Words(r.value, IsPySpace) == KeptWords(Words(line, IsPySpace), script)
    ensures r.None? <==>
              || (!HasScriptChar(line, script) && |Words(line, IsPySpace)| <= ShortLineLimit(script))
              || KeptWords(Words(line, IsPySpace), script) == []
  {
    if !HasScriptChar(line, script) && |Words(line, IsPySpace)| <= ShortLineLimit(script) then None
    else
      var words := Words(line, IsPySpace);
      var kept := KeptWords(words, script);
      var cleaned := Join(kept, " ");
      JoinedKeptWords(line, script);
      if Trim(cleaned, IsPySpace) == [] then
        BlankHasNoWords(cleaned, IsPySpace);
        None
      else
        Some(cleaned)
  }

  /** The kept words joined by spaces form one line that splits back into them. */
  lemma JoinedKeptWords(line: string, script: Script)
    ensures var kept := KeptWords(Words(line, IsPySpace), script);
            '\n' !in Join(kept, " ") && Words(Join(kept, " "), IsPySpace) == kept
  {
    var ws := Words(line, IsPySpace);
    var kept := KeptWords(ws, script);
    forall k | 0 <= k < |kept|
      ensures IsWord(kept[k], IsPySpace) && '\n' !in kept[k]
    {
      var j :| 0 <= j < |ws| && ws[j] == kept[k];
      assert IsWord(ws[j], IsPySpace);
    }
    JoinSpacedNoNewline(kept);
    WordsJoin(kept, IsPySpace);
  }

  /** An output line of the script branch: non-blank, without a newline, every word passing the word tests. */
  predicate CleanShape(c: string, script: Script) {
    && Trim(c, IsPySpace) != [] && '\n' !in c
    && forall j :: 0 <= j < |Words(c, IsPySpace)| ==> KeepWord(Words(c, IsPySpace)[j], script)
  }

  /** `cleaned_lines` of the script branch, in order. */
  function ScriptLines(lines: seq<string>, script: Script): (out: seq<string>)
    ensures forall k :: 0 <= k < |out| ==> CleanShape(out[k], script)
  {
    if lines == [] then []
    else
      var init := ScriptLines(lines[..|lines| - 1], script);
      match CleanLine(lines[|lines| - 1], script)
      case None => init
      case Some(c) =>
        CleanLineKeepsWords(lines[|lines| - 1], script);
        assert forall k :: 0 <= k < |init| ==> (init + [c])[k] == init[k];
        init + [c]
  }

  /** A kept line is non-blank, has no newline, and each of its words passes the word tests. */
  lemma CleanLineKeepsWords(line: string, script: Script)
    requires CleanLine(line, script).Some?
    ensures CleanShape(CleanLine(line, script).value, script)
  {
    var kept := KeptWords(Words(line, IsPySpace), script);
    assert Words(CleanLine(line, script).value, IsPySpace) == kept;
    assert forall j :: 0 <= j < |kept| ==> KeepWord(kept[j], script);
  }

  /** clean_ocr_text as a value: the line filter, the character filter, then the script branch. */
  function CleanedText(text: string, target: string, word: char -> bool): (r: string)
    ensures ScriptOf(target).None? ==> forall i :: 0 <= i < |r| ==> KeptChar(r[i], word)
  {
    var kept := Join(KeptLines(Split(text, '\n'), word), "\n");
    var filtered := FilterChars(kept, word);
    match ScriptOf(target)
    case None => filtered
    case Some(script) => Join(ScriptLines(Split(filtered, '\n'), script), "\n")
  }

  /** The inner loop of clean_ocr_text over a line's words. */
  method FilterWords(words: seq<string>, script: Script) returns (filteredWords: seq<string>)
    ensures filteredWords == KeptWords(words, script)
  {
    filteredWords := [];
    for j := 0 to |words|
      invariant filteredWords == KeptWords(words[..j], script)
    {
      assert words[..j + 1][..j] == words[..j];
      if KeepWord(words[j], script) {
        filteredWords := filteredWords + [words[j]];
      }
    }
    assert words[..|words|] == words;
  }

  /** clean_ocr_text. */
  method CleanOcrText(text: string, target: string, word: char -> bool) returns (result: string)
    ensures result == CleanedText(text, target, word)
  {
    var t := RemoveRepeatedCharacters(text, word);
    t := FilterChars(t, word);
    var script := ScriptOf(target);
    if script.None? {
      return t;
    }
    var lines := Split(t, '\n');
    var cleanedLines: seq<string> := [];
    for i := 0 to |lines|
      invariant cleanedLines == ScriptLines(lines[..i], script.value)
    {
      var line := lines[i];
      ScriptLinesStep(lines, i, script.value);
      CleanLineUnfold(line, script.value);
      var words := Words(line, IsPySpace);
      if !HasScriptChar(line, script.value) && |words| <= ShortLineLimit(script.value) {
        continue;
      }
      var filteredWords := FilterWords(words, script.value);
      var cleanedLine := Join(filteredWords, " ");
      if Trim(cleanedLine, IsPySpace) != [] {
        cleanedLines := cleanedLines + [cleanedLine];
      }
    }
    assert lines[..|lines|] == lines;
    result := Join(cleanedLines, "\n");
  }

  lemma CleanLineUnfold(line: string, script: Script)
    ensures CleanLine(line, script) ==
              if !HasScriptChar(line, script) && |Words(line, IsPySpace)| <= ShortLineLimit(script) then None
              else if Trim(Join(KeptWords(Words(line, IsPySpace), script), " "), IsPySpace) == [] then None
              else Some(Join(KeptWords(Words(line, IsPySpace), script), " "))
  {
  }

  /** One step of the line loop. */
  lemma ScriptLinesStep(lines: seq<string>, i: int, script: Script)
    requires 0 <= i < |lines|
    ensures ScriptLines(lines[..i + 1], script) ==
              match CleanLine(lines[i], script)
              case None => ScriptLines(lines[..i], script)
              case Some(c) => ScriptLines(lines[..i], script) + [c]
  {
    assert lines[..i + 1][..i] == lines[..i];
  }

  /** For Nepali or Sinhala every line of a non-empty output has the shape of a kept line. */
  lemma ScriptOutputShape(text: string, target: string, word: char -> bool)
    requires ScriptOf(target).Some?
    requires CleanedText(text, target, word) != ""
    ensures forall l :: l in Split(CleanedText(text, target, word), '\n') ==> CleanShape(l, ScriptOf(target).value)
  {
    var filtered := FilterChars(Join(KeptLines(Split(text, '\n'), word), "\n"), word);
    var out := ScriptLines(Split(filtered, '\n'), ScriptOf(target).value);
    assert CleanedText(text, target, word) == Join(out, "\n");
    assert out != [];
    CleanLinesHaveNoNewline(out, ScriptOf(target).value);
    SplitJoinedLines(out);
  }

  /** Splitting the newline-join of newline-free lines gives the lines back. */
  lemma SplitJoinedLines(out: seq<string>)
    requires forall k :: 0 <= k < |out| ==> '\n' !in out[k]
    requires out != []
    ensures Split(Join(out, "\n"), '\n') == out
  {
    assert "\n" == ['\n'];
    SplitJoin(out, '\n');
  }

  /** Clean lines hold no newline. */
  lemma CleanLinesHaveNoNewline(out: seq<string>, script: Script)
    requires forall k :: 0 <= k < |out| ==> CleanShape(out[k], script)
    ensures forall k :: 0 <= k < |out| ==> '\n' !in out[k]
  {
  }

  /** For Nepali or Sinhala the output never holds a blank line: each of its lines has a
      non-space character. */
  lemma NoBlankLines(text: string, target: string, word: char -> bool)
    requires ScriptOf(target).Some?
    requires CleanedText(text, target, word) != ""
    ensures forall l :: l in Split(CleanedText(text, target, word), '\n') ==> Trim(l, IsPySpace) != []
  {
    ScriptOutputShape(text, target, word);
  }

  /** For Nepali or Sinhala every word of the output passes the word tests: a word with ASCII
      letters and no character of the script is longer than 3 letters, is not a noise word, and
      (for Nepali) has no run of 3 equal characters once lowered. */
  lemma KeptWordsAreClean(text: string, target: string, word: char -> bool, l: string, w: string)
    requires ScriptOf(target).Some?
    requires CleanedText(text, target, word) != ""
    requires l in Split(CleanedText(text, target, word), '\n') && w in Words(l, IsPySpace)
    ensures KeepWord(w, ScriptOf(target).value)
  {
    ScriptOutputShape(text, target, word);
    assert CleanShape(l, ScriptOf(target).value);
    var j :| 0 <= j < |Words(l, IsPySpace)| && Words(l, IsPySpace)[j] == w;
  }

  /** The Sinhala noise list is never decisive: each of its words is short enough to go anyway. */
  lemma SinhalaNoiseIsShort(w: string)
    requires Lower(w) in SinhalaNoise
    ensures |w| <= 3
  {
  }

  // ---------------------------------------------------------------- is_reasonable_ocr_output

  /** is_reasonable_ocr_output: Nepali needs a Devanagari character, Sinhala a Sinhala one. */
  function IsReasonable(text: string, target: string): (ok: bool)
    ensures ScriptOf(target) == Some(Devanagari) ==> (ok <==> exists i :: 0 <= i < |text| && IsDevanagari(text[i]))
    ensures ScriptOf(target) == Some(Sinhala) ==> (ok <==> exists i :: 0 <= i < |text| && IsSinhala(text[i]))
    ensures ScriptOf(target).None? ==> ok
  {
    match ScriptOf(target)
    case None => true
    case Some(script) => HasScriptChar(text, script)
  }

  // ---------------------------------------------------------------- best-so-far selection

  /** The index a best-so-far loop ends on: it starts from score 0 and moves only to a strictly
      higher score, so it lands on the first maximum, or nowhere when every score is 0. */
  function FirstMax(scores: seq<nat>): (r: Option<nat>)
    ensures r.None? <==> forall j :: 0 <= j < |scores| ==> scores[j] == 0
    ensures r.Some? ==> r.value < |scores| && scores[r.value] > 0
    ensures r.Some? ==> forall j :: 0 <= j < |scores| ==> scores[j] <= scores[r.value]
    ensures r.Some? ==> forall j :: 0 <= j < r.value ==> scores[j] < scores[r.value]
  {
    if scores == [] then None
    else
      var init := scores[..|scores| - 1];
      var prev := FirstMax(init);
      var best := if prev.Some? then init[prev.value] else 0;
      if scores[|scores| - 1] > best then Some(|scores| - 1) else prev
  }

  /** The score the loop compares at that index. */
  function BestScore(scores: seq<nat>): nat {
    match FirstMax(scores)
    case None => 0
    case Some(k) => scores[k]
  }

  /** One more score: the loop moves to it exactly when it beats the best so far. */
  lemma FirstMaxStep(scores: seq<nat>, n: int)
    requires 0 <= n < |scores|
    ensures FirstMax(scores[..n + 1]) == if scores[n] > BestScore(scores[..n]) then Some(n) else FirstMax(scores[..n])
    ensures BestScore(scores[..n + 1]) == if scores[n] > BestScore(scores[..n]) then scores[n] else BestScore(scores[..n])
  {
    assert scores[..n + 1][..n] == scores[..n];
  }

  // ---------------------------------------------------------------- extract_text_from_image

  const OcrConfigs: seq<string> := ["--oem 3 --psm 6", "--oem 3 --psm 7"]

  /** The language strings tried, in order, for the requested language. */
  function OcrCandidates(requested: string): seq<string> {
    [requested + "+eng", requested, requested + "+sin+eng", "script/Devanagari+eng", "nep+eng", "sin+eng", "eng"]
  }

  /** The cleaned text of one tesseract run, when the run returned non-blank text. */
  function RunOutcome(output: Option<string>, requested: string, word: char -> bool): Option<string> {
    if output.Some? && Trim(output.value, IsPySpace) != [] then Some(CleanedText(output.value, requested, word)) else None
  }

  /** The runs in loop order: every language string with every config. */
  function Runs(candidates: seq<string>, requested: string, tesseract: (string, string) -> Option<string>, word: char -> bool)
    : (outs: seq<Option<string>>)
    ensures |outs| == 2 * |candidates|
  {
    if candidates == [] then []
    else
      var last := candidates[|candidates| - 1];
      Runs(candidates[..|candidates| - 1], requested, tesseract, word)
        + [RunOutcome(tesseract(last, OcrConfigs[0]), requested, word), RunOutcome(tesseract(last, OcrConfigs[1]), requested, word)]
  }

  function Outcomes(requested: string, tesseract: (string, string) -> Option<string>, word: char -> bool): (outs: seq<Option<string>>)
    ensures |outs| == 2 * |OcrCandidates(requested)|
  {
    Runs(OcrCandidates(requested), requested, tesseract, word)
  }

  /** Run `j` of language string `i` sits at position `2 * i + j` of the runs. */
  lemma {:induction false} RunAt(candidates: seq<string>, requested: string, tesseract: (string, string) -> Option<string>,
                                 word: char -> bool, i: nat, j: nat)
    requires i < |candidates| && j < |OcrConfigs|
    ensures Runs(candidates, requested, tesseract, word)[2 * i + j]
            == RunOutcome(tesseract(candidates[i], OcrConfigs[j]), requested, word)
    decreases |candidates|
  {
    var init := candidates[..|candidates| - 1];
    var last := candidates[|candidates| - 1];
    var prev := Runs(init, requested, tesseract, word);
    var pair := [RunOutcome(tesseract(last, OcrConfigs[0]), requested, word), RunOutcome(tesseract(last, OcrConfigs[1]), requested, word)];
    assert Runs(candidates, requested, tesseract, word) == prev + pair;
    if i < |init| {
      RunAt(init, requested, tesseract, word, i, j);
      assert candidates[i] == init[i];
    } else {
      assert candidates[i] == last && 2 * i + j == |prev| + j;
    }
  }

  /** A run's score: the stripped length of a reasonable cleaned text, else 0. */
  function CandidateScore(o: Option<string>, requested: string): nat {
    if o.Some? && IsReasonable(o.value, requested) then |Trim(o.value, IsPySpace)| else 0
  }

  function CandidateScores(outs: seq<Option<string>>, requested: string): (scores: seq<nat>)
    ensures |scores| == |outs|
    ensures forall k :: 0 <= k < |outs| ==> scores[k] == CandidateScore(outs[k], requested)
  {
    seq(|outs|, k requires 0 <= k < |outs| => CandidateScore(outs[k], requested))
  }

  /** The text the selection loop returns for these runs. */
  function BestCandidate(outs: seq<Option<string>>, requested: string): (best: string)
    ensures best == "" || exists k :: 0 <= k < |outs| && outs[k] == Some(best)
  {
    match FirstMax(CandidateScores(outs, requested))
    case None => ""
    case Some(k) => if outs[k].Some? then outs[k].value else ""
  }

  /** The selection returns "" exactly when no run gave a reasonable non-blank text; otherwise it
      returns the text of the first run whose reasonable text is longest once stripped. */
  lemma BestCandidateChoice(outs: seq<Option<string>>, requested: string)
    ensures var best := BestCandidate(outs, requested);
            best == "" <==> forall k :: 0 <= k < |outs| ==> CandidateScore(outs[k], requested) == 0
    ensures var best := BestCandidate(outs, requested);
            best != "" ==> exists k :: 0 <= k < |outs| && outs[k] == Some(best)
                                      && IsReasonable(best, requested)
                                      && (forall j :: 0 <= j < |outs| ==> CandidateScore(outs[j], requested) <= |Trim(best, IsPySpace)|)
                                      && (forall j :: 0 <= j < k ==> CandidateScore(outs[j], requested) < |Trim(best, IsPySpace)|)
  {
    var scores := CandidateScores(outs, requested);
    match FirstMax(scores)
    case None =>
    case Some(k) =>
      assert scores[k] == CandidateScore(outs[k], requested);
      assert outs[k].Some? && BestCandidate(outs, requested) == outs[k].value;
      assert scores[k] == |Trim(outs[k].value, IsPySpace)|;
  }

  /** The score the loop has kept after these runs. */
  function BestLength(outs: seq<Option<string>>, requested: string): nat {
    BestScore(CandidateScores(outs, requested))
  }

  /** One more run: the loop takes its text exactly when its score beats the best so far. */
  lemma BestCandidateStep(outs: seq<Option<string>>, requested: string, n: int)
    requires 0 <= n < |outs|
    ensures CandidateScore(outs[n], requested) > BestLength(outs[..n], requested) ==>
              && outs[n].Some?
              && BestCandidate(outs[..n + 1], requested) == outs[n].value
              && BestLength(outs[..n + 1], requested) == CandidateScore(outs[n], requested)
    ensures CandidateScore(outs[n], requested) <= BestLength(outs[..n], requested) ==>
              && BestCandidate(outs[..n + 1], requested) == BestCandidate(outs[..n], requested)
              && BestLength(outs[..n + 1], requested) == BestLength(outs[..n], requested)
  {
    var scores := CandidateScores(outs[..n + 1], requested);
    assert outs[..n + 1][..n] == outs[..n];
    assert scores[..n] == CandidateScores(outs[..n], requested);
    assert scores[..n + 1] == scores;
    FirstMaxStep(scores, n);
  }

  /** The body of the selection loop for one tesseract output: clean non-blank text, and keep it
      when it is reasonable and longer (stripped) than the best so far.
      The selection so far is that of the runs `outs[..n]`, and this run is `outs[n]`. */
  method ConsiderRun(txt: Option<string>, requested: string, word: char -> bool, bestText: string, maxReasonableLength: nat,
                     ghost outs: seq<Option<string>>, ghost n: nat)
    returns (newBest: string, newMax: nat)
    requires n < |outs| && outs[n] == RunOutcome(txt, requested, word)
    requires maxReasonableLength == BestLength(outs[..n], requested) && bestText == BestCandidate(outs[..n], requested)
    ensures newMax == BestLength(outs[..n + 1], requested) && newBest == BestCandidate(outs[..n + 1], requested)
  {
    BestCandidateStep(outs, requested, n);
    newBest, newMax := bestText, maxReasonableLength;
    if txt.Some? && Trim(txt.value, IsPySpace) != [] {
      var cleanedTxt := CleanOcrText(txt.value, requested, word);
      if |Trim(cleanedTxt, IsPySpace)| > maxReasonableLength && IsReasonable(cleanedTxt, requested) {
        newBest := cleanedTxt;
        newMax := |Trim(cleanedTxt, IsPySpace)|;
      }
    }
  }

  /** extract_text_from_image's selection loop, tesseract given; `lang` of `None` or "" means "nep". */
  method ExtractText(lang: Option<string>, tesseract: (string, string) -> Option<string>, word: char -> bool)
    returns (bestText: string)
    ensures bestText == BestCandidate(Outcomes(OrElse(lang, "nep"), tesseract, word), OrElse(lang, "nep"))
  {
    var requested := OrElse(lang, "nep");
    var candidates := OcrCandidates(requested);
    ghost var outs := Outcomes(requested, tesseract, word);
    bestText := "";
    var maxReasonableLength := 0;
    ghost var n := 0;
    for i := 0 to |candidates|
      invariant n == 2 * i
      invariant maxReasonableLength == BestLength(outs[..n], requested)
      invariant bestText == BestCandidate(outs[..n], requested)
    {
      for j := 0 to |OcrConfigs|
        invariant n == 2 * i + j
        invariant maxReasonableLength == BestLength(outs[..n], requested)
        invariant bestText == BestCandidate(outs[..n], requested)
      {
        var txt := tesseract(candidates[i], OcrConfigs[j]);
        RunAt(candidates, requested, tesseract, word, i, j);
        bestText, maxReasonableLength := ConsiderRun(txt, requested, word, bestText, maxReasonableLength, outs, n);
        n := n + 1;
      }
    }
    assert outs[..n] == outs;
  }

  // ---------------------------------------------------------------- detect_document_language

  /** `(lang_code, lang_string)` pairs tried, in order. */
  const LanguageCandidates: seq<(string, string)> := [("nep", "nep+eng"), ("sin", "sin+eng"), ("eng", "eng")]

  /** `len([c for c in s if c.isalpha() or c.isspace()])`. */
  function MeaningfulChars(s: string, alpha: char -> bool): (n: nat)
    ensures n <= |s|
    ensures n == 0 <==> forall i :: 0 <= i < |s| ==> !alpha(s[i]) && !IsPySpace(s[i])
    ensures n == |s| <==> forall i :: 0 <= i < |s| ==> alpha(s[i]) || IsPySpace(s[i])
  {
    if s == [] then 0
    else
      var rest := MeaningfulChars(s[1..], alpha);
      assert forall i :: 1 <= i < |s| ==> s[i] == s[1..][i - 1];
      (if alpha(s[0]) || IsPySpace(s[0]) then 1 else 0) + rest
  }

  /** The count adds up over concatenation, one per letter or whitespace character. */
  lemma {:induction false} MeaningfulCharsAppend(a: string, b: string, alpha: char -> bool)
    ensures MeaningfulChars(a + b, alpha) == MeaningfulChars(a, alpha) + MeaningfulChars(b, alpha)
  {
    if a != [] {
      assert (a + b)[0] == a[0];
      assert (a + b)[1..] == a[1..] + b;
      MeaningfulCharsAppend(a[1..], b, alpha);
    } else {
      assert a + b == b;
    }
  }

  /** A test run's score: its meaningful characters when it returned non-blank text, else 0. */
  function LanguageScore(output: Option<string>, alpha: char -> bool): nat {
    if output.Some? && Trim(output.value, IsPySpace) != [] then MeaningfulChars(output.value, alpha) else 0
  }

  function LanguageScores(tesseract: (string, string) -> Option<string>, alpha: char -> bool): (scores: seq<nat>)
    ensures |scores| == |LanguageCandidates|
    ensures forall k :: 0 <= k < |scores| ==> scores[k] == LanguageScore(tesseract(LanguageCandidates[k].1, "--psm 6"), alpha)
  {
    [ LanguageScore(tesseract("nep+eng", "--psm 6"), alpha),
      LanguageScore(tesseract("sin+eng", "--psm 6"), alpha),
      LanguageScore(tesseract("eng", "--psm 6"), alpha) ]
  }

  /** Index `k` holds a positive score that no score beats and that no earlier score reaches. */
  predicate IsFirstBest(scores: seq<nat>, k: int) {
    && 0 <= k < |scores| && scores[k] > 0
    && (forall j :: 0 <= j < |scores| ==> scores[j] <= scores[k])
    && (forall j :: 0 <= j < k ==> scores[j] < scores[k])
  }

  /** The code the loop returns: that of the first highest-scoring run, "nep" when no run scores. */
  function DetectedLanguage(scores: seq<nat>): (lang: string)
    requires |scores| == |LanguageCandidates|
    ensures lang in ["nep", "sin", "eng"]
    ensures lang != "nep" ==> exists k :: 0 <= k < |scores| && LanguageCandidates[k].0 == lang && scores[k] > 0
                                          && (forall j :: 0 <= j < |scores| ==> scores[j] <= scores[k])
                                          && (forall j :: 0 <= j < k ==> scores[j] < scores[k])
    ensures (forall k :: 0 <= k < |scores| ==> scores[k] == 0) ==> lang == "nep"
    ensures lang == "nep" ==> (forall k :: 0 <= k < |scores| ==> scores[k] == 0)
                              || (scores[0] > 0 && forall j :: 0 <= j < |scores| ==> scores[j] <= scores[0])
    ensures forall k :: 0 <= k < |scores| && IsFirstBest(scores, k) ==> lang == LanguageCandidates[k].0
  {
    match FirstMax(scores)
    case None => "nep"
    case Some(k) => LanguageCandidates[k].0
  }

  /** The body of the language loop for one test run: its code becomes the best when its
      meaningful characters beat the best count so far. */
  method ConsiderLanguage(testText: Option<string>, alpha: char -> bool, langCode: string, bestLang: string, maxTextLength: nat)
    returns (newBest: string, newMax: nat)
    ensures LanguageScore(testText, alpha) > maxTextLength ==> newBest == langCode && newMax == LanguageScore(testText, alpha)
    ensures LanguageScore(testText, alpha) <= maxTextLength ==> newBest == bestLang && newMax == maxTextLength
  {
    newBest, newMax := bestLang, maxTextLength;
    if testText.Some? && Trim(testText.value, IsPySpace) != [] {
      var meaningfulChars := MeaningfulChars(testText.value, alpha);
      if meaningfulChars > maxTextLength {
        newMax := meaningfulChars;
        newBest := langCode;
      }
    }
  }

  /** detect_document_language's loop over the candidates, for the page image tesseract reads. */
  method DetectLanguage(tesseract: (string, string) -> Option<string>, alpha: char -> bool) returns (bestLang: string)
    ensures bestLang == DetectedLanguage(LanguageScores(tesseract, alpha))
  {
    ghost var scores := LanguageScores(tesseract, alpha);
    bestLang := "nep";
    var maxTextLength := 0;
    for k := 0 to |LanguageCandidates|
      invariant maxTextLength == BestScore(scores[..k])
      invariant bestLang == if FirstMax(scores[..k]).Some? then LanguageCandidates[FirstMax(scores[..k]).value].0 else "nep"
    {
      FirstMaxStep(scores, k);
      var (langCode, langString) := LanguageCandidates[k];
      var testText := tesseract(langString, "--psm 6");
      bestLang, maxTextLength := ConsiderLanguage(testText, alpha, langCode, bestLang, maxTextLength);
    }
    assert scores[..|LanguageCandidates|] == scores;
  }
}
