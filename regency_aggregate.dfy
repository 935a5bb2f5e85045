/**
 * The regency aggregate reader: scans the text of a regency page line by
 * line. A line that holds a regency code, "Kabupaten" or "Kota" and a name,
 * followed by at least three numbers each followed by whitespace, yields one
 * row whose counts are the last four numbers of the line.
 *
 * The line pattern is written out as a recognizer. At each start position
 * the code is `NN.NN`, then whitespace, then the keyword. After the keyword
 * comes a greedy whitespace run, a lazy run of letters and whitespace, and
 * the number tail. The backtracking search therefore ends the name at the
 * first position, from the first letter on, at which the tail matches.
 * When a digit follows the keyword's whitespace instead, the name is the
 * keyword and all but the last whitespace character; the tail then starts
 * at the digit.
 */
module RegencyAggregate {
  import opened Wrappers
  import opened Text
  import opened Codes
  import opened RegencyParser

  /** A row of the regency aggregate table; the counts are kept as their text. */
  datatype AggregateRow = AggregateRow(
    code: string,
    name: string,
    provinceCode: string,
    rtype: string,
    districtCount: string,
    urbanVillageCount: string,
    ruralVillageCount: string,
    areaKm2: string,
    population: string,
    sourcePage: int)

  /** A character of `[\d.,]`. */
  predicate IsNumberChar(c: char) { IsDigit(c) || c == '.' || c == ',' }

  /** A character of `[A-Za-z\s]`. */
  predicate IsNameChar(c: char) { IsLetter(c) || IsSpace(c) }

  /**
   * The length of the run of `inRun` characters of `s` that starts at
   * position `x`: `RunLength` read in place, so that facts about positions
   * of one line need no slices of it.
   */
  function RunFrom(s: string, x: nat, inRun: char -> bool): (n: nat)
    requires x <= |s|
    ensures x + n <= |s|
    ensures x + n < |s| ==> !inRun(s[x + n])
    decreases |s| - x
  {
    if x == |s| || !inRun(s[x]) then 0 else 1 + RunFrom(s, x + 1, inRun)
  }

  /** Every character of the run from `x` is in the class. */
  lemma {:induction false} RunFromAll(s: string, x: nat, inRun: char -> bool)
    requires x <= |s|
    ensures forall i :: x <= i < x + RunFrom(s, x, inRun) ==> inRun(s[i])
    decreases |s| - x
  {
    if x < |s| && inRun(s[x]) {
      RunFromAll(s, x + 1, inRun);
    }
  }

  /** The number of consecutive `\d[\d.,]*\s+` units from position `x`. */
  function Units(s: string, x: nat): nat
    requires x <= |s|
    decreases |s| - x
  {
    if x < |s| && IsDigit(s[x]) then
      var a := RunFrom(s, x, IsNumberChar);
      var b := RunFrom(s, x + a, IsSpace);
      if b >= 1 then 1 + Units(s, x + a + b) else 0
    else 0
  }

  /** Whether `\s+(\d[\d.,]*\s+){3,}` matches from position `e`. */
  predicate TailAt(s: string, e: nat)
    requires e <= |s|
  {
    e < |s| && IsSpace(s[e]) && Units(s, e + RunFrom(s, e, IsSpace)) >= 3
  }

  /** The first `e` in `[lo, hi]` at which the tail matches. */
  function FirstTail(s: string, lo: nat, hi: nat): (r: Option<nat>)
    requires hi <= |s|
    ensures r.Some? ==> lo <= r.value <= hi
    decreases hi + 1 - lo
  {
    if lo > hi then None
    else if TailAt(s, lo) then Some(lo)
    else FirstTail(s, lo + 1, hi)
  }

  /** The tail matches at no position from `lo` up to, not including, `hi`. */
  predicate NoTailIn(s: string, lo: nat, hi: nat)
    requires hi <= |s| + 1
  {
    forall e :: lo <= e < hi ==> !TailAt(s, e)
  }

  /** A position without a tail in front of a tail-free range extends the range. */
  lemma NoTailExtend(s: string, lo: nat, hi: nat)
    requires lo < hi <= |s| + 1 && !TailAt(s, lo) && NoTailIn(s, lo + 1, hi)
    ensures NoTailIn(s, lo, hi)
  {
  }

  /** `FirstTail` finds the leftmost position in range where the tail matches, or says there is none. */
  lemma {:induction false} FirstTailLeftmost(s: string, lo: nat, hi: nat)
    requires hi <= |s|
    ensures FirstTail(s, lo, hi).Some? ==> TailAt(s, FirstTail(s, lo, hi).value)
    ensures FirstTail(s, lo, hi).Some? ==> NoTailIn(s, lo, FirstTail(s, lo, hi).value)
    ensures FirstTail(s, lo, hi).None? ==> NoTailIn(s, lo, hi + 1)
    decreases hi + 1 - lo
  {
    if lo > hi {
    } else if TailAt(s, lo) {
    } else {
      FirstTailLeftmost(s, lo + 1, hi);
      if FirstTail(s, lo + 1, hi).Some? {
        NoTailExtend(s, lo, FirstTail(s, lo + 1, hi).value);
      } else {
        NoTailExtend(s, lo, hi + 1);
      }
    }
  }

  /** The length of the keyword at `x`: 9 for "Kabupaten", 4 for "Kota", else 0. */
  function KeywordLength(s: string, x: nat): (n: nat)
    requires x <= |s|
    ensures n in {0, 4, 9} && x + n <= |s|
    ensures n == 9 ==> s[x..x + n] == "Kabupaten"
    ensures n == 4 ==> s[x..x + n] == "Kota"
  {
    if StartsWith(s[x..], "Kabupaten") then 9
    else if StartsWith(s[x..], "Kota") then 4
    else 0
  }

  /**
   * Where the name group ends, the keyword ending at `kwEnd`: the first end
   * that leaves a matching tail, searched in the order the backtracking
   * regex tries them.
   */
  function NameEnd(s: string, kwEnd: nat): (r: Option<nat>)
    requires kwEnd <= |s|
    ensures r.Some? ==> kwEnd + 2 <= r.value <= |s|
  {
    var v := RunFrom(s, kwEnd, IsSpace);
    var q := kwEnd + v;
    if v == 0 || q == |s| then None
    else if IsLetter(s[q]) then FirstTail(s, q + 1, q + RunFrom(s, q, IsNameChar))
    else if v >= 3 && Units(s, q) >= 3 then Some(q - 1)
    else None
  }

  /** Where `NameEnd` ends the name, the tail matches, and only letters and whitespace come before it. */
  lemma NameEndTail(s: string, kwEnd: nat)
    requires kwEnd <= |s|
    ensures NameEnd(s, kwEnd).Some? ==> TailAt(s, NameEnd(s, kwEnd).value)
    ensures NameEnd(s, kwEnd).Some? ==> forall i :: kwEnd <= i < NameEnd(s, kwEnd).value ==> IsNameChar(s[i])
  {
    var v := RunFrom(s, kwEnd, IsSpace);
    var q := kwEnd + v;
    if v == 0 || q == |s| {
      assert NameEnd(s, kwEnd) == None;
    } else if IsLetter(s[q]) {
      var extent := RunFrom(s, q, IsNameChar);
      assert NameEnd(s, kwEnd) == FirstTail(s, q + 1, q + extent);
      LetterName(s, kwEnd, q, extent);
    } else if v >= 3 && Units(s, q) >= 3 {
      assert NameEnd(s, kwEnd) == Some(q - 1);
      SpaceName(s, kwEnd, q);
    } else {
      assert NameEnd(s, kwEnd) == None;
    }
  }

  /**
   * An end found after a letter run: the tail matches there, and the
   * whitespace and the name characters before it belong to the name.
   */
  lemma LetterName(s: string, kwEnd: nat, q: nat, extent: nat)
    requires kwEnd < q < |s| && q == kwEnd + RunFrom(s, kwEnd, IsSpace)
    requires extent == RunFrom(s, q, IsNameChar)
    ensures FirstTail(s, q + 1, q + extent).Some? ==>
      kwEnd + 2 <= FirstTail(s, q + 1, q + extent).value < |s| && TailAt(s, FirstTail(s, q + 1, q + extent).value)
    ensures FirstTail(s, q + 1, q + extent).Some? ==>
      forall i :: kwEnd <= i < FirstTail(s, q + 1, q + extent).value ==> IsNameChar(s[i])
  {
    FirstTailLeftmost(s, q + 1, q + extent);
    SpacesAreNameChars(s, kwEnd);
    NameRun(s, q);
  }

  /**
   * A digit after three or more whitespace characters: the name ends one
   * character before the digit, where a tail of one whitespace character
   * matches.
   */
  lemma SpaceName(s: string, kwEnd: nat, q: nat)
    requires kwEnd <= |s| && q == kwEnd + RunFrom(s, kwEnd, IsSpace) && kwEnd + 3 <= q < |s| && Units(s, q) >= 3
    ensures kwEnd + 2 <= q - 1 < |s| && TailAt(s, q - 1)
    ensures forall i :: kwEnd <= i < q - 1 ==> IsNameChar(s[i])
  {
    SpacesAreNameChars(s, kwEnd);
    RunEnd(s, kwEnd, q);
    SpaceTail(s, q);
  }

  /** The whitespace run from `kwEnd` ends at `q`: a whitespace character, then none. */
  lemma RunEnd(s: string, kwEnd: nat, q: nat)
    requires kwEnd <= |s| && q == kwEnd + RunFrom(s, kwEnd, IsSpace) && kwEnd < q < |s|
    ensures IsSpace(s[q - 1]) && !IsSpace(s[q])
  {
    var space := IsSpace;
    RunFromAll(s, kwEnd, space);
    assert space(s[q - 1]);
  }

  /** One whitespace character before the number units at `q` is a matching tail. */
  lemma SpaceTail(s: string, q: nat)
    requires 0 < q < |s| && IsSpace(s[q - 1]) && !IsSpace(s[q]) && Units(s, q) >= 3
    ensures TailAt(s, q - 1)
  {
    LastSpace(s, q);
  }

  /** The whitespace run from `x` consists of name characters. */
  lemma SpacesAreNameChars(s: string, x: nat)
    requires x <= |s|
    ensures forall i :: x <= i < x + RunFrom(s, x, IsSpace) ==> IsNameChar(s[i])
  {
    var space := IsSpace;
    RunFromAll(s, x, space);
    forall i | x <= i < x + RunFrom(s, x, IsSpace) ensures IsNameChar(s[i]) {
      assert space(s[i]);
    }
  }

  /** The run of name characters from `q` consists of name characters. */
  lemma NameRun(s: string, q: nat)
    requires q <= |s|
    ensures forall i :: q <= i < q + RunFrom(s, q, IsNameChar) ==> IsNameChar(s[i])
  {
    var name := IsNameChar;
    RunFromAll(s, q, name);
    forall i | q <= i < q + RunFrom(s, q, IsNameChar) ensures IsNameChar(s[i]) {
      assert name(s[i]);
    }
  }

  /** A whitespace character followed by a non-whitespace one is a run of length one. */
  lemma LastSpace(s: string, q: nat)
    requires 0 < q < |s| && IsSpace(s[q - 1]) && !IsSpace(s[q])
    ensures RunFrom(s, q - 1, IsSpace) == 1
  {
  }

  /** A match at start position `p`: the keyword's start and the name's end. */
  function MatchAt(s: string, p: nat): Option<(nat, nat)>
    requires p <= |s|
  {
    if p + 5 <= |s| && IsRegencyCode(s[p..p + 5]) then
      var w := RunFrom(s, p + 5, IsSpace);
      var k := p + 5 + w;
      var kl := KeywordLength(s, k);
      if w >= 1 && kl > 0 then
        var e := NameEnd(s, k + kl);
        if e.Some? then Some((k, e.value)) else None
      else None
    else None
  }

  /** What a match at `p` consists of: a code, then the keyword, then a name of at least two more characters. */
  lemma MatchAtShape(s: string, p: nat)
    requires p <= |s| && MatchAt(s, p).Some?
    ensures p + 5 < MatchAt(s, p).value.0 < |s| && IsRegencyCode(s[p..p + 5])
    ensures KeywordLength(s, MatchAt(s, p).value.0) > 0
    ensures MatchAt(s, p).value.0 + KeywordLength(s, MatchAt(s, p).value.0) + 2 <= MatchAt(s, p).value.1 < |s|
    ensures TailAt(s, MatchAt(s, p).value.1)
  {
    var k, kwEnd := MatchAtParts(s, p);
    NameEndTail(s, kwEnd);
  }

  /** The keyword start `k` and keyword end `kwEnd` of a match at `p`. */
  lemma MatchAtParts(s: string, p: nat) returns (k: nat, kwEnd: nat)
    requires p <= |s| && MatchAt(s, p).Some?
    ensures p + 5 < k < |s| && IsRegencyCode(s[p..p + 5])
    ensures KeywordLength(s, k) > 0 && kwEnd == k + KeywordLength(s, k) <= |s|
    ensures NameEnd(s, kwEnd).Some? && MatchAt(s, p).value == (k, NameEnd(s, kwEnd).value)
  {
    k := p + 5 + RunFrom(s, p + 5, IsSpace);
    kwEnd := k + KeywordLength(s, k);
  }

  /** `REGEX.search(s)` from position `p` on: the leftmost match. */
  function Search(s: string, p: nat): (r: Option<(nat, nat, nat)>)
    requires p <= |s|
    ensures r.Some? ==> p <= r.value.0 <= |s| && MatchAt(s, r.value.0) == Some((r.value.1, r.value.2))
    ensures r.Some? ==> forall x :: p <= x < r.value.0 ==> MatchAt(s, x).None?
    ensures r.None? ==> forall x :: p <= x <= |s| ==> MatchAt(s, x).None?
    decreases |s| - p
  {
    var m := MatchAt(s, p);
    if m.Some? then Some((p, m.value.0, m.value.1))
    else if p == |s| then None
    else Search(s, p + 1)
  }

  /** `re.findall(r"\d[\d.,]*", s)`: every maximal digit-led run of digits, dots and commas. */
  function FindNumbers(s: string): (r: seq<string>)
    ensures forall k :: 0 <= k < |r| ==> r[k] != [] && IsDigit(r[k][0])
    ensures forall k, i :: 0 <= k < |r| && 0 <= i < |r[k]| ==> IsNumberChar(r[k][i])
    decreases |s|
  {
    if s == [] then []
    else if IsDigit(s[0]) then
      var n := RunLength(s, IsNumberChar);
      [s[..n]] + FindNumbers(s[n..])
    else FindNumbers(s[1..])
  }

  /** No character of `s` is a digit. */
  predicate NoDigit(s: string) { forall i :: 0 <= i < |s| ==> !IsDigit(s[i]) }

  /** `t` is a number token: a digit, then only digits, dots and commas. */
  predicate IsToken(t: string) { t != [] && IsDigit(t[0]) && forall i :: 0 <= i < |t| ==> IsNumberChar(t[i]) }

  /**
   * `t` is a maximal token found after the digit-free text `s[..a]`: it
   * stands at `a` and the character after it, if any, is not one of `[\d.,]`.
   */
  predicate TokenAt(s: string, a: nat, t: string)
  {
    a + |t| <= |s| && NoDigit(s[..a]) && s[a..a + |t|] == t && IsToken(t) &&
    (a + |t| == |s| || !IsNumberChar(s[a + |t|]))
  }

  /**
   * `s` splits into digit-free gaps and the tokens of `r`, in order: every
   * token is maximal and no digit lies outside the tokens.
   */
  predicate Tokenizes(s: string, r: seq<string>)
    decreases |r|
  {
    if r == [] then NoDigit(s)
    else exists a: nat :: a <= |s| && TokenAt(s, a, r[0]) && Tokenizes(s[a + |r[0]|..], r[1..])
  }

  /** A token at the start of `s`, followed by a split of the rest, splits `s`. */
  lemma TokenizesToken(s: string, n: nat, rest: seq<string>)
    requires 0 < n <= |s| && TokenAt(s, 0, s[..n]) && Tokenizes(s[n..], rest)
    ensures Tokenizes(s, [s[..n]] + rest)
  {
    var r := [s[..n]] + rest;
    assert r[0] == s[..n] && r[1..] == rest;
  }

  /** A token after the digit-free gap of `s[1..]` stands one place later in `s`. */
  lemma TokenAtShift(s: string, a: nat, t: string)
    requires s != [] && !IsDigit(s[0]) && TokenAt(s[1..], a, t)
    ensures TokenAt(s, a + 1, t) && s[a + 1 + |t|..] == s[1..][a + |t|..]
  {
    var u := s[1..];
    assert s[..a + 1] == [s[0]] + u[..a];
    assert s[a + 1..a + 1 + |t|] == u[a..a + |t|];
  }

  /** A non-digit in front of a split text keeps it split. */
  lemma TokenizesSkip(s: string, r: seq<string>)
    requires s != [] && !IsDigit(s[0]) && Tokenizes(s[1..], r)
    ensures Tokenizes(s, r)
  {
    var u := s[1..];
    if r == [] {
      assert forall i :: 1 <= i < |s| ==> s[i] == u[i - 1];
    } else {
      var a: nat :| a <= |u| && TokenAt(u, a, r[0]) && Tokenizes(u[a + |r[0]|..], r[1..]);
      TokenAtShift(s, a, r[0]);
    }
  }

  /** The tokens `FindNumbers` returns split `s` as `Tokenizes` says. */
  lemma {:induction false} FindNumbersTokenizes(s: string)
    ensures Tokenizes(s, FindNumbers(s))
    decreases |s|
  {
    if s == [] {
    } else if IsDigit(s[0]) {
      var n := RunLength(s, IsNumberChar);
      FindNumbersTokenizes(s[n..]);
      assert s[0..0 + n] == s[..n] && s[..0] == [];
      TokenizesToken(s, n, FindNumbers(s[n..]));
    } else {
      FindNumbersTokenizes(s[1..]);
      TokenizesSkip(s, FindNumbers(s[1..]));
    }
  }

  /** Digit-free text before the first digit yields no token. */
  lemma {:induction false} SkipNoDigit(s: string, a: nat)
    requires a <= |s| && NoDigit(s[..a])
    ensures FindNumbers(s) == FindNumbers(s[a..])
    decreases a
  {
    if a > 0 {
      assert !IsDigit(s[0]);
      assert s[1..][..a - 1] == s[1..a];
      SkipNoDigit(s[1..], a - 1);
      assert s[1..][a - 1..] == s[a..];
    }
  }

  /** The run of number characters from a token's first digit is the token. */
  lemma NumberRunLength(x: string, m: nat)
    requires m <= |x| && forall i :: 0 <= i < m ==> IsNumberChar(x[i])
    requires m == |x| || !IsNumberChar(x[m])
    ensures RunLength(x, IsNumberChar) == m
  {
    var p := IsNumberChar;
    assert forall i :: 0 <= i < m ==> p(x[i]);
  }

  /** A maximal token at the start of `x` is the first one `FindNumbers` finds. */
  lemma TokenHere(x: string, t: string)
    requires IsToken(t) && |t| <= |x| && x[..|t|] == t
    requires |t| == |x| || !IsNumberChar(x[|t|])
    ensures FindNumbers(x) == [t] + FindNumbers(x[|t|..])
  {
    assert forall i :: 0 <= i < |t| ==> x[i] == t[i];
    NumberRunLength(x, |t|);
    assert IsDigit(x[0]);
  }

  /** `FindNumbers` finds the token at `a` first, then goes on after it. */
  lemma TokenFirst(s: string, a: nat, t: string)
    requires a <= |s| && TokenAt(s, a, t)
    ensures FindNumbers(s) == [t] + FindNumbers(s[a + |t|..])
  {
    SkipNoDigit(s, a);
    var x := s[a..];
    assert x[..|t|] == s[a..a + |t|];
    assert x[|t|..] == s[a + |t|..];
    TokenHere(x, t);
  }

  /** The split `Tokenizes` describes is unique: it is the one `FindNumbers` returns. */
  lemma {:induction false} TokenizesUnique(s: string, r: seq<string>)
    requires Tokenizes(s, r)
    ensures r == FindNumbers(s)
    decreases |r|
  {
    if r == [] {
      assert s[..|s|] == s;
      SkipNoDigit(s, |s|);
    } else {
      var a: nat :| a <= |s| && TokenAt(s, a, r[0]) && Tokenizes(s[a + |r[0]|..], r[1..]);
      TokenFirst(s, a, r[0]);
      TokenizesUnique(s[a + |r[0]|..], r[1..]);
      assert r == [r[0]] + r[1..];
    }
  }

  /** Stripping a text that starts with a word keeps the word at its start. */
  lemma StripKeepsWord(t: string, word: string)
    requires word != [] && NoSpace(word) && StartsWith(t, word)
    ensures StartsWith(Strip(t), word)
  {
    assert !IsSpace(t[0]);
    assert TrimStart(t) == t;
    var r := TrimEnd(t);
    assert !IsSpace(t[|word| - 1]);
    assert |r| >= |word|;
  }

  lemma KeywordsHaveNoSpace()
    ensures NoSpace("Kabupaten") && NoSpace("Kota")
  {
  }

  /**
   * The code and name groups of the leftmost match in `line`: the code
   * without its dot, and the name stripped.
   */
  function Groups(line: string): (r: Option<(string, string)>)
    ensures r.Some? <==> Search(line, 0).Some?
    ensures r.Some? ==> |r.value.0| == 4 && AllDigits(r.value.0)
    ensures r.Some? ==> StartsWith(r.value.1, "Kabupaten") || StartsWith(r.value.1, "Kota")
  {
    var m := Search(line, 0);
    if m.None? then None
    else
      var (p, k, e) := m.value;
      MatchedName(line, p);
      DotFreeRegency(line[p..p + 5]);
      Some((DotFree(line[p..p + 5]), Strip(line[k..e])))
  }

  /** The name group of a match starts with its keyword, and still does once stripped. */
  lemma MatchedName(s: string, p: nat)
    requires p <= |s| && MatchAt(s, p).Some?
    ensures p + 5 <= |s| && IsRegencyCode(s[p..p + 5])
    ensures var (k, e) := MatchAt(s, p).value; (k <= e <= |s| &&
      (StartsWith(Strip(s[k..e]), "Kabupaten") || StartsWith(Strip(s[k..e]), "Kota")))
  {
    MatchAtShape(s, p);
    var m := MatchAt(s, p).value;
    KeywordName(s, m.0, m.1);
  }

  /** A piece that starts at a keyword starts, once stripped, with "Kabupaten" or "Kota". */
  lemma KeywordName(s: string, k: nat, e: nat)
    requires k <= |s| && KeywordLength(s, k) > 0 && k + KeywordLength(s, k) <= e <= |s|
    ensures StartsWith(Strip(s[k..e]), "Kabupaten") || StartsWith(Strip(s[k..e]), "Kota")
  {
    KeywordsHaveNoSpace();
    if KeywordLength(s, k) == 9 {
      KeywordStarts(s, k, e, "Kabupaten");
    } else {
      KeywordStarts(s, k, e, "Kota");
    }
  }

  /** A piece of `s` that starts with a keyword without whitespace still starts with it once stripped. */
  lemma KeywordStarts(s: string, k: nat, e: nat, word: string)
    requires word != [] && NoSpace(word)
    requires k + |word| <= e <= |s| && s[k..k + |word|] == word
    ensures StartsWith(Strip(s[k..e]), word)
  {
    var t := s[k..e];
    assert t[..|word|] == word;
    StripKeepsWord(t, word);
  }

  /** The row for a matched code and name, its counts the last four numbers of the line. */
  function MakeRow(code: string, name: string, numbers: seq<string>, page: int): (r: AggregateRow)
    requires |code| >= 2 && |numbers| >= 4
    ensures r.code == code && r.name == name && r.provinceCode == code[..2]
    ensures r.rtype == City <==> StartsWith(name, "Kota")
    ensures r.urbanVillageCount == "0" && r.sourcePage == page
    ensures r.districtCount == numbers[|numbers| - 4] && r.ruralVillageCount == numbers[|numbers| - 3]
    ensures r.areaKm2 == numbers[|numbers| - 2] && r.population == numbers[|numbers| - 1]
  {
    var n := |numbers|;
    AggregateRow(code, name, code[..2], RegencyType(name), numbers[n - 4], "0",
      numbers[n - 3], numbers[n - 2], numbers[n - 1], page)
  }

  /**
   * One stripped, non-empty line: a row when the pattern matches and the
   * line has at least four numbers, nothing otherwise.
   */
  function ParseLine(line: string, page: int): (r: Option<AggregateRow>)
    ensures r.Some? <==> Groups(line).Some? && |FindNumbers(line)| >= 4
    ensures r.Some? ==> r.value == MakeRow(Groups(line).value.0, Groups(line).value.1, FindNumbers(line), page)
  {
    var g := Groups(line);
    var numbers := FindNumbers(line);
    if g.None? || |numbers| < 4 then None
    else Some(MakeRow(g.value.0, g.value.1, numbers, page))
  }

  /** The row one raw line yields once stripped: none for a blank or unmatched line. */
  function LineRows(raw: string, page: int): (r: seq<AggregateRow>)
    ensures |r| <= 1
    ensures r != [] ==> r[0].sourcePage == page && r[0].urbanVillageCount == "0"
    ensures r != [] <==> Strip(raw) != "" && ParseLine(Strip(raw), page).Some?
  {
    var line := Strip(raw);
    if line == "" then []
    else
      var m := ParseLine(line, page);
      if m.None? then [] else [m.value]
  }

  /** The rows of `lines`, line after line. */
  function ScanLines(lines: seq<string>, page: int): (r: seq<AggregateRow>)
    ensures |r| <= |lines|
    ensures forall e :: e in r ==> e.sourcePage == page && e.urbanVillageCount == "0"
  {
    if lines == [] then []
    else ScanLines(lines[..|lines| - 1], page) + LineRows(lines[|lines| - 1], page)
  }

  /** One more line appends the row that line yields, if any. */
  lemma ScanLinesStep(lines: seq<string>, n: nat, page: int)
    requires n < |lines|
    ensures ScanLines(lines[..n + 1], page) == ScanLines(lines[..n], page) + LineRows(lines[n], page)
  {
    assert lines[..n + 1][..n] == lines[..n];
  }

  /** Whether a line yields the row `e`. */
  function LineTest(e: AggregateRow, page: int): string -> bool
  {
    line => e in LineRows(line, page)
  }

  /** Exactly the rows that single lines yield: none is lost and none is made up. */
  lemma {:induction false} ScanLinesExactly(lines: seq<string>, page: int)
    ensures forall e :: e in ScanLines(lines, page) <==> AnyOf(lines, LineTest(e, page))
  {
    if lines != [] {
      var init := lines[..|lines| - 1];
      var last := lines[|lines| - 1];
      ScanLinesExactly(init, page);
      assert ScanLines(lines, page) == ScanLines(init, page) + LineRows(last, page);
      forall e ensures e in ScanLines(lines, page) <==> AnyOf(lines, LineTest(e, page)) {
        AnyOfLast(lines, LineTest(e, page));
        assert LineTest(e, page)(last) <==> e in LineRows(last, page);
      }
    }
  }

  /** The rows of a page's text are exactly those its single lines yield. */
  lemma ExtractAggregatesExactly(text: string, page: int)
    ensures forall e :: e in ExtractAggregates(text, page) <==> AnyOf(SplitOn(text, '\n'), LineTest(e, page))
  {
    ScanLinesExactly(SplitOn(text, '\n'), page);
  }

  /** Order: the rows of the first `m` lines come first, in the same order. */
  lemma {:induction false} ScanLinesPrefix(lines: seq<string>, m: nat, page: int)
    requires m <= |lines|
    ensures IsPrefix(ScanLines(lines[..m], page), ScanLines(lines, page))
    decreases |lines| - m
  {
    if m < |lines| {
      ScanLinesPrefix(lines, m + 1, page);
      ScanLinesStep(lines, m, page);
      var p := ScanLines(lines[..m], page);
      var q := ScanLines(lines[..m + 1], page);
      assert q[..|p|] == p;
      PrefixOfPrefix(ScanLines(lines, page), q, p);
    } else {
      assert lines[..m] == lines;
      assert ScanLines(lines, page)[..|ScanLines(lines, page)|] == ScanLines(lines, page);
    }
  }

  /** What `extract_regency_aggregate_from_text` returns. */
  function ExtractAggregates(text: string, page: int): (r: seq<AggregateRow>)
    ensures forall e :: e in r ==> e.sourcePage == page && e.urbanVillageCount == "0"
  {
    ScanLines(SplitOn(text, '\n'), page)
  }

  /** A line without any newline yields at most one row, the one its pattern gives. */
  lemma SingleLine(text: string, page: int)
    requires '\n' !in text
    ensures ExtractAggregates(text, page) == LineRows(text, page)
  {
    SplitOnNoSep(text, '\n');
    assert SplitOn(text, '\n')[..0] == [];
  }

  /** `extract_regency_aggregate_from_text(text, page_num)`. */
  method ExtractRegencyAggregateFromText(text: string, page: int) returns (rows: seq<AggregateRow>)
    ensures rows == ExtractAggregates(text, page)
  {
    var lines := SplitOn(text, '\n');
    rows := [];
    var i := 0;
    while i < |lines|
      invariant 0 <= i <= |lines|
      invariant rows == ScanLines(lines[..i], page)
    {
      ScanLinesStep(lines, i, page);
      var line := Strip(lines[i]);
      if line != "" {
        var m := ParseLine(line, page);
        if m.Some? {
          rows := rows + [m.value];
        } else {
          assert rows + [] == rows;
        }
      } else {
        assert rows + [] == rows;
      }
      i := i + 1;
    }
    assert lines[..i] == lines;
  }
}
