/**
 * Character classes and string operations used by the parsers and
 * classifiers. Python's `str` methods and the `re` constructs the parsers use
 * are written out here over ASCII: digits are `0`..`9`, letters `A`..`Z` and
 * `a`..`z`, and whitespace is the ASCII part of what Python's `str.isspace`
 * (and therefore `\s`, `strip()` and `split()`) accepts.
 */
module Text {
  import opened Wrappers

  /** The Python exceptions a parser or a comparison can end with on malformed input. */
  datatype Raised = IndexError | ValueError | KeyError | TypeError | AttributeError

  /** A table cell as the table extractor hands it over: text or nothing. */
  type Cell = Option<string>
  type Row = seq<Cell>
  type Table = seq<Row>

  predicate IsDigit(c: char) { '0' <= c <= '9' }

  /** Tab, LF, VT, FF, CR, the four separators 0x1C..0x1F, and space. */
  predicate IsSpace(c: char) { c == ' ' || '\t' <= c <= '\r' || 28 <= c as int <= 31 }

  predicate IsUpper(c: char) { 'A' <= c <= 'Z' }

  predicate IsLower(c: char) { 'a' <= c <= 'z' }

  predicate IsLetter(c: char) { IsUpper(c) || IsLower(c) }

  /** A character of `\w`: letter, digit or underscore. */
  predicate IsWordChar(c: char) { IsLetter(c) || IsDigit(c) || c == '_' }

  predicate AllDigits(s: string) { forall i :: 0 <= i < |s| ==> IsDigit(s[i]) }

  predicate NoSpace(s: string) { forall i :: 0 <= i < |s| ==> !IsSpace(s[i]) }

  /** Free of lower-case ASCII letters. */
  predicate NoLower(s: string) { forall i :: 0 <= i < |s| ==> !IsLower(s[i]) }

  predicate StartsWith(s: string, prefix: string) { |prefix| <= |s| && s[..|prefix|] == prefix }

  /** `needle in s` for strings: `needle` occurs as a contiguous piece of `s`. */
  predicate Contains(s: string, needle: string)
    decreases |s|
  {
    StartsWith(s, needle) || (s != [] && Contains(s[1..], needle))
  }

  /** Python truthiness of a cell: present and non-empty. */
  predicate Truthy(c: Cell) { c.Some? && c.value != "" }

  /** No whitespace at either end. */
  predicate IsStripped(s: string) { s == [] || (!IsSpace(s[0]) && !IsSpace(s[|s| - 1])) }

  function UpperChar(c: char): (r: char)
    ensures !IsLower(r)
    ensures IsLower(c) || r == c
  {
    if IsLower(c) then (c as int - 32) as char else c
  }

  /** `s.upper()` restricted to ASCII letters. */
  function Upper(s: string): (r: string)
    ensures |r| == |s|
    ensures forall i :: 0 <= i < |s| ==> r[i] == UpperChar(s[i])
    ensures NoLower(r)
  {
    seq(|s|, i requires 0 <= i < |s| => UpperChar(s[i]))
  }

  /** `s.lstrip()`: the suffix of `s` left after removing leading whitespace. */
  function TrimStart(s: string): (r: string)
    ensures |r| <= |s| && r == s[|s| - |r|..]
    ensures r == [] || !IsSpace(r[0])
    ensures forall i :: 0 <= i < |s| - |r| ==> IsSpace(s[i])
    decreases |s|
  {
    if s != [] && IsSpace(s[0]) then TrimStart(s[1..]) else s
  }

  /** `s.rstrip()`: the prefix of `s` left after removing trailing whitespace. */
  function TrimEnd(s: string): (r: string)
    ensures |r| <= |s| && r == s[..|r|]
    ensures r == [] || !IsSpace(r[|r| - 1])
    ensures forall i :: |r| <= i < |s| ==> IsSpace(s[i])
    decreases |s|
  {
    if s != [] && IsSpace(s[|s| - 1]) then TrimEnd(s[..|s| - 1]) else s
  }

  /** `s.strip()`: the piece of `s` left once whitespace is removed from both ends. */
  function Strip(s: string): (r: string)
    ensures IsStripped(r)
    ensures |r| <= |s|
    ensures exists a, b :: 0 <= a <= b <= |s| && r == s[a..b] && SpaceOutside(s, a, b)
  {
    var t := TrimStart(s);
    var r := TrimEnd(t);
    TrimmedSlice(s, t, r);
    r
  }

  /** A prefix `r` of a suffix `t` of `s`, both cut at whitespace, is a slice of `s` with whitespace around it. */
  lemma TrimmedSlice(s: string, t: string, r: string)
    requires |t| <= |s| && t == s[|s| - |t|..] && forall i :: 0 <= i < |s| - |t| ==> IsSpace(s[i])
    requires |r| <= |t| && r == t[..|r|] && forall i :: |r| <= i < |t| ==> IsSpace(t[i])
    ensures r == s[|s| - |t|..|s| - |t| + |r|] && SpaceOutside(s, |s| - |t|, |s| - |t| + |r|)
  {
    var a := |s| - |t|;
    forall i | a + |r| <= i < |s| ensures IsSpace(s[i]) {
      assert s[i] == t[i - a];
    }
  }

  /** Everything of `s` before `a` and from `b` on is whitespace. */
  /** Stripping brings in no lower-case letter. */
  lemma StripNoLower(s: string)
    requires NoLower(s)
    ensures NoLower(Strip(s))
  {
    var a, b := StripBounds(s);
    var r := Strip(s);
    forall i | 0 <= i < |r| ensures !IsLower(r[i]) {
      assert r[i] == s[a + i];
    }
  }

  /** Stripping brings in no character that was not there. */
  lemma StripKeepsOut(s: string, c: char)
    ensures c !in s ==> c !in Strip(s)
  {
    var a, b := StripBounds(s);
    var r := Strip(s);
    if c in r {
      var i :| 0 <= i < |r| && r[i] == c;
      assert r[i] == s[a + i];
    }
  }

  /** Stripped text strips to itself. */
  lemma StrippedUnchanged(s: string)
    requires IsStripped(s)
    ensures Strip(s) == s
  {
    assert TrimStart(s) == s;
    assert TrimEnd(s) == s;
  }

  /** Where `Strip(s)` lies in `s`. */
  lemma StripBounds(s: string) returns (a: nat, b: nat)
    ensures a <= b <= |s| && Strip(s) == s[a..b] && SpaceOutside(s, a, b)
  {
    a, b :| a <= b <= |s| && Strip(s) == s[a..b] && SpaceOutside(s, a, b);
  }

  predicate SpaceOutside(s: string, a: nat, b: nat)
    requires a <= b <= |s|
  {
    (forall i :: 0 <= i < a ==> IsSpace(s[i])) && (forall i :: b <= i < |s| ==> IsSpace(s[i]))
  }

  lemma StripStripped(s: string)
    requires IsStripped(s)
    ensures Strip(s) == s
  {
  }

  /** `str(c).strip() if c else ""`: the stripped text of a truthy cell, else "". */
  function CellText(c: Cell): string {
    if Truthy(c) then Strip(c.value) else ""
  }

  /** Joins pieces with one separator between neighbours (`sep.join(pieces)`). */
  function JoinWith(pieces: seq<string>, sep: char): string
    requires |pieces| >= 1
  {
    if |pieces| == 1 then pieces[0] else pieces[0] + [sep] + JoinWith(pieces[1..], sep)
  }

  /** `s.split(sep)` for a one-character separator: never empty, pieces free of `sep`. */
  function SplitOn(s: string, sep: char): (r: seq<string>)
    ensures |r| >= 1
    ensures forall k :: 0 <= k < |r| ==> sep !in r[k]
    decreases |s|
  {
    if s == [] then [[]]
    else
      var rest := SplitOn(s[1..], sep);
      if s[0] == sep then [[]] + rest else [[s[0]] + rest[0]] + rest[1..]
  }

  /** A string without the separator splits into itself alone. */
  lemma {:induction false} SplitOnNoSep(a: string, sep: char)
    requires sep !in a
    ensures SplitOn(a, sep) == [a]
    decreases |a|
  {
    if a != [] {
      SplitOnNoSep(a[1..], sep);
      assert [a[0]] + a[1..] == a;
    }
  }

  /** Joining the pieces of `s.split(sep)` with `sep` gives back `s`. */
  lemma {:induction false} JoinSplit(s: string, sep: char)
    ensures JoinWith(SplitOn(s, sep), sep) == s
    decreases |s|
  {
    if s != [] {
      JoinSplit(s[1..], sep);
      var rest := SplitOn(s[1..], sep);
      if s[0] != sep && |rest| > 1 {
        assert JoinWith(SplitOn(s, sep), sep) == [s[0]] + rest[0] + [sep] + JoinWith(rest[1..], sep);
      }
    }
  }

  /** Length of the trailing run of characters that are not whitespace. */
  function TailTokenLength(s: string): (n: nat)
    ensures n <= |s|
    ensures forall i :: |s| - n <= i < |s| ==> !IsSpace(s[i])
    ensures n < |s| ==> IsSpace(s[|s| - n - 1])
    decreases |s|
  {
    if s == [] || IsSpace(s[|s| - 1]) then 0 else 1 + TailTokenLength(s[..|s| - 1])
  }

  /**
   * `s.split()[-1]`: the last maximal run of non-whitespace characters, or
   * nothing where Python would raise IndexError (no such run).
   */
  function LastWord(s: string): (r: Option<string>)
    ensures r.None? <==> forall i :: 0 <= i < |s| ==> IsSpace(s[i])
    ensures r.Some? ==> r.value != [] && NoSpace(r.value)
    ensures r.Some? ==> var t := TrimEnd(s);
      |r.value| <= |t| && r.value == t[|t| - |r.value|..] && (|r.value| == |t| || IsSpace(t[|t| - |r.value| - 1]))
  {
    var t := TrimEnd(s);
    if t == [] then None
    else
      var n := TailTokenLength(t);
      Some(t[|t| - n..])
  }

  /** Length of the leading run of ASCII digits. */
  function DigitRun(s: string): (n: nat)
    ensures n <= |s| && AllDigits(s[..n])
    ensures n < |s| ==> !IsDigit(s[n])
  {
    if s == [] || !IsDigit(s[0]) then 0 else 1 + DigitRun(s[1..])
  }

  /** Length of the leading run of whitespace. */
  function SpaceRun(s: string): (n: nat)
    ensures n <= |s|
    ensures forall i :: 0 <= i < n ==> IsSpace(s[i])
    ensures n < |s| ==> !IsSpace(s[n])
  {
    if s == [] || !IsSpace(s[0]) then 0 else 1 + SpaceRun(s[1..])
  }

  /**
   * Removes a leading ordinal: `re.sub(r"^\d+\s+", "", s)` when `needSpace`,
   * `re.sub(r"^\d+\s*", "", s)` otherwise. The pattern is anchored, so at
   * most the one leading occurrence goes.
   */
  function DropOrdinal(s: string, needSpace: bool): (r: string)
    ensures |r| <= |s| && r == s[|s| - |r|..]
    ensures r != s <==> DigitRun(s) > 0 && (needSpace ==> SpaceRun(s[DigitRun(s)..]) > 0)
    ensures r != s ==> r == [] || !IsSpace(r[0])
    ensures r != s ==> AllDigits(s[..DigitRun(s)]) && forall i :: DigitRun(s) <= i < |s| - |r| ==> IsSpace(s[i])
  {
    var d := DigitRun(s);
    var w := SpaceRun(s[d..]);
    if d > 0 && (needSpace ==> w > 0) then s[d + w..] else s
  }

  /** `s.replace(ch, "")`. */
  function RemoveChar(s: string, ch: char): (r: string)
    ensures ch !in r
    ensures |r| <= |s|
  {
    if s == [] then []
    else if s[0] == ch then RemoveChar(s[1..], ch)
    else [s[0]] + RemoveChar(s[1..], ch)
  }

  lemma {:induction false} RemoveCharAppend(a: string, b: string, ch: char)
    ensures RemoveChar(a + b, ch) == RemoveChar(a, ch) + RemoveChar(b, ch)
  {
    if a == [] {
      assert a + b == b;
    } else {
      assert (a + b)[0] == a[0] && (a + b)[1..] == a[1..] + b;
      RemoveCharAppend(a[1..], b, ch);
      if a[0] != ch {
        calc {
          RemoveChar(a + b, ch);
          [a[0]] + RemoveChar(a[1..] + b, ch);
          [a[0]] + (RemoveChar(a[1..], ch) + RemoveChar(b, ch));
          ([a[0]] + RemoveChar(a[1..], ch)) + RemoveChar(b, ch);
        }
      }
    }
  }

  lemma {:induction false} RemoveCharAbsent(s: string, ch: char)
    requires ch !in s
    ensures RemoveChar(s, ch) == s
  {
    if s != [] {
      RemoveCharAbsent(s[1..], ch);
    }
  }

  /** Length of the leading run of characters satisfying `inRun`. */
  function RunLength(s: string, inRun: char -> bool): (n: nat)
    ensures n <= |s|
    ensures forall i :: 0 <= i < n ==> inRun(s[i])
    ensures n < |s| ==> !inRun(s[n])
  {
    if s == [] || !inRun(s[0]) then 0 else 1 + RunLength(s[1..], inRun)
  }

  /**
   * `re.sub(pattern, " ", s)` for a pattern that is a run of at least
   * `minLength` characters of one class (`\s+`, `\s{2,}`, `[\n\r\t]+`): each
   * maximal run that long becomes one space, everything else is kept.
   */
  function ReplaceRuns(s: string, inRun: char -> bool, minLength: nat): (r: string)
    ensures forall i :: 0 <= i < |r| ==> r[i] in s || r[i] == ' '
    ensures |r| <= |s|
    decreases |s|
  {
    if s == [] then []
    else if inRun(s[0]) then
      var n := RunLength(s, inRun);
      var rest := ReplaceRuns(s[n..], inRun, minLength);
      (if n >= minLength then " " else s[..n]) + rest
    else
      [s[0]] + ReplaceRuns(s[1..], inRun, minLength)
  }

  /** The leading run of `a + b` stops inside `a`, or takes all of `a` and goes on into `b`. */
  lemma {:induction false} RunLengthAppend(a: string, b: string, inRun: char -> bool)
    ensures RunLength(a + b, inRun) ==
      if RunLength(a, inRun) < |a| then RunLength(a, inRun) else |a| + RunLength(b, inRun)
    decreases |a|
  {
    if a == [] {
      assert a + b == b;
    } else {
      assert (a + b)[0] == a[0] && (a + b)[1..] == a[1..] + b;
      RunLengthAppend(a[1..], b, inRun);
    }
  }

  /**
   * Splitting the text where a run cannot continue (between a character
   * outside the class and any other) splits the replacement the same way.
   */
  lemma {:induction false} ReplaceRunsAppend(a: string, b: string, inRun: char -> bool, minLength: nat)
    requires a == [] || b == [] || !inRun(a[|a| - 1]) || !inRun(b[0])
    ensures ReplaceRuns(a + b, inRun, minLength) == ReplaceRuns(a, inRun, minLength) + ReplaceRuns(b, inRun, minLength)
    decreases |a|
  {
    if a == [] {
      assert a + b == b;
    } else if b == [] {
      assert a + b == a;
    } else {
      var n := LeadLength(a, inRun);
      LeadLengthAppend(a, b, inRun);
      assert (a + b)[n..] == a[n..] + b;
      ReplaceRunsAppend(a[n..], b, inRun, minLength);
      ReplaceRunsLead(a + b, inRun, minLength);
      ReplaceRunsLead(a, inRun, minLength);
    }
  }

  /** The length of the piece `ReplaceRuns` treats first: the leading run, or one other character. */
  function LeadLength(s: string, inRun: char -> bool): (n: nat)
    requires s != []
    ensures 1 <= n <= |s|
  {
    if inRun(s[0]) then RunLength(s, inRun) else 1
  }

  /** What the first piece of a non-empty text becomes. */
  function LeadReplacement(s: string, inRun: char -> bool, minLength: nat): string
    requires s != []
  {
    var n := LeadLength(s, inRun);
    if inRun(s[0]) && n >= minLength then " " else s[..n]
  }

  lemma ReplaceRunsLead(s: string, inRun: char -> bool, minLength: nat)
    requires s != []
    ensures ReplaceRuns(s, inRun, minLength) ==
      LeadReplacement(s, inRun, minLength) + ReplaceRuns(s[LeadLength(s, inRun)..], inRun, minLength)
  {
  }

  /** Where a run cannot continue from `a` into `b`, `a + b` starts with the same piece as `a`. */
  lemma LeadLengthAppend(a: string, b: string, inRun: char -> bool)
    requires a != [] && (b == [] || !inRun(a[|a| - 1]) || !inRun(b[0]))
    ensures LeadLength(a + b, inRun) == LeadLength(a, inRun)
    ensures forall m: nat :: LeadReplacement(a + b, inRun, m) == LeadReplacement(a, inRun, m)
  {
    assert (a + b)[0] == a[0];
    RunLengthAppend(a, b, inRun);
    var n := LeadLength(a, inRun);
    if inRun(a[0]) && n == |a| {
      assert inRun(a[|a| - 1]);
    }
    assert (a + b)[..n] == a[..n];
  }

  /** The leading run of `x` ends at a character outside the class; any text with that same start has that run. */
  lemma {:induction false} RunLengthSameStart(x: string, y: string, inRun: char -> bool)
    requires RunLength(x, inRun) < |x| && RunLength(x, inRun) < |y|
    requires forall i :: 0 <= i <= RunLength(x, inRun) ==> y[i] == x[i]
    ensures RunLength(y, inRun) == RunLength(x, inRun)
    decreases |x|
  {
    if inRun(x[0]) {
      RunLengthSameStart(x[1..], y[1..], inRun);
    }
  }

  lemma {:induction false} RunLengthAll(s: string, inRun: char -> bool)
    requires forall i :: 0 <= i < |s| ==> inRun(s[i])
    ensures RunLength(s, inRun) == |s|
    decreases |s|
  {
    if s != [] {
      RunLengthAll(s[1..], inRun);
    }
  }

  /**
   * A maximal run of at least `minLength` characters of the class, with
   * `a` before it and `b` after it, is replaced by one space, and the text
   * on either side is treated on its own.
   */
  lemma ReplaceRunsLongRun(a: string, run: string, b: string, inRun: char -> bool, minLength: nat)
    requires run != [] && |run| >= minLength && forall i :: 0 <= i < |run| ==> inRun(run[i])
    requires a == [] || !inRun(a[|a| - 1])
    requires b == [] || !inRun(b[0])
    ensures ReplaceRuns(a + run + b, inRun, minLength) ==
      ReplaceRuns(a, inRun, minLength) + " " + ReplaceRuns(b, inRun, minLength)
  {
    RunReplaced(run, inRun, minLength);
    ReplaceRunsAppend(run, b, inRun, minLength);
    assert a + run + b == a + (run + b);
    ReplaceRunsAppend(a, run + b, inRun, minLength);
  }

  /** A text that is one run of at least `minLength` becomes one space. */
  lemma RunReplaced(run: string, inRun: char -> bool, minLength: nat)
    requires run != [] && |run| >= minLength && forall i :: 0 <= i < |run| ==> inRun(run[i])
    ensures ReplaceRuns(run, inRun, minLength) == " "
  {
    RunLengthAll(run, inRun);
    ReplaceRunsLead(run, inRun, minLength);
    assert run[|run|..] == [];
  }

  /** A text whose every run of the class is shorter than `minLength` is kept as it is. */
  lemma {:induction false} ReplaceRunsShortRuns(s: string, inRun: char -> bool, minLength: nat)
    requires ShortRuns(s, inRun, minLength)
    ensures ReplaceRuns(s, inRun, minLength) == s
    decreases |s|
  {
    if s != [] {
      var n := LeadLength(s, inRun);
      assert ReplaceRuns(s[n..], inRun, minLength) == s[n..] by {
        ShortRunsSuffix(s, inRun, minLength, n);
        ReplaceRunsShortRuns(s[n..], inRun, minLength);
      }
      assert LeadReplacement(s, inRun, minLength) == s[..n] by {
        assert s[0..] == s;
        assert RunLength(s[0..], inRun) < minLength;
      }
      ReplaceRunsLead(s, inRun, minLength);
      assert s[..n] + s[n..] == s;
    }
  }

  /** Every run of the class in `s` is shorter than `minLength`. */
  predicate ShortRuns(s: string, inRun: char -> bool, minLength: nat) {
    forall i :: 0 <= i < |s| ==> RunLength(s[i..], inRun) < minLength
  }

  lemma ShortRunsSuffix(s: string, inRun: char -> bool, minLength: nat, n: nat)
    requires n <= |s| && ShortRuns(s, inRun, minLength)
    ensures ShortRuns(s[n..], inRun, minLength)
  {
    forall i | 0 <= i < |s[n..]| ensures RunLength(s[n..][i..], inRun) < minLength {
      assert s[n..][i..] == s[n + i..];
    }
  }

  /** Every character of the class is a lone space. */
  predicate SingleRuns(r: string, inRun: char -> bool)
  {
    forall i :: 0 <= i < |r| && inRun(r[i]) ==> r[i] == ' ' && (i + 1 < |r| ==> !inRun(r[i + 1]))
  }

  /**
   * With `minLength` at most one (`\s+`, `[\n\r\t]+`) every run is replaced:
   * a character of the class that is left is a space that came from a run,
   * and the next character is outside the class.
   */
  lemma {:induction false} ReplaceRunsSingle(s: string, inRun: char -> bool, minLength: nat)
    requires minLength <= 1
    ensures SingleRuns(ReplaceRuns(s, inRun, minLength), inRun)
    decreases |s|
  {
    if s != [] {
      var r := ReplaceRuns(s, inRun, minLength);
      var n := LeadLength(s, inRun);
      var tail := ReplaceRuns(s[n..], inRun, minLength);
      ReplaceRunsSingle(s[n..], inRun, minLength);
      assert SingleRuns(tail, inRun);
      ReplaceRunsHead(s[n..], inRun, minLength);
      ReplaceRunsLead(s, inRun, minLength);
      var head := LeadReplacement(s, inRun, minLength);
      assert head == (if inRun(s[0]) then " " else [s[0]]);
      assert inRun(s[0]) && n < |s| ==> !inRun(s[n]);
      assert r == head + tail;
      forall i | 0 <= i < |r| && inRun(r[i]) ensures r[i] == ' ' && (i + 1 < |r| ==> !inRun(r[i + 1])) {
        if i > 0 {
          assert r[i] == tail[i - 1];
        }
      }
      assert SingleRuns(r, inRun);
    }
  }

  /** The replacement of a text that starts outside the class starts with that same character. */
  lemma ReplaceRunsHead(s: string, inRun: char -> bool, minLength: nat)
    ensures s != [] && !inRun(s[0]) ==> ReplaceRuns(s, inRun, minLength) != [] && ReplaceRuns(s, inRun, minLength)[0] == s[0]
  {
  }
}
