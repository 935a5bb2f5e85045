/**
 * The page classifier: labels a page from the header row of its table. Each
 * header cell is reduced to its last word after upper-casing, closing up
 * letter-spaced words ("K O D E") and removing footnote marks ("*)", "**)").
 */
module PageClassifier {
  import opened Wrappers
  import opened Text
  import opened PipelineContext

  /**
   * Whether the whitespace run starting at `k` is one that
   * `(?<=\b[A-Z])\s+(?=[A-Z]\b)` removes: it follows a one-letter word and
   * precedes a one-letter word (upper-case ASCII letters).
   */
  predicate LetterGapAt(s: string, k: nat)
    requires k < |s|
  {
    IsSpace(s[k]) && k >= 1 && IsUpper(s[k - 1]) && !(k >= 2 && IsWordChar(s[k - 2])) &&
    var e := k + RunLength(s[k..], IsSpace);
    e < |s| && IsUpper(s[e]) && !(e + 1 < |s| && IsWordChar(s[e + 1]))
  }

  /** `LETTER_SPACING_RE.sub("", s)`, scanning `s` from position `k`. */
  function JoinLetters(s: string, k: nat): (r: string)
    requires k <= |s|
    ensures NoLower(s) ==> NoLower(r)
    decreases |s| - k
  {
    if k == |s| then []
    else if LetterGapAt(s, k) then JoinLetters(s, k + RunLength(s[k..], IsSpace))
    else [s[k]] + JoinLetters(s, k + 1)
  }

  /** The characters of `s` that are not whitespace, in order. */
  function NonSpace(s: string): (r: string)
    ensures NoSpace(r)
  {
    if s == [] then [] else (if IsSpace(s[0]) then [] else [s[0]]) + NonSpace(s[1..])
  }

  lemma {:induction false} NonSpaceAppend(a: string, b: string)
    ensures NonSpace(a + b) == NonSpace(a) + NonSpace(b)
    decreases |a|
  {
    if a == [] {
      assert a + b == b;
    } else {
      assert (a + b)[0] == a[0] && (a + b)[1..] == a[1..] + b;
      NonSpaceAppend(a[1..], b);
    }
  }

  lemma {:induction false} NonSpaceOfSpaces(s: string)
    requires forall i :: 0 <= i < |s| ==> IsSpace(s[i])
    ensures NonSpace(s) == []
    decreases |s|
  {
    if s != [] {
      NonSpaceOfSpaces(s[1..]);
    }
  }

  /** Closing up letter gaps removes whitespace only: every other character is kept, in order. */
  lemma {:induction false} JoinLettersKeeps(s: string, k: nat)
    requires k <= |s|
    ensures NonSpace(JoinLetters(s, k)) == NonSpace(s[k..])
    decreases |s| - k, 1
  {
    if k == |s| {
      assert s[k..] == [];
    } else if LetterGapAt(s, k) {
      GapKeeps(s, k);
    } else {
      KeptKeeps(s, k);
    }
  }

  lemma {:induction false} GapKeeps(s: string, k: nat)
    requires k < |s| && LetterGapAt(s, k)
    ensures NonSpace(JoinLetters(s, k)) == NonSpace(s[k..])
    decreases |s| - k, 0
  {
    var e := k + RunLength(s[k..], IsSpace);
    JoinLettersKeeps(s, e);
    NonSpaceSkipsRun(s, k, e);
  }

  lemma {:induction false} KeptKeeps(s: string, k: nat)
    requires k < |s| && !LetterGapAt(s, k)
    ensures NonSpace(JoinLetters(s, k)) == NonSpace(s[k..])
    decreases |s| - k, 0
  {
    JoinLettersKeeps(s, k + 1);
    assert JoinLetters(s, k) == [s[k]] + JoinLetters(s, k + 1);
    NonSpaceAppend([s[k]], JoinLetters(s, k + 1));
    NonSpaceStep(s, k);
  }

  /** A whitespace run from `k` to `e` adds nothing to the characters that are not whitespace. */
  lemma NonSpaceSkipsRun(s: string, k: nat, e: nat)
    requires k <= e <= |s| && e == k + RunLength(s[k..], IsSpace)
    ensures NonSpace(s[k..]) == NonSpace(s[e..])
  {
    assert s[k..] == s[k..e] + s[e..];
    assert forall i :: 0 <= i < e - k ==> s[k..e][i] == s[k..][i];
    NonSpaceOfSpaces(s[k..e]);
    NonSpaceAppend(s[k..e], s[e..]);
  }

  lemma NonSpaceStep(s: string, k: nat)
    requires k < |s|
    ensures NonSpace(s[k..]) == NonSpace([s[k]]) + NonSpace(s[k + 1..])
  {
    assert s[k..] == [s[k]] + s[k + 1..];
    NonSpaceAppend([s[k]], s[k + 1..]);
  }

  /** No letter gap starts at or after `k` in `t`. */
  predicate NoGapFrom(t: string, k: nat) {
    forall p :: k <= p < |t| ==> !LetterGapAt(t, p)
  }

  /** The whole text once the scan from `k` is done: the part before `k` and the scan's result. */
  function Joined(s: string, k: nat): string
    requires k <= |s|
  {
    s[..k] + JoinLetters(s, k)
  }

  /** Whether a gap starts at `p` depends only on the text from two characters before `p`. */
  lemma GapLocal(x: string, p: nat)
    requires 2 <= p < |x|
    ensures LetterGapAt(x, p) == LetterGapAt(x[p - 2..], 2)
  {
    var y := x[p - 2..];
    assert y[2..] == x[p..];
  }

  /** Inside a whitespace run nothing is removed: the scan copies the run up to `e`. */
  lemma {:induction false} RunCopied(s: string, j: nat, e: nat)
    requires 1 <= j <= e <= |s|
    requires forall i :: j - 1 <= i < e ==> IsSpace(s[i])
    ensures JoinLetters(s, j) == s[j..e] + JoinLetters(s, e)
    decreases e - j
  {
    if j < e {
      assert !LetterGapAt(s, j);
      RunCopied(s, j + 1, e);
      assert JoinLetters(s, j) == [s[j]] + JoinLetters(s, j + 1);
      Prepend(JoinLetters(s, j), [s[j]], JoinLetters(s, j + 1), s[j + 1..e], JoinLetters(s, e));
      assert s[j..e] == [s[j]] + s[j + 1..e];
    }
  }

  /** A character that is not whitespace is copied. */
  lemma CopiedChar(s: string, j: nat)
    requires j < |s| && !IsSpace(s[j])
    ensures JoinLetters(s, j) == [s[j]] + JoinLetters(s, j + 1)
  {
  }

  /**
   * A whitespace run that is not a gap in `s` is not one after the scan
   * either: the scan copies the run and the character after it, and the
   * character after that only changes when a gap is closed there, which
   * puts a letter in its place.
   */
  lemma KeptRunNoGap(s: string, k: nat)
    requires k < |s| && IsSpace(s[k]) && !LetterGapAt(s, k)
    ensures !LetterGapAt(Joined(s, k), k)
  {
    var e := k + RunLength(s[k..], IsSpace);
    assert forall i :: k <= i < e ==> s[i] == s[k..][i - k];
    RunCopied(s, k + 1, e);
    var run := s[k + 1..e];
    var t := Joined(s, k);
    if e == |s| {
      Regroup(JoinLetters(s, k), [s[k]], JoinLetters(s, k + 1), run, [], [s[k]] + run);
      RunToEnd(s, k);
      Prepend(t, s[..k], JoinLetters(s, k), [s[k]] + run, []);
      assert t == s;
    } else {
      CharThenTail(s, e);
      var tail := JoinLetters(s, e + 1);
      Regroup(JoinLetters(s, k), [s[k]], JoinLetters(s, k + 1), run, JoinLetters(s, e), [s[k]] + run);
      RunThenChar(s, k, e, tail);
      Prepend(t, s[..k], JoinLetters(s, k), [s[k]] + run, [s[e]] + tail);
      assert t == s[..k] + ([s[k]] + run) + ([s[e]] + tail);
    }
  }

  /** A character that is not whitespace is copied, and so is a word character after it. */
  lemma CharThenTail(s: string, e: nat)
    requires e < |s| && !IsSpace(s[e])
    ensures var tail := JoinLetters(s, e + 1);
      JoinLetters(s, e) == [s[e]] + tail &&
      (e + 1 < |s| && IsWordChar(s[e + 1]) ==> tail != [] && tail[0] == s[e + 1])
  {
    CopiedChar(s, e);
    if e + 1 < |s| && IsWordChar(s[e + 1]) {
      CopiedChar(s, e + 1);
    }
  }

  /** The text from `k` is the run up to the end: the scan keeps `s` as it is. */
  lemma RunToEnd(s: string, k: nat)
    requires k < |s| && k + RunLength(s[k..], IsSpace) == |s|
    ensures s[..k] + ([s[k]] + s[k + 1..|s|]) + [] == s
  {
    assert s[..k] + ([s[k]] + s[k + 1..|s|]) == s;
  }

  /**
   * The whitespace run at `k` in `s` ends at `e`, before a character that is
   * not whitespace; after it, `s` is replaced by `tail`, which starts with
   * `s[e + 1]` when that is a word character. A run that is no gap in `s`
   * is none in the new text.
   */
  lemma RunThenChar(s: string, k: nat, e: nat, tail: string)
    requires k < e < |s| && e == k + RunLength(s[k..], IsSpace) && !LetterGapAt(s, k)
    requires e + 1 < |s| && IsWordChar(s[e + 1]) ==> tail != [] && tail[0] == s[e + 1]
    ensures !LetterGapAt(s[..k] + ([s[k]] + s[k + 1..e]) + ([s[e]] + tail), k)
  {
    var t := s[..k] + ([s[k]] + s[k + 1..e]) + ([s[e]] + tail);
    assert t == s[..e + 1] + tail;
    assert forall i :: 0 <= i <= e ==> t[i] == s[i];
    RunLengthSameStart(s[k..], t[k..], IsSpace);
  }

  /** Two texts that agree from `k` and from `k + d` on agree on gaps from two characters after that. */
  lemma ShiftedGap(t: string, u: string, k: nat, d: nat, p: nat)
    requires k + 2 <= p < |t| && k + d <= |u| && t[k..] == u[k + d..]
    ensures LetterGapAt(t, p) == LetterGapAt(u, p + d)
  {
    GapLocal(t, p);
    GapLocal(u, p + d);
    assert t[p - 2..] == t[k..][p - 2 - k..];
    assert u[p + d - 2..] == u[k + d..][p - 2 - k..];
  }

  /** After closing the gap at `k`, no gap starts at or after `k`. */
  lemma ClosedGapNoGap(s: string, k: nat)
    requires k < |s| && LetterGapAt(s, k)
    requires NoGapFrom(Joined(s, k + RunLength(s[k..], IsSpace)), k + RunLength(s[k..], IsSpace))
    ensures NoGapFrom(Joined(s, k), k)
  {
    var e := k + RunLength(s[k..], IsSpace);
    var j := JoinLetters(s, e);
    CopiedChar(s, e);
    var t := Joined(s, k);
    var u := Joined(s, e);
    DropPrefix(s[..k], j);
    DropPrefix(s[..e], j);
    forall p | k <= p < |t| ensures !LetterGapAt(t, p) {
      if p < k + 2 {
        ClosedGapNear(s, k, p);
      } else {
        ShiftedGap(t, u, k, e - k, p);
      }
    }
  }

  /** Right after a closed gap the text holds two letters in a row: no gap there. */
  lemma ClosedGapNear(s: string, k: nat, p: nat)
    requires k < |s| && LetterGapAt(s, k) && k <= p < k + 2 && p < |Joined(s, k)|
    ensures !LetterGapAt(Joined(s, k), p)
  {
    var e := k + RunLength(s[k..], IsSpace);
    var j := JoinLetters(s, e);
    CopiedChar(s, e);
    var t := Joined(s, k);
    DropPrefix(s[..k], j);
    assert t[k] == j[0] == s[e];
    if p == k + 1 {
      assert t[k - 1] == s[k - 1];
    }
  }

  /** A character the scan keeps starts no gap in the new text. */
  lemma KeptNoGap(s: string, k: nat)
    requires k < |s| && !LetterGapAt(s, k) && NoGapFrom(Joined(s, k + 1), k + 1)
    ensures NoGapFrom(Joined(s, k), k)
  {
    JoinedStep(s, k);
    var t := Joined(s, k);
    if IsSpace(s[k]) {
      KeptRunNoGap(s, k);
    } else {
      assert t[k] == s[k];
    }
    NoGapStep(t, k);
  }

  lemma JoinedStep(s: string, k: nat)
    requires k < |s| && !LetterGapAt(s, k)
    ensures Joined(s, k) == Joined(s, k + 1)
  {
    assert JoinLetters(s, k) == [s[k]] + JoinLetters(s, k + 1);
    assert s[..k + 1] == s[..k] + [s[k]];
  }

  lemma NoGapStep(t: string, k: nat)
    requires NoGapFrom(t, k + 1) && (k < |t| ==> !LetterGapAt(t, k))
    ensures NoGapFrom(t, k)
  {
  }

  lemma DropPrefix(x: string, w: string)
    ensures (x + w)[|x|..] == w
  {
  }

  /** No gap starts at or after `k` once the scan from `k` is done. */
  lemma {:induction false} JoinedNoGap(s: string, k: nat)
    requires k <= |s|
    ensures NoGapFrom(Joined(s, k), k)
    decreases |s| - k
  {
    if k < |s| {
      if LetterGapAt(s, k) {
        JoinedNoGap(s, k + RunLength(s[k..], IsSpace));
        ClosedGapNoGap(s, k);
      } else {
        JoinedNoGap(s, k + 1);
        KeptNoGap(s, k);
      }
    }
  }

  /** `LETTER_SPACING_RE.sub("", s)` leaves no letter gap behind. */
  lemma JoinLettersClosed(s: string)
    ensures NoGapFrom(JoinLetters(s, 0), 0)
  {
    JoinedNoGap(s, 0);
    assert Joined(s, 0) == JoinLetters(s, 0);
  }

  /** Length of the leading run of `*`. */
  function StarRun(s: string): (n: nat)
    ensures n <= |s| && (n < |s| ==> s[n] != '*')
    ensures forall i :: 0 <= i < n ==> s[i] == '*'
  {
    if s == [] || s[0] != '*' then 0 else 1 + StarRun(s[1..])
  }

  /** No footnote mark is left: no `*` is directly followed by `)`. */
  predicate NoFootnote(s: string) {
    forall i :: 0 <= i < |s| - 1 ==> !(s[i] == '*' && s[i + 1] == ')')
  }

  /**
   * `re.sub(r"\*+\)", "", s)`: each run of stars closed by `)` is removed
   * with the `)`; a run of stars not closed by `)` is kept.
   */
  function StripFootnotes(s: string): (r: string)
    ensures NoLower(s) ==> NoLower(r)
    ensures s != [] && s[0] != '*' ==> r != [] && r[0] == s[0]
    decreases |s|
  {
    if s == [] then []
    else if s[0] == '*' then
      var n := StarRun(s);
      if n < |s| && s[n] == ')' then StripFootnotes(s[n + 1..])
      else s[..n] + StripFootnotes(s[n..])
    else [s[0]] + StripFootnotes(s[1..])
  }

  /** Every footnote mark is gone from the result, including marks the removals bring together. */
  lemma {:induction false} FootnotesGone(s: string)
    ensures NoFootnote(StripFootnotes(s))
    decreases |s|
  {
    if s != [] {
      var r := StripFootnotes(s);
      if s[0] == '*' {
        var n := StarRun(s);
        if n < |s| && s[n] == ')' {
          FootnotesGone(s[n + 1..]);
        } else {
          var rest := StripFootnotes(s[n..]);
          FootnotesGone(s[n..]);
          assert r == s[..n] + rest;
          forall i | 0 <= i < |r| - 1 ensures !(r[i] == '*' && r[i + 1] == ')') {
            if i + 1 < n {
              assert r[i + 1] == '*';
            } else if i + 1 == n {
              assert n < |s| ==> r[i + 1] == rest[0] == s[n];
            } else {
              assert r[i] == rest[i - n] && r[i + 1] == rest[i + 1 - n];
            }
          }
        }
      } else {
        var rest := StripFootnotes(s[1..]);
        FootnotesGone(s[1..]);
        assert r == [s[0]] + rest;
        forall i | 0 <= i < |r| - 1 ensures !(r[i] == '*' && r[i + 1] == ')') {
          if i > 0 {
            assert r[i] == rest[i - 1] && r[i + 1] == rest[i];
          }
        }
      }
    }
  }

  /** A piece of text without a footnote mark has none either. */
  lemma NoFootnoteSlice(s: string, a: nat, b: nat)
    requires a <= b <= |s| && NoFootnote(s)
    ensures NoFootnote(s[a..b])
  {
    var t := s[a..b];
    forall i | 0 <= i < |t| - 1 ensures !(t[i] == '*' && t[i + 1] == ')') {
      assert t[i] == s[a + i] && t[i + 1] == s[a + i + 1];
    }
  }

  /** Text without a footnote mark passes unchanged. */
  lemma {:induction false} NoFootnoteUnchanged(s: string)
    requires NoFootnote(s)
    ensures StripFootnotes(s) == s
    decreases |s|
  {
    if s != [] {
      var n := LeadSkip(s);
      if s[0] == '*' && StarRun(s) < |s| {
        assert s[StarRun(s) - 1] == '*';
      }
      assert LeadKept(s) == s[..n];
      NoFootnoteSlice(s, n, |s|);
      assert s[n..|s|] == s[n..];
      NoFootnoteUnchanged(s[n..]);
      KeptWhole(s);
    }
  }

  /** A text whose first step keeps all it consumes, and whose rest is kept, is kept whole. */
  lemma KeptWhole(s: string)
    requires s != [] && LeadKept(s) == s[..LeadSkip(s)]
    requires StripFootnotes(s[LeadSkip(s)..]) == s[LeadSkip(s)..]
    ensures StripFootnotes(s) == s
  {
    StripFootnotesLead(s);
    SplitRejoin(s, LeadSkip(s));
  }

  lemma SplitRejoin(s: string, n: nat)
    requires n <= |s|
    ensures s[..n] + s[n..] == s
  {
  }

  /** Splitting the text after a character that is not a star splits the result the same way. */
  lemma {:induction false} StripFootnotesAppend(a: string, b: string)
    requires a == [] || a[|a| - 1] != '*'
    ensures StripFootnotes(a + b) == StripFootnotes(a) + StripFootnotes(b)
    decreases |a|
  {
    if a == [] {
      assert a + b == b;
    } else {
      var rest := a[LeadSkip(a)..];
      assert rest == [] || rest[|rest| - 1] == a[|a| - 1];
      StripFootnotesAppend(rest, b);
      StripFootnotesAppendStep(a, b);
    }
  }

  /** The step of `StripFootnotesAppend`: the first step of `a` is the first step of `a + b`. */
  lemma StripFootnotesAppendStep(a: string, b: string)
    requires a != [] && a[|a| - 1] != '*'
    requires var rest := a[LeadSkip(a)..];
      StripFootnotes(rest + b) == StripFootnotes(rest) + StripFootnotes(b)
    ensures StripFootnotes(a + b) == StripFootnotes(a) + StripFootnotes(b)
  {
    LeadAppend(a, b);
    StripFootnotesLead(a + b);
    StripFootnotesLead(a);
    var rest := a[LeadSkip(a)..];
    Regroup(StripFootnotes(a + b), LeadKept(a), StripFootnotes(rest + b),
      StripFootnotes(rest), StripFootnotes(b), StripFootnotes(a));
  }

  /** `t == p + j` and `j == a + b` give `t == (p + a) + b`. */
  lemma Prepend(t: string, p: string, j: string, a: string, b: string)
    requires t == p + j && j == a + b
    ensures t == p + a + b
  {
  }

  /** `x == k + y`, `y == z + w` and `v == k + z` give `x == v + w`. */
  lemma Regroup(x: string, k: string, y: string, z: string, w: string, v: string)
    requires x == k + y && y == z + w && v == k + z
    ensures x == v + w
  {
  }

  /** How much of a non-empty text the first step consumes: a footnote mark, a star run, or one character. */
  function LeadSkip(s: string): (n: nat)
    requires s != []
    ensures 1 <= n <= |s|
  {
    if s[0] == '*' then
      var k := StarRun(s);
      if k < |s| && s[k] == ')' then k + 1 else k
    else 1
  }

  /** What the first step keeps: nothing of a footnote mark, everything else it consumes. */
  function LeadKept(s: string): string
    requires s != []
  {
    var k := StarRun(s);
    if s[0] == '*' && k < |s| && s[k] == ')' then [] else s[..LeadSkip(s)]
  }

  lemma StripFootnotesLead(s: string)
    requires s != []
    ensures StripFootnotes(s) == LeadKept(s) + StripFootnotes(s[LeadSkip(s)..])
  {
  }

  /** After a character that is not a star, `a + b` starts with the same step as `a`. */
  lemma LeadAppend(a: string, b: string)
    requires a != [] && a[|a| - 1] != '*'
    ensures LeadSkip(a + b) == LeadSkip(a) && LeadKept(a + b) == LeadKept(a)
    ensures (a + b)[LeadSkip(a)..] == a[LeadSkip(a)..] + b
  {
    assert (a + b)[0] == a[0];
    if a[0] == '*' {
      StarRunAppend(a, b);
      var k := StarRun(a);
      assert (a + b)[k] == a[k];
      assert (a + b)[..k] == a[..k];
      if a[k] == ')' {
        assert (a + b)[..k + 1] == a[..k + 1];
      }
    } else {
      assert (a + b)[..1] == a[..1];
    }
  }

  /** A star run that starts in `a` ends inside it when `a` does not end with a star. */
  lemma {:induction false} StarRunAppend(a: string, b: string)
    requires a != [] && a[|a| - 1] != '*'
    ensures StarRun(a) < |a| && StarRun(a + b) == StarRun(a)
    decreases |a|
  {
    assert (a + b)[0] == a[0];
    if a[0] == '*' {
      assert |a| > 1;
      assert (a + b)[1..] == a[1..] + b;
      StarRunAppend(a[1..], b);
    }
  }

  /** A footnote mark (one or more stars and a `)`) between `a` and `b` is removed. */
  lemma FootnoteRemoved(a: string, stars: string, b: string)
    requires a == [] || a[|a| - 1] != '*'
    requires stars != [] && forall i :: 0 <= i < |stars| ==> stars[i] == '*'
    ensures StripFootnotes(a + stars + ")" + b) == StripFootnotes(a) + StripFootnotes(b)
  {
    var m := stars + ")" + b;
    StarRunMark(stars, b);
    assert m[|stars| + 1..] == b;
    assert StripFootnotes(m) == StripFootnotes(b);
    assert a + stars + ")" + b == a + m;
    StripFootnotesAppend(a, m);
  }

  lemma {:induction false} StarRunMark(stars: string, b: string)
    requires forall i :: 0 <= i < |stars| ==> stars[i] == '*'
    ensures StarRun(stars + ")" + b) == |stars|
    decreases |stars|
  {
    if stars != [] {
      assert (stars + ")" + b)[1..] == stars[1..] + ")" + b;
      StarRunMark(stars[1..], b);
    }
  }

  /** Every whitespace character is a lone space. */
  predicate SingleSpaced(s: string)
  {
    forall i :: 0 <= i < |s| && IsSpace(s[i]) ==> s[i] == ' ' && (i + 1 < |s| ==> !IsSpace(s[i + 1]))
  }

  /**
   * The header text before stripping: upper-cased, letter gaps closed,
   * footnote marks removed and every whitespace run made one space.
   */
  function Spaced(text: string): (r: string)
    ensures NoLower(r) && SingleSpaced(r)
  {
    var upper := Upper(text);
    var z := JoinLetters(upper, 0);
    var y := StripFootnotes(z);
    var r := ReplaceRuns(y, IsSpace, 1);
    SpacesSingle(y);
    forall i | 0 <= i < |r| ensures !IsLower(r[i]) {
      if r[i] != ' ' {
        var m :| 0 <= m < |y| && y[m] == r[i];
      }
    }
    r
  }

  /** Whitespace runs made one space leave only lone spaces. */
  lemma SpacesSingle(y: string)
    ensures SingleSpaced(ReplaceRuns(y, IsSpace, 1))
  {
    var space := IsSpace;
    var r := ReplaceRuns(y, space, 1);
    ReplaceRunsSingle(y, space, 1);
    assert SingleRuns(r, space);
    forall i | 0 <= i < |r| && IsSpace(r[i]) ensures r[i] == ' ' && (i + 1 < |r| ==> !IsSpace(r[i + 1])) {
      assert space(r[i]);
      if i + 1 < |r| {
        assert space(r[i + 1]) == IsSpace(r[i + 1]);
      }
    }
  }

  /** Stripping keeps every whitespace character a lone space. */
  lemma StripSingleSpaced(x: string)
    requires SingleSpaced(x)
    ensures SingleSpaced(Strip(x))
  {
    var a, b := StripBounds(x);
    var c := x[a..b];
    forall i | 0 <= i < |c| && IsSpace(c[i]) ensures c[i] == ' ' && (i + 1 < |c| ==> !IsSpace(c[i + 1])) {
      assert c[i] == x[a + i];
      if i + 1 < |c| {
        assert c[i + 1] == x[a + i + 1];
      }
    }
  }

  /**
   * The text `normalize_header` takes its last word from: the spaced text,
   * stripped; every whitespace character left in it is a lone space.
   */
  function Cleaned(text: string): (r: string)
    ensures IsStripped(r) && NoLower(r) && SingleSpaced(r)
  {
    var x := Spaced(text);
    StripSingleSpaced(x);
    StripNoLower(x);
    Strip(x)
  }

  /** The cleaned text has no footnote mark left. */
  lemma CleanedNoFootnote(text: string)
    ensures NoFootnote(Cleaned(text))
  {
    var y := StripFootnotes(JoinLetters(Upper(text), 0));
    FootnotesGone(JoinLetters(Upper(text), 0));
    var x := Spaced(text);
    SpacesKeepNoFootnote(y);
    var a, b := StripBounds(x);
    NoFootnoteSlice(x, a, b);
  }

  /** Making whitespace runs one space brings no star next to a `)`. */
  lemma {:induction false} SpacesKeepNoFootnote(s: string)
    requires NoFootnote(s)
    ensures NoFootnote(ReplaceRuns(s, IsSpace, 1))
    decreases |s|
  {
    if s != [] {
      var n := LeadLength(s, IsSpace);
      var rest := s[n..];
      NoFootnoteSlice(s, n, |s|);
      assert s[n..|s|] == rest;
      SpacesKeepNoFootnote(rest);
      ReplaceRunsLead(s, IsSpace, 1);
      ReplaceRunsHead(rest, IsSpace, 1);
      var head := LeadReplacement(s, IsSpace, 1);
      var tail := ReplaceRuns(rest, IsSpace, 1);
      var r := ReplaceRuns(s, IsSpace, 1);
      assert head == (if IsSpace(s[0]) then " " else [s[0]]);
      assert r == head + tail;
      forall i | 0 <= i < |r| - 1 ensures !(r[i] == '*' && r[i + 1] == ')') {
        if i > 0 {
          assert r[i] == tail[i - 1] && r[i + 1] == tail[i];
        } else if r[0] == '*' {
          assert n == 1 && rest[0] == s[1];
          assert r[1] == tail[0];
        }
      }
    }
  }

  /**
   * `normalize_header`: "" for an empty cell, otherwise the last word of the
   * cleaned text; nothing where `split()[-1]` would raise IndexError because
   * the cleaned text is blank.
   */
  function NormalizeHeader(cell: Cell): (r: Option<string>)
    ensures r == Some("") <==> !Truthy(cell)
    ensures r.Some? && r.value != "" ==> NoSpace(r.value) && NoLower(r.value)
    ensures Truthy(cell) ==> (r.None? <==> Cleaned(cell.value) == "")
    ensures Truthy(cell) && r.Some? ==> TailWord(Cleaned(cell.value), r.value)
  {
    if !Truthy(cell) then Some("")
    else
      var c := Cleaned(cell.value);
      StrippedLastWord(c);
      LastWord(c)
  }

  /** `w` is the non-empty end of `c` after its last space. */
  predicate TailWord(c: string, w: string)
  {
    w != [] && |w| <= |c| && c[|c| - |w|..] == w && (|w| == |c| || c[|c| - |w| - 1] == ' ')
  }

  /** The last word of stripped, single-spaced text is its suffix after the last space. */
  lemma StrippedLastWord(c: string)
    requires IsStripped(c) && SingleSpaced(c) && NoLower(c)
    ensures var w := LastWord(c);
      (w.None? <==> c == []) && (w.Some? ==> TailWord(c, w.value) && NoLower(w.value))
  {
    assert TrimEnd(c) == c;
    var w := LastWord(c);
    if w.Some? {
      var k := |c| - |w.value|;
      if k > 0 {
        assert IsSpace(c[k - 1]);
      }
      forall i | 0 <= i < |w.value| ensures !IsLower(w.value[i]) {
        assert w.value[i] == c[k + i];
      }
    }
  }

  /** A cell holding only a footnote mark has no word: `split()[-1]` raises. */
  lemma FootnoteOnly(cell: Cell)
    requires cell == Some("*)")
    ensures NormalizeHeader(cell) == None
  {
    var s := cell.value;
    assert Upper(s) == s;
    assert !LetterGapAt(s, 0) && !LetterGapAt(s, 1);
    JoinLettersNoGapKept(s, 0);
    assert s[0..] == s;
    FootnoteRemoved("", "*", "");
    assert "" + "*" + ")" + "" == s;
    assert Spaced(s) == "";
  }

  /** The footnote mark after "NO" goes, leaving the word NO. */
  lemma NumberHeaderWithFootnote(cell: Cell)
    requires cell == Some("NO *)")
    ensures NormalizeHeader(cell) == Some("NO")
  {
    NumberHeaderCleaned(cell.value);
    var c := Cleaned(cell.value);
    StrippedLastWord(c);
  }

  /** "NO *)" cleans to "NO". */
  lemma NumberHeaderCleaned(s: string)
    requires s == "NO *)"
    ensures Cleaned(s) == "NO"
  {
    NumberHeaderSpaced(s);
    var x := Spaced(s);
    assert TrimStart(x) == x;
    assert x[..2] == "NO";
    assert TrimEnd(x) == "NO";
  }

  /** "NO *)" loses its footnote mark and keeps its single space. */
  lemma NumberHeaderSpaced(s: string)
    requires s == "NO *)"
    ensures Spaced(s) == "NO "
  {
    NumberHeaderStripped(s);
    OneSpaceKept(StripFootnotes(JoinLetters(Upper(s), 0)));
  }

  /** "NO *)" has no letter gap and loses its footnote mark. */
  lemma NumberHeaderStripped(s: string)
    requires s == "NO *)"
    ensures StripFootnotes(JoinLetters(Upper(s), 0)) == "NO "
  {
    NumberHeaderNoGap(s);
    FootnoteRemoved("NO ", "*", "");
    assert "NO " + "*" + ")" + "" == s;
    NoStarsUnchanged("NO ");
  }

  /** "NO *)" is upper-case already and has no letter gap to close. */
  lemma NumberHeaderNoGap(s: string)
    requires s == "NO *)"
    ensures JoinLetters(Upper(s), 0) == s
  {
    assert Upper(s) == s;
    forall p | 0 <= p < |s| ensures !LetterGapAt(s, p) {
      if p == 2 {
        assert IsWordChar(s[0]);
      }
    }
    JoinLettersNoGapKept(s, 0);
    assert s[0..] == s;
  }

  /** "NO " has no whitespace run to shorten. */
  lemma OneSpaceKept(y: string)
    requires y == "NO "
    ensures ReplaceRuns(y, IsSpace, 1) == y
  {
    var space := IsSpace;
    var o, sp := y[1..], y[2..];
    assert o[1..] == sp && sp[1..] == [];
    assert RunLength(sp, space) == 1 by {
      assert RunLength(sp[1..], space) == 0;
    }
    ReplaceRunsLead(sp, space, 1);
    assert ReplaceRuns(sp, space, 1) == sp;
    ReplaceRunsLead(o, space, 1);
    assert ReplaceRuns(o, space, 1) == o;
    ReplaceRunsLead(y, space, 1);
  }

  /** Text with no letter gap from `k` on passes the gap closing unchanged. */
  lemma {:induction false} JoinLettersNoGapKept(s: string, k: nat)
    requires k <= |s| && NoGapFrom(s, k)
    ensures JoinLetters(s, k) == s[k..]
    decreases |s| - k
  {
    if k < |s| {
      JoinLettersNoGapKept(s, k + 1);
      assert s[k..] == [s[k]] + s[k + 1..];
    }
  }

  /** The letter-spaced header "K O D E" closes up to "KODE". */
  lemma JoinLettersKode()
    ensures JoinLetters("K O D E", 0) == "KODE"
  {
    var s := "K O D E";
    SingleGap(s, 1);
    SingleGap(s, 3);
    SingleGap(s, 5);
    assert JoinLetters(s, 7) == [];
    assert JoinLetters(s, 6) == "E";
    assert JoinLetters(s, 5) == "E";
    assert JoinLetters(s, 4) == "DE";
    assert JoinLetters(s, 3) == "DE";
    assert JoinLetters(s, 2) == "ODE";
    assert JoinLetters(s, 1) == "ODE";
  }

  /** In "K O D E", each space sits alone between two single capitals. */
  lemma SingleGap(s: string, k: nat)
    requires s == "K O D E" && k in {1, 3, 5}
    ensures LetterGapAt(s, k) && RunLength(s[k..], IsSpace) == 1
  {
    assert s[k..][1..] == s[k + 1..];
  }

  /** "K O D E" is read as the word KODE. */
  lemma LetterSpacedKode()
    ensures NormalizeHeader(Some("K O D E")) == Some("KODE")
  {
    var s := "K O D E";
    assert Truthy(Some(s));
    UpperKode();
    JoinLettersKode();
    assert JoinLetters(Upper(s), 0) == "KODE";
    assert NoSpace("KODE") && '*' !in "KODE";
    CleanWord("KODE");
  }

  lemma UpperKode()
    ensures Upper("K O D E") == "K O D E"
  {
  }

  /** A word without spaces or stars passes the remaining clean-up steps unchanged. */
  lemma CleanWord(w: string)
    requires w != [] && NoSpace(w) && '*' !in w
    ensures LastWord(Strip(ReplaceRuns(StripFootnotes(w), IsSpace, 1))) == Some(w)
  {
    NoStarsUnchanged(w);
    NoSpaceUnchanged(w);
    StrippedUnchanged(w);
  }

  lemma {:induction false} NoStarsUnchanged(s: string)
    requires '*' !in s
    ensures StripFootnotes(s) == s
  {
    if s != [] {
      NoStarsUnchanged(s[1..]);
    }
  }

  lemma {:induction false} NoSpaceUnchanged(s: string)
    requires NoSpace(s)
    ensures ReplaceRuns(s, IsSpace, 1) == s
  {
    if s != [] {
      NoSpaceUnchanged(s[1..]);
    }
  }

  /**
   * `classify_page` on the page's table: the first row is the header, and its
   * first and third cells decide by an ordered rule list. Nothing is returned
   * where a header cell would make `normalize_header` raise.
   */
  function ClassifyPage(table: Table): (r: Option<PageType>)
    ensures table == [] || table[0] == [] ==> r == Some(Unknown)
    ensures r.None? <==> (table != [] && table[0] != [] &&
      (NormalizeHeader(table[0][0]).None? || (|table[0]| >= 3 && NormalizeHeader(table[0][2]).None?)))
    ensures r == Some(KelurahanDesa) <==> (r.Some? && table != [] && table[0] != [] &&
      NormalizeHeader(table[0][0]) == Some("KODE"))
    ensures r == Some(Provinsi) <==> (r.Some? && table != [] && |table[0]| >= 3 &&
      NormalizeHeader(table[0][0]) == Some("NO") && NormalizeHeader(table[0][2]) == Some("PROVINSI"))
    ensures r == Some(KabKota) <==> (r.Some? && table != [] && |table[0]| >= 3 &&
      NormalizeHeader(table[0][0]) == Some("NO") && NormalizeHeader(table[0][2]) == Some("KOTA"))
    ensures r == Some(Kecamatan) <==> (r.Some? && table != [] && |table[0]| >= 3 &&
      NormalizeHeader(table[0][0]) == Some("NO") && NormalizeHeader(table[0][2]) == Some("KECAMATAN"))
  {
    if table == [] then Some(Unknown)
    else
      var header := table[0];
      if header == [] then Some(Unknown)
      else
        var col1 := NormalizeHeader(header[0]);
        var col3 := if |header| >= 3 then NormalizeHeader(header[2]) else Some("");
        if col1.None? || col3.None? then None
        else if col1.value == "KODE" then Some(KelurahanDesa)
        else if col3.value == "PROVINSI" && col1.value == "NO" then Some(Provinsi)
        else if col3.value == "KOTA" && col1.value == "NO" then Some(KabKota)
        else if col3.value == "KECAMATAN" && col1.value == "NO" then Some(Kecamatan)
        else Some(Unknown)
  }

  /** A header with fewer than three cells can only name a village page or none. */
  lemma ShortHeader(table: Table)
    requires table != [] && |table[0]| < 3 && ClassifyPage(table).Some?
    ensures ClassifyPage(table).value in {KelurahanDesa, Unknown}
  {
  }
}
