/** Classifies a hierarchical code by its shape. */
module RowClassifier {
  import opened Text
  import opened Codes
  import opened PipelineContext

  /** The code shape that stands for level `t` (none for `Other`). */
  predicate HasShape(s: string, t: RowType) {
    match t
    case Province => IsProvinceCode(s)
    case Regency => IsRegencyCode(s)
    case District => IsDistrictCode(s)
    case Village => IsVillageCode(s)
    case Other => false
  }

  /**
   * `re.match("^" + shape + "$", code)`: without MULTILINE, `$` matches at the
   * end of the string and also just before a final newline.
   */
  predicate Matches(code: string, t: RowType) {
    HasShape(code, t) || (|code| > 0 && code[|code| - 1] == '\n' && HasShape(code[..|code| - 1], t))
  }

  /** `classify_row`: the level whose pattern the code matches, checked province first. */
  function ClassifyRow(code: string): (r: RowType)
    ensures r != Other ==> Matches(code, r)
    ensures r == Other <==> forall t :: !Matches(code, t)
  {
    if Matches(code, Province) then Province
    else if Matches(code, Regency) then Regency
    else if Matches(code, District) then District
    else if Matches(code, Village) then Village
    else Other
  }

  /** No code matches two of the patterns, so the order of the tests is immaterial. */
  lemma PatternsExclusive(code: string, t1: RowType, t2: RowType)
    requires Matches(code, t1) && Matches(code, t2)
    ensures t1 == t2
  {
    assert HasShape(code, t1) ==> |code| in {2, 5, 8, 13};
    assert !HasShape(code, t1) ==> |code| in {3, 6, 9, 14};
    assert HasShape(code, t2) ==> |code| in {2, 5, 8, 13};
    assert !HasShape(code, t2) ==> |code| in {3, 6, 9, 14};
  }

  /** Every code whose shape is a level's is classified as that level. */
  lemma ClassifyRowComplete(code: string, t: RowType)
    requires Matches(code, t)
    ensures ClassifyRow(code) == t
  {
    var r := ClassifyRow(code);
    if r != Other {
      PatternsExclusive(code, r, t);
    }
  }

  /** A code followed by one newline still matches: "11\n" is a province code. */
  lemma TrailingNewline(code: string, t: RowType)
    requires HasShape(code, t)
    ensures ClassifyRow(code + "\n") == t
  {
    var s := code + "\n";
    assert s[..|s| - 1] == code;
    ClassifyRowComplete(s, t);
  }

  /** Two newlines are not accepted. */
  lemma TwoNewlines(code: string)
    requires IsProvinceCode(code)
    ensures ClassifyRow(code + "\n\n") == Other
  {
    var s := code + "\n\n";
    assert !IsDigit(s[3]) && !IsDigit(s[2]);
  }
}
