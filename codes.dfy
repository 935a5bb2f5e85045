/**
 * The shapes of hierarchical region codes: a province is `NN`, a regency
 * `NN.NN`, a district `NN.NN.NN` and a village `NN.NN.NN.NNNN`, with ASCII
 * digits. Canonical codes drop the dots, so a regency has 4 digits, a district
 * 6 and a village 10, and each begins with its parent's canonical code.
 */
module Codes {
  import opened Text

  predicate IsProvinceCode(s: string) { |s| == 2 && AllDigits(s) }

  predicate IsRegencyCode(s: string) {
    |s| == 5 && IsProvinceCode(s[..2]) && s[2] == '.' && AllDigits(s[3..])
  }

  predicate IsDistrictCode(s: string) {
    |s| == 8 && IsRegencyCode(s[..5]) && s[5] == '.' && AllDigits(s[6..])
  }

  predicate IsVillageCode(s: string) {
    |s| == 13 && IsDistrictCode(s[..8]) && s[8] == '.' && AllDigits(s[9..])
  }

  /** `code.replace(".", "")`. */
  function DotFree(s: string): string { RemoveChar(s, '.') }

  lemma DigitsDotFree(s: string)
    requires AllDigits(s)
    ensures DotFree(s) == s
  {
    RemoveCharAbsent(s, '.');
  }

  /** Drops the dot between the two groups of `code`, the group before it ending at `k`. */
  lemma DotFreeSplit(s: string, k: nat)
    requires k < |s| && s[k] == '.' && AllDigits(s[k + 1..])
    ensures DotFree(s) == DotFree(s[..k]) + s[k + 1..]
  {
    assert s == s[..k] + ([s[k]] + s[k + 1..]);
    RemoveCharAppend(s[..k], [s[k]] + s[k + 1..], '.');
    RemoveCharAppend([s[k]], s[k + 1..], '.');
    DigitsDotFree(s[k + 1..]);
  }

  lemma DotFreeRegency(s: string)
    requires IsRegencyCode(s)
    ensures DotFree(s) == s[..2] + s[3..]
    ensures |DotFree(s)| == 4 && AllDigits(DotFree(s)) && DotFree(s)[..2] == s[..2]
  {
    DotFreeSplit(s, 2);
    DigitsDotFree(s[..2]);
  }

  lemma DotFreeDistrict(s: string)
    requires IsDistrictCode(s)
    ensures DotFree(s) == DotFree(s[..5]) + s[6..]
    ensures |DotFree(s)| == 6 && AllDigits(DotFree(s)) && DotFree(s)[..4] == DotFree(s[..5])
  {
    DotFreeSplit(s, 5);
    DotFreeRegency(s[..5]);
  }

  lemma DotFreeVillage(s: string)
    requires IsVillageCode(s)
    ensures DotFree(s) == DotFree(s[..8]) + s[9..]
    ensures |DotFree(s)| == 10 && AllDigits(DotFree(s)) && DotFree(s)[..6] == DotFree(s[..8])
  {
    DotFreeSplit(s, 8);
    DotFreeDistrict(s[..8]);
  }
}
