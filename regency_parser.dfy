/**
 * The regency parser: a regency page packs all of its regencies into one
 * table row, codes in column 1 and names in column 2, one per line. The
 * first row whose column 1 holds a newline is that row.
 */
module RegencyParser {
  import opened Wrappers
  import opened Text
  import opened Codes
  import opened ProvinceParser

  /** A raw regency row; `rtype` is "city" or "regency". */
  datatype RegencyRaw = RegencyRaw(code: string, provinceCode: string, name: string, rtype: string, sourcePage: int)

  const City := "city"
  const RegencyKind := "regency"

  /** A regency is a city exactly when its name starts with "Kota". */
  function RegencyType(name: string): (t: string)
    ensures t == City <==> StartsWith(name, "Kota")
    ensures t in {City, RegencyKind}
  {
    if StartsWith(name, "Kota") then City else RegencyKind
  }

  /** Whether `r` is taken as the data row: non-empty, with a truthy column 1 that holds a newline. */
  predicate IsDataRow(r: Row)
    requires r == [] || |r| >= 2
  {
    r != [] && Truthy(r[1]) && '\n' in r[1].value
  }

  /**
   * `next(r for r in table if r and r[1] and "\n" in str(r[1]))` from row
   * `i` on: the index of the data row, nothing when there is none, or
   * IndexError when a one-cell row is reached first.
   */
  function FindDataRow(table: Table, i: nat): (r: Result<Option<nat>, Raised>)
    requires i <= |table|
    ensures r.Ok? && r.value.Some? ==> (i <= r.value.value < |table| &&
      |table[r.value.value]| >= 2 && IsDataRow(table[r.value.value]))
    ensures r.Ok? ==> forall j :: i <= j < (if r.value.Some? then r.value.value else |table|) ==>
      table[j] == [] || (|table[j]| >= 2 && !IsDataRow(table[j]))
    ensures r.Err? ==> r.error == IndexError && exists j :: i <= j < |table| && |table[j]| == 1
    decreases |table| - i
  {
    if i == |table| then Ok(None)
    else if table[i] == [] then FindDataRow(table, i + 1)
    else if |table[i]| < 2 then Err(IndexError)
    else if IsDataRow(table[i]) then Ok(Some(i))
    else FindDataRow(table, i + 1)
  }

  /**
   * Every emitted row is of the page, with a 4-digit code that begins with
   * its province code, and a type that follows its name.
   */
  predicate WellFormed(out: seq<RegencyRaw>, page: int) {
    forall e :: e in out ==>
      |e.code| == 4 && AllDigits(e.code) && e.provinceCode == e.code[..2] &&
      e.rtype == RegencyType(e.name) && e.sourcePage == page
  }

  /** The regency row that a code line `NN.NN` and its name line give. */
  function RegencyOf(codeRaw: string, name: string, page: int): (e: RegencyRaw)
    requires IsRegencyCode(codeRaw)
    ensures WellFormed([e], page)
    ensures e.code == DotFree(codeRaw) && e.provinceCode == codeRaw[..2] && e.name == name
  {
    DotFreeRegency(codeRaw);
    var code := DotFree(codeRaw);
    RegencyRaw(code, code[..2], name, RegencyType(name), page)
  }

  /** `e` is the regency that one of the pairs `lo` to `hi - 1` gives. */
  predicate Paired(e: RegencyRaw, codes: seq<string>, names: seq<string>, page: int, lo: nat, hi: nat)
    requires hi <= |codes| && hi <= |names|
  {
    exists i :: lo <= i < hi && IsRegencyCode(codes[i]) && e == RegencyOf(codes[i], names[i], page)
  }

  lemma PairedWider(e: RegencyRaw, codes: seq<string>, names: seq<string>, page: int, lo: nat, hi: nat, lo': nat, hi': nat)
    requires lo' <= lo && hi <= hi' && hi' <= |codes| && hi' <= |names| && Paired(e, codes, names, page, lo, hi)
    ensures Paired(e, codes, names, page, lo', hi')
  {
    var i :| lo <= i < hi && IsRegencyCode(codes[i]) && e == RegencyOf(codes[i], names[i], page);
    assert lo' <= i < hi';
  }

  /**
   * The regencies among the first `n` code/name pairs: every pair whose code
   * is `NN.NN` gives its regency, and nothing else is given.
   */
  function Pairs(codes: seq<string>, names: seq<string>, page: int, n: nat): (r: seq<RegencyRaw>)
    requires n <= |codes| && n <= |names|
    ensures |r| <= n
    ensures forall k :: 0 <= k < |r| ==> Paired(r[k], codes, names, page, 0, n)
  {
    if n == 0 then []
    else
      var i := n - 1;
      var prev := Pairs(codes, names, page, i);
      assert forall k :: 0 <= k < |prev| ==> Paired(prev[k], codes, names, page, 0, n) by {
        forall k | 0 <= k < |prev| ensures Paired(prev[k], codes, names, page, 0, n) {
          PairedWider(prev[k], codes, names, page, 0, i, 0, n);
        }
      }
      if IsRegencyCode(codes[i]) then
        var e := RegencyOf(codes[i], names[i], page);
        var r := prev + [e];
        assert Paired(e, codes, names, page, 0, n);
        assert forall k :: 0 <= k < |prev| ==> r[k] == prev[k];
        r
      else prev
  }

  /** Every regency that `Pairs` gives is a well-formed row of the page. */
  lemma PairsWellFormed(codes: seq<string>, names: seq<string>, page: int, n: nat)
    requires n <= |codes| && n <= |names|
    ensures WellFormed(Pairs(codes, names, page, n), page)
  {
    var r := Pairs(codes, names, page, n);
    forall k | 0 <= k < |r| ensures WellFormed([r[k]], page) {
      var i :| 0 <= i < n && IsRegencyCode(codes[i]) && r[k] == RegencyOf(codes[i], names[i], page);
    }
  }

  /** Completeness: every pair whose code is `NN.NN` gives its regency. */
  lemma {:induction false} PairsComplete(codes: seq<string>, names: seq<string>, page: int, n: nat)
    requires n <= |codes| && n <= |names|
    ensures forall i :: 0 <= i < n && IsRegencyCode(codes[i]) ==> RegencyOf(codes[i], names[i], page) in Pairs(codes, names, page, n)
  {
    if n > 0 {
      PairsComplete(codes, names, page, n - 1);
      PairsStep(codes, names, page, n - 1);
    }
  }

  /** Pair `n - 1` adds at most its own regency after those of the pairs before it. */
  lemma PairsLast(codes: seq<string>, names: seq<string>, page: int, n: nat)
    requires 0 < n && n <= |codes| && n <= |names|
    ensures var r := Pairs(codes, names, page, n);
      var q := Pairs(codes, names, page, n - 1);
      IsPrefix(q, r) && forall k :: |q| <= k < |r| ==> Paired(r[k], codes, names, page, n - 1, n)
  {
  }

  /** One step of the `zip` loop: pair `n` appends its regency exactly when its code is `NN.NN`. */
  lemma PairsStep(codes: seq<string>, names: seq<string>, page: int, n: nat)
    requires n < |codes| && n < |names|
    ensures Pairs(codes, names, page, n + 1) ==
      Pairs(codes, names, page, n) + (if IsRegencyCode(codes[n]) then [RegencyOf(codes[n], names[n], page)] else [])
  {
  }

  /** Order: the regencies of the first `m` pairs come first, in the same order. */
  lemma {:induction false} PairsPrefix(codes: seq<string>, names: seq<string>, page: int, m: nat, n: nat)
    requires m <= n && n <= |codes| && n <= |names|
    ensures IsPrefix(Pairs(codes, names, page, m), Pairs(codes, names, page, n))
    decreases n - m
  {
    if m < n {
      PairsPrefix(codes, names, page, m, n - 1);
      PairsLast(codes, names, page, n);
      PrefixOfPrefix(Pairs(codes, names, page, n), Pairs(codes, names, page, n - 1), Pairs(codes, names, page, m));
    } else {
      assert Pairs(codes, names, page, n)[..|Pairs(codes, names, page, n)|] == Pairs(codes, names, page, n);
    }
  }

  /** All pairs give exactly the regencies of the pairs whose code is `NN.NN`. */
  lemma PairsExactly(codes: seq<string>, names: seq<string>, page: int, n: nat)
    requires n <= |codes| && n <= |names|
    ensures var r := Pairs(codes, names, page, n);
      forall e :: e in r <==> Paired(e, codes, names, page, 0, n)
  {
    var r := Pairs(codes, names, page, n);
    PairsComplete(codes, names, page, n);
    forall e | Paired(e, codes, names, page, 0, n) ensures e in r {
      var i :| 0 <= i < n && IsRegencyCode(codes[i]) && e == RegencyOf(codes[i], names[i], page);
    }
    forall e | e in r ensures Paired(e, codes, names, page, 0, n) {
      var k :| 0 <= k < |r| && r[k] == e;
    }
  }

  function Min(a: nat, b: nat): nat { if a <= b then a else b }

  /**
   * What `extract_regencies_from_table` returns: the regencies of the data
   * row's code and name lines, paired by position; no rows when there is no
   * data row, and IndexError where a row lacks column 1 or the data row
   * lacks column 2.
   */
  function ExtractRegencies(table: Table, page: int): (r: Result<seq<RegencyRaw>, Raised>)
    ensures r.Ok? ==> WellFormed(r.value, page)
  {
    match FindDataRow(table, 0)
    case Err(e) => Err(e)
    case Ok(None) => Ok([])
    case Ok(Some(d)) =>
      var row := table[d];
      if |row| < 3 then Err(IndexError)
      else
        var codes := SplitCell(row[1]);
        var names := SplitCell(row[2]);
        PairsWellFormed(codes, names, page, Min(|codes|, |names|));
        Ok(Pairs(codes, names, page, Min(|codes|, |names|)))
  }

  /**
   * With a data row of three cells or more: no more regencies than the
   * shorter of the code and name lists, and exactly the regencies of the
   * code/name pairs whose code is `NN.NN`.
   */
  lemma ExtractRegenciesBound(table: Table, page: int, d: nat)
    requires FindDataRow(table, 0) == Ok(Some(d)) && |table[d]| >= 3
    ensures ExtractRegencies(table, page).Ok?
    ensures |ExtractRegencies(table, page).value| <= |SplitCell(table[d][1])|
    ensures |ExtractRegencies(table, page).value| <= |SplitCell(table[d][2])|
    ensures var codes := SplitCell(table[d][1]);
      var names := SplitCell(table[d][2]);
      forall e :: e in ExtractRegencies(table, page).value <==>
        Paired(e, codes, names, page, 0, Min(|codes|, |names|))
  {
    var codes := SplitCell(table[d][1]);
    var names := SplitCell(table[d][2]);
    PairsExactly(codes, names, page, Min(|codes|, |names|));
  }

  /** The search for the data row. */
  method FindDataRowIndex(table: Table) returns (r: Result<Option<nat>, Raised>)
    ensures r == FindDataRow(table, 0)
  {
    var d := 0;
    while d < |table|
      invariant 0 <= d <= |table|
      invariant FindDataRow(table, 0) == FindDataRow(table, d)
    {
      var row := table[d];
      if row != [] {
        if |row| < 2 {
          return Err(IndexError);
        }
        if row[1].Some? && row[1].value != "" && '\n' in row[1].value {
          return Ok(Some(d));
        }
      }
      d := d + 1;
    }
    r := Ok(None);
  }

  /** The `zip` loop over the code and name lines. */
  method PairUp(codes: seq<string>, names: seq<string>, page: int) returns (rows: seq<RegencyRaw>)
    ensures rows == Pairs(codes, names, page, Min(|codes|, |names|))
  {
    rows := [];
    var i := 0;
    while i < |codes| && i < |names|
      invariant 0 <= i <= Min(|codes|, |names|)
      invariant rows == Pairs(codes, names, page, i)
    {
      var codeRaw := codes[i];
      var name := names[i];
      if IsRegencyCode(codeRaw) {
        var code := DotFree(codeRaw);
        DotFreeRegency(codeRaw);
        var provinceCode := code[..2];
        var regencyType := if StartsWith(name, "Kota") then City else RegencyKind;
        assert RegencyRaw(code, provinceCode, name, regencyType, page) == RegencyOf(codeRaw, name, page);
        rows := rows + [RegencyRaw(code, provinceCode, name, regencyType, page)];
      }
      PairsStep(codes, names, page, i);
      i := i + 1;
    }
  }

  /** `extract_regencies_from_table(table, page_num)`. */
  method ExtractRegenciesFromTable(table: Table, page: int) returns (r: Result<seq<RegencyRaw>, Raised>)
    ensures r == ExtractRegencies(table, page)
  {
    var found := FindDataRowIndex(table);
    if found.Err? {
      return Err(found.error);
    }
    if found.value.None? {
      return Ok([]);
    }
    var dataRow := table[found.value.value];
    if |dataRow| < 3 {
      return Err(IndexError);
    }
    var codes := SplitCell(dataRow[1]);
    var names := SplitCell(dataRow[2]);
    var rows := PairUp(codes, names, page);
    r := Ok(rows);
  }
}
