/**
 * The district parser: reads a district page's table. Province-code rows and
 * regency-code rows update the carried context (and, when they name a
 * capital, are emitted as marker rows without a name); district-code rows
 * are emitted with whatever context is current.
 */
module DistrictParser {
  import opened Wrappers
  import opened Text
  import opened Codes

  /** A raw district-page row; marker rows have no name. */
  datatype DistrictRaw = DistrictRaw(
    code: string,
    provinceCode: Option<string>,
    regencyCode: Option<string>,
    name: Option<string>,
    provinceCapital: Option<string>,
    regencyCapital: Option<string>,
    sourcePage: int)

  /** The four `current_*` variables, seeded from `initial_context`. */
  datatype DistrictContext = DistrictContext(
    provinceCode: Option<string>,
    regencyCode: Option<string>,
    provinceCapital: Option<string>,
    regencyCapital: Option<string>)

  const EmptyContext := DistrictContext(None, None, None, None)

  predicate IsControl(c: char) { c == '\n' || c == '\r' || c == '\t' }

  predicate NoControl(s: string) { forall i :: 0 <= i < |s| ==> !IsControl(s[i]) }

  predicate NoDoubleSpace(s: string) {
    forall i :: 0 <= i < |s| - 1 ==> !(IsSpace(s[i]) && IsSpace(s[i + 1]))
  }

  /**
   * `clean_name`: nothing for "", otherwise runs of tab/CR/LF become a space,
   * runs of two or more whitespace characters become one space, and the
   * ends are stripped.
   */
  function CleanName(value: string): (r: Option<string>)
    ensures r.None? <==> value == ""
    ensures r.Some? ==> NoControl(r.value) && NoDoubleSpace(r.value) && IsStripped(r.value)
  {
    if value == "" then None
    else
      var s1 := ReplaceRuns(value, IsControl, 1);
      ReplacedRunsGone(value);
      var s2 := ReplaceRuns(s1, IsSpace, 2);
      CollapsedRunsSingle(s1);
      CollapsedNoControl(s1);
      var s3 := Strip(s2);
      StripKeeps(s2);
      Some(s3)
  }

  lemma {:induction false} ReplacedRunsGone(s: string)
    ensures NoControl(ReplaceRuns(s, IsControl, 1))
    decreases |s|
  {
    if s != [] {
      if IsControl(s[0]) {
        ReplacedRunsGone(s[RunLength(s, IsControl)..]);
      } else {
        ReplacedRunsGone(s[1..]);
      }
    }
  }

  /** Collapsing whitespace runs keeps a first character that is not whitespace. */
  lemma CollapsedHead(s: string)
    requires s != [] && !IsSpace(s[0])
    ensures ReplaceRuns(s, IsSpace, 2) != [] && ReplaceRuns(s, IsSpace, 2)[0] == s[0]
  {
  }

  /** Replacing whitespace runs of two or more leaves only lone whitespace. */
  lemma {:induction false} CollapsedRunsSingle(s: string)
    ensures NoDoubleSpace(ReplaceRuns(s, IsSpace, 2))
    decreases |s|
  {
    if s != [] {
      var r := ReplaceRuns(s, IsSpace, 2);
      if IsSpace(s[0]) {
        var n := RunLength(s, IsSpace);
        var rest := s[n..];
        var tail := ReplaceRuns(rest, IsSpace, 2);
        CollapsedRunsSingle(rest);
        if rest != [] {
          CollapsedHead(rest);
        }
        var head := if n >= 2 then " " else s[..n];
        assert |head| == 1;
        assert r == head + tail;
        forall i | 0 <= i < |r| - 1
          ensures !(IsSpace(r[i]) && IsSpace(r[i + 1]))
        {
          if i > 0 {
            assert r[i] == tail[i - 1] && r[i + 1] == tail[i];
          }
        }
      } else {
        var tail := ReplaceRuns(s[1..], IsSpace, 2);
        CollapsedRunsSingle(s[1..]);
        assert r == [s[0]] + tail;
        forall i | 0 <= i < |r| - 1
          ensures !(IsSpace(r[i]) && IsSpace(r[i + 1]))
        {
          if i > 0 {
            assert r[i] == tail[i - 1] && r[i + 1] == tail[i];
          }
        }
      }
    }
  }

  /** Collapsing whitespace runs adds no control character. */
  lemma {:induction false} CollapsedNoControl(s: string)
    requires NoControl(s)
    ensures NoControl(ReplaceRuns(s, IsSpace, 2))
    decreases |s|
  {
    if s != [] {
      var r := ReplaceRuns(s, IsSpace, 2);
      if IsSpace(s[0]) {
        var n := RunLength(s, IsSpace);
        assert NoControl(s[n..]) by {
          forall i | 0 <= i < |s[n..]| ensures !IsControl(s[n..][i]) {
            assert s[n..][i] == s[n + i];
          }
        }
        CollapsedNoControl(s[n..]);
      } else {
        assert NoControl(s[1..]) by {
          forall i | 0 <= i < |s[1..]| ensures !IsControl(s[1..][i]) {
            assert s[1..][i] == s[1 + i];
          }
        }
        CollapsedNoControl(s[1..]);
      }
    }
  }

  /** A contiguous piece of a string without control characters has none. */
  lemma SliceNoControl(s: string, a: nat, b: nat)
    requires a <= b <= |s| && NoControl(s)
    ensures NoControl(s[a..b])
  {
    forall i | 0 <= i < b - a ensures !IsControl(s[a..b][i]) {
      assert s[a..b][i] == s[a + i];
    }
  }

  /** A contiguous piece of a string without double whitespace has none. */
  lemma SliceNoDoubleSpace(s: string, a: nat, b: nat)
    requires a <= b <= |s| && NoDoubleSpace(s)
    ensures NoDoubleSpace(s[a..b])
  {
    forall i | 0 <= i < b - a - 1 ensures !(IsSpace(s[a..b][i]) && IsSpace(s[a..b][i + 1])) {
      assert s[a..b][i] == s[a + i] && s[a..b][i + 1] == s[a + i + 1];
    }
  }

  /** Stripping takes a contiguous piece, so it keeps both properties. */
  lemma StripKeeps(s: string)
    ensures NoControl(s) ==> NoControl(Strip(s))
    ensures NoDoubleSpace(s) ==> NoDoubleSpace(Strip(s))
  {
    var a, b := StripBounds(s);
    if NoControl(s) {
      SliceNoControl(s, a, b);
    }
    if NoDoubleSpace(s) {
      SliceNoDoubleSpace(s, a, b);
    }
  }

  lemma {:induction false} ControlFreeUnchanged(s: string)
    requires NoControl(s)
    ensures ReplaceRuns(s, IsControl, 1) == s
    decreases |s|
  {
    if s != [] {
      ControlFreeUnchanged(s[1..]);
    }
  }

  lemma {:induction false} SingleSpacesUnchanged(s: string)
    requires NoDoubleSpace(s)
    ensures ReplaceRuns(s, IsSpace, 2) == s
    decreases |s|
  {
    if s != [] {
      assert NoDoubleSpace(s[1..]) by {
        forall i | 0 <= i < |s[1..]| - 1 ensures !(IsSpace(s[1..][i]) && IsSpace(s[1..][i + 1])) {
          assert s[1..][i] == s[i + 1] && s[1..][i + 1] == s[i + 2];
        }
      }
      SingleSpacesUnchanged(s[1..]);
      if IsSpace(s[0]) {
        assert |s| == 1 || !IsSpace(s[1]);
        assert RunLength(s[1..], IsSpace) == 0;
        assert s == s[..1] + s[1..];
      }
    }
  }

  /** A non-empty cleaned name is left as it is by a second cleaning. */
  lemma CleanNameIdempotent(value: string)
    requires CleanName(value).Some? && CleanName(value).value != ""
    ensures CleanName(CleanName(value).value) == CleanName(value)
  {
    var t := CleanName(value).value;
    ControlFreeUnchanged(t);
    SingleSpacesUnchanged(t);
    StripStripped(t);
  }

  /** The text a header cell adds to its column: a space and the cell, when the cell is truthy. */
  function HeaderPiece(row: Row, i: nat): string {
    if i < |row| && Truthy(row[i]) then " " + row[i].value else ""
  }

  /** Column `i` of the merged header, before the final clean-up. */
  function MergedColumn(rows: seq<Row>, i: nat): string {
    if rows == [] then "" else MergedColumn(rows[..|rows| - 1], i) + HeaderPiece(rows[|rows| - 1], i)
  }

  function MaxLength(rows: seq<Row>): (n: nat)
    ensures forall k :: 0 <= k < |rows| ==> |rows[k]| <= n
    ensures rows != [] ==> exists k :: 0 <= k < |rows| && |rows[k]| == n
  {
    if rows == [] then 0
    else
      var m := MaxLength(rows[..|rows| - 1]);
      var l := |rows[|rows| - 1]|;
      if l > m then l else m
  }

  function ReplaceChar(s: string, from: char, to: char): (r: string)
    ensures |r| == |s|
    ensures forall i :: 0 <= i < |s| ==> r[i] == (if s[i] == from then to else s[i])
  {
    seq(|s|, i requires 0 <= i < |s| => if s[i] == from then to else s[i])
  }

  /** `h.strip().upper().replace("\n", " ")`. */
  function FinishHeader(h: string): (r: string)
    ensures '\n' !in r && NoLower(r)
  {
    var u := Upper(Strip(h));
    var r := ReplaceChar(u, '\n', ' ');
    assert forall i :: 0 <= i < |r| ==> r[i] == ' ' || r[i] == u[i];
    r
  }

  /** The header rows: at most the first two rows of the table. */
  function HeaderRows(table: Table): seq<Row> {
    if |table| <= 2 then table else table[..2]
  }

  /**
   * What `normalize_header_rows` returns: one entry per column of the widest
   * of the first two rows, holding that column's truthy cells joined and
   * cleaned; nothing for an empty table, where `max()` raises ValueError.
   */
  function MergedHeader(table: Table): (r: Option<seq<string>>)
    ensures r.None? <==> table == []
    ensures r.Some? ==> |r.value| == MaxLength(HeaderRows(table))
    ensures r.Some? ==> forall i :: 0 <= i < |r.value| ==> '\n' !in r.value[i] && NoLower(r.value[i])
  {
    if table == [] then None
    else
      Some(FinishedColumns(HeaderRows(table)))
  }

  /** Every column of the header rows, merged and finished. */
  function FinishedColumns(rows: seq<Row>): (r: seq<string>)
    ensures |r| == MaxLength(rows)
    ensures forall i :: 0 <= i < |r| ==> r[i] == FinishHeader(MergedColumn(rows, i))
  {
    seq(MaxLength(rows), i requires 0 <= i < MaxLength(rows) => FinishHeader(MergedColumn(rows, i)))
  }

  /** `normalize_header_rows(table)`: merges the first two rows column by column. */
  method NormalizeHeaderRows(table: Table) returns (r: Option<seq<string>>)
    ensures r == MergedHeader(table)
  {
    if table == [] {
      return None;
    }
    var headers := HeaderRows(table);
    var colCount := ColumnCount(headers);
    var merged := seq(colCount, i => "");
    var k := 0;
    while k < |headers|
      invariant 0 <= k <= |headers|
      invariant |merged| == colCount
      invariant forall j :: 0 <= j < colCount ==> merged[j] == MergedColumn(headers[..k], j)
    {
      assert headers[..k + 1][..k] == headers[..k];
      merged := MergeRow(merged, headers[k]);
      k := k + 1;
    }
    assert headers[..k] == headers;
    var finished := seq(colCount, i requires 0 <= i < colCount => FinishHeader(merged[i]));
    assert finished == MergedHeader(table).value;
    r := Some(finished);
  }

  /** `max(len(r) for r in rows)` for non-empty `rows`. */
  method ColumnCount(rows: seq<Row>) returns (n: nat)
    ensures n == MaxLength(rows)
  {
    n := 0;
    var k := 0;
    while k < |rows|
      invariant 0 <= k <= |rows|
      invariant n == MaxLength(rows[..k])
    {
      assert rows[..k + 1][..k] == rows[..k];
      if |rows[k]| > n {
        n := |rows[k]|;
      }
      k := k + 1;
    }
    assert rows[..k] == rows;
  }

  /** The inner loop: appends a space and each truthy cell of `row` to its column. */
  method MergeRow(merged: seq<string>, row: Row) returns (m: seq<string>)
    requires |row| <= |merged|
    ensures |m| == |merged|
    ensures forall j :: 0 <= j < |m| ==> m[j] == merged[j] + HeaderPiece(row, j)
  {
    m := merged;
    var i := 0;
    while i < |row|
      invariant 0 <= i <= |row|
      invariant |m| == |merged|
      invariant forall j :: 0 <= j < i ==> m[j] == merged[j] + HeaderPiece(row, j)
      invariant forall j :: i <= j < |m| ==> m[j] == merged[j]
    {
      if row[i].Some? && row[i].value != "" {
        m := m[i := m[i] + " " + row[i].value];
      } else {
        assert HeaderPiece(row, i) == "";
      }
      i := i + 1;
    }
  }

  /** `find_col_idx`: the first header that contains `keyword`, if any. */
  function FindColIdx(headers: seq<string>, keyword: string): (r: Option<nat>)
    ensures r.Some? ==> r.value < |headers| && Contains(headers[r.value], keyword)
    ensures r.Some? ==> forall j :: 0 <= j < r.value ==> !Contains(headers[j], keyword)
    ensures r.None? ==> forall j :: 0 <= j < |headers| ==> !Contains(headers[j], keyword)
  {
    if headers == [] then None
    else if Contains(headers[0], keyword) then Some(0)
    else
      match FindColIdx(headers[1..], keyword)
      case None => None
      case Some(k) => Some(k + 1)
  }

  /** The columns the parser reads. */
  datatype Columns = Columns(code: nat, name: nat, capital: Option<nat>)

  /** The marker row a province- or regency-code row with a capital emits. */
  function Marker(code: string, c: DistrictContext, page: int): DistrictRaw {
    DistrictRaw(DotFree(code), c.provinceCode, c.regencyCode, None, c.provinceCapital, c.regencyCapital, page)
  }

  /** The capital cell, stripped and cleaned; nothing when absent or empty. */
  function CapitalOf(row: Row, cols: Columns): Option<string> {
    CleanName(
      if cols.capital.Some? && cols.capital.value < |row| && Truthy(row[cols.capital.value])
      then Strip(row[cols.capital.value].value) else "")
  }

  predicate HasText(s: Option<string>) { s.Some? && s.value != "" }

  /** Every emitted row is of the page, and exactly the district rows carry a name. */
  predicate WellFormed(out: seq<DistrictRaw>, page: int) {
    forall e :: e in out ==> e.sourcePage == page && (e.name.None? <==> |e.code| != 6)
  }

  /**
   * What a row with a non-empty code does: a province or regency code moves
   * that part of the context (and, with a capital, its capital, emitting a
   * marker); a district code is emitted under the current context; any other
   * code is ignored.
   */
  function Visit(c: DistrictContext, code: string, name: string, capital: Option<string>, page: int): (r: (DistrictContext, seq<DistrictRaw>))
    ensures |r.1| <= 1 && WellFormed(r.1, page)
    ensures IsProvinceCode(code) ==>
      r.0.provinceCode == Some(code) && r.0.regencyCode == c.regencyCode && r.0.regencyCapital == c.regencyCapital &&
      (HasText(capital) ==> r.0.provinceCapital == capital && r.1 == [Marker(code, r.0, page)]) &&
      (!HasText(capital) ==> r.0.provinceCapital == c.provinceCapital && r.1 == [])
    ensures IsRegencyCode(code) ==>
      r.0.regencyCode == Some(DotFree(code)) && r.0.provinceCode == c.provinceCode && r.0.provinceCapital == c.provinceCapital &&
      (HasText(capital) ==> r.0.regencyCapital == capital && r.1 == [Marker(code, r.0, page)]) &&
      (!HasText(capital) ==> r.0.regencyCapital == c.regencyCapital && r.1 == [])
    ensures IsDistrictCode(code) ==>
      r.0 == c && r.1 == [DistrictRaw(DotFree(code), c.provinceCode, c.regencyCode,
        Some(DropOrdinal(name, true)), c.provinceCapital, c.regencyCapital, page)]
    ensures !IsProvinceCode(code) && !IsRegencyCode(code) && !IsDistrictCode(code) ==> r == (c, [])
  {
    if IsProvinceCode(code) then
      DigitsDotFree(code);
      var c1 := c.(provinceCode := Some(code));
      if HasText(capital) then
        var c2 := c1.(provinceCapital := capital);
        (c2, [Marker(code, c2, page)])
      else (c1, [])
    else if IsRegencyCode(code) then
      DotFreeRegency(code);
      var c1 := c.(regencyCode := Some(DotFree(code)));
      if HasText(capital) then
        var c2 := c1.(regencyCapital := capital);
        (c2, [Marker(code, c2, page)])
      else (c1, [])
    else if IsDistrictCode(code) then
      DotFreeDistrict(code);
      (c, [DistrictRaw(DotFree(code), c.provinceCode, c.regencyCode,
        Some(DropOrdinal(name, true)), c.provinceCapital, c.regencyCapital, page)])
    else (c, [])
  }

  /**
   * One iteration of the row loop: the new context and the rows emitted, or
   * nothing where the unchecked name-cell access raises IndexError. Rows
   * without a code cell or with a blank code change nothing.
   */
  function ScanRow(c: DistrictContext, row: Row, cols: Columns, page: int): (r: Option<(DistrictContext, seq<DistrictRaw>)>)
    ensures r.None? <==> row != [] && cols.code < |row| && cols.name >= |row|
    ensures r.Some? && (row == [] || cols.code >= |row| || CellText(row[cols.code]) == "") ==> r.value == (c, [])
    ensures r.Some? ==> |r.value.1| <= 1 && WellFormed(r.value.1, page)
  {
    if row == [] || cols.code >= |row| then Some((c, []))
    else if cols.name >= |row| then None
    else
      var code := CellText(row[cols.code]);
      if code == "" then Some((c, []))
      else Some(Visit(c, code, CellText(row[cols.name]), CapitalOf(row, cols), page))
  }

  /** The row loop over the first `|rows|` rows: final context and emitted rows, or IndexError. */
  function Scan(c: DistrictContext, rows: seq<Row>, cols: Columns, page: int): (r: Option<(DistrictContext, seq<DistrictRaw>)>)
    ensures r.Some? ==> |r.value.1| <= |rows| && WellFormed(r.value.1, page)
  {
    if rows == [] then Some((c, []))
    else
      match Scan(c, rows[..|rows| - 1], cols, page)
      case None => None
      case Some((c1, out)) =>
        match ScanRow(c1, rows[|rows| - 1], cols, page)
        case None => None
        case Some((c2, more)) => Some((c2, out + more))
  }

  /**
   * What `extract_districts_from_table` returns: no rows without a KODE or a
   * KECAMATAN column, ValueError for an empty table, IndexError for a row
   * too short for the name column.
   */
  function ExtractDistricts(table: Table, page: int, initial: DistrictContext): (r: Result<seq<DistrictRaw>, Raised>)
    ensures table == [] ==> r == Err(ValueError)
    ensures r.Ok? ==> |r.value| <= |table| && WellFormed(r.value, page)
  {
    match MergedHeader(table)
    case None => Err(ValueError)
    case Some(headers) =>
      var code := FindColIdx(headers, "KODE");
      var name := FindColIdx(headers, "KECAMATAN");
      if code.None? || name.None? then Ok([])
      else
        match Scan(initial, table, Columns(code.value, name.value, FindColIdx(headers, "IBUKOTA")), page)
        case None => Err(IndexError)
        case Some((_, rows)) => Ok(rows)
  }

  /** Without a KODE or a KECAMATAN header column, nothing is extracted. */
  lemma MissingColumns(table: Table, page: int, initial: DistrictContext)
    requires table != []
    requires var h := MergedHeader(table).value;
      FindColIdx(h, "KODE").None? || FindColIdx(h, "KECAMATAN").None?
    ensures ExtractDistricts(table, page, initial) == Ok([])
  {
  }

  /** The body of the row loop for one row: its guards, then the code's effect on the context. */
  method ScanOneRow(c: DistrictContext, row: Row, cols: Columns, page: int)
    returns (r: Option<(DistrictContext, seq<DistrictRaw>)>)
    ensures r == ScanRow(c, row, cols, page)
  {
    if row == [] || cols.code >= |row| {
      return Some((c, []));
    }
    if cols.name >= |row| {
      return None;
    }
    var code := CellText(row[cols.code]);
    var name := CellText(row[cols.name]);
    var capital := CapitalOf(row, cols);
    if code == "" {
      return Some((c, []));
    }
    var visited := VisitCode(c, code, name, capital, page);
    r := Some(visited);
  }

  /** What a row with a non-empty code does to the context and the output. */
  method VisitCode(c: DistrictContext, code: string, name: string, capital: Option<string>, page: int)
    returns (r: (DistrictContext, seq<DistrictRaw>))
    ensures r == Visit(c, code, name, capital, page)
  {
    var next := c;
    var emitted: seq<DistrictRaw> := [];
    if IsProvinceCode(code) {
      next := next.(provinceCode := Some(code));
      if capital.Some? && capital.value != "" {
        next := next.(provinceCapital := capital);
        emitted := [Marker(code, next, page)];
      }
    } else if IsRegencyCode(code) {
      next := next.(regencyCode := Some(DotFree(code)));
      if capital.Some? && capital.value != "" {
        next := next.(regencyCapital := capital);
        emitted := [Marker(code, next, page)];
      }
    } else if IsDistrictCode(code) {
      emitted := [DistrictRaw(DotFree(code), c.provinceCode, c.regencyCode,
        Some(DropOrdinal(name, true)), c.provinceCapital, c.regencyCapital, page)];
    }
    r := (next, emitted);
  }

  /** The row loop of `extract_districts_from_table`, once the columns are known. */
  method ScanTable(initial: DistrictContext, table: Table, cols: Columns, page: int)
    returns (r: Option<(DistrictContext, seq<DistrictRaw>)>)
    ensures r == Scan(initial, table, cols, page)
  {
    var c := initial;
    var rows: seq<DistrictRaw> := [];
    var k := 0;
    while k < |table|
      invariant 0 <= k <= |table|
      invariant Scan(initial, table[..k], cols, page) == Some((c, rows))
    {
      ScanStep(initial, table, k, cols, page, c, rows);
      var step := ScanOneRow(c, table[k], cols, page);
      if step.None? {
        ScanNone(initial, table, cols, page, k + 1);
        return None;
      }
      c := step.value.0;
      rows := rows + step.value.1;
      k := k + 1;
    }
    assert table[..k] == table;
    r := Some((c, rows));
  }

  /** `extract_districts_from_table(table, page_num, initial_context)`. */
  method ExtractDistrictsFromTable(table: Table, page: int, initial: DistrictContext)
    returns (r: Result<seq<DistrictRaw>, Raised>)
    ensures r == ExtractDistricts(table, page, initial)
  {
    var headers := NormalizeHeaderRows(table);
    if headers.None? {
      return Err(ValueError);
    }
    var idxCode := FindColIdx(headers.value, "KODE");
    var idxName := FindColIdx(headers.value, "KECAMATAN");
    var idxCap := FindColIdx(headers.value, "IBUKOTA");
    if idxCode.None? || idxName.None? {
      return Ok([]);
    }
    var scanned := ScanTable(initial, table, Columns(idxCode.value, idxName.value, idxCap), page);
    if scanned.None? {
      return Err(IndexError);
    }
    r := Ok(scanned.value.1);
  }

  /** The scan of one more row continues the scan of the rows before it. */
  lemma ScanStep(c: DistrictContext, rows: seq<Row>, k: nat, cols: Columns, page: int, c1: DistrictContext, out: seq<DistrictRaw>)
    requires k < |rows| && Scan(c, rows[..k], cols, page) == Some((c1, out))
    ensures ScanRow(c1, rows[k], cols, page).None? ==> Scan(c, rows[..k + 1], cols, page).None?
    ensures ScanRow(c1, rows[k], cols, page).Some? ==>
      Scan(c, rows[..k + 1], cols, page) ==
        Some((ScanRow(c1, rows[k], cols, page).value.0, out + ScanRow(c1, rows[k], cols, page).value.1))
  {
    assert rows[..k + 1][..k] == rows[..k];
  }

  /** Once a prefix of the rows raises, the whole scan does. */
  lemma {:induction false} ScanNone(c: DistrictContext, rows: seq<Row>, cols: Columns, page: int, k: nat)
    requires k <= |rows| && Scan(c, rows[..k], cols, page).None?
    ensures Scan(c, rows, cols, page).None?
    decreases |rows| - k
  {
    if k < |rows| {
      assert rows[..k + 1][..k] == rows[..k];
      ScanNone(c, rows, cols, page, k + 1);
    } else {
      assert rows[..k] == rows;
    }
  }

  /** Order: the rows emitted for the first `k` table rows come first, in the same order. */
  lemma {:induction false} ScanPrefix(c: DistrictContext, rows: seq<Row>, cols: Columns, page: int, k: nat)
    requires k <= |rows| && Scan(c, rows, cols, page).Some?
    ensures Scan(c, rows[..k], cols, page).Some?
    ensures IsPrefix(Scan(c, rows[..k], cols, page).value.1, Scan(c, rows, cols, page).value.1)
    decreases |rows| - k
  {
    if k == |rows| {
      assert rows[..k] == rows;
      var out := Scan(c, rows, cols, page).value.1;
      assert out[..|out|] == out;
    } else {
      ScanPrefix(c, rows, cols, page, k + 1);
      assert rows[..k + 1][..k] == rows[..k];
      var q := Scan(c, rows[..k + 1], cols, page).value.1;
      var p := Scan(c, rows[..k], cols, page).value.1;
      assert q[..|p|] == p;
      PrefixOfPrefix(Scan(c, rows, cols, page).value.1, q, p);
    }
  }

  /**
   * Table row `k`, met in the context `ctx` that the rows before it left:
   * without a code it changes nothing; with a code it does what `Visit`
   * does with its name and capital cells, its rows appended to those before.
   */
  lemma ScanVisits(c: DistrictContext, rows: seq<Row>, cols: Columns, page: int, k: nat,
                   ctx: DistrictContext, before: seq<DistrictRaw>)
    requires k < |rows| && Scan(c, rows, cols, page).Some?
    requires Scan(c, rows[..k], cols, page) == Some((ctx, before))
    ensures rows[k] == [] || cols.code >= |rows[k]| || CellText(rows[k][cols.code]) == "" ==>
      Scan(c, rows[..k + 1], cols, page) == Some((ctx, before))
    ensures cols.code < |rows[k]| && CellText(rows[k][cols.code]) != "" ==>
      cols.name < |rows[k]| &&
      Scan(c, rows[..k + 1], cols, page) ==
        Some((Visit(ctx, CellText(rows[k][cols.code]), CellText(rows[k][cols.name]), CapitalOf(rows[k], cols), page).0,
          before + Visit(ctx, CellText(rows[k][cols.code]), CellText(rows[k][cols.name]), CapitalOf(rows[k], cols), page).1))
  {
    ScanPrefix(c, rows, cols, page, k + 1);
    ScanStep(c, rows, k, cols, page, ctx, before);
    assert before + [] == before;
  }

  /**
   * A district-code row emits its district, named without the leading
   * ordinal, under the context the rows before it left, right after their
   * rows.
   */
  lemma DistrictEmitted(c: DistrictContext, rows: seq<Row>, cols: Columns, page: int, k: nat,
                        ctx: DistrictContext, before: seq<DistrictRaw>)
    requires k < |rows| && Scan(c, rows, cols, page).Some?
    requires Scan(c, rows[..k], cols, page) == Some((ctx, before))
    requires cols.code < |rows[k]| && IsDistrictCode(CellText(rows[k][cols.code]))
    ensures cols.name < |rows[k]| && |before| < |Scan(c, rows, cols, page).value.1|
    ensures Scan(c, rows, cols, page).value.1[|before|] ==
      DistrictRaw(DotFree(CellText(rows[k][cols.code])), ctx.provinceCode, ctx.regencyCode,
        Some(DropOrdinal(CellText(rows[k][cols.name]), true)), ctx.provinceCapital, ctx.regencyCapital, page)
  {
    ScanVisits(c, rows, cols, page, k, ctx, before);
    ScanPrefix(c, rows, cols, page, k + 1);
    var q := Scan(c, rows[..k + 1], cols, page).value.1;
    assert q[|before|] == Scan(c, rows, cols, page).value.1[..|q|][|before|];
  }

  /**
   * With both a KODE and a KECAMATAN column, `extract_districts_from_table`
   * returns the rows of the scan over every table row, header rows
   * included, or IndexError where the scan raises.
   */
  lemma ExtractDistrictsScan(table: Table, page: int, initial: DistrictContext, headers: seq<string>, cols: Columns)
    requires MergedHeader(table) == Some(headers)
    requires FindColIdx(headers, "KODE") == Some(cols.code) && FindColIdx(headers, "KECAMATAN") == Some(cols.name)
    requires cols.capital == FindColIdx(headers, "IBUKOTA")
    ensures ExtractDistricts(table, page, initial).Ok? <==> Scan(initial, table, cols, page).Some?
    ensures ExtractDistricts(table, page, initial).Err? ==> ExtractDistricts(table, page, initial).error == IndexError
    ensures ExtractDistricts(table, page, initial).Ok? ==>
      ExtractDistricts(table, page, initial).value == Scan(initial, table, cols, page).value.1
  {
  }
}
