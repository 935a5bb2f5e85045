/**
 * The village parser: walks a village page's table after its header row. A
 * district-code row sets the current district; a village-code row under a
 * current district is emitted with its name from the kelurahan column, or
 * failing that the desa column.
 */
module VillageParser {
  import opened Wrappers
  import opened Text
  import opened Codes

  /** A raw village row; `vtype` is "kelurahan" or "desa". */
  datatype VillageRaw = VillageRaw(code: string, name: string, districtCode: string, vtype: string, sourcePage: int)

  const Kelurahan := "kelurahan"
  const Desa := "desa"

  /** Cell `i` of `row`, stripped, or "" when the cell is falsy or missing. */
  function CellAt(row: Row, i: nat): string {
    if i < |row| then CellText(row[i]) else ""
  }

  /** Every emitted row is of the page, with a 10-digit code, a 6-digit district and a known type. */
  predicate WellFormed(out: seq<VillageRaw>, page: int) {
    forall e :: e in out ==>
      e.sourcePage == page && |e.code| == 10 && AllDigits(e.code) &&
      |e.districtCode| == 6 && AllDigits(e.districtCode) && e.vtype in {Kelurahan, Desa}
  }

  /**
   * A row of at least seven cells with code `kode` and name cells `kelurahan`
   * and `desa`: the new current district and the rows emitted.
   */
  function VisitCode(current: Option<string>, kode: string, kelurahan: string, desa: string, page: int): (r: (Option<string>, seq<VillageRaw>))
    requires current.Some? ==> |current.value| == 6 && AllDigits(current.value)
    ensures r.0.Some? ==> |r.0.value| == 6 && AllDigits(r.0.value)
    ensures |r.1| <= 1 && WellFormed(r.1, page)
    ensures IsDistrictCode(kode) ==> r == (Some(DotFree(kode)), [])
    ensures !IsDistrictCode(kode) ==> r.0 == current
    ensures (IsVillageCode(kode) && current.Some? && (kelurahan != "" || desa != "")) <==> r.1 != []
    ensures r.1 != [] ==> (r.1[0].districtCode == current.value && r.1[0].code == DotFree(kode))
    ensures r.1 != [] && kelurahan != "" ==> (r.1[0].vtype == Kelurahan && r.1[0].name == DropOrdinal(kelurahan, false))
    ensures r.1 != [] && kelurahan == "" ==> (r.1[0].vtype == Desa && r.1[0].name == DropOrdinal(desa, false))
  {
    if IsDistrictCode(kode) && !IsVillageCode(kode) then
      DotFreeDistrict(kode);
      (Some(DotFree(kode)), [])
    else if IsVillageCode(kode) && current.Some? && current.value != "" then
      DotFreeVillage(kode);
      if kelurahan != "" then
        (current, [VillageRaw(DotFree(kode), DropOrdinal(kelurahan, false), current.value, Kelurahan, page)])
      else if desa != "" then
        (current, [VillageRaw(DotFree(kode), DropOrdinal(desa, false), current.value, Desa, page)])
      else (current, [])
    else (current, [])
  }

  /**
   * One row after the header: rows with fewer than seven cells are skipped,
   * the others are read from their code cell and cells 5 and 6.
   */
  function VisitRow(current: Option<string>, row: Row, page: int): (r: (Option<string>, seq<VillageRaw>))
    requires current.Some? ==> |current.value| == 6 && AllDigits(current.value)
    ensures r.0.Some? ==> |r.0.value| == 6 && AllDigits(r.0.value)
    ensures |r.1| <= 1 && WellFormed(r.1, page)
    ensures |row| < 7 ==> r == (current, [])
  {
    if |row| < 7 then (current, [])
    else VisitCode(current, CellAt(row, 0), CellAt(row, 5), CellAt(row, 6), page)
  }

  /** The row loop over `rows`: the final current district and the rows emitted. */
  function Scan(rows: seq<Row>, page: int): (r: (Option<string>, seq<VillageRaw>))
    ensures r.0.Some? ==> |r.0.value| == 6 && AllDigits(r.0.value)
    ensures |r.1| <= |rows| && WellFormed(r.1, page)
  {
    if rows == [] then (None, [])
    else
      var (current, out) := Scan(rows[..|rows| - 1], page);
      var (next, more) := VisitRow(current, rows[|rows| - 1], page);
      (next, out + more)
  }

  /** What `extract_villages_from_table` returns: the rows emitted after the header row. */
  function ExtractVillages(table: Table, page: int): (r: seq<VillageRaw>)
    ensures |r| <= |table| && WellFormed(r, page)
    ensures |r| < |table| || table == []
  {
    if table == [] then [] else Scan(table[1..], page).1
  }

  /** The header row is never looked at: any other first row gives the same result. */
  lemma HeaderIgnored(table: Table, header: Row, page: int)
    requires table != []
    ensures ExtractVillages([header] + table[1..], page) == ExtractVillages(table, page)
  {
    assert ([header] + table[1..])[1..] == table[1..];
  }

  /** Before any district-code row, village-code rows are dropped. */
  lemma {:induction false} NoDistrictNoVillages(rows: seq<Row>, page: int)
    requires forall k :: 0 <= k < |rows| ==> !IsDistrictCode(CellAt(rows[k], 0))
    ensures Scan(rows, page) == (None, [])
  {
    if rows != [] {
      NoDistrictNoVillages(rows[..|rows| - 1], page);
    }
  }

  /** A row that makes its district the current one. */
  predicate SetsDistrict(row: Row) {
    |row| >= 7 && IsDistrictCode(CellAt(row, 0))
  }

  /** The rows emitted for a prefix of the table start the rows emitted for the whole of it. */
  lemma {:induction false} ScanPrefix(rows: seq<Row>, page: int, m: nat)
    requires m <= |rows|
    ensures IsPrefix(Scan(rows[..m], page).1, Scan(rows, page).1)
  {
    if m < |rows| {
      var front := rows[..|rows| - 1];
      assert front[..m] == rows[..m];
      ScanPrefix(front, page, m);
      var more := VisitRow(Scan(front, page).0, rows[|rows| - 1], page).1;
      assert Scan(rows, page).1 == Scan(front, page).1 + more;
      assert IsPrefix(Scan(front, page).1, Scan(rows, page).1) by {
        assert (Scan(front, page).1 + more)[..|Scan(front, page).1|] == Scan(front, page).1;
      }
      PrefixOfPrefix(Scan(rows, page).1, Scan(front, page).1, Scan(rows[..m], page).1);
    } else {
      assert rows[..m] == rows;
      assert Scan(rows, page).1[..|Scan(rows, page).1|] == Scan(rows, page).1;
    }
  }

  /**
   * Row `k` is visited with the district current after the rows before it, and
   * what it emits follows, in the final output, what those rows emitted.
   */
  lemma VillageEmitted(rows: seq<Row>, page: int, k: nat)
    requires k < |rows|
    ensures IsPrefix(Scan(rows[..k], page).1 + VisitRow(Scan(rows[..k], page).0, rows[k], page).1, Scan(rows, page).1)
  {
    assert rows[..k + 1][..k] == rows[..k];
    assert rows[..k + 1][k] == rows[k];
    ScanPrefix(rows, page, k + 1);
  }

  /** After the rows, the current district is the one of the last row that set a district. */
  lemma {:induction false} CurrentIsLastDistrict(rows: seq<Row>, page: int, j: nat)
    requires j < |rows| && SetsDistrict(rows[j])
    requires forall i :: j < i < |rows| ==> !SetsDistrict(rows[i])
    ensures Scan(rows, page).0 == Some(DotFree(CellAt(rows[j], 0)))
  {
    var front := rows[..|rows| - 1];
    if j < |rows| - 1 {
      assert front[j] == rows[j];
      CurrentIsLastDistrict(front, page, j);
      assert !SetsDistrict(rows[|rows| - 1]);
    }
  }

  /** Before any row that sets a district there is no current district. */
  lemma {:induction false} NoCurrentDistrict(rows: seq<Row>, page: int)
    requires forall i :: 0 <= i < |rows| ==> !SetsDistrict(rows[i])
    ensures Scan(rows, page).0 == None
  {
    if rows != [] {
      NoCurrentDistrict(rows[..|rows| - 1], page);
      assert !SetsDistrict(rows[|rows| - 1]);
    }
  }

  /** `extract_villages_from_table(table, page)`. */
  method ExtractVillagesFromTable(table: Table, page: int) returns (rows: seq<VillageRaw>)
    ensures rows == ExtractVillages(table, page)
  {
    rows := [];
    if table == [] {
      return;
    }
    var body := table[1..];
    var current: Option<string> := None;
    var k := 0;
    while k < |body|
      invariant 0 <= k <= |body|
      invariant Scan(body[..k], page) == (current, rows)
    {
      assert body[..k + 1][..k] == body[..k];
      var r := body[k];
      if |r| < 7 {
        assert rows + [] == rows;
        k := k + 1;
        continue;
      }
      var kode := CellAt(r, 0);
      var kelurahan := CellAt(r, 5);
      var desa := CellAt(r, 6);
      if IsDistrictCode(kode) && !IsVillageCode(kode) {
        current := Some(DotFree(kode));
        assert rows + [] == rows;
        k := k + 1;
        continue;
      }
      if IsVillageCode(kode) && current.Some? && current.value != "" {
        var name: string;
        var vtype: string;
        if kelurahan != "" {
          name, vtype := kelurahan, Kelurahan;
        } else if desa != "" {
          name, vtype := desa, Desa;
        } else {
          assert rows + [] == rows;
          k := k + 1;
          continue;
        }
        name := DropOrdinal(name, false);
        rows := rows + [VillageRaw(DotFree(kode), name, current.value, vtype, page)];
      } else {
        assert rows + [] == rows;
      }
      k := k + 1;
    }
    assert body[..k] == body;
  }
}
