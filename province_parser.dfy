/**
 * The province parser: each row after the header packs several provinces
 * into newline-separated cells; the k-th line of the code cell belongs with
 * the k-th line of the name cell and of the island-count cell (column 10).
 */
module ProvinceParser {
  import opened Wrappers
  import opened Text
  import opened Codes

  /** A raw province row. */
  datatype ProvinceRaw = ProvinceRaw(code: string, name: string, islandCount: string, sourcePage: int)

  /** No piece of `xs` contains `c`. */
  predicate NoneContain(xs: seq<string>, c: char)
  {
    forall k :: 0 <= k < |xs| ==> c !in xs[k]
  }

  /** The non-empty stripped pieces among `parts`, in order. */
  function StrippedPieces(parts: seq<string>): (r: seq<string>)
    ensures |r| <= |parts|
    ensures forall k :: 0 <= k < |r| ==> r[k] != "" && IsStripped(r[k])
    ensures NoneContain(parts, '\n') ==> NoneContain(r, '\n')
  {
    if parts == [] then []
    else
      var p := Strip(parts[0]);
      StripKeepsOut(parts[0], '\n');
      (if p != "" then [p] else []) + StrippedPieces(parts[1..])
  }

  /**
   * `split_cell`: nothing for a falsy cell, otherwise the cell's lines,
   * stripped, with the blank ones dropped.
   */
  function SplitCell(cell: Cell): (r: seq<string>)
    ensures !Truthy(cell) ==> r == []
    ensures forall k :: 0 <= k < |r| ==> r[k] != "" && IsStripped(r[k]) && '\n' !in r[k]
  {
    if !Truthy(cell) then []
    else
      var parts := SplitOn(cell.value, '\n');
      assert NoneContain(parts, '\n');
      StrippedPieces(parts)
  }

  lemma {:induction false} SplitOnJoined(a: string, b: string, sep: char)
    requires sep !in a
    ensures SplitOn(a + [sep] + b, sep) == [a] + SplitOn(b, sep)
    decreases |a|
  {
    if a == [] {
      assert a + [sep] + b == [sep] + b;
      assert ([sep] + b)[1..] == b;
    } else {
      var s := a + [sep] + b;
      assert s[0] == a[0] && s[1..] == a[1..] + [sep] + b;
      SplitOnJoined(a[1..], b, sep);
      assert [a[0]] + a[1..] == a;
    }
  }

  /** Splitting lines that were joined with the separator gives the lines back. */
  lemma {:induction false} SplitJoin(pieces: seq<string>, sep: char)
    requires |pieces| >= 1 && forall k :: 0 <= k < |pieces| ==> sep !in pieces[k]
    ensures SplitOn(JoinWith(pieces, sep), sep) == pieces
    decreases |pieces|
  {
    if |pieces| == 1 {
      SplitOnNoSep(pieces[0], sep);
    } else {
      SplitJoin(pieces[1..], sep);
      SplitOnJoined(pieces[0], JoinWith(pieces[1..], sep), sep);
      assert [pieces[0]] + pieces[1..] == pieces;
    }
  }

  lemma {:induction false} CleanPiecesKept(parts: seq<string>)
    requires forall k :: 0 <= k < |parts| ==> parts[k] != "" && IsStripped(parts[k])
    ensures StrippedPieces(parts) == parts
  {
    if parts != [] {
      StripStripped(parts[0]);
      CleanPiecesKept(parts[1..]);
      assert [parts[0]] + parts[1..] == parts;
    }
  }

  /** A cell made by joining clean lines with newlines splits back into those lines. */
  lemma SplitCellJoin(lines: seq<string>)
    requires |lines| >= 1
    requires forall k :: 0 <= k < |lines| ==> lines[k] != "" && IsStripped(lines[k]) && '\n' !in lines[k]
    ensures SplitCell(Some(JoinWith(lines, '\n'))) == lines
  {
    SplitJoin(lines, '\n');
    JoinWith1(lines, '\n');
    CleanPiecesKept(lines);
  }

  lemma JoinWith1(pieces: seq<string>, sep: char)
    requires |pieces| >= 1 && pieces[0] != ""
    ensures JoinWith(pieces, sep) != ""
  {
  }

  /** The island-count lines: `aggregates[7]`, that is column 10, when the row has one. */
  function IslandColumn(row: Row): (r: Option<seq<string>>)
    ensures r.Some? <==> |row| >= 11
  {
    if |row| >= 11 then Some(SplitCell(row[10])) else None
  }

  /** Whether sub-row `i` yields a province: a two-digit code with a name and an island count at `i`. */
  predicate Emits(codes: seq<string>, names: seq<string>, islands: Option<seq<string>>, i: nat)
    requires i < |codes|
  {
    IsProvinceCode(codes[i]) && i < |names| && islands.Some? && i < |islands.value|
  }

  /** `e` is the province that one of the sub-rows `lo` to `hi - 1` yields. */
  predicate Yielded(e: ProvinceRaw, codes: seq<string>, names: seq<string>, islands: Option<seq<string>>, page: int, lo: nat, hi: nat)
    requires hi <= |codes|
  {
    exists i :: lo <= i < hi && Emits(codes, names, islands, i) && e == ProvinceRaw(codes[i], names[i], islands.value[i], page)
  }

  lemma YieldedWider(e: ProvinceRaw, codes: seq<string>, names: seq<string>, islands: Option<seq<string>>, page: int, lo: nat, hi: nat, lo': nat, hi': nat)
    requires lo' <= lo && hi <= hi' <= |codes| && Yielded(e, codes, names, islands, page, lo, hi)
    ensures Yielded(e, codes, names, islands, page, lo', hi')
  {
    var i :| lo <= i < hi && Emits(codes, names, islands, i) && e == ProvinceRaw(codes[i], names[i], islands.value[i], page);
    assert lo' <= i < hi';
  }

  /**
   * The provinces of the first `n` sub-rows: each two-digit code with its
   * name and island count; a sub-row whose name or count is missing (an
   * IndexError in the loop) is skipped on its own. Every sub-row that has
   * all three yields its province, and nothing else is yielded.
   */
  function SubRows(codes: seq<string>, names: seq<string>, islands: Option<seq<string>>, page: int, n: nat): (r: seq<ProvinceRaw>)
    requires n <= |codes|
    ensures |r| <= n
    ensures forall e :: e in r ==> IsProvinceCode(e.code) && e.sourcePage == page
    ensures forall k :: 0 <= k < |r| ==> Yielded(r[k], codes, names, islands, page, 0, n)
    ensures forall i :: 0 <= i < n && Emits(codes, names, islands, i) ==>
      ProvinceRaw(codes[i], names[i], islands.value[i], page) in r
  {
    if n == 0 then []
    else
      var i := n - 1;
      var prev := SubRows(codes, names, islands, page, i);
      assert forall k :: 0 <= k < |prev| ==> Yielded(prev[k], codes, names, islands, page, 0, n) by {
        forall k | 0 <= k < |prev| ensures Yielded(prev[k], codes, names, islands, page, 0, n) {
          YieldedWider(prev[k], codes, names, islands, page, 0, i, 0, n);
        }
      }
      if Emits(codes, names, islands, i) then
        var e := ProvinceRaw(codes[i], names[i], islands.value[i], page);
        var r := prev + [e];
        assert Yielded(e, codes, names, islands, page, 0, n);
        assert forall k :: 0 <= k < |prev| ==> r[k] == prev[k];
        r
      else prev
  }

  /**
   * Order: the provinces of the first `m` sub-rows come first, in the same
   * order (with `SubRowsLast`, each sub-row adds its province after those
   * of the sub-rows before it).
   */
  lemma {:induction false} SubRowsPrefix(codes: seq<string>, names: seq<string>, islands: Option<seq<string>>, page: int, m: nat, n: nat)
    requires m <= n <= |codes|
    ensures IsPrefix(SubRows(codes, names, islands, page, m), SubRows(codes, names, islands, page, n))
    decreases n - m
  {
    if m < n {
      SubRowsPrefix(codes, names, islands, page, m, n - 1);
      SubRowsLast(codes, names, islands, page, n);
      PrefixOfPrefix(SubRows(codes, names, islands, page, n), SubRows(codes, names, islands, page, n - 1),
        SubRows(codes, names, islands, page, m));
    } else {
      assert SubRows(codes, names, islands, page, n)[..|SubRows(codes, names, islands, page, n)|] ==
        SubRows(codes, names, islands, page, n);
    }
  }

  /** Sub-row `n - 1` adds at most its own province after those of the sub-rows before it. */
  lemma SubRowsLast(codes: seq<string>, names: seq<string>, islands: Option<seq<string>>, page: int, n: nat)
    requires 0 < n <= |codes|
    ensures var r := SubRows(codes, names, islands, page, n);
      var q := SubRows(codes, names, islands, page, n - 1);
      IsPrefix(q, r) && forall k :: |q| <= k < |r| ==> Yielded(r[k], codes, names, islands, page, n - 1, n)
  {
  }

  /** `e` is the province one sub-row of `row` yields. */
  predicate FromRow(e: ProvinceRaw, row: Row, page: int)
  {
    |row| >= 3 && Yielded(e, SplitCell(row[1]), SplitCell(row[2]), IslandColumn(row), page, 0, |SplitCell(row[1])|)
  }

  /** The provinces one row of the table yields: exactly those of its sub-rows. */
  function RowProvinces(row: Row, page: int): (r: seq<ProvinceRaw>)
    ensures |row| < 3 || SplitCell(row[1]) == [] || SplitCell(row[2]) == [] ==> r == []
    ensures |row| >= 3 ==> |r| <= |SplitCell(row[1])|
    ensures forall e :: e in r <==> FromRow(e, row, page)
  {
    if |row| < 3 then []
    else
      var codes := SplitCell(row[1]);
      var names := SplitCell(row[2]);
      if codes == [] || names == [] then []
      else
        SubRowsExactly(codes, names, IslandColumn(row), page);
        SubRows(codes, names, IslandColumn(row), page, |codes|)
  }

  /** The provinces of all sub-rows are exactly those the sub-rows yield. */
  lemma SubRowsExactly(codes: seq<string>, names: seq<string>, islands: Option<seq<string>>, page: int)
    ensures var r := SubRows(codes, names, islands, page, |codes|);
      forall e :: e in r <==> Yielded(e, codes, names, islands, page, 0, |codes|)
  {
    var r := SubRows(codes, names, islands, page, |codes|);
    forall e | Yielded(e, codes, names, islands, page, 0, |codes|) ensures e in r {
      var i :| 0 <= i < |codes| && Emits(codes, names, islands, i) &&
        e == ProvinceRaw(codes[i], names[i], islands.value[i], page);
    }
    forall e | e in r ensures Yielded(e, codes, names, islands, page, 0, |codes|) {
      var k :| 0 <= k < |r| && r[k] == e;
    }
  }

  /** A row without an island-count column yields nothing. */
  lemma {:induction false} NoIslandColumn(codes: seq<string>, names: seq<string>, page: int, n: nat)
    requires n <= |codes|
    ensures SubRows(codes, names, None, page, n) == []
  {
    if n > 0 {
      NoIslandColumn(codes, names, page, n - 1);
    }
  }

  /** A row of fewer than eleven cells yields no province, whatever its code and name cells hold. */
  lemma ShortRowYieldsNothing(row: Row, page: int)
    requires |row| < 11
    ensures RowProvinces(row, page) == []
  {
    if |row| >= 3 {
      NoIslandColumn(SplitCell(row[1]), SplitCell(row[2]), page, |SplitCell(row[1])|);
    }
  }

  /** The test "row yields `e`", for searching the rows of a page. */
  function YieldsTest(e: ProvinceRaw, page: int): Row -> bool
  {
    row => FromRow(e, row, page)
  }

  /** The provinces of `rows`, row after row: exactly those of their sub-rows. */
  function ScanRows(rows: seq<Row>, page: int): (r: seq<ProvinceRaw>)
    ensures forall e :: e in r ==> IsProvinceCode(e.code) && e.sourcePage == page
    ensures forall e :: e in r <==> AnyOf(rows, YieldsTest(e, page))
  {
    if rows == [] then []
    else
      assert forall e :: AnyOf(rows, YieldsTest(e, page)) <==>
        AnyOf(rows[..|rows| - 1], YieldsTest(e, page)) || FromRow(e, rows[|rows| - 1], page) by {
        forall e ensures AnyOf(rows, YieldsTest(e, page)) <==>
          AnyOf(rows[..|rows| - 1], YieldsTest(e, page)) || FromRow(e, rows[|rows| - 1], page) {
          AnyOfLast(rows, YieldsTest(e, page));
        }
      }
      ScanRows(rows[..|rows| - 1], page) + RowProvinces(rows[|rows| - 1], page)
  }

  /**
   * What `extract_provinces_from_table` returns: the provinces of every row
   * after the header, and only those.
   */
  function ExtractProvinces(table: Table, page: int): (r: seq<ProvinceRaw>)
    ensures forall e :: e in r ==> IsProvinceCode(e.code) && e.sourcePage == page
    ensures forall e :: e in r <==> exists j :: 1 <= j < |table| && FromRow(e, table[j], page)
  {
    if table == [] then []
    else
      assert forall e :: AnyOf(table[1..], YieldsTest(e, page)) <==>
        exists j :: 1 <= j < |table| && FromRow(e, table[j], page) by {
        forall e ensures AnyOf(table[1..], YieldsTest(e, page)) <==>
          exists j :: 1 <= j < |table| && FromRow(e, table[j], page) {
          AnyOfTail(table, YieldsTest(e, page));
          assert forall j :: 1 <= j < |table| ==> (YieldsTest(e, page)(table[j]) <==> FromRow(e, table[j], page));
        }
      }
      ScanRows(table[1..], page)
  }

  /** The inner loop over the sub-rows of one row. */
  method ProvincesOfRow(codes: seq<string>, names: seq<string>, islands: Option<seq<string>>, page: int)
    returns (found: seq<ProvinceRaw>)
    ensures found == SubRows(codes, names, islands, page, |codes|)
  {
    found := [];
    var i := 0;
    while i < |codes|
      invariant 0 <= i <= |codes|
      invariant found == SubRows(codes, names, islands, page, i)
    {
      var code := codes[i];
      if !(|code| == 2 && AllDigits(code)) {
        i := i + 1;
        continue;
      }
      if i < |names| && islands.Some? && i < |islands.value| {
        found := found + [ProvinceRaw(code, names[i], islands.value[i], page)];
      }
      i := i + 1;
    }
  }

  /** The body of the row loop: the guards on the row's cells, then the sub-row loop. */
  method ProvincesOfTableRow(row: Row, page: int) returns (found: seq<ProvinceRaw>)
    ensures found == RowProvinces(row, page)
  {
    found := [];
    if |row| < 3 {
      return;
    }
    var codes := SplitCell(row[1]);
    var names := SplitCell(row[2]);
    if codes == [] || names == [] {
      return;
    }
    found := ProvincesOfRow(codes, names, IslandColumn(row), page);
  }

  /** `extract_provinces_from_table(table, page_num)`. */
  method ExtractProvincesFromTable(table: Table, page: int) returns (rows: seq<ProvinceRaw>)
    ensures rows == ExtractProvinces(table, page)
  {
    rows := [];
    if table == [] {
      return;
    }
    var body := table[1..];
    var k := 0;
    while k < |body|
      invariant 0 <= k <= |body|
      invariant rows == ScanRows(body[..k], page)
    {
      assert body[..k + 1][..k] == body[..k];
      var found := ProvincesOfTableRow(body[k], page);
      rows := rows + found;
      k := k + 1;
    }
    assert body[..k] == body;
  }
}
