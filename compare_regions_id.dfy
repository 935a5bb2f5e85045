/**
 * The village-level comparison of two flattened region tables: rows are
 * indexed by village code, and for every code in either table, in
 * ascending order, the three village-owned fields are compared.
 */
module CompareRegionsId {
  import opened Wrappers
  import opened Ordering
  import opened CsvRows

  const KeyField := "village_code"

  /** The village-owned fields, in the order this model visits them. */
  const VillageFields := ["village_name", "village_type", "district_code"]

  /** The key cell is truthy: present and not empty. */
  predicate HasKey(row: CsvRow) {
    Get(row, KeyField).Some? && Get(row, KeyField).value != ""
  }

  /** `load_csv`: rows indexed by key, rows without one skipped, a later row replacing an earlier one. */
  function LoadRows(rows: seq<CsvRow>): (m: map<string, CsvRow>)
    ensures forall k :: k in m ==> k != "" && HasKey(m[k]) && Get(m[k], KeyField) == Some(k)
  {
    if rows == [] then map[]
    else
      var m := LoadRows(rows[..|rows| - 1]);
      var row := rows[|rows| - 1];
      if HasKey(row) then m[Get(row, KeyField).value := row] else m
  }

  /** Row `i` carries key `k`. */
  predicate KeyedAt(rows: seq<CsvRow>, i: nat, k: string)
    requires i < |rows|
  {
    HasKey(rows[i]) && Get(rows[i], KeyField) == Some(k)
  }

  /** The indexed codes are exactly the keys some row carries. */
  lemma {:induction false} LoadRowsKeys(rows: seq<CsvRow>)
    ensures forall k :: k in LoadRows(rows) <==> exists i :: 0 <= i < |rows| && KeyedAt(rows, i, k)
  {
    if rows != [] {
      var n := |rows| - 1;
      var prefix := rows[..n];
      var p := LoadRows(prefix);
      LoadRowsKeys(prefix);
      if HasKey(rows[n]) {
        assert LoadRows(rows) == p[Get(rows[n], KeyField).value := rows[n]];
      } else {
        assert LoadRows(rows) == p;
      }
      forall k
        ensures k in LoadRows(rows) <==> exists i :: 0 <= i < |rows| && KeyedAt(rows, i, k)
      {
        if exists i :: 0 <= i < |rows| && KeyedAt(rows, i, k) {
          var i :| 0 <= i < |rows| && KeyedAt(rows, i, k);
          if i < n {
            assert KeyedAt(prefix, i, k);
          }
        }
        if k in p {
          var i :| 0 <= i < n && KeyedAt(prefix, i, k);
          assert KeyedAt(rows, i, k);
        } else if k in LoadRows(rows) {
          assert KeyedAt(rows, n, k);
        }
      }
    }
  }

  /** The row kept for a code is the last row carrying it. */
  lemma {:induction false} LoadRowsLastWins(rows: seq<CsvRow>, k: string)
    requires k in LoadRows(rows)
    ensures exists i :: (0 <= i < |rows| && KeyedAt(rows, i, k) && LoadRows(rows)[k] == rows[i] &&
      forall j :: i < j < |rows| ==> !KeyedAt(rows, j, k))
  {
    var n := |rows| - 1;
    var prefix := rows[..n];
    var p := LoadRows(prefix);
    if KeyedAt(rows, n, k) {
      assert LoadRows(rows)[k] == rows[n];
    } else {
      assert k in p && LoadRows(rows)[k] == p[k];
      LoadRowsLastWins(prefix, k);
      var i :| 0 <= i < n && KeyedAt(prefix, i, k) && p[k] == prefix[i] &&
        forall j :: i < j < n ==> !KeyedAt(prefix, j, k);
      assert KeyedAt(rows, i, k);
      forall j | i < j < |rows| ensures !KeyedAt(rows, j, k) {
        if j < n {
          assert !KeyedAt(prefix, j, k);
        }
      }
    }
  }

  /** The row loop of `load_csv`. */
  method LoadCsv(rows: seq<CsvRow>) returns (m: map<string, CsvRow>)
    ensures m == LoadRows(rows)
  {
    m := map[];
    for i := 0 to |rows|
      invariant m == LoadRows(rows[..i])
    {
      assert rows[..i + 1][..i] == rows[..i];
      var row := rows[i];
      var k := Get(row, KeyField);
      if k.None? || k.value == "" {
        continue;
      }
      m := m[k.value := row];
    }
    assert rows[..|rows|] == rows;
  }

  /** A table indexed by `load_csv` holds only truthy rows: all of its codes are present. */
  lemma LoadedPresent(rows: seq<CsvRow>, k: string)
    requires k in LoadRows(rows)
    ensures Present(LoadRows(rows), k)
  {
    assert KeyField in LoadRows(rows)[k];
  }

  /** One field-level difference of a village present in both tables. */
  datatype FieldDiff = FieldDiff(code: string, field: string, oldValue: Option<string>, newValue: Option<string>)

  /** The four counters of `summary`. */
  datatype Summary = Summary(total: nat, added: nat, removed: nat, changed: nat)

  /** `d` records that `field` of the rows of `code` differs, with both values. */
  predicate IsDiff(d: FieldDiff, code: string, o: CsvRow, n: CsvRow, fields: seq<string>) {
    d.code == code && d.field in fields && Get(o, d.field) != Get(n, d.field) &&
    d.oldValue == Get(o, d.field) && d.newValue == Get(n, d.field)
  }

  /** The inner loop over the fields: one difference per differing field, in field order. */
  function CodeDiffs(code: string, o: CsvRow, n: CsvRow, fields: seq<string>): (r: seq<FieldDiff>)
    ensures |r| <= |fields|
    ensures forall d :: d in r <==> IsDiff(d, code, o, n, fields)
    ensures Distinct(fields) ==> Distinct(r)
  {
    if fields == [] then []
    else
      var k := |fields| - 1;
      var f := fields[k];
      var prev := CodeDiffs(code, o, n, fields[..k]);
      assert forall x :: x in fields <==> x in fields[..k] || x == f;
      if Get(o, f) != Get(n, f) then
        var d := FieldDiff(code, f, Get(o, f), Get(n, f));
        if Distinct(fields) then
          assert f !in fields[..k];
          assert d !in prev;
          DistinctConcat(prev, [d]);
          prev + [d]
        else prev + [d]
      else prev
  }

  /** The tallies of the code loop so far. */
  datatype Tally = Tally(diffs: seq<FieldDiff>, added: nat, removed: nat, changed: nat)

  /** The differences between the two rows of `code`. */
  function RowDiffs(code: string, older: map<string, CsvRow>, newer: map<string, CsvRow>): seq<FieldDiff>
    requires code in older && code in newer
  {
    CodeDiffs(code, older[code], newer[code], VillageFields)
  }

  /** One iteration of the code loop. */
  function Visit(t: Tally, code: string, older: map<string, CsvRow>, newer: map<string, CsvRow>): Tally {
    if !Present(older, code) then t.(added := t.added + 1)
    else if !Present(newer, code) then t.(removed := t.removed + 1)
    else
      var ds := RowDiffs(code, older, newer);
      Tally(t.diffs + ds, t.added, t.removed, if ds != [] then t.changed + 1 else t.changed)
  }

  /** The code loop over `codes`. */
  function Scan(codes: seq<string>, older: map<string, CsvRow>, newer: map<string, CsvRow>): Tally {
    if codes == [] then Tally([], 0, 0, 0)
    else Visit(Scan(codes[..|codes| - 1], older, newer), codes[|codes| - 1], older, newer)
  }

  /** `compare`: the field differences and the summary, over the sorted union of the codes. */
  function Compare(older: map<string, CsvRow>, newer: map<string, CsvRow>): (seq<FieldDiff>, Summary) {
    var allKeys := older.Keys + newer.Keys;
    var t := Scan(SortedSet(allKeys), older, newer);
    (t.diffs, Summary(|allKeys|, t.added, t.removed, t.changed))
  }

  /** Both tables hold `d.code`, and `d` records a difference between its rows. */
  predicate Changed(d: FieldDiff, older: map<string, CsvRow>, newer: map<string, CsvRow>) {
    Present(older, d.code) && Present(newer, d.code) && IsDiff(d, d.code, older[d.code], newer[d.code], VillageFields)
  }

  /** The codes the old table lacks. */
  function Added(older: map<string, CsvRow>): string -> bool {
    c => !Present(older, c)
  }

  /** The codes only the old table holds. */
  function Removed(older: map<string, CsvRow>, newer: map<string, CsvRow>): string -> bool {
    c => OnlyOld(older, newer, c)
  }

  /** The old table holds a non-empty row for `c` and the new one does not. */
  predicate OnlyOld(older: map<string, CsvRow>, newer: map<string, CsvRow>, c: string) {
    Present(older, c) && !Present(newer, c)
  }

  /** The codes both tables hold, with some village-owned field differing. */
  function Modified(older: map<string, CsvRow>, newer: map<string, CsvRow>): string -> bool {
    c => Present(older, c) && Present(newer, c) && RowDiffs(c, older, newer) != []
  }

  /**
   * The counters of the code loop: each code raises at most one of them,
   * and they count the codes missing from the old table, those missing
   * from the new one only, and those changed.
   */
  lemma {:induction false} ScanCounts(codes: seq<string>, older: map<string, CsvRow>, newer: map<string, CsvRow>)
    ensures var t := Scan(codes, older, newer);
      t.added + t.removed + t.changed <= |codes| &&
      t.added == CountIf(codes, Added(older)) &&
      t.removed == CountIf(codes, Removed(older, newer)) &&
      t.changed == CountIf(codes, Modified(older, newer))
  {
    if codes != [] {
      ScanCounts(codes[..|codes| - 1], older, newer);
    }
  }

  /** The differences of the code loop are exactly the changed fields of the listed codes. */
  lemma {:induction false} ScanDiffs(codes: seq<string>, older: map<string, CsvRow>, newer: map<string, CsvRow>)
    ensures forall d :: d in Scan(codes, older, newer).diffs <==> d.code in codes && Changed(d, older, newer)
  {
    if codes != [] {
      var k := |codes| - 1;
      ScanDiffs(codes[..k], older, newer);
      assert forall x :: x in codes <==> x in codes[..k] || x == codes[k];
    }
  }

  /** Over distinct codes the differences never repeat. */
  lemma {:induction false} ScanDistinct(codes: seq<string>, older: map<string, CsvRow>, newer: map<string, CsvRow>)
    requires Distinct(codes)
    ensures Distinct(Scan(codes, older, newer).diffs)
  {
    if codes != [] {
      var k := |codes| - 1;
      var c := codes[k];
      ScanDistinct(codes[..k], older, newer);
      ScanDiffs(codes[..k], older, newer);
      if Present(older, c) && Present(newer, c) {
        assert c !in codes[..k];
        DistinctConcat(Scan(codes[..k], older, newer).diffs, RowDiffs(c, older, newer));
      }
    }
  }

  /** The differences come in ascending code order. */
  predicate AscendingCodes(ds: seq<FieldDiff>) {
    forall i, j :: 0 <= i < j < |ds| ==> LessEq(ds[i].code, ds[j].code)
  }

  /** Over ascending codes the differences come in ascending code order. */
  lemma {:induction false} ScanOrder(codes: seq<string>, older: map<string, CsvRow>, newer: map<string, CsvRow>)
    requires SortedBy(codes, Identity)
    ensures AscendingCodes(Scan(codes, older, newer).diffs)
  {
    if codes != [] {
      var k := |codes| - 1;
      var c := codes[k];
      var prefix := codes[..k];
      assert SortedBy(prefix, Identity);
      ScanOrder(prefix, older, newer);
      ScanDiffs(prefix, older, newer);
      var p := Scan(prefix, older, newer).diffs;
      if Present(older, c) && Present(newer, c) {
        var ds := RowDiffs(c, older, newer);
        var t := p + ds;
        assert Scan(codes, older, newer).diffs == t;
        forall i, j | 0 <= i < j < |t|
          ensures LessEq(t[i].code, t[j].code)
        {
          if j < |p| {
            assert t[i] == p[i] && t[j] == p[j];
          } else {
            assert t[j] == ds[j - |p|];
            assert t[j] in ds && t[j].code == c;
            if i >= |p| {
              assert t[i] == ds[i - |p|];
              assert t[i] in ds && t[i].code == c;
              LessEqTotal(c, c);
            } else {
              assert t[i] == p[i];
              assert t[i] in p;
              var m :| 0 <= m < |prefix| && prefix[m] == t[i].code;
              assert LessEq(Identity(codes[m]), Identity(codes[k]));
            }
          }
        }
      } else {
        assert Scan(codes, older, newer).diffs == p;
      }
    }
  }

  /**
   * The summary: the total is the number of codes in either table; the
   * other three counters count the codes only in the new table, only in
   * the old one, and changed, and together they never exceed the total.
   */
  lemma CompareCounts(older: map<string, CsvRow>, newer: map<string, CsvRow>)
    ensures var s := Compare(older, newer).1;
      s.total == |older.Keys + newer.Keys| &&
      s.added == |set c | c in older.Keys + newer.Keys && !Present(older, c)| &&
      s.removed == |set c | c in older.Keys + newer.Keys && OnlyOld(older, newer, c)| &&
      s.changed == |set c | c in older.Keys + newer.Keys && Modified(older, newer)(c)| &&
      s.added + s.removed + s.changed <= s.total
  {
    var codes := SortedSet(older.Keys + newer.Keys);
    ScanCounts(codes, older, newer);
    AddedCount(codes, older, newer);
    RemovedCount(codes, older, newer);
    CountIfSet(codes, older.Keys + newer.Keys, Modified(older, newer));
  }

  /** Counting over a repeat-free listing of the codes of both tables: the codes the old table lacks. */
  lemma AddedCount(codes: seq<string>, older: map<string, CsvRow>, newer: map<string, CsvRow>)
    requires Distinct(codes) && forall x :: x in codes <==> x in older.Keys + newer.Keys
    ensures CountIf(codes, Added(older)) == |set c | c in older.Keys + newer.Keys && !Present(older, c)|
  {
    CountIfSet(codes, older.Keys + newer.Keys, Added(older));
    AddedSet(older.Keys + newer.Keys, older);
  }

  lemma AddedSet(allKeys: set<string>, older: map<string, CsvRow>)
    ensures (set c | c in allKeys && Added(older)(c)) == (set c | c in allKeys && !Present(older, c))
  {
  }

  /** The same for the codes only the old table holds. */
  lemma RemovedCount(codes: seq<string>, older: map<string, CsvRow>, newer: map<string, CsvRow>)
    requires Distinct(codes) && forall x :: x in codes <==> x in older.Keys + newer.Keys
    ensures CountIf(codes, Removed(older, newer)) == |set c | c in older.Keys + newer.Keys && OnlyOld(older, newer, c)|
  {
    CountIfSet(codes, older.Keys + newer.Keys, Removed(older, newer));
    RemovedSet(older.Keys + newer.Keys, older, newer);
  }

  lemma RemovedSet(allKeys: set<string>, older: map<string, CsvRow>, newer: map<string, CsvRow>)
    ensures (set c | c in allKeys && Removed(older, newer)(c)) == (set c | c in allKeys && OnlyOld(older, newer, c))
  {
  }

  /**
   * The differences are exactly the field changes of the codes both tables
   * hold, each once, in ascending code order.
   */
  lemma CompareDiffs(older: map<string, CsvRow>, newer: map<string, CsvRow>)
    ensures var diffs := Compare(older, newer).0;
      (forall d :: d in diffs <==> Changed(d, older, newer)) && Distinct(diffs) && AscendingCodes(diffs)
  {
    var codes := SortedSet(older.Keys + newer.Keys);
    ScanDiffs(codes, older, newer);
    ScanDistinct(codes, older, newer);
    ScanOrder(codes, older, newer);
  }

  /** When no row is empty, the counters are the set differences of the two tables' codes. */
  lemma NonEmptyCounts(older: map<string, CsvRow>, newer: map<string, CsvRow>)
    requires forall k :: k in older ==> |older[k]| != 0
    requires forall k :: k in newer ==> |newer[k]| != 0
    ensures var s := Compare(older, newer).1;
      s.added == |newer.Keys - older.Keys| && s.removed == |older.Keys - newer.Keys|
  {
    CompareCounts(older, newer);
    OnlyNewCodes(older, newer);
    OnlyOldCodes(older, newer);
  }

  lemma OnlyNewCodes(older: map<string, CsvRow>, newer: map<string, CsvRow>)
    requires forall k :: k in older ==> |older[k]| != 0
    ensures (set c | c in older.Keys + newer.Keys && !Present(older, c)) == newer.Keys - older.Keys
  {
  }

  lemma OnlyOldCodes(older: map<string, CsvRow>, newer: map<string, CsvRow>)
    requires forall k :: k in older ==> |older[k]| != 0
    requires forall k :: k in newer ==> |newer[k]| != 0
    ensures (set c | c in older.Keys + newer.Keys && OnlyOld(older, newer, c)) == older.Keys - newer.Keys
  {
  }

  /** Tables indexed by `load_csv`: the counters are the set differences of their codes. */
  lemma CompareLoaded(oldRows: seq<CsvRow>, newRows: seq<CsvRow>)
    ensures var s := Compare(LoadRows(oldRows), LoadRows(newRows)).1;
      s.added == |LoadRows(newRows).Keys - LoadRows(oldRows).Keys| &&
      s.removed == |LoadRows(oldRows).Keys - LoadRows(newRows).Keys|
  {
    forall k | k in LoadRows(oldRows) ensures |LoadRows(oldRows)[k]| != 0 { LoadedPresent(oldRows, k); }
    forall k | k in LoadRows(newRows) ensures |LoadRows(newRows)[k]| != 0 { LoadedPresent(newRows, k); }
    NonEmptyCounts(LoadRows(oldRows), LoadRows(newRows));
  }

  /** The inner loop over the village fields. */
  method DiffFields(code: string, o: CsvRow, n: CsvRow) returns (ds: seq<FieldDiff>)
    ensures ds == CodeDiffs(code, o, n, VillageFields)
  {
    ds := [];
    for j := 0 to |VillageFields|
      invariant ds == CodeDiffs(code, o, n, VillageFields[..j])
    {
      assert VillageFields[..j + 1][..j] == VillageFields[..j];
      var field := VillageFields[j];
      var oldVal := Get(o, field);
      var newVal := Get(n, field);
      if oldVal != newVal {
        ds := ds + [FieldDiff(code, field, oldVal, newVal)];
      }
    }
    assert VillageFields[..|VillageFields|] == VillageFields;
  }

  /** One iteration of `compare`'s loop: classify `code` and record its field changes. */
  method CompareCode(code: string, older: map<string, CsvRow>, newer: map<string, CsvRow>, t: Tally) returns (t': Tally)
    ensures t' == Visit(t, code, older, newer)
  {
    if code !in older || |older[code]| == 0 {
      t' := t.(added := t.added + 1);
    } else if code !in newer || |newer[code]| == 0 {
      t' := t.(removed := t.removed + 1);
    } else {
      var found := DiffFields(code, older[code], newer[code]);
      t' := t.(diffs := t.diffs + found);
      if found != [] {
        t' := t'.(changed := t.changed + 1);
      }
    }
  }

  /** The loop of `compare` over the codes, with its running counters kept in a tally. */
  method CompareAll(codes: seq<string>, older: map<string, CsvRow>, newer: map<string, CsvRow>) returns (t: Tally)
    ensures t == Scan(codes, older, newer)
  {
    t := Tally([], 0, 0, 0);
    for k := 0 to |codes|
      invariant t == Scan(codes[..k], older, newer)
    {
      assert codes[..k + 1][..k] == codes[..k];
      t := CompareCode(codes[k], older, newer, t);
    }
    assert codes[..|codes|] == codes;
  }

  /** `compare`: the sorted union of the codes, the loop, then the summary. */
  method CompareTables(older: map<string, CsvRow>, newer: map<string, CsvRow>) returns (diffs: seq<FieldDiff>, summary: Summary)
    ensures (diffs, summary) == Compare(older, newer)
  {
    var allKeys := older.Keys + newer.Keys;
    var t := CompareAll(SortedSet(allKeys), older, newer);
    diffs := t.diffs;
    summary := Summary(|allKeys|, t.added, t.removed, t.changed);
  }
}
