/**
 * The general comparison of two region CSV files keyed by `code`: every
 * code in either file gets one status, the statuses are counted, and every
 * code whose status is not UNCHANGED gets one diff record with the old and
 * the new values of the compared fields.
 */
module CompareRegions {
  import opened Wrappers
  import opened Text
  import opened Ordering
  import opened CsvRows

  const KeyField := "code"

  const OnlyInOld := "ONLY_IN_OLD"
  const OnlyInNew := "ONLY_IN_NEW"
  const Unchanged := "UNCHANGED"
  const MultipleChanged := "MULTIPLE_CHANGED"

  /** A CSV file as `csv.DictReader` reads it: the header (nothing for an empty file) and the rows. */
  datatype Csv = Csv(fieldnames: Option<seq<string>>, rows: seq<CsvRow>)

  /** A row's `code` cell; nothing when the line is too short to reach it. */
  type Key = Option<string>

  type Index = map<Key, CsvRow>

  /** Every row has a `code` field. */
  predicate AllKeyed(rows: seq<CsvRow>) {
    forall i :: 0 <= i < |rows| ==> KeyField in rows[i]
  }

  /**
   * `load_csv`'s row loop: rows indexed by their `code` cell, a later row
   * replacing an earlier one; KeyError at the first row without the field.
   */
  function LoadRows(rows: seq<CsvRow>): (r: Result<Index, Raised>)
    ensures r.Ok? <==> AllKeyed(rows)
    ensures r.Err? ==> r.error == KeyError
    ensures r.Ok? ==> forall k :: k in r.value ==> KeyField in r.value[k] && r.value[k][KeyField] == k
  {
    if rows == [] then Ok(map[])
    else
      var n := |rows| - 1;
      assert forall i :: 0 <= i < n ==> rows[..n][i] == rows[i];
      match LoadRows(rows[..n])
      case Err(e) => Err(e)
      case Ok(m) =>
        var row := rows[n];
        if KeyField !in row then Err(KeyError) else Ok(m[row[KeyField] := row])
  }

  /** Row `i` carries the code `k`. */
  predicate KeyedAt(rows: seq<CsvRow>, i: nat, k: Key)
    requires i < |rows|
  {
    KeyField in rows[i] && rows[i][KeyField] == k
  }

  /** The indexed codes are exactly the codes of the rows. */
  lemma {:induction false} LoadRowsKeys(rows: seq<CsvRow>)
    requires AllKeyed(rows)
    ensures forall k :: k in LoadRows(rows).value <==> exists i :: 0 <= i < |rows| && KeyedAt(rows, i, k)
  {
    if rows != [] {
      var n := |rows| - 1;
      var prefix := rows[..n];
      assert AllKeyed(prefix);
      LoadRowsKeys(prefix);
      var p := LoadRows(prefix).value;
      assert LoadRows(rows).value == p[rows[n][KeyField] := rows[n]];
      forall k
        ensures k in LoadRows(rows).value <==> exists i :: 0 <= i < |rows| && KeyedAt(rows, i, k)
      {
        if exists i :: 0 <= i < |rows| && KeyedAt(rows, i, k) {
          var i :| 0 <= i < |rows| && KeyedAt(rows, i, k);
          if i < n {
            assert KeyedAt(prefix, i, k);
          }
        }
        if k in p {
          var i :| 0 <= i < n && KeyedAt(prefix, i, k);
          assert KeyedAt(rows, i, k);
        } else if k in LoadRows(rows).value {
          assert KeyedAt(rows, n, k);
        }
      }
    }
  }

  /** The row kept for a code is the last row carrying it. */
  lemma {:induction false} LoadRowsLastWins(rows: seq<CsvRow>, k: Key)
    requires LoadRows(rows).Ok? && k in LoadRows(rows).value
    ensures exists i :: (0 <= i < |rows| && KeyedAt(rows, i, k) && LoadRows(rows).value[k] == rows[i] &&
      forall j :: i < j < |rows| ==> !KeyedAt(rows, j, k))
  {
    var n := |rows| - 1;
    var prefix := rows[..n];
    assert AllKeyed(prefix);
    var p := LoadRows(prefix).value;
    assert LoadRows(rows).value == p[rows[n][KeyField] := rows[n]];
    if !KeyedAt(rows, n, k) {
      LoadRowsLastWins(prefix, k);
      var i :| 0 <= i < n && KeyedAt(prefix, i, k) && p[k] == prefix[i] &&
        forall j :: i < j < n ==> !KeyedAt(prefix, j, k);
      assert KeyedAt(rows, i, k);
      forall j | i < j < |rows| ensures !KeyedAt(rows, j, k) {
        if j < n {
          assert !KeyedAt(prefix, j, k);
        }
      }
    }
  }

  /** `load_csv`: the index of the rows, and the header. */
  method LoadCsv(csv: Csv) returns (rows: Result<Index, Raised>, fieldnames: Option<seq<string>>)
    ensures rows == LoadRows(csv.rows) && fieldnames == csv.fieldnames
  {
    var m: Index := map[];
    for i := 0 to |csv.rows|
      invariant LoadRows(csv.rows[..i]) == Ok(m)
    {
      assert csv.rows[..i + 1][..i] == csv.rows[..i];
      var row := csv.rows[i];
      if KeyField !in row {
        assert !AllKeyed(csv.rows[..i + 1]);
        assert !AllKeyed(csv.rows);
        return Err(KeyError), csv.fieldnames;
      }
      m := m[row[KeyField] := row];
    }
    assert csv.rows[..|csv.rows|] == csv.rows;
    rows := Ok(m);
    fieldnames := csv.fieldnames;
  }

  /** `[f for f in old_fields if f != "code"]`: the header without the key, in header order. */
  function CompareFields(header: seq<string>): (r: seq<string>)
    ensures |r| <= |header|
    ensures forall f :: f in r <==> f in header && f != KeyField
    ensures Distinct(header) ==> Distinct(r)
  {
    if header == [] then []
    else
      var rest := CompareFields(header[1..]);
      assert forall f :: f in header <==> f == header[0] || f in header[1..];
      if header[0] != KeyField then
        assert Distinct(header) ==> header[0] !in rest;
        [header[0]] + rest
      else rest
  }

  /** Ascending without repeats; a missing code can only stand alone. */
  predicate Ascending(ks: seq<Key>) {
    forall i, j :: 0 <= i < j < |ks| ==>
      ks[i].Some? && ks[j].Some? && ks[i].value != ks[j].value && LessEq(ks[i].value, ks[j].value)
  }

  function SomeAll(ss: seq<string>): (r: seq<Key>)
    ensures |r| == |ss|
    ensures forall i :: 0 <= i < |ss| ==> r[i] == Some(ss[i])
  {
    seq(|ss|, i requires 0 <= i < |ss| => Some(ss[i]))
  }

  /**
   * `sorted(set(old_rows) | set(new_rows))`: the codes in ascending order;
   * TypeError when a missing code has to be ordered against a present one.
   */
  function SortKeys(keys: set<Key>): (r: Result<seq<Key>, Raised>)
    ensures r.Err? <==> None in keys && keys != {None}
    ensures r.Err? ==> r.error == TypeError
    ensures r.Ok? ==> Ascending(r.value) && Distinct(r.value) && forall k :: k in r.value <==> k in keys
  {
    if None in keys && keys != {None} then Err(TypeError)
    else if None in keys then
      assert forall k :: k in keys <==> k == None;
      Ok([None])
    else
      var r := SomeAll(SortedSet(Texts(keys)));
      SortedKeyMembers(keys);
      Ok(r)
  }

  /** The texts of the present codes. */
  function Texts(keys: set<Key>): set<string> {
    set k | k in keys && k.Some? :: k.value
  }

  /** Without a missing code, the sorted texts, wrapped again, list the codes in ascending order. */
  lemma SortedKeyMembers(keys: set<Key>)
    requires None !in keys
    ensures var r := SomeAll(SortedSet(Texts(keys)));
      Ascending(r) && Distinct(r) && forall k :: k in r <==> k in keys
  {
    var sorted := SortedSet(Texts(keys));
    var r := SomeAll(sorted);
    forall k | k in keys ensures k in r {
      KeyListed(keys, k);
    }
    forall k | k in r ensures k in keys {
      var i :| 0 <= i < |r| && r[i] == k;
      TextKept(keys, sorted[i]);
    }
    SomeAllAscending(sorted);
  }

  /** Wrapping a sorted repeat-free list of texts gives ascending keys. */
  lemma SomeAllAscending(sorted: seq<string>)
    requires SortedBy(sorted, Identity) && Distinct(sorted)
    ensures Ascending(SomeAll(sorted)) && Distinct(SomeAll(sorted))
  {
    assert forall i, j :: 0 <= i < j < |sorted| ==> LessEq(Identity(sorted[i]), Identity(sorted[j]));
  }

  lemma KeyListed(keys: set<Key>, k: Key)
    requires None !in keys && k in keys
    ensures k in SomeAll(SortedSet(Texts(keys)))
  {
    var sorted := SortedSet(Texts(keys));
    assert k.value in Texts(keys);
    var i :| 0 <= i < |sorted| && sorted[i] == k.value;
    assert SomeAll(sorted)[i] == k;
  }

  lemma TextKept(keys: set<Key>, t: string)
    requires None !in keys && t in Texts(keys)
    ensures Some(t) in keys
  {
    var k' :| k' in keys && k'.Some? && k'.value == t;
  }

  /** `old and ...`: a looked-up row is truthy when it is there and not empty. */
  predicate NonEmpty(row: Option<CsvRow>) {
    row.Some? && |row.value| != 0
  }

  /** `rows.get(code)`. */
  function Lookup(m: Index, k: Key): (r: Option<CsvRow>)
    ensures r.Some? <==> k in m
    ensures r.Some? ==> r.value == m[k]
  {
    if k in m then Some(m[k]) else None
  }

  /** `{f"..._{f}": row.get(f, "") for f in fields}`, as a list aligned with `fields`. */
  function Values(row: CsvRow, fields: seq<string>): (r: seq<Option<string>>)
    ensures |r| == |fields|
    ensures forall i :: 0 <= i < |fields| ==> r[i] == GetOr(row, fields[i], "")
  {
    seq(|fields|, i requires 0 <= i < |fields| => GetOr(row, fields[i], ""))
  }

  /** `{f"..._{f}": "" for f in fields}`: every value blank. */
  function Blanks(fields: seq<string>): (r: seq<Option<string>>)
    ensures |r| == |fields|
    ensures forall i :: 0 <= i < |fields| ==> r[i] == Some("")
  {
    seq(|fields|, _ => Some(""))
  }

  /** One row of the diff file; `oldValues` and `newValues` are aligned with the compared fields. */
  datatype DiffRecord = DiffRecord(code: Key, status: string, oldValues: seq<Option<string>>, newValues: seq<Option<string>>)

  /** `old.get(f) != new.get(f)`. */
  predicate Differs(o: CsvRow, n: CsvRow, f: string) {
    Get(o, f) != Get(n, f)
  }

  /** The `changed` loop: the differing fields, in field order. */
  function ChangedFields(o: CsvRow, n: CsvRow, fields: seq<string>): (r: seq<string>)
    ensures |r| <= |fields|
    ensures forall f :: f in r <==> f in fields && Differs(o, n, f)
    ensures Distinct(fields) ==> Distinct(r)
  {
    if fields == [] then []
    else
      var k := |fields| - 1;
      var f := fields[k];
      var prev := ChangedFields(o, n, fields[..k]);
      assert forall x :: x in fields <==> x in fields[..k] || x == f;
      if Differs(o, n, f) then
        if Distinct(fields) then
          assert f !in fields[..k];
          DistinctConcat(prev, [f]);
          prev + [f]
        else prev + [f]
      else prev
  }

  /** The status of a code held on both sides, from its changed fields. */
  function ChangeStatus(changed: seq<string>): string {
    if changed == [] then Unchanged
    else if |changed| == 1 then "CHANGED_" + Upper(changed[0])
    else MultipleChanged
  }

  /**
   * One iteration of `compare`'s loop: the status of `code` and its diff
   * record, none when UNCHANGED; AttributeError where `.get` is called on a
   * row that is not there.
   */
  function Classify(code: Key, older: Index, newer: Index, fields: seq<string>): (r: Result<(string, Option<DiffRecord>), Raised>)
    ensures r.Ok? ==> (r.value.1.None? <==> r.value.0 == Unchanged)
    ensures r.Ok? && r.value.1.Some? ==> (r.value.1.value.code == code && r.value.1.value.status == r.value.0 &&
      |r.value.1.value.oldValues| == |fields| && |r.value.1.value.newValues| == |fields|)
    ensures r.Err? ==> r.error == AttributeError
  {
    var o := Lookup(older, code);
    var n := Lookup(newer, code);
    if NonEmpty(o) && !NonEmpty(n) then
      Ok((OnlyInOld, Some(DiffRecord(code, OnlyInOld, Values(o.value, fields), Blanks(fields)))))
    else if NonEmpty(n) && !NonEmpty(o) then
      Ok((OnlyInNew, Some(DiffRecord(code, OnlyInNew, Blanks(fields), Values(n.value, fields)))))
    else if fields != [] && (o.None? || n.None?) then Err(AttributeError)
    else
      var changed := if o.Some? && n.Some? then ChangedFields(o.value, n.value, fields) else [];
      if changed == [] then Ok((Unchanged, None))
      else
        var status := ChangeStatus(changed);
        assert status[0] != 'U';
        Ok((status, Some(DiffRecord(code, status, Values(o.value, fields), Values(n.value, fields)))))
  }

  /** A repeat-free list whose every element is `f`, and which holds `f`, is `[f]`. */
  lemma OnlyElement(r: seq<string>, f: string)
    requires Distinct(r) && f in r && forall x :: x in r ==> x == f
    ensures r == [f]
  {
    DistinctCard(r);
    assert (set x | x in r) == {f};
  }

  /** A list holding two different elements has at least two positions. */
  lemma TwoElements(r: seq<string>, f: string, g: string)
    requires f in r && g in r && f != g
    ensures |r| >= 2
  {
    var i :| 0 <= i < |r| && r[i] == f;
    var j :| 0 <= j < |r| && r[j] == g;
    assert i != j;
  }

  /**
   * Every status as the comparison promises: ONLY_IN_OLD or ONLY_IN_NEW when
   * one side is missing or empty; for a code held on both sides UNCHANGED
   * exactly when no compared field differs, CHANGED_<FIELD> when exactly
   * one (distinct) field differs and MULTIPLE_CHANGED when two do; the
   * absent side of an ONLY_IN_ record is blank, and the other records carry
   * the values of both sides.
   */
  lemma StatusCorrect(code: Key, older: Index, newer: Index, fields: seq<string>)
    requires Classify(code, older, newer, fields).Ok?
    ensures var (status, record) := Classify(code, older, newer, fields).value;
      var o := Lookup(older, code);
      var n := Lookup(newer, code);
      (NonEmpty(o) && !NonEmpty(n) ==>
        status == OnlyInOld && record.value.newValues == Blanks(fields) && record.value.oldValues == Values(o.value, fields)) &&
      (NonEmpty(n) && !NonEmpty(o) ==>
        status == OnlyInNew && record.value.oldValues == Blanks(fields) && record.value.newValues == Values(n.value, fields)) &&
      (NonEmpty(o) && NonEmpty(n) ==>
        (status == Unchanged <==> forall f :: f in fields ==> !Differs(o.value, n.value, f)) &&
        (forall f :: (f in fields && Differs(o.value, n.value, f) && Distinct(fields) &&
          (forall g :: g in fields && Differs(o.value, n.value, g) ==> g == f)) ==> status == "CHANGED_" + Upper(f)) &&
        (forall f, g :: f in fields && g in fields && f != g && Differs(o.value, n.value, f) && Differs(o.value, n.value, g) ==>
          status == MultipleChanged) &&
        (status != Unchanged ==>
          record.value.oldValues == Values(o.value, fields) && record.value.newValues == Values(n.value, fields)))
  {
    var o := Lookup(older, code);
    var n := Lookup(newer, code);
    if NonEmpty(o) && NonEmpty(n) {
      var changed := ChangedFields(o.value, n.value, fields);
      if changed != [] {
        assert changed[0] in changed;
      }
      forall f | f in fields && Differs(o.value, n.value, f) && Distinct(fields) &&
          (forall g :: g in fields && Differs(o.value, n.value, g) ==> g == f)
        ensures Classify(code, older, newer, fields).value.0 == "CHANGED_" + Upper(f)
      {
        OnlyElement(changed, f);
      }
      forall f, g | f in fields && g in fields && f != g && Differs(o.value, n.value, f) && Differs(o.value, n.value, g)
        ensures Classify(code, older, newer, fields).value.0 == MultipleChanged
      {
        TwoElements(changed, f, g);
      }
    }
  }

  /** What the loop has gathered: the diff records and the status counts (the `Counter`). */
  datatype Outcome = Outcome(diffs: seq<DiffRecord>, stats: multiset<string>)

  /** Counts `status` and keeps `record`, if there is one. */
  function Gather(acc: Outcome, status: string, record: Option<DiffRecord>): Outcome {
    Outcome(acc.diffs + (if record.Some? then [record.value] else []), acc.stats + multiset{status})
  }

  /** The loop over `codes`, stopping at the first exception. */
  function Scan(codes: seq<Key>, older: Index, newer: Index, fields: seq<string>): (r: Result<Outcome, Raised>)
  {
    if codes == [] then Ok(Outcome([], multiset{}))
    else
      var k := |codes| - 1;
      match Scan(codes[..k], older, newer, fields)
      case Err(e) => Err(e)
      case Ok(acc) =>
        match Classify(codes[k], older, newer, fields)
        case Err(e) => Err(e)
        case Ok((status, record)) => Ok(Gather(acc, status, record))
  }

  /** The status `Classify` gives `code`, when it gives one. */
  function StatusOf(code: Key, older: Index, newer: Index, fields: seq<string>): string {
    var r := Classify(code, older, newer, fields);
    if r.Ok? then r.value.0 else ""
  }

  /** A loop that finishes has classified every code, and has finished on every prefix. */
  lemma {:induction false} ScanClassifies(codes: seq<Key>, older: Index, newer: Index, fields: seq<string>)
    requires Scan(codes, older, newer, fields).Ok?
    ensures forall c :: c in codes ==> Classify(c, older, newer, fields).Ok?
  {
    if codes != [] {
      var k := |codes| - 1;
      ScanClassifies(codes[..k], older, newer, fields);
      assert forall x :: x in codes <==> x in codes[..k] || x == codes[k];
    }
  }

  /** One status per code: the counts add up to the number of codes, and so do the records and the UNCHANGED count. */
  lemma {:induction false} ScanCounts(codes: seq<Key>, older: Index, newer: Index, fields: seq<string>)
    requires Scan(codes, older, newer, fields).Ok?
    ensures var out := Scan(codes, older, newer, fields).value;
      |out.stats| == |codes| && |out.diffs| + out.stats[Unchanged] == |codes|
  {
    if codes != [] {
      ScanCounts(codes[..|codes| - 1], older, newer, fields);
    }
  }

  /** Every record belongs to a listed code, carries that code's status, and that status is not UNCHANGED. */
  lemma {:induction false} ScanRecords(codes: seq<Key>, older: Index, newer: Index, fields: seq<string>)
    requires Scan(codes, older, newer, fields).Ok?
    ensures forall d :: d in Scan(codes, older, newer, fields).value.diffs ==>
      d.code in codes && d.status != Unchanged && d.status == StatusOf(d.code, older, newer, fields)
  {
    if codes != [] {
      var k := |codes| - 1;
      ScanRecords(codes[..k], older, newer, fields);
      assert forall x :: x in codes[..k] ==> x in codes;
    }
  }

  /** Every listed code whose status is not UNCHANGED has a record. */
  lemma {:induction false} ScanComplete(codes: seq<Key>, older: Index, newer: Index, fields: seq<string>)
    requires Scan(codes, older, newer, fields).Ok?
    ensures forall c :: c in codes && StatusOf(c, older, newer, fields) != Unchanged ==>
      exists d :: d in Scan(codes, older, newer, fields).value.diffs && d.code == c
  {
    if codes != [] {
      var k := |codes| - 1;
      ScanComplete(codes[..k], older, newer, fields);
      var out := Scan(codes, older, newer, fields).value;
      var acc := Scan(codes[..k], older, newer, fields).value;
      forall c | c in codes && StatusOf(c, older, newer, fields) != Unchanged
        ensures exists d :: d in out.diffs && d.code == c
      {
        if c == codes[k] {
          assert out.diffs[|out.diffs| - 1].code == c;
        } else {
          assert c in codes[..k];
          var d :| d in acc.diffs && d.code == c;
          assert d in out.diffs;
        }
      }
    }
  }

  /** Only the statuses of listed codes are counted. */
  lemma {:induction false} ScanStatuses(codes: seq<Key>, older: Index, newer: Index, fields: seq<string>)
    requires Scan(codes, older, newer, fields).Ok?
    ensures forall s :: Scan(codes, older, newer, fields).value.stats[s] > 0 ==>
      exists c :: c in codes && StatusOf(c, older, newer, fields) == s
  {
    if codes != [] {
      var k := |codes| - 1;
      var c := codes[k];
      ScanStatuses(codes[..k], older, newer, fields);
      var acc := Scan(codes[..k], older, newer, fields).value;
      var status := StatusOf(c, older, newer, fields);
      forall s | Scan(codes, older, newer, fields).value.stats[s] > 0
        ensures exists x :: x in codes && StatusOf(x, older, newer, fields) == s
      {
        if s != status {
          assert acc.stats[s] > 0;
          var x :| x in codes[..k] && StatusOf(x, older, newer, fields) == s;
          assert x in codes;
        }
      }
    }
  }

  /** The record codes follow the order of `codes`. */
  predicate RecordsFollow(diffs: seq<DiffRecord>, codes: seq<Key>) {
    forall i, j :: 0 <= i < j < |diffs| ==>
      exists a, b :: 0 <= a < b < |codes| && codes[a] == diffs[i].code && codes[b] == diffs[j].code
  }

  /** Over repeat-free codes, the records come in the order of their codes. */
  lemma {:induction false} ScanFollows(codes: seq<Key>, older: Index, newer: Index, fields: seq<string>)
    requires Scan(codes, older, newer, fields).Ok? && Distinct(codes)
    ensures RecordsFollow(Scan(codes, older, newer, fields).value.diffs, codes)
  {
    if codes != [] {
      var k := |codes| - 1;
      var prefix := codes[..k];
      ScanFollows(prefix, older, newer, fields);
      ScanRecords(prefix, older, newer, fields);
      var acc := Scan(prefix, older, newer, fields).value;
      var out := Scan(codes, older, newer, fields).value;
      forall i, j | 0 <= i < j < |out.diffs|
        ensures exists a, b :: 0 <= a < b < |codes| && codes[a] == out.diffs[i].code && codes[b] == out.diffs[j].code
      {
        if j < |acc.diffs| {
          var a, b :| 0 <= a < b < |prefix| && prefix[a] == acc.diffs[i].code && prefix[b] == acc.diffs[j].code;
          assert codes[a] == out.diffs[i].code && codes[b] == out.diffs[j].code;
        } else {
          assert out.diffs[i] == acc.diffs[i];
          assert out.diffs[i] in acc.diffs;
          var a :| 0 <= a < |prefix| && prefix[a] == out.diffs[i].code;
          assert codes[a] == out.diffs[i].code && codes[k] == out.diffs[j].code;
        }
      }
    }
  }

  /**
   * `compare` without the file writing: both files indexed, the fields
   * chosen from the old header, the codes sorted, then the loop.
   */
  function Compare(oldFile: Csv, newFile: Csv): (r: Result<Outcome, Raised>) {
    match LoadRows(oldFile.rows)
    case Err(e) => Err(e)
    case Ok(older) =>
      match LoadRows(newFile.rows)
      case Err(e) => Err(e)
      case Ok(newer) =>
        if oldFile.fieldnames.None? then Err(TypeError)
        else
          match SortKeys(older.Keys + newer.Keys)
          case Err(e) => Err(e)
          case Ok(codes) => Scan(codes, older, newer, CompareFields(oldFile.fieldnames.value))
  }

  /** Over codes taken from indexed files, no row is missing on both sides, so no `.get` is called on nothing. */
  lemma {:induction false} ScanLoaded(codes: seq<Key>, older: Index, newer: Index, fields: seq<string>)
    requires forall k :: k in older ==> KeyField in older[k]
    requires forall k :: k in newer ==> KeyField in newer[k]
    requires forall c :: c in codes ==> c in older || c in newer
    ensures Scan(codes, older, newer, fields).Ok?
  {
    if codes != [] {
      var k := |codes| - 1;
      ScanLoaded(codes[..k], older, newer, fields);
      var c := codes[k];
      if c in older {
        assert |older[c]| != 0;
      }
      if c in newer {
        assert |newer[c]| != 0;
      }
    }
  }

  /**
   * `compare` fails exactly when a row lacks `code` (KeyError), when the old
   * file has no header, or when a row too short to hold a code must be
   * sorted against one that does (TypeError).
   */
  lemma CompareFails(oldFile: Csv, newFile: Csv)
    ensures Compare(oldFile, newFile).Err? <==>
      !AllKeyed(oldFile.rows) || !AllKeyed(newFile.rows) || oldFile.fieldnames.None? ||
      (var keys := LoadRows(oldFile.rows).value.Keys + LoadRows(newFile.rows).value.Keys; None in keys && keys != {None})
    ensures !AllKeyed(oldFile.rows) || !AllKeyed(newFile.rows) ==> Compare(oldFile, newFile) == Err(KeyError)
  {
    if AllKeyed(oldFile.rows) && AllKeyed(newFile.rows) && oldFile.fieldnames.Some? {
      var older := LoadRows(oldFile.rows).value;
      var newer := LoadRows(newFile.rows).value;
      var keys := older.Keys + newer.Keys;
      if SortKeys(keys).Ok? {
        ScanLoaded(SortKeys(keys).value, older, newer, CompareFields(oldFile.fieldnames.value));
      }
    }
  }

  /** A successful comparison counts every code of either file once under its status. */
  lemma CompareCounts(oldFile: Csv, newFile: Csv)
    requires Compare(oldFile, newFile).Ok?
    ensures var keys := LoadRows(oldFile.rows).value.Keys + LoadRows(newFile.rows).value.Keys;
      var out := Compare(oldFile, newFile).value;
      |out.stats| == |keys| && |out.diffs| + out.stats[Unchanged] == |keys|
  {
    var older := LoadRows(oldFile.rows).value;
    var newer := LoadRows(newFile.rows).value;
    var keys := older.Keys + newer.Keys;
    var codes := SortKeys(keys).value;
    ScanCounts(codes, older, newer, CompareFields(oldFile.fieldnames.value));
    DistinctCard(codes);
    assert (set k | k in codes) == keys;
  }

  /**
   * The records of a successful comparison: one per code of either file
   * whose status is not UNCHANGED, carrying that status; and the statuses
   * counted are those of the codes.
   */
  lemma CompareRecords(oldFile: Csv, newFile: Csv)
    requires Compare(oldFile, newFile).Ok?
    ensures var older := LoadRows(oldFile.rows).value;
      var newer := LoadRows(newFile.rows).value;
      var fields := CompareFields(oldFile.fieldnames.value);
      var out := Compare(oldFile, newFile).value;
      (forall d :: d in out.diffs ==>
        (d.code in older || d.code in newer) && d.status != Unchanged && d.status == StatusOf(d.code, older, newer, fields)) &&
      (forall c :: (c in older || c in newer) && StatusOf(c, older, newer, fields) != Unchanged ==>
        exists d :: d in out.diffs && d.code == c) &&
      (forall s :: out.stats[s] > 0 ==> exists c :: (c in older || c in newer) && StatusOf(c, older, newer, fields) == s)
  {
    var older := LoadRows(oldFile.rows).value;
    var newer := LoadRows(newFile.rows).value;
    var codes := SortKeys(older.Keys + newer.Keys).value;
    var fields := CompareFields(oldFile.fieldnames.value);
    ScanRecords(codes, older, newer, fields);
    ScanComplete(codes, older, newer, fields);
    ScanStatuses(codes, older, newer, fields);
  }

  /** The records of a successful comparison come in strictly ascending code order. */
  lemma CompareOrder(oldFile: Csv, newFile: Csv)
    requires Compare(oldFile, newFile).Ok?
    ensures var out := Compare(oldFile, newFile).value;
      forall i, j :: 0 <= i < j < |out.diffs| ==> Precedes(out.diffs[i].code, out.diffs[j].code)
  {
    var older := LoadRows(oldFile.rows).value;
    var newer := LoadRows(newFile.rows).value;
    var codes := SortKeys(older.Keys + newer.Keys).value;
    var fields := CompareFields(oldFile.fieldnames.value);
    assert Compare(oldFile, newFile) == Scan(codes, older, newer, fields);
    ScanFollows(codes, older, newer, fields);
    FollowsAscending(Scan(codes, older, newer, fields).value.diffs, codes);
  }

  /** Records that follow ascending codes come in strictly ascending code order. */
  lemma FollowsAscending(diffs: seq<DiffRecord>, codes: seq<Key>)
    requires RecordsFollow(diffs, codes) && Ascending(codes)
    ensures forall i, j :: 0 <= i < j < |diffs| ==> Precedes(diffs[i].code, diffs[j].code)
  {
    forall i, j | 0 <= i < j < |diffs|
      ensures Precedes(diffs[i].code, diffs[j].code)
    {
      var di, dj := diffs[i], diffs[j];
      var a, b :| 0 <= a < b < |codes| && codes[a] == di.code && codes[b] == dj.code;
      assert codes[a].Some? && codes[b].Some? && codes[a].value != codes[b].value && LessEq(codes[a].value, codes[b].value);
    }
  }

  /** `a` sorts strictly before `b`. */
  predicate Precedes(a: Key, b: Key) {
    a.Some? && b.Some? && a.value != b.value && LessEq(a.value, b.value)
  }

  /** The `changed` loop over the compared fields. */
  method ChangedFieldsOf(o: CsvRow, n: CsvRow, fields: seq<string>) returns (changed: seq<string>)
    ensures changed == ChangedFields(o, n, fields)
  {
    changed := [];
    for j := 0 to |fields|
      invariant changed == ChangedFields(o, n, fields[..j])
    {
      assert fields[..j + 1][..j] == fields[..j];
      var f := fields[j];
      if Get(o, f) != Get(n, f) {
        changed := changed + [f];
      }
    }
    assert fields[..|fields|] == fields;
  }

  /** The body of `compare`'s loop for one code. */
  method ClassifyCode(code: Key, older: Index, newer: Index, fields: seq<string>)
    returns (r: Result<(string, Option<DiffRecord>), Raised>)
    ensures r == Classify(code, older, newer, fields)
  {
    var o := Lookup(older, code);
    var n := Lookup(newer, code);
    if o.Some? && |o.value| != 0 && !(n.Some? && |n.value| != 0) {
      return Ok((OnlyInOld, Some(DiffRecord(code, OnlyInOld, Values(o.value, fields), Blanks(fields)))));
    }
    if n.Some? && |n.value| != 0 && !(o.Some? && |o.value| != 0) {
      return Ok((OnlyInNew, Some(DiffRecord(code, OnlyInNew, Blanks(fields), Values(n.value, fields)))));
    }
    var changed: seq<string> := [];
    if fields != [] {
      if o.None? || n.None? {
        return Err(AttributeError);
      }
      changed := ChangedFieldsOf(o.value, n.value, fields);
    } else if o.Some? && n.Some? {
      changed := ChangedFieldsOf(o.value, n.value, fields);
    }
    if changed == [] {
      return Ok((Unchanged, None));
    }
    var status := if |changed| == 1 then "CHANGED_" + Upper(changed[0]) else MultipleChanged;
    r := Ok((status, Some(DiffRecord(code, status, Values(o.value, fields), Values(n.value, fields)))));
  }

  /** The loop of `compare` over the sorted codes: count each status, keep each record. */
  method ScanCodes(codes: seq<Key>, older: Index, newer: Index, fields: seq<string>) returns (r: Result<Outcome, Raised>)
    ensures r == Scan(codes, older, newer, fields)
  {
    var diffs: seq<DiffRecord> := [];
    var stats: multiset<string> := multiset{};
    for k := 0 to |codes|
      invariant Scan(codes[..k], older, newer, fields) == Ok(Outcome(diffs, stats))
    {
      assert codes[..k + 1][..k] == codes[..k];
      var step := ClassifyCode(codes[k], older, newer, fields);
      ghost var before := Outcome(diffs, stats);
      if step.Err? {
        assert Scan(codes[..k + 1], older, newer, fields).Err?;
        ScanErrStays(codes, older, newer, fields, k + 1);
        assert codes[..|codes|] == codes;
        return Err(step.error);
      }
      var (status, record) := step.value;
      assert Scan(codes[..k + 1], older, newer, fields) == Ok(Gather(before, status, record));
      stats := stats + multiset{status};
      if record.Some? {
        diffs := diffs + [record.value];
      }
      assert Outcome(diffs, stats) == Gather(before, status, record);
    }
    assert codes[..|codes|] == codes;
    r := Ok(Outcome(diffs, stats));
  }

  /** Once the loop has raised, it has raised the same exception for every longer prefix. */
  lemma {:induction false} ScanErrStays(codes: seq<Key>, older: Index, newer: Index, fields: seq<string>, k: nat)
    requires k <= |codes| && Scan(codes[..k], older, newer, fields).Err?
    ensures Scan(codes, older, newer, fields) == Scan(codes[..k], older, newer, fields)
    decreases |codes| - k
  {
    if k < |codes| {
      assert codes[..k + 1][..k] == codes[..k];
      ScanErrStays(codes, older, newer, fields, k + 1);
    } else {
      assert codes[..k] == codes;
    }
  }

  /** `compare(old_file, new_file, output_file)` up to the writing of the diff file. */
  method CompareFiles(oldFile: Csv, newFile: Csv) returns (r: Result<Outcome, Raised>)
    ensures r == Compare(oldFile, newFile)
  {
    var older, oldFields := LoadCsv(oldFile);
    if older.Err? {
      return Err(older.error);
    }
    var newer, _ := LoadCsv(newFile);
    if newer.Err? {
      return Err(newer.error);
    }
    if oldFields.None? {
      return Err(TypeError);
    }
    var fields := CompareFields(oldFields.value);
    var codes := SortKeys(older.value.Keys + newer.value.Keys);
    if codes.Err? {
      return Err(codes.error);
    }
    r := ScanCodes(codes.value, older.value, newer.value, fields);
  }
}
