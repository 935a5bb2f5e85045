/**
 * The dataset builder: projects the raw parser rows onto the four output
 * record types, derives each regency's and province's capital from the raw
 * district rows, rejects duplicate codes, checks the three foreign keys,
 * and only then yields the dataset that would be written. Each output list
 * is sorted by code.
 */
module DatasetBuilder {
  import opened Wrappers
  import opened Ordering
  import DistrictParser
  import RegencyParser
  import ProvinceParser
  import VillageParser

  type DistrictRaw = DistrictParser.DistrictRaw
  type RegencyRaw = RegencyParser.RegencyRaw
  type ProvinceRaw = ProvinceParser.ProvinceRaw
  type VillageRaw = VillageParser.VillageRaw

  datatype District = District(code: string, regencyCode: Option<string>, provinceCode: Option<string>, name: Option<string>)
  datatype Regency = Regency(code: string, provinceCode: string, name: string, rtype: string, capital: Option<string>)
  datatype Province = Province(code: string, name: string, capital: Option<string>)
  datatype Village = Village(code: string, districtCode: string, name: string, vtype: string, note: Option<string>)

  /** The four final lists. */
  datatype Dataset = Dataset(provinces: seq<Province>, regencies: seq<Regency>, districts: seq<District>, villages: seq<Village>)

  /**
   * Why a build stops: a repeated code, a dangling foreign key (with the
   * sample of known parent keys the message shows), a province with several
   * capitals, or the regency branch's reference to an undefined name.
   */
  datatype BuildError =
    | DuplicateKey(entity: string, value: string)
    | InvalidForeignKey(entity: string, childValue: Option<string>, sample: seq<string>)
    | MultipleCapitals(code: string, capitals: set<string>)
    | UndefinedName

  function DistrictCode(d: District): string { d.code }
  function RegencyCode(g: Regency): string { g.code }
  function ProvinceCode(p: Province): string { p.code }
  function VillageCode(v: Village): string { v.code }

  /** The key of every element, in order. */
  function Keys<T, K>(s: seq<T>, key: T -> K): (r: seq<K>)
    ensures |r| == |s| && forall i :: 0 <= i < |s| ==> r[i] == key(s[i])
  {
    seq(|s|, i requires 0 <= i < |s| => key(s[i]))
  }

  // ---------------------------------------------------------------------
  // assert_unique and assert_fk
  // ---------------------------------------------------------------------

  /** `assert_unique`: nothing when the keys are pairwise distinct, else the first key met again. */
  function UniqueCheck(keys: seq<string>, entity: string): (r: Option<BuildError>)
    ensures r.None? <==> Distinct(keys)
    ensures r.Some? ==> exists i :: (0 <= i < |keys| && keys[i] in keys[..i] && Distinct(keys[..i]) &&
      r.value == DuplicateKey(entity, keys[i]))
  {
    match FirstRepeat(keys)
    case None => None
    case Some(i) => Some(DuplicateKey(entity, keys[i]))
  }

  /** The loop of `assert_unique` with its `seen` set. */
  method AssertUnique(keys: seq<string>, entity: string) returns (r: Option<BuildError>)
    ensures r == UniqueCheck(keys, entity)
  {
    var seen: set<string> := {};
    var i := 0;
    while i < |keys|
      invariant 0 <= i <= |keys|
      invariant seen == set k | k in keys[..i]
      invariant Distinct(keys[..i])
      invariant FirstRepeat(keys) == FirstRepeatFrom(keys, i)
    {
      var v := keys[i];
      if v in seen {
        return Some(DuplicateKey(entity, v));
      }
      assert keys[..i + 1] == keys[..i] + [v];
      seen := seen + {v};
      i := i + 1;
    }
    assert keys[..i] == keys;
    r := None;
  }

  /** A child's key value is among the parents' keys; a missing value never is. */
  predicate Known(v: Option<string>, parents: seq<string>) {
    v.Some? && v.value in parents
  }

  /** The first child from `i` on whose key is not a parent key. */
  function FirstUnknown(children: seq<Option<string>>, parents: seq<string>, i: nat): (r: Option<nat>)
    requires i <= |children|
    ensures r.None? <==> forall j :: i <= j < |children| ==> Known(children[j], parents)
    ensures r.Some? ==> (i <= r.value < |children| && !Known(children[r.value], parents) &&
      forall j :: i <= j < r.value ==> Known(children[j], parents))
    decreases |children| - i
  {
    if i == |children| then None
    else if !Known(children[i], parents) then Some(i)
    else FirstUnknown(children, parents, i + 1)
  }

  /** `sorted(list(parent_values))[:10]`. */
  function Sample(parents: seq<string>): (r: seq<string>)
    ensures |r| <= 10
  {
    var all := Sorted(Dedup(parents));
    if |all| <= 10 then all else all[..10]
  }

  /** The sorted distinct parent keys: each parent key once, ascending. */
  lemma SortedKeys(parents: seq<string>)
    ensures var all := Sorted(Dedup(parents));
      SortedBy(all, Identity) && Distinct(all) && forall x :: x in all <==> x in parents
  {
    var distinct := Dedup(parents);
    var all := Sorted(distinct);
    SortByDistinct(distinct, Identity);
    forall x
      ensures x in all <==> x in distinct
    {
      assert x in all <==> x in multiset(all);
      assert x in distinct <==> x in multiset(distinct);
    }
    forall i, j | 0 <= i < j < |all|
      ensures all[i] != all[j]
    {
      assert Identity(all[i]) != Identity(all[j]);
    }
  }

  /** The sample holds the (at most) ten smallest distinct parent keys, ascending. */
  lemma SampleSmallest(parents: seq<string>)
    ensures SortedBy(Sample(parents), Identity) && Distinct(Sample(parents))
    ensures forall x :: x in Sample(parents) ==> x in parents
    ensures |Sample(parents)| < 10 ==> forall p :: p in parents ==> p in Sample(parents)
    ensures forall p, x :: p in parents && p !in Sample(parents) && x in Sample(parents) ==> LessEq(x, p)
  {
    var all := Sorted(Dedup(parents));
    SortedKeys(parents);
    var r := Sample(parents);
    assert r == all[..|r|];
    forall p, x | p in parents && p !in r && x in r
      ensures LessEq(x, p)
    {
      var j :| 0 <= j < |all| && all[j] == p;
      var i :| 0 <= i < |r| && r[i] == x;
      assert all[i] == x && i < j;
      assert LessEq(Identity(all[i]), Identity(all[j]));
    }
  }

  /**
   * `assert_fk`: nothing when every child key is a parent key; otherwise
   * the first child key that is not, with the sample of parent keys.
   */
  function FkCheck(children: seq<Option<string>>, parents: seq<string>, entity: string): (r: Option<BuildError>)
    ensures r.None? <==> forall j :: 0 <= j < |children| ==> Known(children[j], parents)
    ensures r.Some? ==> exists i :: (0 <= i < |children| && !Known(children[i], parents) &&
      (forall j :: 0 <= j < i ==> Known(children[j], parents)) &&
      r.value == InvalidForeignKey(entity, children[i], Sample(parents)))
  {
    match FirstUnknown(children, parents, 0)
    case None => None
    case Some(i) => Some(InvalidForeignKey(entity, children[i], Sample(parents)))
  }

  /** The loop of `assert_fk` over the children, against the set of parent keys. */
  method AssertFk(children: seq<Option<string>>, parents: seq<string>, entity: string) returns (r: Option<BuildError>)
    ensures r == FkCheck(children, parents, entity)
  {
    var parentValues := set p | p in parents;
    for i := 0 to |children|
      invariant FirstUnknown(children, parents, 0) == FirstUnknown(children, parents, i)
    {
      var v := children[i];
      if v.None? || v.value !in parentValues {
        return Some(InvalidForeignKey(entity, v, Sample(parents)));
      }
    }
    r := None;
  }

  // ---------------------------------------------------------------------
  // Capitals
  // ---------------------------------------------------------------------

  /** Which parent a capital is collected for. */
  datatype Level = RegencyLevel | ProvinceLevel

  function ParentKey(d: DistrictRaw, level: Level): Option<string> {
    if level == RegencyLevel then d.regencyCode else d.provinceCode
  }

  function ReportedCapital(d: DistrictRaw, level: Level): Option<string> {
    if level == RegencyLevel then d.regencyCapital else d.provinceCapital
  }

  /** The capital cell is truthy: present and not empty. */
  predicate Reports(d: DistrictRaw, level: Level) {
    ReportedCapital(d, level).Some? && ReportedCapital(d, level).value != ""
  }

  /** The `by_regency` / `by_province` entry for `key`: the truthy capitals of the rows with that parent key. */
  function CapitalSet(ds: seq<DistrictRaw>, level: Level, key: Option<string>): (r: set<string>)
    ensures forall c :: c in r ==> c != ""
  {
    if ds == [] then {}
    else
      var d := ds[|ds| - 1];
      CapitalSet(ds[..|ds| - 1], level, key) +
        (if Reports(d, level) && ParentKey(d, level) == key then {ReportedCapital(d, level).value} else {})
  }

  /** A capital is collected exactly when some row with that parent key reports it. */
  lemma {:induction false} CapitalSetMembers(ds: seq<DistrictRaw>, level: Level, key: Option<string>, c: string)
    ensures c in CapitalSet(ds, level, key) <==>
      exists i :: 0 <= i < |ds| && ParentKey(ds[i], level) == key && ReportedCapital(ds[i], level) == Some(c) && c != ""
  {
    if ds != [] {
      var n := |ds| - 1;
      CapitalSetMembers(ds[..n], level, key, c);
      if c in CapitalSet(ds[..n], level, key) {
        var i :| 0 <= i < n && ParentKey(ds[..n][i], level) == key && ReportedCapital(ds[..n][i], level) == Some(c) && c != "";
        assert ds[i] == ds[..n][i];
      }
      if exists i :: 0 <= i < |ds| && ParentKey(ds[i], level) == key && ReportedCapital(ds[i], level) == Some(c) && c != "" {
        var i :| 0 <= i < |ds| && ParentKey(ds[i], level) == key && ReportedCapital(ds[i], level) == Some(c) && c != "";
        if i < n {
          assert ds[..n][i] == ds[i];
        }
      }
    }
  }

  /** What a dictionary lookup with a default of the empty set gives. */
  function Lookup(groups: map<Option<string>, set<string>>, key: Option<string>): set<string> {
    if key in groups then groups[key] else {}
  }

  /** The loop filling the `defaultdict(set)` of capitals. */
  method GroupCapitals(ds: seq<DistrictRaw>, level: Level) returns (groups: map<Option<string>, set<string>>)
    ensures forall key :: Lookup(groups, key) == CapitalSet(ds, level, key)
  {
    groups := map[];
    for i := 0 to |ds|
      invariant forall key :: Lookup(groups, key) == CapitalSet(ds[..i], level, key)
    {
      assert ds[..i + 1][..i] == ds[..i];
      var d := ds[i];
      if Reports(d, level) {
        var key := ParentKey(d, level);
        groups := groups[key := Lookup(groups, key) + {ReportedCapital(d, level).value}];
      }
    }
    assert ds[..|ds|] == ds;
  }

  /** A set of one element holds nothing else. */
  lemma SingletonUnique(caps: set<string>)
    requires |caps| == 1
    ensures forall x, y :: x in caps && y in caps ==> x == y
  {
    var c :| c in caps;
    assert |caps - {c}| == 0;
    assert caps - {c} == {};
    assert forall x :: x in caps ==> x == c by {
      forall x | x in caps ensures x == c {
        assert x !in caps - {c};
      }
    }
  }

  /** How a capital fits its collected set: none for no value, the value for one. */
  predicate CapitalFits(capital: Option<string>, caps: set<string>) {
    (capital.None? && caps == {}) || (capital.Some? && caps == {capital.value})
  }

  /** The `len(capitals)` branches: no capital, the only one, or the ambiguous set. */
  function ChooseCapital(caps: set<string>): (r: Result<Option<string>, set<string>>)
    ensures r.Ok? <==> |caps| <= 1
    ensures r.Ok? ==> CapitalFits(r.value, caps)
    ensures r.Err? ==> r.error == caps
  {
    if |caps| == 1 then
      SingletonUnique(caps);
      var only :| only in caps;
      Ok(Some(only))
    else if |caps| == 0 then Ok(None)
    else Err(caps)
  }

  // ---------------------------------------------------------------------
  // Normalization
  // ---------------------------------------------------------------------

  /** `sorted(out, key=...)` after `assert_unique(out, "code", entity)`. */
  function Finish<T(!new)>(out: seq<T>, key: T -> string, entity: string): (r: Result<seq<T>, BuildError>)
    ensures r.Ok? <==> Distinct(Keys(out, key))
    ensures r.Err? ==> Some(r.error) == UniqueCheck(Keys(out, key), entity)
    ensures r.Ok? ==> SortedBy(r.value, key) && DistinctBy(r.value, key) && |r.value| == |out|
    ensures r.Ok? ==> forall x :: x in r.value <==> x in out
  {
    var keys := Keys(out, key);
    match UniqueCheck(keys, entity)
    case Some(e) => Err(e)
    case None =>
      assert DistinctBy(out, key);
      var sorted := SortBy(out, key);
      SortByDistinct(out, key);
      assert forall x :: x in sorted <==> x in out by {
        forall x ensures x in sorted <==> x in out {
          assert x in sorted <==> x in multiset(sorted);
          assert x in out <==> x in multiset(out);
        }
      }
      Ok(sorted)
  }

  function RawDistrictCode(d: DistrictRaw): string { d.code }
  function RawRegencyCode(g: RegencyRaw): string { g.code }
  function RawProvinceCode(p: ProvinceRaw): string { p.code }
  function RawVillageCode(v: VillageRaw): string { v.code }

  function DistrictRecord(d: DistrictRaw): District {
    District(d.code, d.regencyCode, d.provinceCode, d.name)
  }

  function VillageRecord(v: VillageRaw): Village {
    Village(v.code, v.districtCode, v.name, v.vtype, None)
  }

  function DistrictRecords(rows: seq<DistrictRaw>): (out: seq<District>)
    ensures |out| == |rows| && forall i :: 0 <= i < |rows| ==> out[i] == DistrictRecord(rows[i])
    ensures Keys(out, DistrictCode) == Keys(rows, RawDistrictCode)
  {
    seq(|rows|, i requires 0 <= i < |rows| => DistrictRecord(rows[i]))
  }

  function VillageRecords(rows: seq<VillageRaw>): (out: seq<Village>)
    ensures |out| == |rows| && forall i :: 0 <= i < |rows| ==> out[i] == VillageRecord(rows[i])
    ensures Keys(out, VillageCode) == Keys(rows, RawVillageCode)
  {
    seq(|rows|, i requires 0 <= i < |rows| => VillageRecord(rows[i]))
  }

  /**
   * `normalize_district`: the rows' projections, sorted by code, or the
   * first repeated code.
   */
  function NormalizeDistrict(rows: seq<DistrictRaw>): (r: Result<seq<District>, BuildError>)
    ensures r.Ok? <==> Distinct(Keys(rows, RawDistrictCode))
    ensures r.Ok? ==> SortedBy(r.value, DistrictCode) && DistinctBy(r.value, DistrictCode) && |r.value| == |rows|
    ensures r.Ok? ==> forall x :: x in r.value <==> exists i :: 0 <= i < |rows| && x == DistrictRecord(rows[i])
  {
    var out := DistrictRecords(rows);
    var r := Finish(out, DistrictCode, "district");
    assert r.Ok? ==> forall x :: x in r.value <==> exists i :: 0 <= i < |rows| && x == DistrictRecord(rows[i]) by {
      if r.Ok? {
        forall x ensures x in r.value <==> exists i :: 0 <= i < |rows| && x == DistrictRecord(rows[i]) {
          if x in out {
            var i :| 0 <= i < |out| && out[i] == x;
          }
        }
      }
    }
    r
  }

  /**
   * `normalize_village`: the rows' projections (with no note), sorted by
   * code, or the first repeated code.
   */
  function NormalizeVillage(rows: seq<VillageRaw>): (r: Result<seq<Village>, BuildError>)
    ensures r.Ok? <==> Distinct(Keys(rows, RawVillageCode))
    ensures r.Ok? ==> SortedBy(r.value, VillageCode) && DistinctBy(r.value, VillageCode) && |r.value| == |rows|
    ensures r.Ok? ==> forall x :: x in r.value <==> exists i :: 0 <= i < |rows| && x == VillageRecord(rows[i])
    ensures r.Ok? ==> forall x :: x in r.value ==> x.note.None?
  {
    var out := VillageRecords(rows);
    var r := Finish(out, VillageCode, "village");
    assert r.Ok? ==> forall x :: x in r.value <==> exists i :: 0 <= i < |rows| && x == VillageRecord(rows[i]) by {
      if r.Ok? {
        forall x ensures x in r.value <==> exists i :: 0 <= i < |rows| && x == VillageRecord(rows[i]) {
          if x in out {
            var i :| 0 <= i < |out| && out[i] == x;
          }
        }
      }
    }
    r
  }

  /** A loop over `rows` that builds one record per row and stops at the first row `f` fails on. */
  function MapUntilError<A, B>(rows: seq<A>, f: A -> Result<B, BuildError>): (r: Result<seq<B>, BuildError>)
    ensures r.Ok? <==> forall i :: 0 <= i < |rows| ==> f(rows[i]).Ok?
    ensures r.Ok? ==> |r.value| == |rows| && forall i :: 0 <= i < |rows| ==> f(rows[i]) == Ok(r.value[i])
    ensures r.Err? ==> exists i :: (0 <= i < |rows| && f(rows[i]) == Err(r.error) &&
      forall j :: 0 <= j < i ==> f(rows[j]).Ok?)
  {
    if rows == [] then Ok([])
    else
      var n := |rows| - 1;
      var prev := MapUntilError(rows[..n], f);
      assert forall i :: 0 <= i < n ==> rows[..n][i] == rows[i];
      if prev.Err? then prev
      else
        match f(rows[n])
        case Err(e) => Err(e)
        case Ok(b) => Ok(prev.value + [b])
  }

  /** Once a prefix has failed, the whole loop fails the same way. */
  lemma {:induction false} MapUntilErrorStays<A, B>(rows: seq<A>, f: A -> Result<B, BuildError>, k: nat)
    requires k <= |rows| && MapUntilError(rows[..k], f).Err?
    ensures MapUntilError(rows, f) == MapUntilError(rows[..k], f)
    decreases |rows| - k
  {
    if k < |rows| {
      var n := |rows| - 1;
      assert rows[..n][..k] == rows[..k];
      MapUntilErrorStays(rows[..n], f, k);
    } else {
      assert rows[..k] == rows;
    }
  }

  /** A regency record copies its raw row and carries the capital its collected set gives. */
  predicate RegencyFits(g: Regency, row: RegencyRaw, ds: seq<DistrictRaw>) {
    g.code == row.code && g.provinceCode == row.provinceCode && g.name == row.name && g.rtype == row.rtype &&
    CapitalFits(g.capital, CapitalSet(ds, RegencyLevel, Some(row.code)))
  }

  /** A province record copies its raw row and carries the capital its collected set gives. */
  predicate ProvinceFits(p: Province, row: ProvinceRaw, ds: seq<DistrictRaw>) {
    p.code == row.code && p.name == row.name &&
    CapitalFits(p.capital, CapitalSet(ds, ProvinceLevel, Some(row.code)))
  }

  /**
   * One iteration of the regency loop. An ambiguous capital reaches the
   * error message, whose reference to `p` is undefined there.
   */
  function RegencyOf(row: RegencyRaw, ds: seq<DistrictRaw>): (r: Result<Regency, BuildError>)
    ensures r.Ok? <==> |CapitalSet(ds, RegencyLevel, Some(row.code))| <= 1
    ensures r.Err? ==> r.error == UndefinedName
    ensures r.Ok? ==> RegencyFits(r.value, row, ds)
  {
    match ChooseCapital(CapitalSet(ds, RegencyLevel, Some(row.code)))
    case Err(_) => Err(UndefinedName)
    case Ok(capital) => Ok(Regency(row.code, row.provinceCode, row.name, row.rtype, capital))
  }

  /** One iteration of the province loop; an ambiguous capital fails with the code and the capitals. */
  function ProvinceOf(row: ProvinceRaw, ds: seq<DistrictRaw>): (r: Result<Province, BuildError>)
    ensures r.Ok? <==> |CapitalSet(ds, ProvinceLevel, Some(row.code))| <= 1
    ensures r.Err? ==> r.error == MultipleCapitals(row.code, CapitalSet(ds, ProvinceLevel, Some(row.code)))
    ensures r.Ok? ==> ProvinceFits(r.value, row, ds)
  {
    match ChooseCapital(CapitalSet(ds, ProvinceLevel, Some(row.code)))
    case Err(caps) => Err(MultipleCapitals(row.code, caps))
    case Ok(capital) => Ok(Province(row.code, row.name, capital))
  }

  function RegencyStep(ds: seq<DistrictRaw>): RegencyRaw -> Result<Regency, BuildError> {
    row => RegencyOf(row, ds)
  }

  function ProvinceStep(ds: seq<DistrictRaw>): ProvinceRaw -> Result<Province, BuildError> {
    row => ProvinceOf(row, ds)
  }

  /**
   * `normalize_regency`: one record per row with the capital its district
   * rows report, sorted by code; it fails on the first row with several
   * capitals, then on the first repeated code.
   */
  function NormalizeRegency(rows: seq<RegencyRaw>, ds: seq<DistrictRaw>): (r: Result<seq<Regency>, BuildError>)
  {
    match MapUntilError(rows, RegencyStep(ds))
    case Err(e) => Err(e)
    case Ok(out) => Finish(out, RegencyCode, "regency")
  }

  /**
   * `normalize_province`: one record per row with the capital its district
   * rows report, sorted by code; it fails on the first row with several
   * capitals, then on the first repeated code.
   */
  function NormalizeProvince(rows: seq<ProvinceRaw>, ds: seq<DistrictRaw>): (r: Result<seq<Province>, BuildError>)
  {
    match MapUntilError(rows, ProvinceStep(ds))
    case Err(e) => Err(e)
    case Ok(out) => Finish(out, ProvinceCode, "province")
  }

  /** Every regency row has at most one capital. */
  predicate RegencyCapitalsClear(rows: seq<RegencyRaw>, ds: seq<DistrictRaw>) {
    forall i :: 0 <= i < |rows| ==> |CapitalSet(ds, RegencyLevel, Some(rows[i].code))| <= 1
  }

  /** Every province row has at most one capital. */
  predicate ProvinceCapitalsClear(rows: seq<ProvinceRaw>, ds: seq<DistrictRaw>) {
    forall i :: 0 <= i < |rows| ==> |CapitalSet(ds, ProvinceLevel, Some(rows[i].code))| <= 1
  }

  /**
   * Regency normalization succeeds exactly when no regency has several
   * capitals and no code repeats; it then yields one record per row, each
   * copying a row and carrying that row's capital, sorted by code.
   */
  lemma NormalizeRegencyCorrect(rows: seq<RegencyRaw>, ds: seq<DistrictRaw>)
    ensures var r := NormalizeRegency(rows, ds);
      (r.Ok? <==> RegencyCapitalsClear(rows, ds) && Distinct(Keys(rows, RawRegencyCode))) &&
      (r.Err? && !RegencyCapitalsClear(rows, ds) ==> r.error == UndefinedName) &&
      (r.Ok? ==> SortedBy(r.value, RegencyCode) && DistinctBy(r.value, RegencyCode) && |r.value| == |rows|) &&
      (r.Ok? ==> forall x :: x in r.value ==> exists i :: 0 <= i < |rows| && RegencyFits(x, rows[i], ds)) &&
      (r.Ok? ==> forall i :: 0 <= i < |rows| ==> RegencyRecorded(r.value, rows[i], ds))
  {
    NormalizeRegencyOutcome(rows, ds);
    NormalizeRegencyFits(rows, ds);
    NormalizeRegencyCovers(rows, ds);
  }

  /** When the regency table is built, and the error when it is not. */
  lemma NormalizeRegencyOutcome(rows: seq<RegencyRaw>, ds: seq<DistrictRaw>)
    ensures var r := NormalizeRegency(rows, ds);
      (r.Ok? <==> RegencyCapitalsClear(rows, ds) && Distinct(Keys(rows, RawRegencyCode))) &&
      (r.Err? && !RegencyCapitalsClear(rows, ds) ==> r.error == UndefinedName)
  {
    var f := RegencyStep(ds);
    var m := MapUntilError(rows, f);
    assert forall i :: 0 <= i < |rows| ==> f(rows[i]) == RegencyOf(rows[i], ds);
    if m.Ok? {
      assert Keys(m.value, RegencyCode) == Keys(rows, RawRegencyCode);
    }
  }

  /** A built regency table is sorted, keyed once per code, and each record fits one of the raw rows. */
  lemma NormalizeRegencyFits(rows: seq<RegencyRaw>, ds: seq<DistrictRaw>)
    ensures var r := NormalizeRegency(rows, ds);
      (r.Ok? ==> SortedBy(r.value, RegencyCode) && DistinctBy(r.value, RegencyCode) && |r.value| == |rows|) &&
      (r.Ok? ==> forall x :: x in r.value ==> exists i :: 0 <= i < |rows| && RegencyFits(x, rows[i], ds))
  {
    var m := MapUntilError(rows, RegencyStep(ds));
    if m.Ok? {
      var out := m.value;
      RegencyRowsFit(rows, ds, out);
      var r := Finish(out, RegencyCode, "regency");
      if r.Ok? {
        RegenciesFit(rows, ds, out, r.value);
      }
    }
  }

  /** Every raw row has a record in a built regency table that fits it. */
  lemma NormalizeRegencyCovers(rows: seq<RegencyRaw>, ds: seq<DistrictRaw>)
    ensures var r := NormalizeRegency(rows, ds);
      r.Ok? ==> forall i :: 0 <= i < |rows| ==> RegencyRecorded(r.value, rows[i], ds)
  {
    var m := MapUntilError(rows, RegencyStep(ds));
    if m.Ok? {
      var out := m.value;
      RegencyRowsFit(rows, ds, out);
      var r := Finish(out, RegencyCode, "regency");
      if r.Ok? {
        RegenciesCover(rows, ds, out, r.value);
      }
    }
  }

  /** A reordering of records that fit their rows one by one: each record fits some row. */
  lemma RegenciesFit(rows: seq<RegencyRaw>, ds: seq<DistrictRaw>, out: seq<Regency>, result: seq<Regency>)
    requires |out| == |rows| && forall i :: 0 <= i < |rows| ==> RegencyFits(out[i], rows[i], ds)
    requires forall x :: x in result <==> x in out
    ensures forall x :: x in result ==> exists i :: 0 <= i < |rows| && RegencyFits(x, rows[i], ds)
  {
    forall x | x in result ensures exists i :: 0 <= i < |rows| && RegencyFits(x, rows[i], ds) {
      var i :| 0 <= i < |out| && out[i] == x;
    }
  }

  /** Some record of `result` fits `row`. */
  predicate RegencyRecorded(result: seq<Regency>, row: RegencyRaw, ds: seq<DistrictRaw>) {
    exists x :: x in result && RegencyFits(x, row, ds)
  }

  /** The same reordering: each row has a record that fits it. */
  lemma RegenciesCover(rows: seq<RegencyRaw>, ds: seq<DistrictRaw>, out: seq<Regency>, result: seq<Regency>)
    requires |out| == |rows| && forall i :: 0 <= i < |rows| ==> RegencyFits(out[i], rows[i], ds)
    requires forall x :: x in result <==> x in out
    ensures forall i :: 0 <= i < |rows| ==> RegencyRecorded(result, rows[i], ds)
  {
    forall i | 0 <= i < |rows| ensures RegencyRecorded(result, rows[i], ds) {
      var x := out[i];
      assert x in out;
      assert x in result;
      assert RegencyFits(x, rows[i], ds);
    }
  }

  /** Row by row, the records the regency loop builds fit their raw rows. */
  lemma RegencyRowsFit(rows: seq<RegencyRaw>, ds: seq<DistrictRaw>, out: seq<Regency>)
    requires |out| == |rows| && forall i :: 0 <= i < |rows| ==> RegencyStep(ds)(rows[i]) == Ok(out[i])
    ensures forall i :: 0 <= i < |rows| ==> RegencyFits(out[i], rows[i], ds)
  {
    forall i | 0 <= i < |rows| ensures RegencyFits(out[i], rows[i], ds) {
      assert RegencyOf(rows[i], ds) == Ok(out[i]);
    }
  }

  /**
   * Province normalization succeeds exactly when no province has several
   * capitals and no code repeats; a province with several capitals is
   * reported with its code and its capitals. It then yields one record per
   * row, each copying a row and carrying that row's capital, sorted by code.
   */
  lemma NormalizeProvinceCorrect(rows: seq<ProvinceRaw>, ds: seq<DistrictRaw>)
    ensures var r := NormalizeProvince(rows, ds);
      (r.Ok? <==> ProvinceCapitalsClear(rows, ds) && Distinct(Keys(rows, RawProvinceCode))) &&
      (r.Err? && !ProvinceCapitalsClear(rows, ds) ==> exists i :: (0 <= i < |rows| &&
        r.error == MultipleCapitals(rows[i].code, CapitalSet(ds, ProvinceLevel, Some(rows[i].code))) &&
        |CapitalSet(ds, ProvinceLevel, Some(rows[i].code))| > 1)) &&
      (r.Ok? ==> SortedBy(r.value, ProvinceCode) && DistinctBy(r.value, ProvinceCode) && |r.value| == |rows|) &&
      (r.Ok? ==> forall x :: x in r.value ==> exists i :: 0 <= i < |rows| && ProvinceFits(x, rows[i], ds)) &&
      (r.Ok? ==> forall i :: 0 <= i < |rows| ==> ProvinceRecorded(r.value, rows[i], ds))
  {
    NormalizeProvinceOutcome(rows, ds);
    NormalizeProvinceFits(rows, ds);
    NormalizeProvinceCovers(rows, ds);
  }

  /** When the province table is built, and the error when it is not. */
  lemma NormalizeProvinceOutcome(rows: seq<ProvinceRaw>, ds: seq<DistrictRaw>)
    ensures var r := NormalizeProvince(rows, ds);
      (r.Ok? <==> ProvinceCapitalsClear(rows, ds) && Distinct(Keys(rows, RawProvinceCode))) &&
      (r.Err? && !ProvinceCapitalsClear(rows, ds) ==> exists i :: (0 <= i < |rows| &&
        r.error == MultipleCapitals(rows[i].code, CapitalSet(ds, ProvinceLevel, Some(rows[i].code))) &&
        |CapitalSet(ds, ProvinceLevel, Some(rows[i].code))| > 1))
  {
    var f := ProvinceStep(ds);
    var m := MapUntilError(rows, f);
    assert forall i :: 0 <= i < |rows| ==> f(rows[i]) == ProvinceOf(rows[i], ds);
    if m.Ok? {
      assert Keys(m.value, ProvinceCode) == Keys(rows, RawProvinceCode);
    } else {
      var i :| 0 <= i < |rows| && f(rows[i]) == Err(m.error) && forall j :: 0 <= j < i ==> f(rows[j]).Ok?;
    }
  }

  /** A built province table is sorted, keyed once per code, and each record fits one of the raw rows. */
  lemma NormalizeProvinceFits(rows: seq<ProvinceRaw>, ds: seq<DistrictRaw>)
    ensures var r := NormalizeProvince(rows, ds);
      (r.Ok? ==> SortedBy(r.value, ProvinceCode) && DistinctBy(r.value, ProvinceCode) && |r.value| == |rows|) &&
      (r.Ok? ==> forall x :: x in r.value ==> exists i :: 0 <= i < |rows| && ProvinceFits(x, rows[i], ds))
  {
    var m := MapUntilError(rows, ProvinceStep(ds));
    if m.Ok? {
      var out := m.value;
      ProvinceRowsFit(rows, ds, out);
      var r := Finish(out, ProvinceCode, "province");
      if r.Ok? {
        ProvincesFit(rows, ds, out, r.value);
      }
    }
  }

  /** Every raw row has a record in a built province table that fits it. */
  lemma NormalizeProvinceCovers(rows: seq<ProvinceRaw>, ds: seq<DistrictRaw>)
    ensures var r := NormalizeProvince(rows, ds);
      r.Ok? ==> forall i :: 0 <= i < |rows| ==> ProvinceRecorded(r.value, rows[i], ds)
  {
    var m := MapUntilError(rows, ProvinceStep(ds));
    if m.Ok? {
      var out := m.value;
      ProvinceRowsFit(rows, ds, out);
      var r := Finish(out, ProvinceCode, "province");
      if r.Ok? {
        ProvincesCover(rows, ds, out, r.value);
      }
    }
  }

  /** A reordering of records that fit their rows one by one: each record fits some row. */
  lemma ProvincesFit(rows: seq<ProvinceRaw>, ds: seq<DistrictRaw>, out: seq<Province>, result: seq<Province>)
    requires |out| == |rows| && forall i :: 0 <= i < |rows| ==> ProvinceFits(out[i], rows[i], ds)
    requires forall x :: x in result <==> x in out
    ensures forall x :: x in result ==> exists i :: 0 <= i < |rows| && ProvinceFits(x, rows[i], ds)
  {
    forall x | x in result ensures exists i :: 0 <= i < |rows| && ProvinceFits(x, rows[i], ds) {
      var i :| 0 <= i < |out| && out[i] == x;
    }
  }

  /** Some record of `result` fits `row`. */
  predicate ProvinceRecorded(result: seq<Province>, row: ProvinceRaw, ds: seq<DistrictRaw>) {
    exists x :: x in result && ProvinceFits(x, row, ds)
  }

  /** The same reordering: each row has a record that fits it. */
  lemma ProvincesCover(rows: seq<ProvinceRaw>, ds: seq<DistrictRaw>, out: seq<Province>, result: seq<Province>)
    requires |out| == |rows| && forall i :: 0 <= i < |rows| ==> ProvinceFits(out[i], rows[i], ds)
    requires forall x :: x in result <==> x in out
    ensures forall i :: 0 <= i < |rows| ==> ProvinceRecorded(result, rows[i], ds)
  {
    forall i | 0 <= i < |rows| ensures ProvinceRecorded(result, rows[i], ds) {
      var x := out[i];
      assert x in out;
      assert x in result;
      assert ProvinceFits(x, rows[i], ds);
    }
  }

  /** Row by row, the records the province loop builds fit their raw rows. */
  lemma ProvinceRowsFit(rows: seq<ProvinceRaw>, ds: seq<DistrictRaw>, out: seq<Province>)
    requires |out| == |rows| && forall i :: 0 <= i < |rows| ==> ProvinceStep(ds)(rows[i]) == Ok(out[i])
    ensures forall i :: 0 <= i < |rows| ==> ProvinceFits(out[i], rows[i], ds)
  {
    forall i | 0 <= i < |rows| ensures ProvinceFits(out[i], rows[i], ds) {
      assert ProvinceOf(rows[i], ds) == Ok(out[i]);
    }
  }


  /** The loop of `normalize_district`, then the uniqueness check and the sort. */
  method NormalizeDistrictRows(rows: seq<DistrictRaw>) returns (r: Result<seq<District>, BuildError>)
    ensures r == NormalizeDistrict(rows)
  {
    var out: seq<District> := [];
    for i := 0 to |rows|
      invariant |out| == i && forall j :: 0 <= j < i ==> out[j] == DistrictRecord(rows[j])
    {
      var d := rows[i];
      out := out + [District(d.code, d.regencyCode, d.provinceCode, d.name)];
    }
    assert out == DistrictRecords(rows);
    var duplicate := AssertUnique(Keys(out, DistrictCode), "district");
    if duplicate.Some? {
      return Err(duplicate.value);
    }
    r := Ok(SortBy(out, DistrictCode));
  }

  /** The loop of `normalize_village`, then the uniqueness check and the sort. */
  method NormalizeVillageRows(rows: seq<VillageRaw>) returns (r: Result<seq<Village>, BuildError>)
    ensures r == NormalizeVillage(rows)
  {
    var out: seq<Village> := [];
    for i := 0 to |rows|
      invariant |out| == i && forall j :: 0 <= j < i ==> out[j] == VillageRecord(rows[j])
    {
      var v := rows[i];
      out := out + [Village(v.code, v.districtCode, v.name, v.vtype, None)];
    }
    assert out == VillageRecords(rows);
    var duplicate := AssertUnique(Keys(out, VillageCode), "village");
    if duplicate.Some? {
      return Err(duplicate.value);
    }
    r := Ok(SortBy(out, VillageCode));
  }

  /** The capital of one row, as the `len(capitals)` branches pick it. */
  method PickCapital(caps: set<string>) returns (r: Result<Option<string>, set<string>>)
    ensures r == ChooseCapital(caps)
  {
    if |caps| == 1 {
      SingletonUnique(caps);
      var only :| only in caps;
      r := Ok(Some(only));
    } else if |caps| == 0 {
      r := Ok(None);
    } else {
      r := Err(caps);
    }
  }

  /** `normalize_regency`: capitals grouped from the raw district rows, one record per row, then checks and sort. */
  method NormalizeRegencyRows(rows: seq<RegencyRaw>, ds: seq<DistrictRaw>) returns (r: Result<seq<Regency>, BuildError>)
    ensures r == NormalizeRegency(rows, ds)
  {
    var groups := GroupCapitals(ds, RegencyLevel);
    var out: seq<Regency> := [];
    for i := 0 to |rows|
      invariant MapUntilError(rows[..i], RegencyStep(ds)) == Ok(out)
    {
      assert rows[..i + 1][..i] == rows[..i];
      var row := rows[i];
      var capital := PickCapital(Lookup(groups, Some(row.code)));
      if capital.Err? {
        MapUntilErrorStays(rows, RegencyStep(ds), i + 1);
        return Err(UndefinedName);
      }
      out := out + [Regency(row.code, row.provinceCode, row.name, row.rtype, capital.value)];
    }
    assert rows[..|rows|] == rows;
    var duplicate := AssertUnique(Keys(out, RegencyCode), "regency");
    if duplicate.Some? {
      return Err(duplicate.value);
    }
    r := Ok(SortBy(out, RegencyCode));
  }

  /** `normalize_province`: capitals grouped from the raw district rows, one record per row, then checks and sort. */
  method NormalizeProvinceRows(rows: seq<ProvinceRaw>, ds: seq<DistrictRaw>) returns (r: Result<seq<Province>, BuildError>)
    ensures r == NormalizeProvince(rows, ds)
  {
    var groups := GroupCapitals(ds, ProvinceLevel);
    var out: seq<Province> := [];
    for i := 0 to |rows|
      invariant MapUntilError(rows[..i], ProvinceStep(ds)) == Ok(out)
    {
      assert rows[..i + 1][..i] == rows[..i];
      var row := rows[i];
      var capital := PickCapital(Lookup(groups, Some(row.code)));
      if capital.Err? {
        MapUntilErrorStays(rows, ProvinceStep(ds), i + 1);
        return Err(MultipleCapitals(row.code, capital.error));
      }
      out := out + [Province(row.code, row.name, capital.value)];
    }
    assert rows[..|rows|] == rows;
    var duplicate := AssertUnique(Keys(out, ProvinceCode), "province");
    if duplicate.Some? {
      return Err(duplicate.value);
    }
    r := Ok(SortBy(out, ProvinceCode));
  }

  // ---------------------------------------------------------------------
  // build_dataset
  // ---------------------------------------------------------------------

  function RegencyParent(g: Regency): Option<string> { Some(g.provinceCode) }
  function DistrictParent(d: District): Option<string> { d.regencyCode }
  function VillageParent(v: Village): Option<string> { Some(v.districtCode) }

  /** The three foreign-key checks, in the order they run. */
  function ForeignKeys(provinces: seq<Province>, regencies: seq<Regency>, districts: seq<District>, villages: seq<Village>)
    : Option<BuildError>
  {
    var regencyFk := FkCheck(Keys(regencies, RegencyParent), Keys(provinces, ProvinceCode), "regency");
    if regencyFk.Some? then regencyFk
    else
      var districtFk := FkCheck(Keys(districts, DistrictParent), Keys(regencies, RegencyCode), "district");
      if districtFk.Some? then districtFk
      else FkCheck(Keys(villages, VillageParent), Keys(districts, DistrictCode), "village")
  }

  /**
   * `build_dataset` up to the writes: normalize districts, regencies,
   * provinces and villages (capitals from the raw district rows), then the
   * three foreign-key checks; the dataset is only produced when every step
   * passes.
   */
  function BuildDataset(provinceRows: seq<ProvinceRaw>, regencyRows: seq<RegencyRaw>,
                        districtRows: seq<DistrictRaw>, villageRows: seq<VillageRaw>): Result<Dataset, BuildError>
  {
    match NormalizeDistrict(districtRows)
    case Err(e) => Err(e)
    case Ok(districts) =>
      match NormalizeRegency(regencyRows, districtRows)
      case Err(e) => Err(e)
      case Ok(regencies) =>
        match NormalizeProvince(provinceRows, districtRows)
        case Err(e) => Err(e)
        case Ok(provinces) =>
          match NormalizeVillage(villageRows)
          case Err(e) => Err(e)
          case Ok(villages) =>
            match ForeignKeys(provinces, regencies, districts, villages)
            case Some(e) => Err(e)
            case None => Ok(Dataset(provinces, regencies, districts, villages))
  }

  /** What is written satisfies every check: codes unique and ascending, every parent key present. */
  predicate Integral(d: Dataset) {
    SortedBy(d.provinces, ProvinceCode) && DistinctBy(d.provinces, ProvinceCode) &&
    SortedBy(d.regencies, RegencyCode) && DistinctBy(d.regencies, RegencyCode) &&
    SortedBy(d.districts, DistrictCode) && DistinctBy(d.districts, DistrictCode) &&
    SortedBy(d.villages, VillageCode) && DistinctBy(d.villages, VillageCode) &&
    (forall g :: g in d.regencies ==> exists p :: p in d.provinces && p.code == g.provinceCode) &&
    (forall x :: x in d.districts ==> exists g :: g in d.regencies && x.regencyCode == Some(g.code)) &&
    (forall v :: v in d.villages ==> exists x :: x in d.districts && x.code == v.districtCode)
  }

  /** A passing foreign-key check means every child names an existing parent. */
  lemma FkPassed<C, P>(children: seq<C>, childKey: C -> Option<string>, parents: seq<P>, parentKey: P -> string, entity: string)
    requires FkCheck(Keys(children, childKey), Keys(parents, parentKey), entity).None?
    ensures forall c :: c in children ==> exists p :: p in parents && childKey(c) == Some(parentKey(p))
  {
    var ks := Keys(children, childKey);
    var ps := Keys(parents, parentKey);
    forall c | c in children
      ensures exists p :: p in parents && childKey(c) == Some(parentKey(p))
    {
      var i :| 0 <= i < |children| && children[i] == c;
      assert Known(ks[i], ps);
      var k :| 0 <= k < |ps| && ps[k] == childKey(c).value;
      assert parents[k] in parents;
    }
  }

  /**
   * A build succeeds exactly when every normalization and every foreign-key
   * check passes, and what it yields is integral.
   */
  lemma BuildDatasetSound(provinceRows: seq<ProvinceRaw>, regencyRows: seq<RegencyRaw>,
                          districtRows: seq<DistrictRaw>, villageRows: seq<VillageRaw>)
    ensures var r := BuildDataset(provinceRows, regencyRows, districtRows, villageRows);
      (r.Ok? <==>
        NormalizeDistrict(districtRows).Ok? && NormalizeRegency(regencyRows, districtRows).Ok? &&
        NormalizeProvince(provinceRows, districtRows).Ok? && NormalizeVillage(villageRows).Ok? &&
        ForeignKeys(NormalizeProvince(provinceRows, districtRows).value, NormalizeRegency(regencyRows, districtRows).value,
          NormalizeDistrict(districtRows).value, NormalizeVillage(villageRows).value).None?) &&
      (r.Ok? ==> Integral(r.value))
  {
    var r := BuildDataset(provinceRows, regencyRows, districtRows, villageRows);
    if r.Ok? {
      var d := r.value;
      NormalizeRegencyCorrect(regencyRows, districtRows);
      NormalizeProvinceCorrect(provinceRows, districtRows);
      FkPassed(d.regencies, RegencyParent, d.provinces, ProvinceCode, "regency");
      FkPassed(d.districts, DistrictParent, d.regencies, RegencyCode, "district");
      FkPassed(d.villages, VillageParent, d.districts, DistrictCode, "village");
    }
  }

  /** `build_dataset`: every step in order, each failure ending the build before anything is written. */
  method BuildDatasetFromRows(provinceRows: seq<ProvinceRaw>, regencyRows: seq<RegencyRaw>,
                              districtRows: seq<DistrictRaw>, villageRows: seq<VillageRaw>)
    returns (r: Result<Dataset, BuildError>)
    ensures r == BuildDataset(provinceRows, regencyRows, districtRows, villageRows)
  {
    var districtsRaw := districtRows;
    var districts := NormalizeDistrictRows(districtRows);
    if districts.Err? {
      return Err(districts.error);
    }
    var regencies := NormalizeRegencyRows(regencyRows, districtsRaw);
    if regencies.Err? {
      return Err(regencies.error);
    }
    var provinces := NormalizeProvinceRows(provinceRows, districtsRaw);
    if provinces.Err? {
      return Err(provinces.error);
    }
    var villages := NormalizeVillageRows(villageRows);
    if villages.Err? {
      return Err(villages.error);
    }
    var failed := AssertFk(Keys(regencies.value, RegencyParent), Keys(provinces.value, ProvinceCode), "regency");
    if failed.Some? {
      return Err(failed.value);
    }
    failed := AssertFk(Keys(districts.value, DistrictParent), Keys(regencies.value, RegencyCode), "district");
    if failed.Some? {
      return Err(failed.value);
    }
    failed := AssertFk(Keys(villages.value, VillageParent), Keys(districts.value, DistrictCode), "village");
    if failed.Some? {
      return Err(failed.value);
    }
    r := Ok(Dataset(provinces.value, regencies.value, districts.value, villages.value));
  }
}
