/**
 * The row processor: walks classified rows and keeps the current province,
 * regency and district in a parsing state. It emits nothing.
 */
module RowProcessor {
  import opened Wrappers
  import opened PipelineContext
  import opened RowClassifier

  /** The three context slots of the parsing state. */
  datatype Context<R> = Context(province: Option<R>, regency: Option<R>, district: Option<R>)

  /** How one row changes the context, by the level of its code. */
  function Step<R>(c: Context<R>, row: R, code: string): (r: Context<R>)
    ensures ClassifyRow(code) == Province ==> r == Context(Some(row), None, None)
    ensures ClassifyRow(code) == Regency ==> r == Context(c.province, Some(row), None)
    ensures ClassifyRow(code) == District ==> r == c.(district := Some(row))
    ensures ClassifyRow(code) in {Village, Other} ==> r == c
  {
    match ClassifyRow(code)
    case Province => Context(Some(row), None, None)
    case Regency => Context(c.province, Some(row), None)
    case District => c.(district := Some(row))
    case _ => c
  }

  /** The context after the rows `rows`, one after the other, starting from `c`. */
  function Track<R>(c: Context<R>, rows: seq<R>, codeOf: R -> string): Context<R>
  {
    if rows == [] then c
    else
      var last := rows[|rows| - 1];
      Step(Track(c, rows[..|rows| - 1], codeOf), last, codeOf(last))
  }

  /** The level of row `k` of `rows`. */
  function Level<R>(rows: seq<R>, k: nat, codeOf: R -> string): RowType
    requires k < |rows|
  {
    ClassifyRow(codeOf(rows[k]))
  }

  /** No row after position `j` has one of the levels in `levels`. */
  predicate NoneAfter<R>(rows: seq<R>, j: nat, levels: set<RowType>, codeOf: R -> string) {
    forall k :: j < k < |rows| ==> Level(rows, k, codeOf) !in levels
  }

  /**
   * What the context slots mean: each non-empty slot holds a row of its level
   * that no coarser (or same-level) row has followed since.
   */
  ghost predicate Explains<R>(c: Context<R>, rows: seq<R>, codeOf: R -> string) {
    Held(c.province, rows, Province, {Province}, codeOf) &&
    Held(c.regency, rows, Regency, {Province, Regency}, codeOf) &&
    Held(c.district, rows, District, {Province, Regency, District}, codeOf)
  }

  /** A filled slot holds a row of `level` after which no row of `levels` came. */
  ghost predicate Held<R>(slot: Option<R>, rows: seq<R>, level: RowType, levels: set<RowType>, codeOf: R -> string) {
    slot.Some? ==>
      exists j :: 0 <= j < |rows| && rows[j] == slot.value && Level(rows, j, codeOf) == level
        && NoneAfter(rows, j, levels, codeOf)
  }

  /**
   * One more row keeps a slot explained: the slot is emptied, or set to the
   * new row of its level, or kept while the new row is of no level that
   * would reset it.
   */
  lemma HeldStep<R>(slot: Option<R>, slot': Option<R>, rows: seq<R>, level: RowType, levels: set<RowType>, codeOf: R -> string)
    requires rows != [] && Held(slot, rows[..|rows| - 1], level, levels, codeOf)
    requires level in levels
    requires slot'.None? ||
      (slot' == Some(rows[|rows| - 1]) && Level(rows, |rows| - 1, codeOf) == level) ||
      (slot' == slot && Level(rows, |rows| - 1, codeOf) !in levels)
    ensures Held(slot', rows, level, levels, codeOf)
  {
    var n := |rows| - 1;
    var prev := rows[..n];
    if slot'.Some? {
      if slot' == Some(rows[n]) && Level(rows, n, codeOf) == level {
        assert NoneAfter(rows, n, levels, codeOf);
      } else {
        var j :| 0 <= j < n && prev[j] == slot.value && Level(prev, j, codeOf) == level
          && NoneAfter(prev, j, levels, codeOf);
        assert rows[j] == slot'.value && Level(rows, j, codeOf) == level;
        forall k | j < k < |rows| ensures Level(rows, k, codeOf) !in levels {
          if k < n {
            assert Level(prev, k, codeOf) == Level(rows, k, codeOf);
          }
        }
      }
    }
  }

  /**
   * Starting from an empty state, a set district was seen after the last
   * regency and province rows, and a set regency after the last province row.
   */
  lemma {:induction false} TrackExplains<R>(rows: seq<R>, codeOf: R -> string)
    ensures Explains(Track(Context(None, None, None), rows, codeOf), rows, codeOf)
  {
    if rows != [] {
      var n := |rows| - 1;
      TrackExplains(rows[..n], codeOf);
      var c := Track(Context(None, None, None), rows[..n], codeOf);
      var c' := Step(c, rows[n], codeOf(rows[n]));
      assert Track(Context(None, None, None), rows, codeOf) == c';
      assert Level(rows, n, codeOf) == ClassifyRow(codeOf(rows[n]));
      HeldStep(c.province, c'.province, rows, Province, {Province}, codeOf);
      HeldStep(c.regency, c'.regency, rows, Regency, {Province, Regency}, codeOf);
      HeldStep(c.district, c'.district, rows, District, {Province, Regency, District}, codeOf);
    }
  }

  /** `ParsingState`: the fields `process_rows` updates in place. */
  class ParsingState<R> {
    var currentProvince: Option<R>
    var currentRegency: Option<R>
    var currentDistrict: Option<R>

    function Current(): Context<R>
      reads this
    {
      Context(currentProvince, currentRegency, currentDistrict)
    }

    constructor ()
      ensures Current() == Context(None, None, None)
    {
      currentProvince, currentRegency, currentDistrict := None, None, None;
    }

    /**
     * `process_rows`: applies each row's level to the three slots in order.
     * `pageType` is accepted and ignored, and no row is emitted.
     */
    method ProcessRows(rows: seq<R>, pageType: PageType, codeOf: R -> string)
      modifies this
      ensures Current() == Track(old(Current()), rows, codeOf)
    {
      ghost var start := Current();
      var i := 0;
      while i < |rows|
        invariant 0 <= i <= |rows|
        invariant Current() == Track(start, rows[..i], codeOf)
      {
        var row := rows[i];
        match ClassifyRow(codeOf(row)) {
          case Province =>
            currentProvince := Some(row);
            currentRegency := None;
            currentDistrict := None;
          case Regency =>
            currentRegency := Some(row);
            currentDistrict := None;
          case District =>
            currentDistrict := Some(row);
          case _ =>
        }
        assert rows[..i + 1][..i] == rows[..i];
        i := i + 1;
      }
      assert rows[..i] == rows;
    }
  }
}
