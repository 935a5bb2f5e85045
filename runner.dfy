/**
 * The page loop of the pipeline runner. Pages are visited in ascending
 * order. Once a province page has been seen, the first page classified as
 * unknown ends the loop. An unknown page that does not end it is parsed as
 * the previous page's type, when there is one. Every page's tables go to
 * the parser for its type, and that parser's rows are appended to the
 * matching list.
 *
 * The document is a sequence of pages, each already classified; the four
 * parsers are parameters and see only a page's tables and its number.
 */
module Runner {
  import opened Wrappers
  import opened PipelineContext

  /** A page: its classification and its extracted tables. */
  datatype Page<T> = Page(kind: PageType, tables: T)

  /** The four parsers, each taking a page's tables and number. */
  datatype Parsers<!T, P, R, D, V, E> = Parsers(
    province: (T, int) -> Result<seq<P>, E>,
    regency: (T, int) -> Result<seq<R>, E>,
    district: (T, int) -> Result<seq<D>, E>,
    village: (T, int) -> Result<seq<V>, E>)

  /** The four row lists handed to the sinks. */
  datatype Rows<P, R, D, V> = Rows(provinces: seq<P>, regencies: seq<R>, districts: seq<D>, villages: seq<V>)

  /** The loop variables; `stopped` is set where the loop breaks. */
  datatype LoopState<P, R, D, V> = LoopState(
    seenProvince: bool,
    unknownAfterProvince: nat,
    lastPageType: Option<PageType>,
    rows: Rows<P, R, D, V>,
    stopped: bool)

  /** How a run can fail: a page number outside the document, or a parser raising. */
  datatype Failure<E> = PageIndexError(page: int) | ParserFailed(error: E)

  /** Python's `pages[i]` position for a list of `n` pages, negative `i` counting from the end. */
  function PyIndex(n: nat, i: int): (r: Option<nat>)
    ensures r.Some? <==> 0 <= n + i && i < n
    ensures r.Some? ==> r.value < n && (i >= 0 ==> r.value == i) && (i < 0 ==> r.value == n + i)
  {
    if 0 <= i < n then Some(i) else if 0 <= n + i && i < 0 then Some(n + i) else None
  }

  /** `min(end_page or total_pages, total_pages)`: a missing or zero end page means the last page. */
  function LastPage(endPage: Option<int>, total: nat): (r: int)
    ensures r <= total
    ensures endPage.None? || endPage.value == 0 ==> r == total
    ensures endPage.Some? && endPage.value != 0 ==> r == if endPage.value < total then endPage.value else total
  {
    var e := if endPage.None? || endPage.value == 0 then total else endPage.value;
    if e < total then e else total
  }

  /** The classification of page number `m`, when it exists. */
  function KindAt<T>(pages: seq<Page<T>>, m: int): Option<PageType> {
    var i := PyIndex(|pages|, m - 1);
    if i.Some? then Some(pages[i.value].kind) else None
  }

  /** The type a page is parsed as: an unknown page falls back on the previous page's type. */
  function Dispatch(raw: PageType, last: Option<PageType>): (t: PageType)
    ensures raw != Unknown ==> t == raw
    ensures raw == Unknown && last.Some? ==> t == last.value
    ensures raw == Unknown && last.None? ==> t == Unknown
  {
    if raw == Unknown && last.Some? then last.value else raw
  }

  /** Appends the output of the parser for `kind`; an unknown page feeds no parser. */
  function Route<T, P, R, D, V, E>(kind: PageType, tables: T, page: int, rows: Rows<P, R, D, V>, ps: Parsers<T, P, R, D, V, E>)
    : (r: Result<Rows<P, R, D, V>, E>)
    ensures kind == Unknown ==> r == Ok(rows)
    ensures kind == Provinsi ==> (r.Ok? <==> ps.province(tables, page).Ok?)
    ensures kind == KabKota ==> (r.Ok? <==> ps.regency(tables, page).Ok?)
    ensures kind == Kecamatan ==> (r.Ok? <==> ps.district(tables, page).Ok?)
    ensures kind == KelurahanDesa ==> (r.Ok? <==> ps.village(tables, page).Ok?)
    ensures r.Ok? && kind != Provinsi ==> r.value.provinces == rows.provinces
    ensures r.Ok? && kind != KabKota ==> r.value.regencies == rows.regencies
    ensures r.Ok? && kind != Kecamatan ==> r.value.districts == rows.districts
    ensures r.Ok? && kind != KelurahanDesa ==> r.value.villages == rows.villages
    ensures r.Ok? && kind == Provinsi && ps.province(tables, page).Ok? ==>
      r.value.provinces == rows.provinces + ps.province(tables, page).value
    ensures r.Ok? && kind == KabKota && ps.regency(tables, page).Ok? ==>
      r.value.regencies == rows.regencies + ps.regency(tables, page).value
    ensures r.Ok? && kind == Kecamatan && ps.district(tables, page).Ok? ==>
      r.value.districts == rows.districts + ps.district(tables, page).value
    ensures r.Ok? && kind == KelurahanDesa && ps.village(tables, page).Ok? ==>
      r.value.villages == rows.villages + ps.village(tables, page).value
  {
    match kind
    case Provinsi =>
      var out := ps.province(tables, page);
      if out.Err? then Err(out.error) else Ok(rows.(provinces := rows.provinces + out.value))
    case KabKota =>
      var out := ps.regency(tables, page);
      if out.Err? then Err(out.error) else Ok(rows.(regencies := rows.regencies + out.value))
    case Kecamatan =>
      var out := ps.district(tables, page);
      if out.Err? then Err(out.error) else Ok(rows.(districts := rows.districts + out.value))
    case KelurahanDesa =>
      var out := ps.village(tables, page);
      if out.Err? then Err(out.error) else Ok(rows.(villages := rows.villages + out.value))
    case Unknown => Ok(rows)
  }

  /**
   * One iteration of the loop, for page number `m`: the stop test, then the
   * fallback, then routing; a state that has stopped stays as it is.
   */
  function Visit<T, P, R, D, V, E>(s: LoopState<P, R, D, V>, pages: seq<Page<T>>, m: int, ps: Parsers<T, P, R, D, V, E>)
    : (r: Result<LoopState<P, R, D, V>, Failure<E>>)
    ensures s.stopped ==> r == Ok(s)
    ensures !s.stopped && KindAt(pages, m).None? ==> r == Err(PageIndexError(m))
    ensures !s.stopped && r.Ok? ==> (KindAt(pages, m).Some? &&
      r.value.seenProvince == (s.seenProvince || KindAt(pages, m) == Some(Provinsi)))
    ensures !s.stopped && r.Ok? ==>
      (r.value.stopped <==> s.seenProvince && KindAt(pages, m) == Some(Unknown))
    ensures !s.stopped && r.Ok? && r.value.stopped ==> r.value.rows == s.rows
    ensures !s.stopped && r.Ok? && !r.value.stopped ==> (
      r.value.unknownAfterProvince == (if r.value.seenProvince then 0 else s.unknownAfterProvince) &&
      r.value.lastPageType == Some(Dispatch(KindAt(pages, m).value, s.lastPageType)) &&
      Route(Dispatch(KindAt(pages, m).value, s.lastPageType), pages[PyIndex(|pages|, m - 1).value].tables, m, s.rows, ps)
        == Ok(r.value.rows))
    ensures !s.stopped && r.Ok? && !r.value.stopped && KindAt(pages, m) == Some(Unknown) ==> !s.seenProvince
    ensures !s.stopped && r.Err? && KindAt(pages, m).Some? ==> r.error.ParserFailed?
  {
    if s.stopped then Ok(s)
    else
      var i := PyIndex(|pages|, m - 1);
      if i.None? then Err(PageIndexError(m))
      else
        var page := pages[i.value];
        var raw := page.kind;
        var seen := s.seenProvince || raw == Provinsi;
        var unknown := if raw == Provinsi && !s.seenProvince then 0 else s.unknownAfterProvince;
        var unknown' := if seen then (if raw == Unknown then unknown + 1 else 0) else unknown;
        if seen && unknown' >= 1 then
          Ok(LoopState(seen, unknown', s.lastPageType, s.rows, true))
        else
          var kind := Dispatch(raw, s.lastPageType);
          var routed := Route(kind, page.tables, m, s.rows, ps);
          if routed.Err? then Err(ParserFailed(routed.error))
          else Ok(LoopState(seen, unknown', Some(kind), routed.value, false))
  }

  /** The loop variables before the first page. */
  function Start<P, R, D, V>(): LoopState<P, R, D, V> {
    LoopState(false, 0, None, Rows([], [], [], []), false)
  }

  /** The state after visiting page numbers `start` up to `n - 1`. */
  function Upto<T, P, R, D, V, E>(pages: seq<Page<T>>, start: int, n: int, ps: Parsers<T, P, R, D, V, E>)
    : Result<LoopState<P, R, D, V>, Failure<E>>
    requires start <= n
    decreases n - start
  {
    if n == start then Ok(Start())
    else
      var prev := Upto(pages, start, n - 1, ps);
      if prev.Err? then prev else Visit(prev.value, pages, n - 1, ps)
  }

  /**
   * What `run_pipeline` hands to the sinks: the rows collected over pages
   * `start_page` to the last page, up to the stop.
   */
  function RunPipelineSpec<T, P, R, D, V, E>(pages: seq<Page<T>>, start: int, endPage: Option<int>, ps: Parsers<T, P, R, D, V, E>)
    : Result<Rows<P, R, D, V>, Failure<E>>
  {
    var last := LastPage(endPage, |pages|);
    if last < start then Ok(Start().rows)
    else
      var s := Upto(pages, start, last + 1, ps);
      if s.Err? then Err(s.error) else Ok(s.value.rows)
  }

  /** After the loop has stopped, later pages change nothing. */
  lemma {:induction false} StoppedStays<T, P, R, D, V, E>(pages: seq<Page<T>>, start: int, n: int, n': int, ps: Parsers<T, P, R, D, V, E>)
    requires start <= n <= n'
    requires Upto(pages, start, n, ps).Ok? && Upto(pages, start, n, ps).value.stopped
    ensures Upto(pages, start, n', ps) == Upto(pages, start, n, ps)
    decreases n' - n
  {
    if n' > n {
      StoppedStays(pages, start, n, n' - 1, ps);
    }
  }

  /** After a failure, later pages change nothing. */
  lemma {:induction false} FailureStays<T, P, R, D, V, E>(pages: seq<Page<T>>, start: int, n: int, n': int, ps: Parsers<T, P, R, D, V, E>)
    requires start <= n <= n'
    requires Upto(pages, start, n, ps).Err?
    ensures Upto(pages, start, n', ps) == Upto(pages, start, n, ps)
    decreases n' - n
  {
    if n' > n {
      FailureStays(pages, start, n, n' - 1, ps);
    }
  }

  /** Some page before `n` is a province page. */
  predicate ProvinceBefore<T>(pages: seq<Page<T>>, start: int, n: int) {
    exists m :: start <= m < n && KindAt(pages, m) == Some(Provinsi)
  }

  /** Some unknown page before `n` follows a province page. */
  predicate UnknownAfterProvince<T>(pages: seq<Page<T>>, start: int, n: int) {
    exists m1, m2 :: start <= m1 < m2 < n && KindAt(pages, m1) == Some(Provinsi) && KindAt(pages, m2) == Some(Unknown)
  }

  /**
   * While the loop runs, the flag records whether a province page has been
   * seen, the counter stays at zero, and no unknown page has followed a
   * province page; the loop has stopped exactly when one has.
   */
  lemma {:induction false} UptoInvariant<T, P, R, D, V, E>(pages: seq<Page<T>>, start: int, n: int, ps: Parsers<T, P, R, D, V, E>)
    requires start <= n && Upto(pages, start, n, ps).Ok?
    ensures var s := Upto(pages, start, n, ps).value;
      (s.stopped <==> UnknownAfterProvince(pages, start, n)) &&
      (!s.stopped ==> s.unknownAfterProvince == 0 && (s.seenProvince <==> ProvinceBefore(pages, start, n))) &&
      (!s.stopped ==> (s.lastPageType.Some? <==> n > start))
    decreases n - start
  {
    if n > start {
      var prev := Upto(pages, start, n - 1, ps);
      UptoInvariant(pages, start, n - 1, ps);
      var p := prev.value;
      var s := Upto(pages, start, n, ps).value;
      if p.stopped {
        var m1, m2 :| start <= m1 < m2 < n - 1 && KindAt(pages, m1) == Some(Provinsi) && KindAt(pages, m2) == Some(Unknown);
        assert start <= m1 < m2 < n;
      } else {
        var k := KindAt(pages, n - 1);
        assert k.Some?;
        if s.stopped {
          var m1 :| start <= m1 < n - 1 && KindAt(pages, m1) == Some(Provinsi);
          assert start <= m1 < n - 1 < n && KindAt(pages, n - 1) == Some(Unknown);
        } else {
          if ProvinceBefore(pages, start, n) && k != Some(Provinsi) {
            var m :| start <= m < n && KindAt(pages, m) == Some(Provinsi);
            assert m < n - 1;
            assert ProvinceBefore(pages, start, n - 1);
          }
        }
      }
    }
  }

  /** With no province page, the loop never stops: every page is parsed. */
  lemma NoProvinceNoStop<T, P, R, D, V, E>(pages: seq<Page<T>>, start: int, n: int, ps: Parsers<T, P, R, D, V, E>)
    requires start <= n && Upto(pages, start, n, ps).Ok?
    requires forall m :: start <= m < n ==> KindAt(pages, m) != Some(Provinsi)
    ensures !Upto(pages, start, n, ps).value.stopped
  {
    UptoInvariant(pages, start, n, ps);
  }

  /** The routing `if`/`elif` chain: the parser for `kind` and the list its rows extend. */
  method RoutePage<T, P, R, D, V, E>(kind: PageType, tables: T, page: int, rows: Rows<P, R, D, V>, ps: Parsers<T, P, R, D, V, E>)
    returns (r: Result<Rows<P, R, D, V>, E>)
    ensures r == Route(kind, tables, page, rows, ps)
  {
    r := Ok(rows);
    if kind == Provinsi {
      var out := ps.province(tables, page);
      if out.Err? {
        return Err(out.error);
      }
      r := Ok(rows.(provinces := rows.provinces + out.value));
    } else if kind == KabKota {
      var out := ps.regency(tables, page);
      if out.Err? {
        return Err(out.error);
      }
      r := Ok(rows.(regencies := rows.regencies + out.value));
    } else if kind == Kecamatan {
      var out := ps.district(tables, page);
      if out.Err? {
        return Err(out.error);
      }
      r := Ok(rows.(districts := rows.districts + out.value));
    } else if kind == KelurahanDesa {
      var out := ps.village(tables, page);
      if out.Err? {
        return Err(out.error);
      }
      r := Ok(rows.(villages := rows.villages + out.value));
    }
  }

  /** `run_pipeline`'s page loop; what it returns is what is handed to the sinks. */
  method RunPipeline<T, P, R, D, V, E>(pages: seq<Page<T>>, start: int, endPage: Option<int>, ps: Parsers<T, P, R, D, V, E>)
    returns (r: Result<Rows<P, R, D, V>, Failure<E>>)
    ensures r == RunPipelineSpec(pages, start, endPage, ps)
  {
    var state: LoopState<P, R, D, V> := Start();
    var last := LastPage(endPage, |pages|);
    if last < start {
      return Ok(state.rows);
    }
    var m := start;
    while m <= last
      invariant start <= m <= last + 1
      invariant Upto(pages, start, m, ps) == Ok(state) && !state.stopped
    {
      UptoStep(pages, start, m, ps);
      var next := VisitPage(state, pages, m, ps);
      if next.Err? {
        FailureStays(pages, start, m + 1, last + 1, ps);
        return Err(next.error);
      }
      if next.value.stopped {
        StoppedStays(pages, start, m + 1, last + 1, ps);
        return Ok(next.value.rows);
      }
      state := next.value;
      m := m + 1;
    }
    assert m == last + 1;
    r := Ok(state.rows);
  }

  /** One more page number extends the loop by one visit. */
  lemma UptoStep<T, P, R, D, V, E>(pages: seq<Page<T>>, start: int, m: int, ps: Parsers<T, P, R, D, V, E>)
    requires start <= m && Upto(pages, start, m, ps).Ok?
    ensures Upto(pages, start, m + 1, ps) == Visit(Upto(pages, start, m, ps).value, pages, m, ps)
  {
  }

  /** The body of the page loop for page number `m`: the stop test, the fallback, then routing. */
  method VisitPage<T, P, R, D, V, E>(s: LoopState<P, R, D, V>, pages: seq<Page<T>>, m: int, ps: Parsers<T, P, R, D, V, E>)
    returns (r: Result<LoopState<P, R, D, V>, Failure<E>>)
    requires !s.stopped
    ensures r == Visit(s, pages, m, ps)
  {
    var seenProvince := s.seenProvince;
    var unknownAfterProvince := s.unknownAfterProvince;
    var index := PyIndex(|pages|, m - 1);
    if index.None? {
      return Err(PageIndexError(m));
    }
    var page := pages[index.value];
    var pageType := page.kind;
    if pageType == Provinsi && !seenProvince {
      seenProvince := true;
      unknownAfterProvince := 0;
    }
    if seenProvince {
      if pageType == Unknown {
        unknownAfterProvince := unknownAfterProvince + 1;
      } else {
        unknownAfterProvince := 0;
      }
      if unknownAfterProvince >= 1 {
        return Ok(LoopState(seenProvince, unknownAfterProvince, s.lastPageType, s.rows, true));
      }
    }
    if pageType == Unknown && s.lastPageType.Some? {
      pageType := s.lastPageType.value;
    }
    var routed := RoutePage(pageType, page.tables, m, s.rows, ps);
    if routed.Err? {
      return Err(ParserFailed(routed.error));
    }
    r := Ok(LoopState(seenProvince, unknownAfterProvince, Some(pageType), routed.value, false));
  }

}
