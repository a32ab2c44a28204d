/** The funnel view of the pipeline page: a small filter language over deals
    (criteria on the creation date or on the date a stage was reached, combined by
    AND or OR), the cumulative per-stage counting of the filtered deals, the edits
    the filter bar makes to the filter, and the named filter sets a user can save. */
module FunnelView {
  import opened Common
  import opened Sorting
  import OverviewRoute
  import StageHistoryRoute

  type Deal = OverviewRoute.DealOverviewItem
  type HistoryMap = map<string, Option<StageHistoryRoute.StageHistory>>

  datatype Stage = Stage(id: string, caption: string, displayOrder: int)

  datatype CriterionKind = CreateDate | StageReached

  datatype Operator = After | BeforeDay | Between

  /** `dateFrom` and `dateTo` are YYYY-MM-DD text; `stageId` and `dateTo` are optional. */
  datatype Criterion = Criterion(
    id: string, kind: CriterionKind, op: Operator,
    stageId: Option<string>, dateFrom: string, dateTo: Option<string>)

  datatype Logic = And | Or

  datatype FilterState = FilterState(logic: Logic, criteria: seq<Criterion>)

  datatype SavedFilterSet = SavedFilterSet(id: string, name: string, filter: FilterState)

  /** The last millisecond of a day, counted from its first. */
  const EndOfDay: int := 86_399_999

  // ---------------------------------------------------------------- day bounds

  /** dateToMs: the first millisecond (UTC) of a YYYY-MM-DD day; `day` parses the text. */
  function DateToMs(text: string, day: Parser): Option<int> {
    if text == "" then None else day(text)
  }

  /** dateToMsEnd: the last millisecond of the same day. */
  function DateToMsEnd(text: string, day: Parser): (r: Option<int>)
    ensures r.Some? <==> DateToMs(text, day).Some?
    ensures r.Some? ==> r.value == DateToMs(text, day).value + EndOfDay
  {
    if text == "" then None
    else match day(text)
      case None => None
      case Some(t) => Some(t + EndOfDay)
  }

  // ---------------------------------------------------------------- criteria

  predicate CriterionIsComplete(c: Criterion) {
    if c.kind == StageReached && !Truthy(c.stageId) then false
    else if c.dateFrom == "" then false
    else if c.op == Between && !Truthy(c.dateTo) then false
    else true
  }

  /** Completeness needs a start date, a stage for stage_reached and an end date for between. */
  lemma CompleteIff(c: Criterion)
    ensures CriterionIsComplete(c) <==>
      c.dateFrom != "" && (c.kind == StageReached ==> Truthy(c.stageId)) && (c.op == Between ==> Truthy(c.dateTo))
  {
  }

  function MatchTimestamp(ts: int, c: Criterion, day: Parser): bool {
    match c.op
    case After =>
      var from := DateToMs(c.dateFrom, day);
      from.Some? && ts >= from.value
    case BeforeDay =>
      var to := DateToMsEnd(c.dateFrom, day);
      to.Some? && ts <= to.value
    case Between =>
      var from := DateToMs(c.dateFrom, day);
      var to := DateToMsEnd(c.dateTo.GetOr(""), day);
      if from.None? || to.None? then true else ts >= from.value && ts <= to.value
  }

  /** The day bounds are inclusive: `after` accepts from the first millisecond of its
      day, `before` up to the last millisecond of its day (the day before the next one
      starts), `between` both, and a between criterion with an unparseable bound
      accepts every time. */
  lemma MatchTimestampBounds(ts: int, c: Criterion, day: Parser)
    ensures c.op == After ==>
      (MatchTimestamp(ts, c, day) <==> DateToMs(c.dateFrom, day).Some? && ts >= DateToMs(c.dateFrom, day).value)
    ensures c.op == BeforeDay ==>
      (MatchTimestamp(ts, c, day) <==> DateToMs(c.dateFrom, day).Some? && ts < DateToMs(c.dateFrom, day).value + MsPerDay)
    ensures c.op == Between && DateToMs(c.dateFrom, day).Some? && DateToMs(c.dateTo.GetOr(""), day).Some? ==>
      (MatchTimestamp(ts, c, day) <==>
        DateToMs(c.dateFrom, day).value <= ts < DateToMs(c.dateTo.GetOr(""), day).value + MsPerDay)
    ensures c.op == Between && (DateToMs(c.dateFrom, day).None? || DateToMs(c.dateTo.GetOr(""), day).None?) ==>
      MatchTimestamp(ts, c, day)
  {
  }

  /** getDealCreateTimestamp: the parsed createdate, else now minus dealAge days when
      dealAge is positive (a null dealAge is not), else nothing. */
  function DealCreateTimestamp(deal: Deal, now: int, instant: Parser): (r: Option<int>)
    ensures deal.createdate != "" && instant(deal.createdate).Some? ==> r == instant(deal.createdate)
    ensures (deal.createdate == "" || instant(deal.createdate).None?) ==>
      (r.None? <==> deal.dealAge.GetOr(0) <= 0)
    ensures (deal.createdate == "" || instant(deal.createdate).None?) && r.Some? ==>
      r.value == now - deal.dealAge.value * MsPerDay
  {
    if deal.createdate != "" && instant(deal.createdate).Some? then instant(deal.createdate)
    else if deal.dealAge.GetOr(0) > 0 then Some(now - deal.dealAge.value * MsPerDay)
    else None
  }

  /** One history entry witnesses a stage_reached criterion: right stage, parseable
      timestamp that matches the dates. */
  predicate HistoryHit(h: StageHistoryRoute.HistoryEntry, c: Criterion, instant: Parser, day: Parser) {
    c.stageId.Some? && h.stageId == c.stageId.value
    && instant(h.timestamp).Some? && MatchTimestamp(instant(h.timestamp).value, c, day)
  }

  function MatchCriterion(deal: Deal, c: Criterion, history: HistoryMap, loading: bool,
                          now: int, instant: Parser, day: Parser): bool
  {
    if !CriterionIsComplete(c) then true
    else if c.kind == CreateDate then
      match DealCreateTimestamp(deal, now, instant)
      case None => false
      case Some(t) => MatchTimestamp(t, c, day)
    else if loading then false
    else if deal.id !in history || history[deal.id].None? then false
    else exists h :: h in history[deal.id].value.history && HistoryHit(h, c, instant, day)
  }

  /** An incomplete criterion lets every deal through; a complete stage_reached
      criterion rejects every deal while the history loads and every deal without
      history, and otherwise accepts exactly when some change into that stage falls
      within its dates. */
  lemma StageReachedSemantics(deal: Deal, c: Criterion, history: HistoryMap, loading: bool,
                              now: int, instant: Parser, day: Parser)
    ensures !CriterionIsComplete(c) ==> MatchCriterion(deal, c, history, loading, now, instant, day)
    ensures CriterionIsComplete(c) && c.kind == StageReached && loading ==>
      !MatchCriterion(deal, c, history, loading, now, instant, day)
    ensures CriterionIsComplete(c) && c.kind == StageReached && (deal.id !in history || history[deal.id].None?) ==>
      !MatchCriterion(deal, c, history, loading, now, instant, day)
    ensures CriterionIsComplete(c) && c.kind == StageReached && !loading && deal.id in history && history[deal.id].Some? ==>
      (MatchCriterion(deal, c, history, loading, now, instant, day) <==>
        exists k :: 0 <= k < |history[deal.id].value.history|
          && history[deal.id].value.history[k].stageId == c.stageId.value
          && instant(history[deal.id].value.history[k].timestamp).Some?
          && MatchTimestamp(instant(history[deal.id].value.history[k].timestamp).value, c, day))
  {
    if CriterionIsComplete(c) && c.kind == StageReached && !loading && deal.id in history && history[deal.id].Some? {
      var hs := history[deal.id].value.history;
      if MatchCriterion(deal, c, history, loading, now, instant, day) {
        var h :| h in hs && HistoryHit(h, c, instant, day);
        var k :| 0 <= k < |hs| && hs[k] == h;
      }
      if exists k :: 0 <= k < |hs| && hs[k].stageId == c.stageId.value && instant(hs[k].timestamp).Some?
                     && MatchTimestamp(instant(hs[k].timestamp).value, c, day) {
        var k :| 0 <= k < |hs| && hs[k].stageId == c.stageId.value && instant(hs[k].timestamp).Some?
                 && MatchTimestamp(instant(hs[k].timestamp).value, c, day);
        assert HistoryHit(hs[k], c, instant, day);
      }
    }
  }

  /** A complete createdate criterion rejects a deal without a creation time and
      otherwise tests the creation time. */
  lemma CreateDateSemantics(deal: Deal, c: Criterion, history: HistoryMap, loading: bool,
                            now: int, instant: Parser, day: Parser)
    requires CriterionIsComplete(c) && c.kind == CreateDate
    ensures DealCreateTimestamp(deal, now, instant).None? ==> !MatchCriterion(deal, c, history, loading, now, instant, day)
    ensures DealCreateTimestamp(deal, now, instant).Some? ==>
      MatchCriterion(deal, c, history, loading, now, instant, day)
        == MatchTimestamp(DealCreateTimestamp(deal, now, instant).value, c, day)
    ensures (deal.createdate == "" || instant(deal.createdate).None?) && deal.dealAge.GetOr(0) <= 0 ==>
      !MatchCriterion(deal, c, history, loading, now, instant, day)
  {
  }

  // ---------------------------------------------------------------- applyFilters

  function ActiveCriteria(f: FilterState): seq<Criterion> {
    Filter(f.criteria, CriterionIsComplete)
  }

  /** A deal passes the filter: every active criterion (AND) or some (OR) matches. */
  predicate Passes(deal: Deal, f: FilterState, history: HistoryMap, loading: bool,
                   now: int, instant: Parser, day: Parser)
  {
    var active := ActiveCriteria(f);
    if f.logic == And then forall c :: c in active ==> MatchCriterion(deal, c, history, loading, now, instant, day)
    else exists c :: c in active && MatchCriterion(deal, c, history, loading, now, instant, day)
  }

  function ApplyFilters(deals: seq<Deal>, f: FilterState, history: HistoryMap, loading: bool,
                        now: int, instant: Parser, day: Parser): seq<Deal>
  {
    if |ActiveCriteria(f)| == 0 then deals
    else Filter(deals, (d: Deal) => Passes(d, f, history, loading, now, instant, day))
  }

  /** Without a complete criterion the deals come back unchanged; otherwise the result
      keeps, in order, exactly the deals that pass. */
  lemma ApplyFiltersSpec(deals: seq<Deal>, f: FilterState, history: HistoryMap, loading: bool,
                         now: int, instant: Parser, day: Parser)
    ensures |ActiveCriteria(f)| == 0 ==> ApplyFilters(deals, f, history, loading, now, instant, day) == deals
    ensures |ActiveCriteria(f)| > 0 ==> forall d ::
      d in ApplyFilters(deals, f, history, loading, now, instant, day) <==>
        d in deals && Passes(d, f, history, loading, now, instant, day)
    ensures |ApplyFilters(deals, f, history, loading, now, instant, day)| <= |deals|
  {
    if |ActiveCriteria(f)| > 0 {
      forall d ensures d in ApplyFilters(deals, f, history, loading, now, instant, day) <==>
        d in deals && Passes(d, f, history, loading, now, instant, day)
      {
        FilterMembership(deals, (d: Deal) => Passes(d, f, history, loading, now, instant, day), d);
      }
    }
  }

  /** With AND a deal must match every complete criterion, with OR at least one. */
  lemma PassesLogic(deal: Deal, f: FilterState, history: HistoryMap, loading: bool,
                    now: int, instant: Parser, day: Parser)
    ensures f.logic == And ==> (Passes(deal, f, history, loading, now, instant, day) <==>
      forall c :: c in f.criteria && CriterionIsComplete(c) ==> MatchCriterion(deal, c, history, loading, now, instant, day))
    ensures f.logic == Or ==> (Passes(deal, f, history, loading, now, instant, day) <==>
      exists c :: c in f.criteria && CriterionIsComplete(c) && MatchCriterion(deal, c, history, loading, now, instant, day))
  {
    forall c ensures c in ActiveCriteria(f) <==> c in f.criteria && CriterionIsComplete(c) {
      FilterMembership(f.criteria, CriterionIsComplete, c);
    }
  }

  /** hasStageReachedFilter: some criterion is a complete stage_reached criterion. */
  predicate HasStageReachedFilter(f: FilterState) {
    exists c :: c in f.criteria && c.kind == StageReached && CriterionIsComplete(c)
  }

  /** Whether the history is still loading matters only to a complete stage_reached
      criterion: without one the filtered deals are the same either way. */
  lemma LoadingIrrelevantWithoutStageReached(deals: seq<Deal>, f: FilterState, history: HistoryMap,
                                             now: int, instant: Parser, day: Parser)
    requires !HasStageReachedFilter(f)
    ensures ApplyFilters(deals, f, history, true, now, instant, day) == ApplyFilters(deals, f, history, false, now, instant, day)
  {
    forall c | c in ActiveCriteria(f) ensures c.kind == CreateDate {
      FilterMembership(f.criteria, CriterionIsComplete, c);
    }
    FilterCongruent(deals, (d: Deal) => Passes(d, f, history, true, now, instant, day),
                           (d: Deal) => Passes(d, f, history, false, now, instant, day));
  }

  // ---------------------------------------------------------------- date range

  datatype DateRange = DateRange(from: int, to: int)

  /** What the loop of getFilterDateRange pushes for one criterion: its parsed start
      into `froms`, and the end of a between criterion into `tos`. */
  function FromOf(c: Criterion, day: Parser): seq<int> {
    match DateToMs(c.dateFrom, day)
    case Some(f) => [f]
    case None => []
  }

  function ToOf(c: Criterion, day: Parser): seq<int> {
    if c.op == Between && Truthy(c.dateTo) then
      match DateToMsEnd(c.dateTo.value, day)
      case Some(t) => [t]
      case None => []
    else []
  }

  function Froms(cs: seq<Criterion>, day: Parser): seq<int>
    decreases |cs|
  {
    if |cs| == 0 then [] else Froms(cs[..|cs| - 1], day) + FromOf(cs[|cs| - 1], day)
  }

  function Tos(cs: seq<Criterion>, day: Parser): seq<int>
    decreases |cs|
  {
    if |cs| == 0 then [] else Tos(cs[..|cs| - 1], day) + ToOf(cs[|cs| - 1], day)
  }

  /** Math.min(...xs) of a non-empty list. */
  function SeqMin(xs: seq<int>): (m: int)
    requires |xs| > 0
    ensures m in xs && forall k :: 0 <= k < |xs| ==> m <= xs[k]
  {
    if |xs| == 1 then xs[0]
    else
      var rest := SeqMin(xs[1..]);
      assert forall k :: 1 <= k < |xs| ==> xs[k] == xs[1..][k - 1];
      if xs[0] <= rest then xs[0] else rest
  }

  /** Math.max(...xs) of a non-empty list. */
  function SeqMax(xs: seq<int>): (m: int)
    requires |xs| > 0
    ensures m in xs && forall k :: 0 <= k < |xs| ==> xs[k] <= m
  {
    if |xs| == 1 then xs[0]
    else
      var rest := SeqMax(xs[1..]);
      assert forall k :: 1 <= k < |xs| ==> xs[k] == xs[1..][k - 1];
      if xs[0] >= rest then xs[0] else rest
  }

  /** getFilterDateRange as a value: the earliest start and the latest between-end (or
      now) of the complete criteria, when the span is non-empty. */
  function FilterDateRange(f: FilterState, now: int, day: Parser): Option<DateRange> {
    var active := ActiveCriteria(f);
    var froms := Froms(active, day);
    var tos := Tos(active, day);
    if |active| == 0 || |froms| == 0 then None
    else
      var from := SeqMin(froms);
      var to := if |tos| > 0 then SeqMax(tos) else now;
      if to > from then Some(DateRange(from, to)) else None
  }

  /** getFilterDateRange: the earliest start and the latest end of the complete criteria. */
  method GetFilterDateRange(f: FilterState, now: int, day: Parser) returns (r: Option<DateRange>)
    ensures r == FilterDateRange(f, now, day)
  {
    var active := Filter(f.criteria, CriterionIsComplete);
    if |active| == 0 {
      return None;
    }
    var froms, tos := CollectBounds(active, day);
    if |froms| == 0 {
      return None;
    }
    var from := SeqMin(froms);
    var to := if |tos| > 0 then SeqMax(tos) else now;
    r := if to > from then Some(DateRange(from, to)) else None;
  }

  /** The loop of getFilterDateRange that pushes into `froms` and `tos`. */
  method CollectBounds(active: seq<Criterion>, day: Parser) returns (froms: seq<int>, tos: seq<int>)
    ensures froms == Froms(active, day) && tos == Tos(active, day)
  {
    froms := [];
    tos := [];
    var n := 0;
    while n < |active|
      invariant 0 <= n <= |active|
      invariant froms == Froms(active[..n], day)
      invariant tos == Tos(active[..n], day)
    {
      var c := active[n];
      RangeStep(active, n, day);
      var start := DateToMs(c.dateFrom, day);
      if start.Some? {
        froms := froms + [start.value];
      }
      assert froms == Froms(active[..n], day) + FromOf(c, day);
      if c.op == Between && Truthy(c.dateTo) {
        var end := DateToMsEnd(c.dateTo.value, day);
        if end.Some? {
          tos := tos + [end.value];
        }
      }
      assert tos == Tos(active[..n], day) + ToOf(c, day);
      n := n + 1;
    }
    assert active[..n] == active;
  }

  /** One more criterion adds its start and its end, if any. */
  lemma RangeStep(cs: seq<Criterion>, n: nat, day: Parser)
    requires n < |cs|
    ensures Froms(cs[..n + 1], day) == Froms(cs[..n], day) + FromOf(cs[n], day)
    ensures Tos(cs[..n + 1], day) == Tos(cs[..n], day) + ToOf(cs[n], day)
  {
    assert cs[..n + 1][..n] == cs[..n];
  }

  lemma {:induction false} FromsMembership(cs: seq<Criterion>, day: Parser, x: int)
    ensures x in Froms(cs, day) <==> exists k :: 0 <= k < |cs| && DateToMs(cs[k].dateFrom, day) == Some(x)
    decreases |cs|
  {
    if |cs| > 0 {
      var init := cs[..|cs| - 1];
      FromsMembership(init, day, x);
      assert forall k :: 0 <= k < |init| ==> init[k] == cs[k];
      if exists k :: 0 <= k < |cs| && DateToMs(cs[k].dateFrom, day) == Some(x) {
        var k :| 0 <= k < |cs| && DateToMs(cs[k].dateFrom, day) == Some(x);
        if k < |init| { assert init[k] == cs[k]; }
      }
    }
  }

  lemma {:induction false} TosMembership(cs: seq<Criterion>, day: Parser, x: int)
    ensures x in Tos(cs, day) <==> exists k :: 0 <= k < |cs| && x in ToOf(cs[k], day)
    decreases |cs|
  {
    if |cs| > 0 {
      var init := cs[..|cs| - 1];
      TosMembership(init, day, x);
      if exists k :: 0 <= k < |cs| && x in ToOf(cs[k], day) {
        var k :| 0 <= k < |cs| && x in ToOf(cs[k], day);
        if k < |init| { assert init[k] == cs[k]; }
      }
    }
  }

  lemma ActiveMembership(f: FilterState)
    ensures forall c :: c in ActiveCriteria(f) <==> c in f.criteria && CriterionIsComplete(c)
  {
    forall c ensures c in ActiveCriteria(f) <==> c in f.criteria && CriterionIsComplete(c) {
      FilterMembership(f.criteria, CriterionIsComplete, c);
    }
  }

  /** Without a parseable start date on a complete criterion there is no range. */
  lemma FilterDateRangeNeedsStart(f: FilterState, now: int, day: Parser)
    requires forall c :: c in f.criteria && CriterionIsComplete(c) ==> DateToMs(c.dateFrom, day).None?
    ensures FilterDateRange(f, now, day).None?
  {
    var active := ActiveCriteria(f);
    ActiveMembership(f);
    if |Froms(active, day)| > 0 {
      FromsMembership(active, day, Froms(active, day)[0]);
    }
  }

  /** The range starts at the earliest start date of the complete criteria and is
      never empty. */
  lemma FilterDateRangeFrom(f: FilterState, now: int, day: Parser)
    requires FilterDateRange(f, now, day).Some?
    ensures var r := FilterDateRange(f, now, day).value;
      && r.from < r.to
      && (exists c :: c in f.criteria && CriterionIsComplete(c) && DateToMs(c.dateFrom, day) == Some(r.from))
      && (forall c :: c in f.criteria && CriterionIsComplete(c) && DateToMs(c.dateFrom, day).Some? ==>
            r.from <= DateToMs(c.dateFrom, day).value)
  {
    var active := ActiveCriteria(f);
    var froms := Froms(active, day);
    var r := FilterDateRange(f, now, day).value;
    ActiveMembership(f);
    FromsMembership(active, day, r.from);
    forall c | c in f.criteria && CriterionIsComplete(c) && DateToMs(c.dateFrom, day).Some?
      ensures r.from <= DateToMs(c.dateFrom, day).value
    {
      var k :| 0 <= k < |active| && active[k] == c;
      FromsMembership(active, day, DateToMs(c.dateFrom, day).value);
    }
  }

  /** The range ends at the latest end date of the complete between criteria, or now
      when none has one. */
  lemma FilterDateRangeTo(f: FilterState, now: int, day: Parser)
    requires FilterDateRange(f, now, day).Some?
    ensures var r := FilterDateRange(f, now, day).value;
      && (forall c, t :: c in f.criteria && CriterionIsComplete(c) && t in ToOf(c, day) ==> t <= r.to)
      && (r.to == now || exists c :: c in f.criteria && CriterionIsComplete(c) && r.to in ToOf(c, day))
  {
    var active := ActiveCriteria(f);
    var tos := Tos(active, day);
    var r := FilterDateRange(f, now, day).value;
    ActiveMembership(f);
    forall c, t | c in f.criteria && CriterionIsComplete(c) && t in ToOf(c, day) ensures t <= r.to {
      var k :| 0 <= k < |active| && active[k] == c;
      TosMembership(active, day, t);
    }
    if |tos| > 0 {
      TosMembership(active, day, r.to);
    }
  }

  // ---------------------------------------------------------------- filter edits

  /** A `Partial<FilterCriterion>`: each present field overrides the criterion's. */
  datatype CriterionPatch = CriterionPatch(
    id: Option<string>, kind: Option<CriterionKind>, op: Option<Operator>,
    stageId: Option<Option<string>>, dateFrom: Option<string>, dateTo: Option<Option<string>>)

  /** `{ ...c, ...patch }`. */
  function ApplyPatch(c: Criterion, p: CriterionPatch): Criterion {
    Criterion(
      p.id.GetOr(c.id), p.kind.GetOr(c.kind), p.op.GetOr(c.op),
      p.stageId.GetOr(c.stageId), p.dateFrom.GetOr(c.dateFrom), p.dateTo.GetOr(c.dateTo))
  }

  function UpdateCriterion(f: FilterState, id: string, patch: CriterionPatch): (r: FilterState)
    ensures r.logic == f.logic && |r.criteria| == |f.criteria|
    ensures forall k :: 0 <= k < |f.criteria| ==>
      r.criteria[k] == if f.criteria[k].id == id then ApplyPatch(f.criteria[k], patch) else f.criteria[k]
  {
    f.(criteria := seq(|f.criteria|, k requires 0 <= k < |f.criteria| =>
      if f.criteria[k].id == id then ApplyPatch(f.criteria[k], patch) else f.criteria[k]))
  }

  /** Only criteria with the given id change; an empty patch changes nothing. */
  lemma UpdateCriterionLocal(f: FilterState, id: string, patch: CriterionPatch)
    ensures forall k :: 0 <= k < |f.criteria| && f.criteria[k].id != id ==>
      UpdateCriterion(f, id, patch).criteria[k] == f.criteria[k]
    ensures UpdateCriterion(f, id, CriterionPatch(None, None, None, None, None, None)) == f
  {
    var r := UpdateCriterion(f, id, CriterionPatch(None, None, None, None, None, None));
    assert r.criteria == f.criteria;
  }

  function RemoveCriterion(f: FilterState, id: string): FilterState {
    f.(criteria := Filter(f.criteria, (c: Criterion) => c.id != id))
  }

  /** Removal drops every criterion with the id and keeps all the others. */
  lemma RemoveCriterionSpec(f: FilterState, id: string)
    ensures RemoveCriterion(f, id).logic == f.logic
    ensures forall c :: c in RemoveCriterion(f, id).criteria <==> c in f.criteria && c.id != id
  {
    forall c ensures c in RemoveCriterion(f, id).criteria <==> c in f.criteria && c.id != id {
      FilterMembership(f.criteria, (c: Criterion) => c.id != id, c);
    }
  }

  /** The criterion addCriterion appends: a createdate/after criterion without a date. */
  function BlankCriterion(freshId: string): (c: Criterion)
    ensures !CriterionIsComplete(c)
  {
    Criterion(freshId, CreateDate, After, None, "", None)
  }

  function AddCriterion(f: FilterState, freshId: string): FilterState {
    f.(criteria := f.criteria + [BlankCriterion(freshId)])
  }

  /** Adding a criterion appends one and, being incomplete, leaves the filtered deals as they were. */
  lemma AddCriterionKeepsResult(deals: seq<Deal>, f: FilterState, freshId: string, history: HistoryMap,
                                loading: bool, now: int, instant: Parser, day: Parser)
    ensures AddCriterion(f, freshId).criteria[..|f.criteria|] == f.criteria
    ensures ApplyFilters(deals, AddCriterion(f, freshId), history, loading, now, instant, day)
         == ApplyFilters(deals, f, history, loading, now, instant, day)
  {
    var g := AddCriterion(f, freshId);
    FilterConcat(f.criteria, [BlankCriterion(freshId)], CriterionIsComplete);
    assert Filter([BlankCriterion(freshId)], CriterionIsComplete) == [];
    assert ActiveCriteria(g) == ActiveCriteria(f);
    FilterCongruent(deals, (d: Deal) => Passes(d, g, history, loading, now, instant, day),
                           (d: Deal) => Passes(d, f, history, loading, now, instant, day));
  }

  function ToggleLogic(f: FilterState): (r: FilterState)
    ensures r.criteria == f.criteria && r.logic != f.logic
  {
    f.(logic := if f.logic == And then Or else And)
  }

  /** With a single complete criterion AND and OR filter alike, so toggling the logic
      leaves the result unchanged. */
  lemma ToggleSingleCriterion(deals: seq<Deal>, f: FilterState, history: HistoryMap, loading: bool,
                              now: int, instant: Parser, day: Parser)
    requires |ActiveCriteria(f)| == 1
    ensures ApplyFilters(deals, ToggleLogic(f), history, loading, now, instant, day)
         == ApplyFilters(deals, f, history, loading, now, instant, day)
  {
    var g := ToggleLogic(f);
    assert ActiveCriteria(g) == ActiveCriteria(f);
    var only := ActiveCriteria(f)[0];
    assert forall c :: c in ActiveCriteria(f) <==> c == only;
    forall k | 0 <= k < |deals|
      ensures Passes(deals[k], g, history, loading, now, instant, day) == Passes(deals[k], f, history, loading, now, instant, day)
    {
      var m := MatchCriterion(deals[k], only, history, loading, now, instant, day);
      assert Passes(deals[k], g, history, loading, now, instant, day) == m;
      assert Passes(deals[k], f, history, loading, now, instant, day) == m;
    }
    FilterCongruent(deals, (d: Deal) => Passes(d, g, history, loading, now, instant, day),
                           (d: Deal) => Passes(d, f, history, loading, now, instant, day));
  }

  /** setQuickFilter: AND over one createdate/after criterion, or no criterion at all for ''. */
  function SetQuickFilter(dateFrom: string, freshId: string): (r: FilterState)
    ensures r.logic == And
    ensures dateFrom == "" <==> |r.criteria| == 0
  {
    FilterState(And, if dateFrom != "" then [Criterion(freshId, CreateDate, After, None, dateFrom, None)] else [])
  }

  /** The quick filter 'Alle' shows every deal; any other quick filter keeps exactly
      the deals created on or after its day. */
  lemma QuickFilterSemantics(deals: seq<Deal>, dateFrom: string, freshId: string, history: HistoryMap,
                             loading: bool, now: int, instant: Parser, day: Parser)
    ensures dateFrom == "" ==> ApplyFilters(deals, SetQuickFilter(dateFrom, freshId), history, loading, now, instant, day) == deals
    ensures dateFrom != "" ==> forall d ::
      d in ApplyFilters(deals, SetQuickFilter(dateFrom, freshId), history, loading, now, instant, day) <==>
        d in deals && DealCreateTimestamp(d, now, instant).Some? && day(dateFrom).Some?
        && DealCreateTimestamp(d, now, instant).value >= day(dateFrom).value
  {
    var f := SetQuickFilter(dateFrom, freshId);
    if dateFrom != "" {
      var c := f.criteria[0];
      assert f.criteria == [c];
      assert ActiveCriteria(f) == [c];
      ApplyFiltersSpec(deals, f, history, loading, now, instant, day);
    }
  }

  // ---------------------------------------------------------------- saved filter sets

  function FindByName(sets: seq<SavedFilterSet>, name: string): (r: Option<SavedFilterSet>)
    ensures r.Some? ==> r.value in sets && r.value.name == name
    ensures r.Some? ==> exists k :: 0 <= k < |sets| && sets[k] == r.value && forall j :: 0 <= j < k ==> sets[j].name != name
    ensures r.None? ==> forall k :: 0 <= k < |sets| ==> sets[k].name != name
  {
    if |sets| == 0 then None
    else if sets[0].name == name then Some(sets[0])
    else
      var r := FindByName(sets[1..], name);
      assert forall k :: 1 <= k < |sets| ==> sets[k] == sets[1..][k - 1];
      r
  }

  /** handleSaveFilterSet: nothing without a pipeline id or with a blank name; else the
      set with the trimmed name gets the current filter (every set sharing its id does),
      or a new set is appended under a fresh id. */
  function SaveFilterSet(sets: seq<SavedFilterSet>, pipelineId: Option<string>, name: string,
                         filter: FilterState, freshId: string): seq<SavedFilterSet>
  {
    if !Truthy(pipelineId) || Trim(name) == "" then sets
    else
      var trimmed := Trim(name);
      match FindByName(sets, trimmed)
      case Some(existing) =>
        seq(|sets|, k requires 0 <= k < |sets| =>
          if sets[k].id == existing.id then sets[k].(filter := filter) else sets[k])
      case None => sets + [SavedFilterSet(freshId, trimmed, filter)]
  }

  predicate UniqueNames(sets: seq<SavedFilterSet>) {
    forall i, j :: 0 <= i < j < |sets| ==> sets[i].name != sets[j].name
  }

  /** Saving is a no-op without a pipeline or with a blank name, and appends exactly
      one set under the fresh id when the trimmed name is new. */
  lemma SaveFilterSetNewName(sets: seq<SavedFilterSet>, pipelineId: Option<string>, name: string,
                             filter: FilterState, freshId: string)
    ensures !Truthy(pipelineId) || Trim(name) == "" ==> SaveFilterSet(sets, pipelineId, name, filter, freshId) == sets
    ensures Truthy(pipelineId) && Trim(name) != "" && FindByName(sets, Trim(name)).None? ==>
      SaveFilterSet(sets, pipelineId, name, filter, freshId) == sets + [SavedFilterSet(freshId, Trim(name), filter)]
  {
  }

  /** Saving under a taken name keeps every set's id and name, leaves the length, and
      gives the set with that name the current filter. */
  lemma SaveFilterSetExistingName(sets: seq<SavedFilterSet>, pipelineId: Option<string>, name: string,
                                  filter: FilterState, freshId: string)
    requires Truthy(pipelineId) && Trim(name) != "" && FindByName(sets, Trim(name)).Some?
    ensures var r := SaveFilterSet(sets, pipelineId, name, filter, freshId);
      && |r| == |sets|
      && (forall k :: 0 <= k < |sets| ==> r[k].id == sets[k].id && r[k].name == sets[k].name)
      && (forall k :: 0 <= k < |sets| && sets[k].id == FindByName(sets, Trim(name)).value.id ==>
            r[k] == sets[k].(filter := filter))
      && (forall k :: 0 <= k < |sets| && sets[k].id != FindByName(sets, Trim(name)).value.id ==> r[k] == sets[k])
      && (forall k :: 0 <= k < |sets| && sets[k].name == Trim(name) && UniqueNames(sets) ==> r[k].filter == filter)
  {
    var existing := FindByName(sets, Trim(name)).value;
    var r := SaveFilterSet(sets, pipelineId, name, filter, freshId);
    forall k | 0 <= k < |sets| && sets[k].name == Trim(name) && UniqueNames(sets) ensures r[k].filter == filter {
      var e :| 0 <= e < |sets| && sets[e] == existing;
      assert e == k;
    }
  }

  /** Saving keeps the names unique. */
  lemma SaveFilterSetUnique(sets: seq<SavedFilterSet>, pipelineId: Option<string>, name: string,
                            filter: FilterState, freshId: string)
    requires UniqueNames(sets)
    ensures UniqueNames(SaveFilterSet(sets, pipelineId, name, filter, freshId))
  {
    if Truthy(pipelineId) && Trim(name) != "" && FindByName(sets, Trim(name)).Some? {
      SaveFilterSetExistingName(sets, pipelineId, name, filter, freshId);
    }
  }

  function DeleteFilterSet(sets: seq<SavedFilterSet>, pipelineId: Option<string>, id: string): seq<SavedFilterSet> {
    if !Truthy(pipelineId) then sets else Filter(sets, (s: SavedFilterSet) => s.id != id)
  }

  /** Deleting removes exactly the sets with the id and keeps names unique. */
  lemma DeleteFilterSetSpec(sets: seq<SavedFilterSet>, pipelineId: Option<string>, id: string)
    ensures Truthy(pipelineId) ==> forall s ::
      s in DeleteFilterSet(sets, pipelineId, id) <==> s in sets && s.id != id
    ensures UniqueNames(sets) ==> UniqueNames(DeleteFilterSet(sets, pipelineId, id))
  {
    if Truthy(pipelineId) {
      forall s ensures s in DeleteFilterSet(sets, pipelineId, id) <==> s in sets && s.id != id {
        FilterMembership(sets, (s: SavedFilterSet) => s.id != id, s);
      }
      if UniqueNames(sets) { FilterUnique(sets, (s: SavedFilterSet) => s.id != id); }
    }
  }

  lemma {:induction false} FilterUnique(sets: seq<SavedFilterSet>, p: SavedFilterSet -> bool)
    requires UniqueNames(sets)
    ensures UniqueNames(Filter(sets, p))
    decreases |sets|
  {
    if |sets| > 0 {
      var tail := sets[1..];
      assert UniqueNames(tail) by {
        forall i, j | 0 <= i < j < |tail| ensures tail[i].name != tail[j].name {
          assert tail[i] == sets[i + 1] && tail[j] == sets[j + 1];
        }
      }
      FilterUnique(tail, p);
      if p(sets[0]) {
        var r := Filter(sets, p);
        forall j | 0 < j < |r| ensures r[0].name != r[j].name {
          assert r[j] in tail;
        }
      }
    }
  }

  /** handleLoadFilterSet: the filter of the first set with the id, if any. */
  function LoadFilterSet(sets: seq<SavedFilterSet>, id: string): (r: Option<FilterState>)
    ensures r.Some? <==> exists k :: 0 <= k < |sets| && sets[k].id == id
    ensures r.Some? ==> exists k :: 0 <= k < |sets| && sets[k].id == id && sets[k].filter == r.value
                                    && forall j :: 0 <= j < k ==> sets[j].id != id
  {
    if |sets| == 0 then None
    else if sets[0].id == id then Some(sets[0].filter)
    else
      var r := LoadFilterSet(sets[1..], id);
      assert forall k :: 1 <= k < |sets| ==> sets[k] == sets[1..][k - 1];
      r
  }

  /** A set just saved under a new name loads back the filter it was saved with. */
  lemma SaveThenLoad(sets: seq<SavedFilterSet>, pipelineId: Option<string>, name: string,
                     filter: FilterState, freshId: string)
    requires Truthy(pipelineId) && Trim(name) != "" && FindByName(sets, Trim(name)).None?
    requires forall k :: 0 <= k < |sets| ==> sets[k].id != freshId
    ensures LoadFilterSet(SaveFilterSet(sets, pipelineId, name, filter, freshId), freshId) == Some(filter)
  {
    LoadAppended(sets, SavedFilterSet(freshId, Trim(name), filter));
  }

  lemma {:induction false} LoadAppended(sets: seq<SavedFilterSet>, s: SavedFilterSet)
    requires forall k :: 0 <= k < |sets| ==> sets[k].id != s.id
    ensures LoadFilterSet(sets + [s], s.id) == Some(s.filter)
    decreases |sets|
  {
    if |sets| > 0 {
      assert (sets + [s])[1..] == sets[1..] + [s];
      LoadAppended(sets[1..], s);
    }
  }

  // ---------------------------------------------------------------- closed-stage labels

  /** closedStageLabel: 'Verloren' for a lost stage, 'Gewonnen' for a won one, else the label. */
  function ClosedStageLabel(caption: string): string {
    var l := ToLower(caption);
    if Contains(l, "verloren") || Contains(l, "lost") then "Verloren"
    else if Contains(l, "gewonnen") || Contains(l, "won") || Contains(l, "abgeschlossen") || Contains(l, "aktiv") then "Gewonnen"
    else caption
  }

  lemma VerlorenIsFixed()
    ensures ClosedStageLabel("Verloren") == "Verloren"
  {
    LowerCapitalized("Verloren", "verloren");
    var l := ToLower("Verloren");
    assert l[..8] == "verloren";
    assert Contains(l, "verloren");
  }

  lemma GewonnenIsFixed()
    ensures ClosedStageLabel("Gewonnen") == "Gewonnen"
  {
    LowerCapitalized("Gewonnen", "gewonnen");
    WonLabel("Gewonnen", "gewonnen");
  }

  /** A caption whose lowered form starts with "gewonnen" and holds no 'v' or 'l' is won. */
  lemma WonLabel(caption: string, l: string)
    requires ToLower(caption) == l
    requires forall i :: 0 <= i < |l| ==> l[i] != 'v' && l[i] != 'l'
    requires |l| >= 8 && l[..8] == "gewonnen"
    ensures ClosedStageLabel(caption) == "Gewonnen"
  {
    NotContainsFirst(l, "verloren");
    NotContainsFirst(l, "lost");
  }

  /** A closed-stage label maps to itself: the result is stable under a second pass. */
  lemma ClosedStageLabelIdempotent(caption: string)
    ensures ClosedStageLabel(ClosedStageLabel(caption)) == ClosedStageLabel(caption)
    ensures ClosedStageLabel(caption) == "Verloren" || ClosedStageLabel(caption) == "Gewonnen"
         || ClosedStageLabel(caption) == caption
  {
    var r := ClosedStageLabel(caption);
    if r == "Verloren" {
      LostLabelStable(caption);
    } else if r == "Gewonnen" {
      WonLabelStable(caption);
    }
  }

  lemma LostLabelStable(caption: string)
    requires ClosedStageLabel(caption) == "Verloren"
    ensures ClosedStageLabel(ClosedStageLabel(caption)) == ClosedStageLabel(caption)
  {
    VerlorenIsFixed();
  }

  lemma WonLabelStable(caption: string)
    requires ClosedStageLabel(caption) == "Gewonnen"
    ensures ClosedStageLabel(ClosedStageLabel(caption)) == ClosedStageLabel(caption)
  {
    GewonnenIsFixed();
  }

  // ---------------------------------------------------------------- stages

  function DisplayKey(s: Stage): Key {
    Fin(s.displayOrder)
  }

  /** The open (pipeline) stages of the funnel, ascending by displayOrder, ties in
      input order; and the closed stages, in input order. */
  method PartitionStages(stages: seq<Stage>, isClosed: string -> bool) returns (pipeline: seq<Stage>, closed: seq<Stage>)
    ensures pipeline == Sort(Filter(stages, (s: Stage) => !isClosed(s.caption)), DisplayKey, Asc)
    ensures closed == Filter(stages, (s: Stage) => isClosed(s.caption))
    ensures SortedBy(pipeline, DisplayKey, Asc)
    ensures multiset(pipeline) + multiset(closed) == multiset(stages)
  {
    var open: seq<Stage> := [];
    closed := [];
    var n := 0;
    while n < |stages|
      invariant 0 <= n <= |stages|
      invariant open == Filter(stages[..n], (s: Stage) => !isClosed(s.caption))
      invariant closed == Filter(stages[..n], (s: Stage) => isClosed(s.caption))
    {
      assert stages[..n + 1] == stages[..n] + [stages[n]];
      FilterConcat(stages[..n], [stages[n]], (s: Stage) => !isClosed(s.caption));
      FilterConcat(stages[..n], [stages[n]], (s: Stage) => isClosed(s.caption));
      if isClosed(stages[n].caption) {
        closed := closed + [stages[n]];
      } else {
        open := open + [stages[n]];
      }
      n := n + 1;
    }
    assert stages[..n] == stages;
    pipeline := SortedCopy(open, DisplayKey, Asc);
    FilterSplitsMultiset(stages, (s: Stage) => isClosed(s.caption), (s: Stage) => !isClosed(s.caption));
  }

  /** A filter and the filter by its negation share out the input's elements. */
  lemma {:induction false} FilterSplitsMultiset<T>(xs: seq<T>, p: T -> bool, q: T -> bool)
    requires forall k :: 0 <= k < |xs| ==> q(xs[k]) == !p(xs[k])
    ensures multiset(Filter(xs, q)) + multiset(Filter(xs, p)) == multiset(xs)
    decreases |xs|
  {
    if |xs| > 0 {
      FilterSplitsMultiset(xs[1..], p, q);
      assert xs == [xs[0]] + xs[1..];
    }
  }

  /** The index stageIndexMap gives a stage id: the last pipeline position holding it. */
  function StageIndex(stages: seq<Stage>, id: string): (r: Option<nat>)
    ensures r.Some? ==> (
      && r.value < |stages| && stages[r.value].id == id
      && forall k :: r.value < k < |stages| ==> stages[k].id != id)
    ensures r.None? <==> forall k :: 0 <= k < |stages| ==> stages[k].id != id
    decreases |stages|
  {
    if |stages| == 0 then None
    else if stages[|stages| - 1].id == id then Some(|stages| - 1)
    else StageIndex(stages[..|stages| - 1], id)
  }

  /** stageIndexMap: `forEach((s, i) => map.set(s.id, i))`. */
  method StageIndexMap(stages: seq<Stage>) returns (m: map<string, nat>)
    ensures forall id :: id in m <==> StageIndex(stages, id).Some?
    ensures forall id :: id in m ==> m[id] == StageIndex(stages, id).value
  {
    m := map[];
    var i := 0;
    while i < |stages|
      invariant 0 <= i <= |stages|
      invariant forall id :: id in m <==> StageIndex(stages[..i], id).Some?
      invariant forall id :: id in m ==> m[id] == StageIndex(stages[..i], id).value
    {
      assert stages[..i + 1][..i] == stages[..i];
      m := m[stages[i].id := i];
      i := i + 1;
    }
    assert stages[..i] == stages;
  }

  /** closedStages.find(s => s.id === id). */
  function FindClosed(closed: seq<Stage>, id: string): (r: Option<Stage>)
    ensures r.Some? ==> r.value in closed && r.value.id == id
    ensures r.None? <==> forall k :: 0 <= k < |closed| ==> closed[k].id != id
  {
    if |closed| == 0 then None
    else if closed[0].id == id then Some(closed[0])
    else
      var r := FindClosed(closed[1..], id);
      assert forall k :: 1 <= k < |closed| ==> closed[k] == closed[1..][k - 1];
      r
  }

  // ---------------------------------------------------------------- aggregation

  /** A deal counts in pipeline stage i when its own stage is pipeline stage i or a
      later one, or is a closed stage. */
  predicate Reaches(d: Deal, pipeline: seq<Stage>, closed: seq<Stage>, i: nat) {
    match StageIndex(pipeline, d.dealStageId)
    case Some(p) => i <= p
    case None => FindClosed(closed, d.dealStageId).Some?
  }

  /** A deal counts in the closed stage with id `cid` when it is not in a pipeline stage
      and its stage id is `cid`. */
  predicate InClosed(d: Deal, pipeline: seq<Stage>, cid: string) {
    StageIndex(pipeline, d.dealStageId).None? && d.dealStageId == cid
  }

  /** The deals counted in pipeline stage i, in the order they were added. */
  function StageDeals(filtered: seq<Deal>, pipeline: seq<Stage>, closed: seq<Stage>, i: nat): seq<Deal> {
    Filter(filtered, (d: Deal) => Reaches(d, pipeline, closed, i))
  }

  function ClosedDeals(filtered: seq<Deal>, pipeline: seq<Stage>, cid: string): seq<Deal> {
    Filter(filtered, (d: Deal) => InClosed(d, pipeline, cid))
  }

  predicate ClosedId(closed: seq<Stage>, cid: string) {
    exists k :: 0 <= k < |closed| && closed[k].id == cid
  }

  /** One pass of the aggregation loop: add deal `d` to every pipeline stage up to its
      own (or to all of them and to its closed stage). */
  method AddDeal(lists: seq<seq<Deal>>, closedLists: map<string, seq<Deal>>, d: Deal,
                 index: map<string, nat>, pipeline: seq<Stage>, closed: seq<Stage>)
    returns (lists': seq<seq<Deal>>, closedLists': map<string, seq<Deal>>)
    requires |lists| == |pipeline|
    requires forall id :: id in index <==> StageIndex(pipeline, id).Some?
    requires forall id :: id in index ==> index[id] == StageIndex(pipeline, id).value
    requires forall cid :: cid in closedLists <==> ClosedId(closed, cid)
    ensures |lists'| == |pipeline|
    ensures forall i :: 0 <= i < |pipeline| ==>
      lists'[i] == lists[i] + if Reaches(d, pipeline, closed, i) then [d] else []
    ensures closedLists'.Keys == closedLists.Keys
    ensures forall cid :: cid in closedLists' ==>
      closedLists'[cid] == closedLists[cid] + if InClosed(d, pipeline, cid) then [d] else []
  {
    lists' := lists;
    closedLists' := closedLists;
    var upto := 0;
    var toClosed := false;
    if d.dealStageId in index {
      upto := index[d.dealStageId] + 1;
    } else {
      var cs := FindClosed(closed, d.dealStageId);
      if cs.Some? {
        upto := |pipeline|;
        toClosed := true;
      }
    }
    var i := 0;
    while i < upto
      invariant 0 <= i <= upto <= |pipeline|
      invariant |lists'| == |pipeline|
      invariant forall q :: 0 <= q < i ==> lists'[q] == lists[q] + [d]
      invariant forall q :: i <= q < |pipeline| ==> lists'[q] == lists[q]
    {
      lists' := lists'[i := lists'[i] + [d]];
      i := i + 1;
    }
    if toClosed {
      var k :| 0 <= k < |closed| && closed[k].id == d.dealStageId;
      closedLists' := closedLists'[d.dealStageId := closedLists'[d.dealStageId] + [d]];
    }
  }

  /** The nested loops of the funnel computation that fill `stageDealSets` and
      `closedDealSets`. The sets hold deal objects and each deal is added at most
      once to each, so a list in insertion order stands for a set. */
  method Aggregate(filtered: seq<Deal>, pipeline: seq<Stage>, closed: seq<Stage>)
    returns (lists: seq<seq<Deal>>, closedLists: map<string, seq<Deal>>)
    ensures |lists| == |pipeline|
    ensures forall i :: 0 <= i < |pipeline| ==> lists[i] == StageDeals(filtered, pipeline, closed, i)
    ensures forall cid :: cid in closedLists <==> ClosedId(closed, cid)
    ensures forall cid :: cid in closedLists ==> closedLists[cid] == ClosedDeals(filtered, pipeline, cid)
  {
    var index := StageIndexMap(pipeline);
    lists := seq(|pipeline|, _ => []);
    closedLists := EmptyClosedLists(closed);
    var n := 0;
    while n < |filtered|
      invariant 0 <= n <= |filtered|
      invariant |lists| == |pipeline|
      invariant forall i :: 0 <= i < |pipeline| ==> lists[i] == StageDeals(filtered[..n], pipeline, closed, i)
      invariant forall cid :: cid in closedLists <==> ClosedId(closed, cid)
      invariant forall cid :: cid in closedLists ==> closedLists[cid] == ClosedDeals(filtered[..n], pipeline, cid)
    {
      var d := filtered[n];
      assert filtered[..n + 1] == filtered[..n] + [d];
      lists, closedLists := AddDeal(lists, closedLists, d, index, pipeline, closed);
      forall i | 0 <= i < |pipeline| ensures lists[i] == StageDeals(filtered[..n + 1], pipeline, closed, i) {
        StageDealsSnoc(filtered[..n], d, pipeline, closed, i);
      }
      forall cid | cid in closedLists ensures closedLists[cid] == ClosedDeals(filtered[..n + 1], pipeline, cid) {
        ClosedDealsSnoc(filtered[..n], d, pipeline, cid);
      }
      n := n + 1;
    }
    assert filtered[..n] == filtered;
  }

  /** The first loop of the aggregation: an empty list for every closed stage. */
  method EmptyClosedLists(closed: seq<Stage>) returns (closedLists: map<string, seq<Deal>>)
    ensures forall cid :: cid in closedLists <==> ClosedId(closed, cid)
    ensures forall cid :: cid in closedLists ==> closedLists[cid] == []
  {
    closedLists := map[];
    var c := 0;
    while c < |closed|
      invariant 0 <= c <= |closed|
      invariant forall cid :: cid in closedLists <==> ClosedId(closed[..c], cid)
      invariant forall cid :: cid in closedLists ==> closedLists[cid] == []
    {
      closedLists := closedLists[closed[c].id := []];
      forall cid
        ensures ClosedId(closed[..c + 1], cid) <==> ClosedId(closed[..c], cid) || cid == closed[c].id
      {
        if ClosedId(closed[..c + 1], cid) {
          var k :| 0 <= k < c + 1 && closed[..c + 1][k].id == cid;
          if k < c {
            assert closed[..c][k] == closed[k];
          }
        }
        if ClosedId(closed[..c], cid) {
          var k :| 0 <= k < c && closed[..c][k].id == cid;
          assert closed[..c + 1][k] == closed[k];
        }
        if cid == closed[c].id {
          assert closed[..c + 1][c].id == cid;
        }
      }
      c := c + 1;
    }
    assert closed[..c] == closed;
  }

  lemma StageDealsSnoc(xs: seq<Deal>, d: Deal, pipeline: seq<Stage>, closed: seq<Stage>, i: nat)
    ensures StageDeals(xs + [d], pipeline, closed, i)
         == StageDeals(xs, pipeline, closed, i) + if Reaches(d, pipeline, closed, i) then [d] else []
  {
    FilterConcat(xs, [d], (e: Deal) => Reaches(e, pipeline, closed, i));
  }

  lemma ClosedDealsSnoc(xs: seq<Deal>, d: Deal, pipeline: seq<Stage>, cid: string)
    ensures ClosedDeals(xs + [d], pipeline, cid)
         == ClosedDeals(xs, pipeline, cid) + if InClosed(d, pipeline, cid) then [d] else []
  {
    FilterConcat(xs, [d], (e: Deal) => InClosed(e, pipeline, cid));
  }

  lemma {:induction false} FilterLengthMono<T>(xs: seq<T>, p: T -> bool, q: T -> bool)
    requires forall k :: 0 <= k < |xs| && p(xs[k]) ==> q(xs[k])
    ensures |Filter(xs, p)| <= |Filter(xs, q)|
    decreases |xs|
  {
    if |xs| > 0 {
      FilterLengthMono(xs[1..], p, q);
    }
  }

  /** The funnel narrows: a later pipeline stage never counts more deals than an
      earlier one. */
  lemma CountsNonIncreasing(filtered: seq<Deal>, pipeline: seq<Stage>, closed: seq<Stage>, i: nat, j: nat)
    requires i <= j
    ensures |StageDeals(filtered, pipeline, closed, j)| <= |StageDeals(filtered, pipeline, closed, i)|
  {
    FilterLengthMono(filtered, (d: Deal) => Reaches(d, pipeline, closed, j), (d: Deal) => Reaches(d, pipeline, closed, i));
  }

  /** The first pipeline stage counts every filtered deal whose stage is known (open or
      closed), and a deal of an unknown stage counts nowhere. */
  lemma FirstStageCountsKnownDeals(filtered: seq<Deal>, pipeline: seq<Stage>, closed: seq<Stage>, d: Deal)
    ensures StageDeals(filtered, pipeline, closed, 0)
         == Filter(filtered, (e: Deal) => StageIndex(pipeline, e.dealStageId).Some? || FindClosed(closed, e.dealStageId).Some?)
    ensures StageIndex(pipeline, d.dealStageId).None? && FindClosed(closed, d.dealStageId).None? ==>
      forall i :: d !in StageDeals(filtered, pipeline, closed, i)
  {
    FilterCongruent(filtered, (e: Deal) => Reaches(e, pipeline, closed, 0),
                    (e: Deal) => StageIndex(pipeline, e.dealStageId).Some? || FindClosed(closed, e.dealStageId).Some?);
    if StageIndex(pipeline, d.dealStageId).None? && FindClosed(closed, d.dealStageId).None? {
      forall i ensures d !in StageDeals(filtered, pipeline, closed, i) {
        FilterMembership(filtered, (e: Deal) => Reaches(e, pipeline, closed, i), d);
      }
    }
  }

  /** A deal in pipeline stage p counts in stages 0..p and in no later one. */
  lemma DealCountsUpToItsStage(filtered: seq<Deal>, pipeline: seq<Stage>, closed: seq<Stage>, d: Deal, i: nat)
    requires d in filtered && StageIndex(pipeline, d.dealStageId).Some?
    ensures d in StageDeals(filtered, pipeline, closed, i) <==> i <= StageIndex(pipeline, d.dealStageId).value
  {
    FilterMembership(filtered, (e: Deal) => Reaches(e, pipeline, closed, i), d);
  }

  /** Math.max(...counts, 1). */
  function MaxCount(counts: seq<nat>): (m: nat)
    ensures m >= 1
    ensures forall k :: 0 <= k < |counts| ==> counts[k] <= m
    ensures m == 1 || exists k :: 0 <= k < |counts| && counts[k] == m
  {
    if |counts| == 0 then 1
    else
      var rest := MaxCount(counts[1..]);
      assert forall k :: 1 <= k < |counts| ==> counts[k] == counts[1..][k - 1];
      if counts[0] > rest then counts[0] else rest
  }

  function SumRevenue(ds: seq<Deal>): int {
    if |ds| == 0 then 0 else ds[0].revenue + SumRevenue(ds[1..])
  }

  /** The integer part of one funnel row; ratio, perWeek and avgDaysInStage are
      floating-point and not part of this model. */
  datatype FunnelStageData = FunnelStageData(
    stage: Stage, count: nat, revenue: int, deals: seq<Deal>, currentCount: nat, currentRevenue: int)

  /** One pipeline row: the counted deals and their revenue, and the deals (all of them,
      unfiltered) that sit in the stage now. */
  function StageRow(stage: Stage, counted: seq<Deal>, deals: seq<Deal>): (r: FunnelStageData)
    ensures r.count == |counted| && r.deals == counted
    ensures r.currentCount <= |deals|
    ensures forall d :: d in Filter(deals, (e: Deal) => e.dealStageId == stage.id) ==> d.dealStageId == stage.id
  {
    var current := Filter(deals, (e: Deal) => e.dealStageId == stage.id);
    FunnelStageData(stage, |counted|, SumRevenue(counted), counted, |current|, SumRevenue(current))
  }

  /** The pipeline rows of the funnel, with the maximum count the bars are scaled to. */
  method FunnelRows(filtered: seq<Deal>, deals: seq<Deal>, pipeline: seq<Stage>, closed: seq<Stage>)
    returns (rows: seq<FunnelStageData>, maxCount: nat)
    ensures |rows| == |pipeline|
    ensures forall i :: 0 <= i < |pipeline| ==>
      rows[i] == StageRow(pipeline[i], StageDeals(filtered, pipeline, closed, i), deals)
    ensures maxCount >= 1 && forall i :: 0 <= i < |rows| ==> rows[i].count <= maxCount
    ensures forall i, j :: 0 <= i <= j < |rows| ==> rows[j].count <= rows[i].count
  {
    var lists, closedLists := Aggregate(filtered, pipeline, closed);
    rows := seq(|pipeline|, i requires 0 <= i < |pipeline| => StageRow(pipeline[i], lists[i], deals));
    var counts := seq(|pipeline|, i requires 0 <= i < |pipeline| => |lists[i]|);
    maxCount := MaxCount(counts);
    forall i, j | 0 <= i <= j < |rows| ensures rows[j].count <= rows[i].count {
      CountsNonIncreasing(filtered, pipeline, closed, i, j);
    }
  }
}
