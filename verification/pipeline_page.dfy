/** The pipeline page: the sort configuration of each stage column and of the list
    view, the sorting of deals by revenue, seats, age, next appointment or closing
    date, the won/lost column swap, the closed-stage test, the grouping of deals into
    stage columns and the list of open deals. */
module PipelinePage {
  import opened Common
  import opened Sorting
  import OverviewRoute
  import MeetingsRoute
  import StageHistoryRoute
  import PipelineCache

  type Deal = OverviewRoute.DealOverviewItem
  type StageOut = OverviewRoute.StageOut

  datatype SortField = Revenue | AgentsMinuten | DealAge | NextAppointment | ClosedDate

  datatype SortConfig = SortConfig(field: SortField, direction: Direction)

  type SortMap = map<string, SortConfig>

  /** A stage column without a configuration sorts by revenue, descending. */
  const DefaultSort: SortConfig := SortConfig(Revenue, Desc)

  /** Closed columns show at most this many deals. */
  const ClosedColumnLimit: nat := 20

  function Flip(d: Direction): Direction {
    if d == Asc then Desc else Asc
  }

  /** The toggle rule shared by the stage columns and the list: the current field flips
      its direction, a new field starts ascending for nextAppointment and descending
      otherwise. */
  function NextConfig(current: Option<SortConfig>, field: SortField): (r: SortConfig)
    ensures r.field == field
    ensures current.Some? && current.value.field == field ==> r.direction != current.value.direction
    ensures (current.None? || current.value.field != field) ==>
      r.direction == (if field == NextAppointment then Asc else Desc)
  {
    if current.Some? && current.value.field == field then SortConfig(field, Flip(current.value.direction))
    else SortConfig(field, if field == NextAppointment then Asc else Desc)
  }

  /** Two clicks on the same header give back the configuration before them. */
  lemma ToggleTwiceRestores(c: SortConfig)
    ensures NextConfig(Some(NextConfig(Some(c), c.field)), c.field) == c
  {
  }

  function ConfigFor(m: SortMap, stageId: string): SortConfig {
    if stageId in m then m[stageId] else DefaultSort
  }

  // ---------------------------------------------------------------- sort keys

  /** A date as a sort key: missing text is +Infinity. Text that does not parse is also
      keyed +Infinity here; the source's comparator sees NaN for it instead. */
  function TimeKey(text: string, instant: Parser): Key {
    if text == "" then PosInf
    else match instant(text)
      case Some(t) => Fin(t)
      case None => PosInf
  }

  function AppointmentKey(d: Deal, instant: Parser): Key {
    if d.nextAppointment.Some? then TimeKey(d.nextAppointment.value.date, instant) else PosInf
  }

  /** The key sortDeals compares: a null dealAge subtracts as 0; closedDate is
      stageEnteredAt, else closedate, else +Infinity. */
  /** The comparator's key for a configured field. */
  function KeyBy(field: SortField, instant: Parser): Deal -> Key {
    (d: Deal) => DealKey(d, field, instant)
  }

  function DealKey(d: Deal, field: SortField, instant: Parser): Key {
    match field
    case Revenue => Fin(d.revenue)
    case AgentsMinuten => Fin(d.agentsMinuten)
    case DealAge => Fin(d.dealAge.GetOr(0))
    case NextAppointment => AppointmentKey(d, instant)
    case ClosedDate =>
      if d.stageEnteredAt != "" then TimeKey(d.stageEnteredAt, instant)
      else TimeKey(d.closedate, instant)
  }

  /** The list view's key: its comparator has no closedDate case, so every deal ties. */
  function ListKey(d: Deal, field: SortField, instant: Parser): Key {
    if field == ClosedDate then Fin(0) else DealKey(d, field, instant)
  }

  /** A deal without a next appointment sorts after every deal with one, in either
      direction's opposite: last when ascending, first when descending. */
  lemma MissingAppointmentLast(a: Deal, b: Deal, instant: Parser)
    requires a.nextAppointment.None? && AppointmentKey(b, instant).Fin?
    ensures Before(DealKey(b, NextAppointment, instant), DealKey(a, NextAppointment, instant), Asc)
    ensures !Before(DealKey(b, NextAppointment, instant), DealKey(a, NextAppointment, instant), Desc)
  {
  }

  // ---------------------------------------------------------------- closed stages

  const ClosedKeywords: seq<string> := ["verloren", "lost", "gewonnen", "won", "abgesagt", "cancelled", "storniert"]

  /** isClosedStage: the lowercased label contains one of the seven keywords. */
  predicate IsClosedStage(caption: string) {
    exists k :: 0 <= k < |ClosedKeywords| && Contains(ToLower(caption), ClosedKeywords[k])
  }

  /** The labels reorderedStages looks for. */
  predicate LostLabel(s: StageOut) {
    Contains(ToLower(s.caption), "verloren") || Contains(ToLower(s.caption), "lost")
  }

  predicate WonLabel(s: StageOut) {
    Contains(ToLower(s.caption), "gewonnen") || Contains(ToLower(s.caption), "won")
  }

  /** The won and lost columns are closed columns. */
  lemma WonAndLostAreClosed(s: StageOut)
    ensures LostLabel(s) || WonLabel(s) ==> IsClosedStage(s.caption)
  {
    var l := ToLower(s.caption);
    if Contains(l, "verloren") { assert ClosedKeywords[0] == "verloren"; }
    else if Contains(l, "lost") { assert ClosedKeywords[1] == "lost"; }
    else if Contains(l, "gewonnen") { assert ClosedKeywords[2] == "gewonnen"; }
    else if Contains(l, "won") { assert ClosedKeywords[3] == "won"; }
  }

  // ---------------------------------------------------------------- reorderedStages

  /** Array.prototype.findIndex. */
  function FirstIndex(stages: seq<StageOut>, p: StageOut -> bool): (r: Option<nat>)
    ensures r.Some? ==> r.value < |stages| && p(stages[r.value]) && forall k :: 0 <= k < r.value ==> !p(stages[k])
    ensures r.None? <==> forall k :: 0 <= k < |stages| ==> !p(stages[k])
  {
    if |stages| == 0 then None
    else if p(stages[0]) then Some(0)
    else
      var rest := FirstIndex(stages[1..], p);
      assert forall k :: 1 <= k < |stages| ==> stages[k] == stages[1..][k - 1];
      if rest.Some? then Some(rest.value + 1) else None
  }

  /** The first lost column and the first won column trade places when the lost one
      comes first. */
  function Reordered(stages: seq<StageOut>): seq<StageOut> {
    var v := FirstIndex(stages, LostLabel);
    var g := FirstIndex(stages, WonLabel);
    if v.Some? && g.Some? && v.value < g.value then stages[v.value := stages[g.value]][g.value := stages[v.value]]
    else stages
  }

  /** reorderedStages: swap two elements of a copy of the stages. */
  method ReorderedStages(stages: seq<StageOut>) returns (r: seq<StageOut>)
    ensures r == Reordered(stages)
  {
    var a := new StageOut[|stages|](k requires 0 <= k < |stages| => stages[k]);
    var v := FirstIndex(stages, LostLabel);
    var g := FirstIndex(stages, WonLabel);
    if v.Some? && g.Some? && v.value < g.value {
      a[v.value], a[g.value] := a[g.value], a[v.value];
    }
    r := a[..];
  }

  /** Swapping positions i < j of a sequence, written out as slices. */
  lemma SwapSlices(s: seq<StageOut>, i: nat, j: nat)
    requires i < j < |s|
    ensures s[i := s[j]][j := s[i]] == s[..i] + [s[j]] + s[i + 1..j] + [s[i]] + s[j + 1..]
    ensures s == s[..i] + [s[i]] + s[i + 1..j] + [s[j]] + s[j + 1..]
  {
  }

  /** The reordering is a permutation and changes nothing unless both columns exist
      with the lost one first. */
  lemma ReorderedPermutation(stages: seq<StageOut>)
    ensures multiset(Reordered(stages)) == multiset(stages) && |Reordered(stages)| == |stages|
    ensures var v := FirstIndex(stages, LostLabel); var g := FirstIndex(stages, WonLabel);
      !(v.Some? && g.Some? && v.value < g.value) ==> Reordered(stages) == stages
  {
    var v := FirstIndex(stages, LostLabel);
    var g := FirstIndex(stages, WonLabel);
    if v.Some? && g.Some? && v.value < g.value {
      SwapPerm(stages, v.value, g.value);
    }
  }

  /** Swapping two positions keeps the multiset. */
  lemma SwapPerm(s: seq<StageOut>, i: nat, j: nat)
    requires i < j < |s|
    ensures multiset(s[i := s[j]][j := s[i]]) == multiset(s)
  {
    SwapSlices(s, i, j);
    var a, b, c := s[..i], s[i + 1..j], s[j + 1..];
    assert multiset(a + [s[j]] + b + [s[i]] + c)
        == multiset(a) + multiset{s[j]} + multiset(b) + multiset{s[i]} + multiset(c);
    assert multiset(a + [s[i]] + b + [s[j]] + c)
        == multiset(a) + multiset{s[i]} + multiset(b) + multiset{s[j]} + multiset(c);
  }

  /** After the reordering the first won column comes no later than the first lost one. */
  lemma WonBeforeLost(stages: seq<StageOut>)
    requires FirstIndex(stages, LostLabel).Some? && FirstIndex(stages, WonLabel).Some?
    ensures var r := Reordered(stages);
      && FirstIndex(r, WonLabel).Some? && FirstIndex(r, LostLabel).Some?
      && FirstIndex(r, WonLabel).value <= FirstIndex(r, LostLabel).value
  {
    var i := FirstIndex(stages, LostLabel).value;
    var j := FirstIndex(stages, WonLabel).value;
    var r := Reordered(stages);
    if i < j {
      assert r[i] == stages[j] && r[j] == stages[i];
      assert forall k :: 0 <= k < i ==> r[k] == stages[k];
      assert FirstIndex(r, WonLabel).Some? && FirstIndex(r, WonLabel).value <= i;
      assert FirstIndex(r, LostLabel).Some? by { assert LostLabel(r[j]); }
    }
  }

  // ---------------------------------------------------------------- merged deals

  /** dealsWithMeetings: the overview deals with the next meeting, the days in stage
      (-1 without a number) and the stage entry time merged in from the two secondary
      requests; an absent map is the empty map. */
  function MergeSecondary(deals: seq<Deal>, meetings: map<string, Option<MeetingsRoute.NextMeeting>>,
                          history: map<string, Option<StageHistoryRoute.StageHistory>>): (r: seq<Deal>)
    ensures |r| == |deals|
    ensures forall k :: 0 <= k < |deals| ==> (
      && r[k].id == deals[k].id && r[k].dealStageId == deals[k].dealStageId
      && r[k].revenue == deals[k].revenue && r[k].daysInStage.Some?)
  {
    seq(|deals|, k requires 0 <= k < |deals| =>
      var d := deals[k];
      var entry := if d.id in history then history[d.id] else None;
      d.(nextAppointment := if d.id in meetings && meetings[d.id].Some?
                            then Some(OverviewRoute.Appointment(meetings[d.id].value.date, meetings[d.id].value.title))
                            else None,
         daysInStage := if entry.Some? && entry.value.daysInStage.Some? then entry.value.daysInStage else Some(-1),
         stageEnteredAt := if entry.Some? then entry.value.stageEnteredAt else ""))
  }

  /** Without stage history a deal has -1 days in stage and no entry time, whatever the
      overview computed; without a meeting it has no next appointment. */
  lemma MergeFallbacks(deals: seq<Deal>, meetings: map<string, Option<MeetingsRoute.NextMeeting>>,
                       history: map<string, Option<StageHistoryRoute.StageHistory>>, k: nat)
    requires k < |deals|
    ensures deals[k].id !in history ==>
      MergeSecondary(deals, meetings, history)[k].daysInStage == Some(-1)
      && MergeSecondary(deals, meetings, history)[k].stageEnteredAt == ""
    ensures deals[k].id !in meetings ==> MergeSecondary(deals, meetings, history)[k].nextAppointment.None?
  {
  }

  /** With entries present, the merged deal carries the meeting's date and title, the
      history's entry time and its day count (-1 when that is missing); every other field
      is the overview's. */
  lemma MergeEntries(deals: seq<Deal>, meetings: map<string, Option<MeetingsRoute.NextMeeting>>,
                     history: map<string, Option<StageHistoryRoute.StageHistory>>, k: nat)
    requires k < |deals|
    ensures var d, r := deals[k], MergeSecondary(deals, meetings, history)[k];
      && (d.id in meetings && meetings[d.id].Some? ==>
            r.nextAppointment == Some(OverviewRoute.Appointment(meetings[d.id].value.date, meetings[d.id].value.title)))
      && (d.id in meetings && meetings[d.id].None? ==> r.nextAppointment.None?)
      && (d.id in history && history[d.id].Some? ==>
            && r.stageEnteredAt == history[d.id].value.stageEnteredAt
            && r.daysInStage == (if history[d.id].value.daysInStage.Some? then history[d.id].value.daysInStage else Some(-1)))
      && (d.id in history && history[d.id].None? ==> r.daysInStage == Some(-1) && r.stageEnteredAt == "")
      && r == d.(nextAppointment := r.nextAppointment, daysInStage := r.daysInStage, stageEnteredAt := r.stageEnteredAt)
  {
  }

  // ---------------------------------------------------------------- grouping

  datatype StageGroup = StageGroup(stage: StageOut, deals: seq<Deal>, totalCount: nat)

  function InStage(stage: StageOut): Deal -> bool {
    (d: Deal) => d.dealStageId == stage.id
  }

  /** One column of dealsByStage: the deals of the stage in the column's sort order,
      cut to 20 for a closed column, with the uncut count. */
  function GroupFor(stage: StageOut, deals: seq<Deal>, m: SortMap, instant: Parser): StageGroup {
    var config := ConfigFor(m, stage.id);
    var sorted := Sort(Filter(deals, InStage(stage)), KeyBy(config.field, instant), config.direction);
    StageGroup(stage,
      if IsClosedStage(stage.caption) && |sorted| > ClosedColumnLimit then sorted[..ClosedColumnLimit] else sorted,
      |sorted|)
  }

  function DealsByStage(stages: seq<StageOut>, deals: seq<Deal>, m: SortMap, instant: Parser): (r: seq<StageGroup>)
    ensures |r| == |stages|
    ensures forall i :: 0 <= i < |stages| ==> r[i] == GroupFor(stages[i], deals, m, instant)
  {
    seq(|stages|, i requires 0 <= i < |stages| => GroupFor(stages[i], deals, m, instant))
  }

  /** A column holds only deals of its stage, in its sort order; totalCount counts all of
      them; a closed column shows at most 20 and an open one shows exactly its deals. */
  lemma GroupForSpec(stage: StageOut, deals: seq<Deal>, m: SortMap, instant: Parser)
    ensures var g := GroupFor(stage, deals, m, instant);
      var config := ConfigFor(m, stage.id);
      && g.totalCount == |Filter(deals, InStage(stage))|
      && (forall d :: d in g.deals ==> d in deals && d.dealStageId == stage.id)
      && SortedBy(g.deals, KeyBy(config.field, instant), config.direction)
      && (IsClosedStage(stage.caption) ==> |g.deals| == if g.totalCount < ClosedColumnLimit then g.totalCount else ClosedColumnLimit)
      && multiset(g.deals) <= multiset(Filter(deals, InStage(stage)))
      && (!IsClosedStage(stage.caption) || g.totalCount <= ClosedColumnLimit ==>
            multiset(g.deals) == multiset(Filter(deals, InStage(stage))))
      && (forall d, e :: d in g.deals && e in multiset(Filter(deals, InStage(stage))) - multiset(g.deals) ==>
            Before(KeyBy(config.field, instant)(d), KeyBy(config.field, instant)(e), config.direction))
  {
    var config := ConfigFor(m, stage.id);
    var key := KeyBy(config.field, instant);
    var mine := Filter(deals, InStage(stage));
    var sorted := Sort(mine, key, config.direction);
    var closed := IsClosedStage(stage.caption);
    SortSorted(mine, key, config.direction);
    StageMembers(deals, stage);
    ShownDeals(stage, deals, mine, sorted, closed, key, config.direction);
  }

  /** The deals filtered into a column are deals of its stage. */
  lemma StageMembers(deals: seq<Deal>, stage: StageOut)
    ensures forall d :: d in Filter(deals, InStage(stage)) ==> d in deals && d.dealStageId == stage.id
  {
    forall d | d in Filter(deals, InStage(stage)) ensures d in deals && d.dealStageId == stage.id {
      FilterMembership(deals, InStage(stage), d);
    }
  }

  /** The cap on a closed column keeps the sort order and shows only the stage's deals. */
  lemma ShownDeals(stage: StageOut, deals: seq<Deal>, mine: seq<Deal>, sorted: seq<Deal>, closed: bool,
                   key: Deal -> Key, dir: Direction)
    requires SortedBy(sorted, key, dir) && multiset(sorted) == multiset(mine)
    requires forall d :: d in mine ==> d in deals && d.dealStageId == stage.id
    ensures var shown := if closed && |sorted| > ClosedColumnLimit then sorted[..ClosedColumnLimit] else sorted;
      && (forall d :: d in shown ==> d in deals && d.dealStageId == stage.id)
      && SortedBy(shown, key, dir)
      && (closed ==> |shown| == if |mine| < ClosedColumnLimit then |mine| else ClosedColumnLimit)
      && multiset(shown) <= multiset(mine)
      && (!closed || |mine| <= ClosedColumnLimit ==> multiset(shown) == multiset(mine))
      && (forall d, e :: d in shown && e in multiset(mine) - multiset(shown) ==> Before(key(d), key(e), dir))
  {
    assert |sorted| == |mine| by {
      assert |multiset(sorted)| == |multiset(mine)|;
    }
    var shown := if closed && |sorted| > ClosedColumnLimit then sorted[..ClosedColumnLimit] else sorted;
    forall d | d in shown ensures d in deals && d.dealStageId == stage.id {
      var k :| 0 <= k < |shown| && shown[k] == d;
      assert sorted[k] == d;
      assert d in multiset(mine);
    }
    if closed && |sorted| > ClosedColumnLimit {
      SortedPrefix(sorted, ClosedColumnLimit, key, dir);
    } else {
      assert sorted[..|sorted|] == sorted;
      SortedPrefix(sorted, |sorted|, key, dir);
    }
  }

  /** A deal shows up only in the column of its own stage. */
  lemma DealInOneColumn(stages: seq<StageOut>, deals: seq<Deal>, m: SortMap, instant: Parser, d: Deal, i: nat)
    requires i < |stages| && d in DealsByStage(stages, deals, m, instant)[i].deals
    ensures stages[i].id == d.dealStageId
  {
    GroupForSpec(stages[i], deals, m, instant);
  }

  // ---------------------------------------------------------------- open deals

  /** openDeals keeps the deals whose lowercased stage name mentions neither
      'abgeschlossen' nor 'closed'. */
  predicate IsOpenDeal(d: Deal) {
    !Contains(ToLower(d.dealStage), "abgeschlossen") && !Contains(ToLower(d.dealStage), "closed")
  }

  // ---------------------------------------------------------------- the page state

  /** The sort state of the page and the cache it writes stage sort settings to. */
  class PipelineState {
    var selectedPipelineId: Option<string>
    var sortByStage: SortMap
    var listSortConfig: SortConfig
    const cache: PipelineCache.Cache<SortMap>

    /** The page's initial state: no column configured, list by revenue descending. */
    constructor(selected: Option<string>, cache: PipelineCache.Cache<SortMap>)
      ensures selectedPipelineId == selected && sortByStage == map[]
      ensures listSortConfig == SortConfig(Revenue, Desc) && this.cache == cache
    {
      selectedPipelineId := selected;
      sortByStage := map[];
      listSortConfig := SortConfig(Revenue, Desc);
      this.cache := cache;
    }

    /** handleSortChange: toggle the column's configuration, keep the others, and write
        the whole map to the cache under 'sort-<pipeline>' when a pipeline is selected. */
    method HandleSortChange(stageId: string, field: SortField, now: int, storageFails: bool)
      modifies this, cache
      ensures sortByStage == old(sortByStage)[stageId := NextConfig(
        if stageId in old(sortByStage) then Some(old(sortByStage)[stageId]) else None, field)]
      ensures selectedPipelineId == old(selectedPipelineId) && listSortConfig == old(listSortConfig)
      ensures cache.store == if Truthy(selectedPipelineId) && cache.hasWindow && !storageFails
        then PipelineCache.Stored(old(cache.store), "sort-" + selectedPipelineId.value, sortByStage, now)
        else old(cache.store)
    {
      var current := if stageId in sortByStage then Some(sortByStage[stageId]) else None;
      var newSort := sortByStage[stageId := NextConfig(current, field)];
      if Truthy(selectedPipelineId) {
        cache.Set("sort-" + selectedPipelineId.value, newSort, now, storageFails);
      }
      sortByStage := newSort;
    }

    /** handleListSortChange: the same toggle rule on the list's single configuration. */
    method HandleListSortChange(field: SortField)
      modifies this
      ensures listSortConfig == NextConfig(Some(old(listSortConfig)), field)
      ensures sortByStage == old(sortByStage) && selectedPipelineId == old(selectedPipelineId)
    {
      listSortConfig := NextConfig(Some(listSortConfig), field);
    }

    /** sortDeals: a sorted copy of the deals by the column's configuration. */
    method SortDeals(deals: seq<Deal>, stageId: string, instant: Parser) returns (r: seq<Deal>)
      ensures var config := ConfigFor(sortByStage, stageId);
        r == Sort(deals, KeyBy(config.field, instant), config.direction)
      ensures multiset(r) == multiset(deals)
    {
      var config := ConfigFor(sortByStage, stageId);
      r := SortedCopy(deals, KeyBy(config.field, instant), config.direction);
    }

    /** openDeals: the open deals, sorted by the list configuration. */
    method OpenDeals(deals: seq<Deal>, instant: Parser) returns (r: seq<Deal>)
      ensures var config := listSortConfig;
        r == Sort(Filter(deals, IsOpenDeal), (d: Deal) => ListKey(d, config.field, instant), config.direction)
      ensures forall d :: d in r <==> d in deals && IsOpenDeal(d)
    {
      var filtered := Filter(deals, IsOpenDeal);
      var config := listSortConfig;
      r := SortedCopy(filtered, (d: Deal) => ListKey(d, config.field, instant), config.direction);
      forall d ensures d in r <==> d in deals && IsOpenDeal(d) {
        FilterMembership(deals, IsOpenDeal, d);
        assert d in r <==> d in multiset(r);
        assert d in filtered <==> d in multiset(filtered);
      }
    }
  }

  /** A column sort with no configuration is revenue, descending: the deal with more
      revenue comes first. */
  lemma DefaultIsRevenueDescending(m: SortMap, stageId: string, a: Deal, b: Deal, instant: Parser)
    requires stageId !in m && a.revenue > b.revenue
    ensures var config := ConfigFor(m, stageId);
      Before(DealKey(a, config.field, instant), DealKey(b, config.field, instant), config.direction)
      && !Before(DealKey(b, config.field, instant), DealKey(a, config.field, instant), config.direction)
  {
  }
}
