/** GET /api/deals/overview: the pipeline overview the dashboard's pipeline page is
    built from. The HubSpot calls are inputs (a `None` input is a call that threw);
    what is modelled is the order of the error answers, the collection of company
    ids, the company-name table and the shaping of every deal into a
    DealOverviewItem. */
module OverviewRoute {
  import opened Common

  datatype Appointment = Appointment(date: string, title: string)

  /** One row of the overview. `dealAge` and `daysInStage` are None where the source
      computes NaN from an unparseable date (it reaches the client as JSON null).
      `createdate`, `closedate` and `stageEnteredAt` are the optional fields the
      client reads or merges in; '' stands for absent (all three are only tested for
      truthiness). */
  datatype DealOverviewItem = DealOverviewItem(
    id: string,
    companyName: string,
    revenue: int,
    agentsMinuten: int,
    productManager: string,
    dealStage: string,
    dealStageId: string,
    dealAge: Option<int>,
    daysInStage: Option<int>,
    nextAppointment: Option<Appointment>,
    createdate: string,
    closedate: string,
    stageEnteredAt: string)

  datatype PipelineStage = PipelineStage(id: string, caption: string)
  datatype Pipeline = Pipeline(id: string, caption: string, stages: seq<PipelineStage>)

  /** A deal as the search API returns it. `amount` and `agentsMinuten` are the
      results of parseFloat/parseInt with their `|| 0` defaults already applied;
      `companyIds` are the ids of its company associations, in order. */
  datatype RawDeal = RawDeal(
    id: string,
    properties: map<string, string>,
    amount: int,
    agentsMinuten: int,
    companyIds: seq<string>)

  /** A company as the batch-read API returns it; `name` is None when absent. */
  datatype Company = Company(id: string, name: Option<string>)

  datatype Session = Session(accessToken: string, refreshError: bool)

  datatype StageOut = StageOut(id: string, caption: string, displayOrder: int)
  datatype PipelineOverview = PipelineOverview(
    pipelineId: string, pipelineName: string, stages: seq<StageOut>, deals: seq<DealOverviewItem>)

  datatype Response = Ok(overview: PipelineOverview) | Status(code: int)

  function Prop(props: map<string, string>, key: string): Option<string> {
    if key in props then Some(props[key]) else None
  }

  /** `a || b` on optional strings. */
  function Or(a: Option<string>, b: string): string {
    if Truthy(a) then a.value else b
  }

  // ------------------------------------------------------------ derived numbers

  /** calculateDealAge: 0 without a createdate, else the floored day count (None for NaN). */
  function CalculateDealAge(createdate: Option<string>, now: int, instant: Parser): (r: Option<int>)
    ensures !Truthy(createdate) ==> r == Some(0)
    ensures Truthy(createdate) && instant(createdate.value).Some? ==>
      r.Some? && r.value * MsPerDay <= now - instant(createdate.value).value < (r.value + 1) * MsPerDay
    ensures Truthy(createdate) && instant(createdate.value).None? ==> r.None?
  {
    if !Truthy(createdate) then Some(0)
    else match instant(createdate.value)
      case None => None
      case Some(t) => Some(DaysBetween(t, now))
  }

  const EnteredPrefix: string := "hs_date_entered_"

  /** calculateDaysInStage: -1 when the stage id or its hs_date_entered_<id> property
      is missing, else the floored day count since that date (None for NaN). */
  function CalculateDaysInStage(stageId: Option<string>, props: map<string, string>, now: int, instant: Parser): (r: Option<int>)
    ensures !Truthy(stageId) ==> r == Some(-1)
    ensures Truthy(stageId) && !Truthy(Prop(props, EnteredPrefix + stageId.value)) ==> r == Some(-1)
    ensures Truthy(stageId) && Truthy(Prop(props, EnteredPrefix + stageId.value)) ==>
      match instant(props[EnteredPrefix + stageId.value])
      case None => r.None?
      case Some(t) => r.Some? && r.value * MsPerDay <= now - t < (r.value + 1) * MsPerDay
  {
    if !Truthy(stageId) then Some(-1)
    else
      var entered := Prop(props, EnteredPrefix + stageId.value);
      if !Truthy(entered) then Some(-1)
      else match instant(entered.value)
        case None => None
        case Some(t) => Some(DaysBetween(t, now))
  }

  // ------------------------------------------------------------ company ids

  function FirstCompany(d: RawDeal): Option<string> {
    if |d.companyIds| > 0 then Some(d.companyIds[0]) else None
  }

  /** The `companyIds` Set after the loop over the deals, in insertion order. */
  function CollectCompanyIds(deals: seq<RawDeal>): seq<string>
    decreases |deals|
  {
    if |deals| == 0 then []
    else
      var prev := CollectCompanyIds(deals[..|deals| - 1]);
      match FirstCompany(deals[|deals| - 1])
      case None => prev
      case Some(c) => if c in prev then prev else prev + [c]
  }

  predicate NoDuplicates(s: seq<string>) {
    forall i, j :: 0 <= i < j < |s| ==> s[i] != s[j]
  }

  /** The collected ids are exactly the first company association of each deal that
      has one, each once. */
  lemma {:induction false} CompanyIdsExact(deals: seq<RawDeal>)
    ensures NoDuplicates(CollectCompanyIds(deals))
    ensures forall c :: c in CollectCompanyIds(deals) <==>
      exists k :: 0 <= k < |deals| && FirstCompany(deals[k]) == Some(c)
    decreases |deals|
  {
    if |deals| > 0 {
      var init := deals[..|deals| - 1];
      CompanyIdsExact(init);
      forall c ensures (exists k :: 0 <= k < |init| && FirstCompany(init[k]) == Some(c))
                   <==> (exists k :: 0 <= k < |deals| - 1 && FirstCompany(deals[k]) == Some(c))
      {
        if exists k :: 0 <= k < |deals| - 1 && FirstCompany(deals[k]) == Some(c) {
          var k :| 0 <= k < |deals| - 1 && FirstCompany(deals[k]) == Some(c);
          assert init[k] == deals[k];
        }
      }
    }
  }

  /** The loop of the route: adds each deal's first company id to the Set. */
  method CompanyIds(deals: seq<RawDeal>) returns (ids: seq<string>)
    ensures ids == CollectCompanyIds(deals)
    ensures NoDuplicates(ids)
  {
    ids := [];
    var n := 0;
    while n < |deals|
      invariant 0 <= n <= |deals|
      invariant ids == CollectCompanyIds(deals[..n])
    {
      assert deals[..n + 1][..n] == deals[..n];
      var first := FirstCompany(deals[n]);
      if first.Some? && first.value !in ids {
        ids := ids + [first.value];
      }
      n := n + 1;
    }
    assert deals[..n] == deals;
    CompanyIdsExact(deals);
  }

  // ------------------------------------------------------------ company names

  /** `companiesMap` after the loop: each id maps to the name of the last company
      with that id, 'Unknown' when it has none. */
  function CompanyNames(companies: seq<Company>): map<string, string>
    decreases |companies|
  {
    if |companies| == 0 then map[]
    else
      var last := companies[|companies| - 1];
      CompanyNames(companies[..|companies| - 1])[last.id := Or(last.name, "Unknown")]
  }

  /** Every company listed has an entry, no other key exists, and no entry is empty. */
  lemma {:induction false} CompanyNamesShape(companies: seq<Company>)
    ensures forall id :: id in CompanyNames(companies) <==> exists k :: 0 <= k < |companies| && companies[k].id == id
    ensures forall id :: id in CompanyNames(companies) ==> CompanyNames(companies)[id] != ""
    decreases |companies|
  {
    if |companies| > 0 {
      var init := companies[..|companies| - 1];
      CompanyNamesShape(init);
      forall k | 0 <= k < |companies| - 1 ensures init[k] == companies[k] {
      }
    }
  }

  method CompaniesMap(companies: seq<Company>) returns (m: map<string, string>)
    ensures m == CompanyNames(companies)
  {
    m := map[];
    var n := 0;
    while n < |companies|
      invariant 0 <= n <= |companies|
      invariant m == CompanyNames(companies[..n])
    {
      assert companies[..n + 1][..n] == companies[..n];
      m := m[companies[n].id := Or(companies[n].name, "Unknown")];
      n := n + 1;
    }
    assert companies[..n] == companies;
  }

  // ------------------------------------------------------------ items

  function FindStage(stages: seq<PipelineStage>, id: Option<string>): (r: Option<PipelineStage>)
    ensures r.Some? ==> r.value in stages && id == Some(r.value.id)
    ensures r.Some? ==> exists k :: 0 <= k < |stages| && stages[k] == r.value && forall j :: 0 <= j < k ==> stages[j].id != id.value
    ensures r.None? ==> id.None? || forall k :: 0 <= k < |stages| ==> stages[k].id != id.value
  {
    if id.None? || |stages| == 0 then None
    else if stages[0].id == id.value then Some(stages[0])
    else FindStage(stages[1..], id)
  }

  function BuildItem(deal: RawDeal, pipeline: Pipeline, names: map<string, string>, now: int, instant: Parser): DealOverviewItem {
    var props := deal.properties;
    var company := match FirstCompany(deal)
      case Some(c) => if c != "" && c in names then Some(names[c]) else None
      case None => None;
    var stageId := Prop(props, "dealstage");
    var stage := FindStage(pipeline.stages, stageId);
    DealOverviewItem(
      id := deal.id,
      companyName := Or(company, Or(Prop(props, "dealname"), "Unknown")),
      revenue := deal.amount,
      agentsMinuten := deal.agentsMinuten,
      productManager := Or(Prop(props, "deal_po"), ""),
      dealStage := Or(if stage.Some? then Some(stage.value.caption) else None, Or(stageId, "Unknown")),
      dealStageId := Or(stageId, ""),
      dealAge := CalculateDealAge(Prop(props, "createdate"), now, instant),
      daysInStage := CalculateDaysInStage(stageId, props, now, instant),
      nextAppointment := None,
      createdate := "",
      closedate := "",
      stageEnteredAt := "")
  }

  /** The name fallback chains of an item: company name, then deal name, then
      'Unknown'; stage caption, then raw stage id, then 'Unknown'; and no meeting yet. */
  lemma ItemFallbacks(deal: RawDeal, pipeline: Pipeline, names: map<string, string>, now: int, instant: Parser)
    ensures var item := BuildItem(deal, pipeline, names, now, instant);
      var props := deal.properties;
      var c := FirstCompany(deal);
      var known := c.Some? && c.value != "" && c.value in names && names[c.value] != "";
      var stage := FindStage(pipeline.stages, Prop(props, "dealstage"));
      var labelled := stage.Some? && stage.value.caption != "";
      && item.companyName != ""
      && item.dealStage != ""
      && item.nextAppointment.None?
      && item.id == deal.id
      && (known ==> item.companyName == names[c.value])
      && (!known && Truthy(Prop(props, "dealname")) ==> item.companyName == props["dealname"])
      && (!known && !Truthy(Prop(props, "dealname")) ==> item.companyName == "Unknown")
      && (labelled ==> item.dealStage == stage.value.caption)
      && (!labelled && Truthy(Prop(props, "dealstage")) ==> item.dealStage == props["dealstage"])
      && (!labelled && !Truthy(Prop(props, "dealstage")) ==> item.dealStage == "Unknown")
      && (Truthy(Prop(props, "dealstage")) ==> item.dealStageId == props["dealstage"])
      && (!Truthy(Prop(props, "dealstage")) ==> item.dealStageId == "" && item.daysInStage == Some(-1))
  {
  }

  function StagesOut(stages: seq<PipelineStage>): (r: seq<StageOut>)
    ensures |r| == |stages|
    ensures forall k :: 0 <= k < |r| ==> r[k] == StageOut(stages[k].id, stages[k].caption, k)
  {
    seq(|stages|, k requires 0 <= k < |stages| => StageOut(stages[k].id, stages[k].caption, k))
  }

  function FindPipeline(pipelines: seq<Pipeline>, id: string): (r: Option<Pipeline>)
    ensures r.Some? ==> r.value in pipelines && r.value.id == id
    ensures r.None? ==> forall k :: 0 <= k < |pipelines| ==> pipelines[k].id != id
  {
    if |pipelines| == 0 then None
    else if pipelines[0].id == id then Some(pipelines[0])
    else FindPipeline(pipelines[1..], id)
  }

  /** The whole handler. Fetches that throw answer 500. `companies` is the result of
      the batch read for the collected ids; it is only consulted when there are ids. */
  function GetOverview(
    session: Option<Session>, pipelineIdParam: Option<string>,
    pipelines: Option<seq<Pipeline>>, deals: Option<seq<RawDeal>>, companies: Option<seq<Company>>,
    now: int, instant: Parser): Response
  {
    if session.None? || session.value.accessToken == "" then Status(401)
    else if session.value.refreshError then Status(401)
    else if !Truthy(pipelineIdParam) then Status(400)
    else if pipelines.None? then Status(500)
    else match FindPipeline(pipelines.value, pipelineIdParam.value)
      case None => Status(404)
      case Some(pipeline) =>
        if deals.None? then Status(500)
        else
          var ids := CollectCompanyIds(deals.value);
          if |ids| > 0 && companies.None? then Status(500)
          else
            var names := if |ids| > 0 then CompanyNames(companies.value) else map[];
            Ok(PipelineOverview(
              pipeline.id, pipeline.caption, StagesOut(pipeline.stages),
              seq(|deals.value|, k requires 0 <= k < |deals.value| => BuildItem(deals.value[k], pipeline, names, now, instant))))
  }

  /** The error answers come in the source's order: 401 without a token, 401 on a
      refresh error, 400 without a pipeline id, 404 for an unknown pipeline; and a
      success lists one item per deal in order, with the stages numbered by position. */
  lemma OverviewErrorOrder(
    session: Option<Session>, pipelineIdParam: Option<string>,
    pipelines: Option<seq<Pipeline>>, deals: Option<seq<RawDeal>>, companies: Option<seq<Company>>,
    now: int, instant: Parser)
    ensures var r := GetOverview(session, pipelineIdParam, pipelines, deals, companies, now, instant);
      && (session.None? || session.value.accessToken == "" ==> r == Status(401))
      && (session.Some? && session.value.accessToken != "" && session.value.refreshError ==> r == Status(401))
      && (session.Some? && session.value.accessToken != "" && !session.value.refreshError && !Truthy(pipelineIdParam)
          ==> r == Status(400))
      && (session.Some? && session.value.accessToken != "" && !session.value.refreshError && Truthy(pipelineIdParam)
          && pipelines.Some? && (forall k :: 0 <= k < |pipelines.value| ==> pipelines.value[k].id != pipelineIdParam.value)
          ==> r == Status(404))
      && (r.Ok? ==>
            && deals.Some? && |r.overview.deals| == |deals.value|
            && r.overview.pipelineId == pipelineIdParam.value
            && (forall k :: 0 <= k < |deals.value| ==>
                  r.overview.deals[k].id == deals.value[k].id && r.overview.deals[k].nextAppointment.None?)
            && (forall k :: 0 <= k < |r.overview.stages| ==> r.overview.stages[k].displayOrder == k))
  {
    var r := GetOverview(session, pipelineIdParam, pipelines, deals, companies, now, instant);
    if r.Ok? {
      var p := FindPipeline(pipelines.value, pipelineIdParam.value);
      assert p.Some?;
      forall k | 0 <= k < |deals.value|
        ensures r.overview.deals[k].id == deals.value[k].id && r.overview.deals[k].nextAppointment.None?
      {
      }
    }
  }
}
