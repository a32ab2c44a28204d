/** GET /api/deals/overview/stage-history: for each listed deal, when it entered its
    current stage and the list of its stage changes. Each deal's history fetch is an
    input: `None` when the fetch threw or the history property was missing. */
module StageHistoryRoute {
  import opened Common

  /** One entry of HubSpot's dealstage property history, newest first. */
  datatype RawHistoryEntry = RawHistoryEntry(value: string, timestamp: string)

  datatype HistoryEntry = HistoryEntry(stageId: string, timestamp: string)

  /** `daysInStage` is None where the source computes NaN (an unparseable timestamp). */
  datatype StageHistory = StageHistory(stageEnteredAt: string, daysInStage: Option<int>, history: seq<HistoryEntry>)

  datatype Response = Ok(data: map<string, Option<StageHistory>>) | Status(code: int)

  /** `dealIds.split(',').filter(Boolean)`. */
  function ParseDealIds(param: string): seq<string> {
    Filter(Split(param, ','), (piece: string) => piece != "")
  }

  /** The parsed ids are exactly the non-empty comma-separated pieces, in order; none
      is empty or holds a comma, and a list of separators only gives no id. */
  lemma DealIdsArePieces(param: string)
    ensures forall id :: id in ParseDealIds(param) <==> id in Split(param, ',') && id != ""
    ensures forall k :: 0 <= k < |ParseDealIds(param)| ==> ParseDealIds(param)[k] != "" && ',' !in ParseDealIds(param)[k]
    ensures Join(Split(param, ','), ",") == param
  {
    forall id ensures id in ParseDealIds(param) <==> id in Split(param, ',') && id != "" {
      FilterMembership(Split(param, ','), (piece: string) => piece != "", id);
    }
    forall k | 0 <= k < |ParseDealIds(param)| ensures ',' !in ParseDealIds(param)[k] {
      var id := ParseDealIds(param)[k];
      FilterMembership(Split(param, ','), (piece: string) => piece != "", id);
    }
    JoinSplit(param, ',');
  }

  /** The per-deal value of the map: null for an empty or missing history, else the
      newest entry's timestamp, the floored days since it, and the history with each
      `value` renamed `stageId`. */
  function Entry(history: Option<seq<RawHistoryEntry>>, now: int, instant: Parser): Option<StageHistory> {
    if history.None? || |history.value| == 0 then None
    else
      var latest := history.value[0];
      Some(StageHistory(
        latest.timestamp,
        match instant(latest.timestamp)
          case None => None
          case Some(t) => Some(DaysBetween(t, now)),
        seq(|history.value|, k requires 0 <= k < |history.value| =>
          HistoryEntry(history.value[k].value, history.value[k].timestamp))))
  }

  /** A non-empty history gives an entry that starts at the newest change, counts the
      whole days since then, and keeps every change in order. */
  lemma EntryShape(history: seq<RawHistoryEntry>, now: int, instant: Parser)
    ensures Entry(Some([]), now, instant).None? && Entry(None, now, instant).None?
    ensures |history| > 0 ==>
      var e := Entry(Some(history), now, instant);
      && e.Some?
      && e.value.stageEnteredAt == history[0].timestamp
      && |e.value.history| == |history|
      && (forall k :: 0 <= k < |history| ==>
            e.value.history[k].stageId == history[k].value && e.value.history[k].timestamp == history[k].timestamp)
      && (instant(history[0].timestamp).Some? ==>
            var t := instant(history[0].timestamp).value;
            e.value.daysInStage.Some?
            && e.value.daysInStage.value * MsPerDay <= now - t < (e.value.daysInStage.value + 1) * MsPerDay)
  {
  }

  /** The for-loop over the deal ids, assigning into `stageHistoryMap`. */
  method CollectStageHistory(ids: seq<string>, fetch: string -> Option<seq<RawHistoryEntry>>, now: int, instant: Parser)
    returns (m: map<string, Option<StageHistory>>)
    ensures m.Keys == set id | id in ids
    ensures forall id :: id in m ==> m[id] == Entry(fetch(id), now, instant)
  {
    m := map[];
    var i := 0;
    while i < |ids|
      invariant 0 <= i <= |ids|
      invariant m.Keys == set id | id in ids[..i]
      invariant forall id :: id in m ==> m[id] == Entry(fetch(id), now, instant)
    {
      assert ids[..i + 1] == ids[..i] + [ids[i]];
      m := m[ids[i] := Entry(fetch(ids[i]), now, instant)];
      i := i + 1;
    }
    assert ids[..i] == ids;
  }

  /** The handler: 401 without a session, 400 without dealIds, else one key per id. */
  function GetStageHistory(hasSession: bool, dealIdsParam: Option<string>,
                           fetch: string -> Option<seq<RawHistoryEntry>>, now: int, instant: Parser): (r: Response)
    ensures !hasSession ==> r == Status(401)
    ensures hasSession && (dealIdsParam.None? || dealIdsParam.value == "") ==> r == Status(400)
    ensures r.Ok? ==> (
      && dealIdsParam.Some?
      && r.data.Keys == set id | id in ParseDealIds(dealIdsParam.value)
      && (forall id :: id in r.data ==> r.data[id] == Entry(fetch(id), now, instant)))
  {
    if !hasSession then Status(401)
    else if dealIdsParam.None? || dealIdsParam.value == "" then Status(400)
    else
      var ids := ParseDealIds(dealIdsParam.value);
      Ok(map id | id in ids :: Entry(fetch(id), now, instant))
  }

  /** A parameter of separators only answers an empty map. */
  lemma SeparatorsOnlyGiveEmpty(fetch: string -> Option<seq<RawHistoryEntry>>, now: int, instant: Parser)
    ensures GetStageHistory(true, Some(",,"), fetch, now, instant) == Ok(map[])
  {
    assert Split(",,", ',') == ["", "", ""] by {
      assert ",,"[1..] == ",";
      assert ","[1..] == "";
    }
  }
}
