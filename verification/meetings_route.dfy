/** GET /api/deals/overview/meetings: for each listed deal, its next upcoming meeting.
    Each deal's meeting fetch is an input: `None` when the fetch threw. */
module MeetingsRoute {
  import opened Common
  import StageHistoryRoute

  /** A meeting engagement: its optional start time and title as HubSpot sends them. */
  datatype Meeting = Meeting(startTime: Option<string>, title: Option<string>)

  datatype NextMeeting = NextMeeting(date: string, title: string)

  datatype Response = Ok(data: map<string, Option<NextMeeting>>) | Status(code: int)

  datatype Session = Session(accessToken: string, refreshError: bool)

  /** The filter of the route: a truthy start time that parses to a time after now. */
  predicate Upcoming(m: Meeting, now: int, instant: Parser) {
    m.startTime.Some? && m.startTime.value != ""
    && instant(m.startTime.value).Some? && instant(m.startTime.value).value > now
  }

  function StartOf(m: Meeting, instant: Parser): int
    requires m.startTime.Some? && instant(m.startTime.value).Some?
  {
    instant(m.startTime.value).value
  }

  /** Element 0 of the upcoming meetings after a stable sort by start time: the
      earliest, and the first of those when several start together. */
  function Earliest(ms: seq<Meeting>, now: int, instant: Parser): (r: Option<nat>)
    ensures r.Some? ==> r.value < |ms| && Upcoming(ms[r.value], now, instant)
    ensures r.None? ==> forall k :: 0 <= k < |ms| ==> !Upcoming(ms[k], now, instant)
    decreases |ms|
  {
    if |ms| == 0 then None
    else
      var rest := Earliest(ms[1..], now, instant);
      if !Upcoming(ms[0], now, instant) then
        if rest.Some? then Some(rest.value + 1) else None
      else if rest.None? || StartOf(ms[0], instant) <= StartOf(ms[1..][rest.value], instant) then Some(0)
      else Some(rest.value + 1)
  }

  /** The chosen meeting starts no later than any upcoming meeting, and strictly
      before every upcoming meeting listed ahead of it. */
  lemma {:induction false} EarliestIsFirstMinimum(ms: seq<Meeting>, now: int, instant: Parser)
    ensures var r := Earliest(ms, now, instant);
      r.Some? ==>
        && (forall k :: 0 <= k < |ms| && Upcoming(ms[k], now, instant) ==>
              StartOf(ms[r.value], instant) <= StartOf(ms[k], instant))
        && (forall k :: 0 <= k < r.value && Upcoming(ms[k], now, instant) ==>
              StartOf(ms[k], instant) > StartOf(ms[r.value], instant))
    decreases |ms|
  {
    if |ms| > 0 {
      EarliestIsFirstMinimum(ms[1..], now, instant);
      var r := Earliest(ms, now, instant);
      var rest := Earliest(ms[1..], now, instant);
      if r.Some? {
        forall k | 0 <= k < |ms| && Upcoming(ms[k], now, instant)
          ensures StartOf(ms[r.value], instant) <= StartOf(ms[k], instant)
        {
          if k > 0 { assert ms[k] == ms[1..][k - 1]; }
        }
        forall k | 0 <= k < r.value && Upcoming(ms[k], now, instant)
          ensures StartOf(ms[k], instant) > StartOf(ms[r.value], instant)
        {
          if k > 0 { assert ms[k] == ms[1..][k - 1]; }
        }
      }
    }
  }

  /** The value stored for one deal: the next meeting with its title defaulting to
      'Meeting', or null. */
  function NextUpcoming(ms: seq<Meeting>, now: int, instant: Parser): (r: Option<NextMeeting>)
    ensures r.None? <==> forall k :: 0 <= k < |ms| ==> !Upcoming(ms[k], now, instant)
  {
    match Earliest(ms, now, instant)
    case None => None
    case Some(i) =>
      var m := ms[i];
      Some(NextMeeting(m.startTime.value, if m.title.Some? && m.title.value != "" then m.title.value else "Meeting"))
  }

  /** The meeting reported is an upcoming one with the smallest start time, and its
      title is the meeting's own or 'Meeting'. */
  lemma NextUpcomingIsEarliest(ms: seq<Meeting>, now: int, instant: Parser)
    ensures var r := NextUpcoming(ms, now, instant);
      r.Some? ==> exists i :: (
        && 0 <= i < |ms| && Upcoming(ms[i], now, instant)
        && r.value.date == ms[i].startTime.value
        && r.value.title == (if ms[i].title.Some? && ms[i].title.value != "" then ms[i].title.value else "Meeting")
        && (forall k :: 0 <= k < |ms| && Upcoming(ms[k], now, instant) ==> StartOf(ms[i], instant) <= StartOf(ms[k], instant)))
  {
    EarliestIsFirstMinimum(ms, now, instant);
  }

  function DealValue(fetched: Option<seq<Meeting>>, now: int, instant: Parser): Option<NextMeeting> {
    if fetched.None? then None else NextUpcoming(fetched.value, now, instant)
  }

  /** The for-loop over the deal ids, assigning into `meetingsMap`. */
  method CollectMeetings(ids: seq<string>, fetch: string -> Option<seq<Meeting>>, now: int, instant: Parser)
    returns (m: map<string, Option<NextMeeting>>)
    ensures m.Keys == set id | id in ids
    ensures forall id :: id in m ==> m[id] == DealValue(fetch(id), now, instant)
  {
    m := map[];
    var i := 0;
    while i < |ids|
      invariant 0 <= i <= |ids|
      invariant m.Keys == set id | id in ids[..i]
      invariant forall id :: id in m ==> m[id] == DealValue(fetch(id), now, instant)
    {
      assert ids[..i + 1] == ids[..i] + [ids[i]];
      m := m[ids[i] := DealValue(fetch(ids[i]), now, instant)];
      i := i + 1;
    }
    assert ids[..i] == ids;
  }

  /** The handler: 401 without a token or on a refresh error, 400 without dealIds,
      else one key per distinct listed id. */
  function GetMeetings(session: Option<Session>, dealIdsParam: Option<string>,
                       fetch: string -> Option<seq<Meeting>>, now: int, instant: Parser): (r: Response)
    ensures session.None? || session.value.accessToken == "" || session.value.refreshError ==> r == Status(401)
    ensures r.Ok? ==> (
      && dealIdsParam.Some? && dealIdsParam.value != ""
      && r.data.Keys == set id | id in StageHistoryRoute.ParseDealIds(dealIdsParam.value)
      && (forall id :: id in r.data ==> r.data[id] == DealValue(fetch(id), now, instant)))
  {
    if session.None? || session.value.accessToken == "" then Status(401)
    else if session.value.refreshError then Status(401)
    else if dealIdsParam.None? || dealIdsParam.value == "" then Status(400)
    else
      var ids := StageHistoryRoute.ParseDealIds(dealIdsParam.value);
      Ok(map id | id in ids :: DealValue(fetch(id), now, instant))
  }

  /** A signed-in request without dealIds is answered 400. */
  lemma MissingIdsIsBadRequest(session: Session, fetch: string -> Option<seq<Meeting>>, now: int, instant: Parser)
    requires session.accessToken != "" && !session.refreshError
    ensures GetMeetings(Some(session), None, fetch, now, instant) == Status(400)
    ensures GetMeetings(Some(session), Some(""), fetch, now, instant) == Status(400)
  {
  }
}
