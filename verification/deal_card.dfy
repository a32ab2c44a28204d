/** The classifications a deal card makes of its deal: the age icon of the days in
    stage, the relative label of the next appointment, the lost and won keyword tests,
    the days since the deal was closed and the three badges. The local day arithmetic of
    the browser is an input: the difference in days for the relative label, and for the
    badges the local midnight of today and a parser giving the local midnight of the day
    a date falls on. */
module DealCard {
  import opened Common
  import OverviewRoute
  import PipelinePage

  type Deal = OverviewRoute.DealOverviewItem

  // ---------------------------------------------------------------- age icon

  datatype AgeIcon = Fresh | HalfFresh | Rotten

  function IconSrc(i: AgeIcon): string {
    match i
    case Fresh => "/tomato-fresh.svg"
    case HalfFresh => "/tomato-half-fresh.svg"
    case Rotten => "/tomato-rotten.svg"
  }

  function IconAlt(i: AgeIcon): string {
    match i
    case Fresh => "Frisch"
    case HalfFresh => "Halb frisch"
    case Rotten => "Alt"
  }

  /** getStageAgeIcon: fresh up to 14 days, half fresh up to 45, rotten beyond. */
  function StageAgeIcon(days: int): (r: AgeIcon)
    ensures r == Fresh <==> days <= 14
    ensures r == HalfFresh <==> 14 < days <= 45
    ensures r == Rotten <==> days > 45
  {
    if days <= 14 then Fresh else if days <= 45 then HalfFresh else Rotten
  }

  function Staleness(i: AgeIcon): nat {
    match i
    case Fresh => 0
    case HalfFresh => 1
    case Rotten => 2
  }

  /** A deal that has waited longer never looks fresher. */
  lemma AgeIconMonotone(d1: int, d2: int)
    requires d1 <= d2
    ensures Staleness(StageAgeIcon(d1)) <= Staleness(StageAgeIcon(d2))
  {
  }

  /** The picture and alt text in the days-in-stage column: nothing for a stage that
      mentions 'abgeschlossen', the fresh picture labelled 'Unbekannt' for a negative
      day count, else the age icon. A null day count compares as 0. */
  function CardIcon(deal: Deal): (r: Option<(string, string)>)
    ensures Contains(ToLower(deal.dealStage), "abgeschlossen") <==> r.None?
    ensures r.Some? && deal.daysInStage.GetOr(0) < 0 ==> r.value == ("/tomato-fresh.svg", "Unbekannt")
    ensures r.Some? && deal.daysInStage.GetOr(0) >= 0 ==>
      r.value == (IconSrc(StageAgeIcon(deal.daysInStage.GetOr(0))), IconAlt(StageAgeIcon(deal.daysInStage.GetOr(0))))
  {
    if Contains(ToLower(deal.dealStage), "abgeschlossen") then None
    else
      var days := deal.daysInStage.GetOr(0);
      if days >= 0 then Some((IconSrc(StageAgeIcon(days)), IconAlt(StageAgeIcon(days))))
      else Some(("/tomato-fresh.svg", "Unbekannt"))
  }

  // ---------------------------------------------------------------- relative date

  /** The buckets of formatRelativeDate. */
  datatype Relative = DaysAgo(n: nat) | Today | Tomorrow | DayAfterTomorrow | InDays(n: nat) | NextWeek | InWeeks(n: nat)

  /** The bucket of a difference of `d` local days between the appointment and today. */
  function RelativeOf(d: int): Relative {
    if d < 0 then DaysAgo(-d)
    else if d == 0 then Today
    else if d == 1 then Tomorrow
    else if d == 2 then DayAfterTomorrow
    else if d < 7 then InDays(d)
    else if d < 14 then NextWeek
    else InWeeks(d / 7)
  }

  function RelativeText(r: Relative): string {
    match r
    case DaysAgo(n) => "Vor " + NatToString(n) + " Tag" + (if n == 1 then "" else "en")
    case Today => "Heute"
    case Tomorrow => "Morgen"
    case DayAfterTomorrow => "Übermorgen"
    case InDays(n) => "In " + NatToString(n) + " Tagen"
    case NextWeek => "Nächste Woche"
    case InWeeks(n) => "In " + NatToString(n) + " Wochen"
  }

  /** The label of formatRelativeDate. */
  function FormatRelative(d: int): string {
    RelativeText(RelativeOf(d))
  }

  /** Each bucket covers exactly the day differences the component assigns to it. */
  lemma RelativeOfSpec(d: int)
    ensures RelativeOf(d).DaysAgo? <==> d < 0
    ensures RelativeOf(d).DaysAgo? ==> RelativeOf(d).n == -d
    ensures RelativeOf(d) == Today <==> d == 0
    ensures RelativeOf(d) == Tomorrow <==> d == 1
    ensures RelativeOf(d) == DayAfterTomorrow <==> d == 2
    ensures RelativeOf(d).InDays? <==> 3 <= d < 7
    ensures RelativeOf(d).InDays? ==> RelativeOf(d).n == d
    ensures RelativeOf(d) == NextWeek <==> 7 <= d < 14
    ensures RelativeOf(d).InWeeks? <==> d >= 14
    ensures RelativeOf(d).InWeeks? ==> RelativeOf(d).n >= 2 && 7 * RelativeOf(d).n <= d < 7 * RelativeOf(d).n + 7
  {
  }

  /** Two digit strings followed by text that does not start with a digit are equal
      when the whole strings are. */
  lemma DigitsPrefix(d1: string, x1: string, d2: string, x2: string)
    requires IsDigits(d1) && IsDigits(d2) && d1 + x1 == d2 + x2
    requires |x1| > 0 && !('0' <= x1[0] <= '9') && |x2| > 0 && !('0' <= x2[0] <= '9')
    ensures d1 == d2 && x1 == x2
  {
    if |d1| < |d2| {
      ConcatAt(d1, x1);
      assert false;
    } else if |d1| == |d2| {
      assert d1 == (d1 + x1)[..|d1|] && d2 == (d2 + x2)[..|d2|];
      assert x1 == (d1 + x1)[|d1|..] && x2 == (d2 + x2)[|d2|..];
    } else {
      ConcatAt(d2, x2);
      assert false;
    }
  }

  lemma ConcatAt(a: string, b: string)
    requires |b| > 0
    ensures (a + b)[|a|] == b[0]
  {
  }

  /** Strings `p + digits + tail` with the same p: the number and the tail agree. */
  lemma SameFrame(p: string, n1: nat, t1: string, n2: nat, t2: string)
    requires p + NatToString(n1) + t1 == p + NatToString(n2) + t2
    requires |t1| > 0 && t1[0] == ' ' && |t2| > 0 && t2[0] == ' '
    ensures n1 == n2 && t1 == t2
  {
    var s1 := p + NatToString(n1) + t1;
    var s2 := p + NatToString(n2) + t2;
    assert NatToString(n1) + t1 == s1[|p|..];
    assert NatToString(n2) + t2 == s2[|p|..];
    DigitsPrefix(NatToString(n1), t1, NatToString(n2), t2);
    NatToStringInjective(n1, n2);
  }

  function Initial(r: Relative): char {
    match r
    case DaysAgo(_) => 'V'
    case Today => 'H'
    case Tomorrow => 'M'
    case DayAfterTomorrow => 'Ü'
    case InDays(_) => 'I'
    case NextWeek => 'N'
    case InWeeks(_) => 'I'
  }

  lemma InitialOfText(r: Relative)
    ensures |RelativeText(r)| > 0 && RelativeText(r)[0] == Initial(r)
  {
  }

  /** The label names its bucket: different buckets are never written alike. */
  lemma {:induction false} RelativeTextInjective(a: Relative, b: Relative)
    requires RelativeText(a) == RelativeText(b)
    ensures a == b
  {
    InitialOfText(a);
    InitialOfText(b);
    match a
    case DaysAgo(n1) =>
      var n2 := b.n;
      var t1 := " Tag" + (if n1 == 1 then "" else "en");
      var t2 := " Tag" + (if n2 == 1 then "" else "en");
      assert RelativeText(a) == "Vor " + NatToString(n1) + t1;
      assert RelativeText(b) == "Vor " + NatToString(n2) + t2;
      SameFrame("Vor ", n1, " Tag" + (if n1 == 1 then "" else "en"), n2, " Tag" + (if n2 == 1 then "" else "en"));
    case InDays(n1) =>
      if b.InDays? {
        SameFrame("In ", n1, " Tagen", b.n, " Tagen");
      } else {
        SameFrame("In ", n1, " Tagen", b.n, " Wochen");
      }
    case InWeeks(n1) =>
      if b.InDays? {
        SameFrame("In ", n1, " Wochen", b.n, " Tagen");
      } else {
        SameFrame("In ", n1, " Wochen", b.n, " Wochen");
      }
    case Today =>
    case Tomorrow =>
    case DayAfterTomorrow =>
    case NextWeek =>
  }

  /** Within a week the label gives back the exact day difference. */
  lemma LabelNamesTheDay(d1: int, d2: int)
    requires d1 < 7 && d2 < 7 && FormatRelative(d1) == FormatRelative(d2)
    ensures d1 == d2
  {
    RelativeTextInjective(RelativeOf(d1), RelativeOf(d2));
  }

  // ---------------------------------------------------------------- lost and won

  const LostKeywords: seq<string> := ["verloren", "lost", "abgesagt", "cancelled", "storniert"]

  const WonKeywords: seq<string> := ["gewonnen", "won", "closed won"]

  /** isLostDeal: the lowercased stage contains one of the lost keywords. */
  predicate IsLostDeal(dealStage: string) {
    exists k :: 0 <= k < |LostKeywords| && Contains(ToLower(dealStage), LostKeywords[k])
  }

  /** isWonDeal: the lowercased stage contains one of the won keywords. */
  predicate IsWonDeal(dealStage: string) {
    exists k :: 0 <= k < |WonKeywords| && Contains(ToLower(dealStage), WonKeywords[k])
  }

  /** The keyword 'closed won' adds nothing: any stage containing it contains 'won'. */
  lemma WonDealIff(dealStage: string)
    ensures IsWonDeal(dealStage) <==> Contains(ToLower(dealStage), "gewonnen") || Contains(ToLower(dealStage), "won")
  {
    var l := ToLower(dealStage);
    assert WonKeywords[0] == "gewonnen" && WonKeywords[1] == "won" && WonKeywords[2] == "closed won";
    if Contains(l, "closed won") {
      assert "closed won" == "closed " + "won" + "";
      ContainsConcat("closed ", "won", "");
      ContainsTrans(l, "closed won", "won");
    }
  }

  /** The closed columns of the pipeline page are exactly the stages of lost or won deals. */
  lemma ClosedStageIffLostOrWon(dealStage: string)
    ensures PipelinePage.IsClosedStage(dealStage) <==> IsLostDeal(dealStage) || IsWonDeal(dealStage)
  {
    var l := ToLower(dealStage);
    var c := PipelinePage.ClosedKeywords;
    assert c == ["verloren", "lost", "gewonnen", "won", "abgesagt", "cancelled", "storniert"];
    WonDealIff(dealStage);
    if PipelinePage.IsClosedStage(dealStage) {
      var k :| 0 <= k < |c| && Contains(l, c[k]);
      if k == 0 { assert LostKeywords[0] == c[k]; }
      else if k == 1 { assert LostKeywords[1] == c[k]; }
      else if k == 4 { assert LostKeywords[2] == c[k]; }
      else if k == 5 { assert LostKeywords[3] == c[k]; }
      else if k == 6 { assert LostKeywords[4] == c[k]; }
    }
    if IsLostDeal(dealStage) {
      var k :| 0 <= k < |LostKeywords| && Contains(l, LostKeywords[k]);
      if k == 0 { assert c[0] == LostKeywords[k]; }
      else if k == 1 { assert c[1] == LostKeywords[k]; }
      else if k == 2 { assert c[4] == LostKeywords[k]; }
      else if k == 3 { assert c[5] == LostKeywords[k]; }
      else { assert c[6] == LostKeywords[k]; }
    }
    if Contains(l, "gewonnen") { assert c[2] == "gewonnen"; }
    if Contains(l, "won") { assert c[3] == "won"; }
  }

  // ---------------------------------------------------------------- days since closed

  /** What getDaysSinceLost gives: null, NaN (an unparseable date), or a day count. */
  datatype Since = NoDate | NotANumber | Days(n: int)

  /** getDaysSinceLost: whole local days from the day of stageEnteredAt (or, when that
      is empty, closedate) to today. */
  function DaysSince(stageEnteredAt: string, closedate: string, today: int, localDay: Parser): (r: Since)
    ensures r == NoDate <==> stageEnteredAt == "" && closedate == ""
    ensures r.Days? ==>
      var day := localDay(if stageEnteredAt != "" then stageEnteredAt else closedate);
      day.Some? && r.n * MsPerDay <= today - day.value < (r.n + 1) * MsPerDay
  {
    var date := if stageEnteredAt != "" then stageEnteredAt else closedate;
    if date == "" then NoDate
    else match localDay(date)
      case None => NotANumber
      case Some(day) => Days(DaysBetween(day, today))
  }

  /** The closing date is read only when the stage entry time is empty. */
  lemma DaysSinceSource(stageEnteredAt: string, closedate: string, today: int, localDay: Parser)
    ensures stageEnteredAt != "" ==>
      DaysSince(stageEnteredAt, closedate, today, localDay) == DaysSince(stageEnteredAt, "", today, localDay)
    ensures stageEnteredAt == "" ==>
      DaysSince(stageEnteredAt, closedate, today, localDay) == DaysSince(closedate, "", today, localDay)
  {
  }

  // ---------------------------------------------------------------- badges

  /** The badges of a card: the days shown on the lost and won badges, and 'Neu in Stage'. */
  datatype Badges = Badges(lostDays: Option<nat>, wonDays: Option<nat>, newInStage: bool)

  function RecentDays(flag: bool, since: Since): Option<nat> {
    if flag && since.Days? && 0 <= since.n < 10 then Some(since.n) else None
  }

  function BadgesOf(deal: Deal, today: int, localDay: Parser): Badges {
    var lost := IsLostDeal(deal.dealStage);
    var won := IsWonDeal(deal.dealStage);
    var since := DaysSince(deal.stageEnteredAt, deal.closedate, today, localDay);
    var days := deal.daysInStage.GetOr(0);
    Badges(RecentDays(lost, since), RecentDays(won, since), !lost && !won && 0 <= days < 2)
  }

  /** A badge shows only for a lost (won) deal closed between 0 and 9 days ago, and the
      'Neu in Stage' badge only for an open deal less than two days in its stage; the
      latter never shows with either of the former. */
  lemma BadgesSpec(deal: Deal, today: int, localDay: Parser)
    ensures var b := BadgesOf(deal, today, localDay);
      var since := DaysSince(deal.stageEnteredAt, deal.closedate, today, localDay);
      && (b.lostDays.Some? <==> IsLostDeal(deal.dealStage) && since.Days? && 0 <= since.n < 10)
      && (b.wonDays.Some? <==> IsWonDeal(deal.dealStage) && since.Days? && 0 <= since.n < 10)
      && (b.lostDays.Some? ==> b.lostDays.value < 10 && since == Days(b.lostDays.value))
      && (b.wonDays.Some? ==> b.wonDays.value < 10 && since == Days(b.wonDays.value))
      && (b.newInStage <==> !IsLostDeal(deal.dealStage) && !IsWonDeal(deal.dealStage) && 0 <= deal.daysInStage.GetOr(0) < 2)
      && (b.newInStage ==> b.lostDays.None? && b.wonDays.None?)
  {
  }

  /** A card with neither a stage entry time nor a closing date shows no lost or won badge. */
  lemma NoDateNoBadge(deal: Deal, today: int, localDay: Parser)
    requires deal.stageEnteredAt == "" && deal.closedate == ""
    ensures BadgesOf(deal, today, localDay).lostDays.None? && BadgesOf(deal, today, localDay).wonDays.None?
  {
  }

  /** The text of a lost or won badge. */
  function BadgeText(days: nat, word: string): string {
    "Vor " + NatToString(days) + " Tag" + (if days != 1 then "en" else "") + " " + word
  }
}
