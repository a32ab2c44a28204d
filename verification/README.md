# Sales cockpit core, modelled in Dafny

This project models the logic of a sales cockpit built on HubSpot deals. It covers:

- the funnel view's filter evaluator and its stage-by-stage aggregation;
- the pipeline page: sorting, column grouping and the won/lost column swap;
- the deal card's classifications: age icon, relative dates, lost/won/new badges;
- the three deal-overview API routes: overview, stage history and meetings;
- the HubSpot-to-canvas mapper, with its text/HTML conversions;
- the canvas store: dotted-path field writes, the roadmap lists, reset and mark-clean;
- the canvas cell's HTML truncation and preview decision;
- the stage colour lookup and its string hash;
- the autosuggest drop-down's keyboard and mouse handling;
- the localStorage pipeline cache;
- the route-protection middleware;
- the sign-in domain check.

There is one module per source file:

| module | source file |
|---|---|
| `FunnelView` | `src/components/pipeline/FunnelView.tsx` |
| `PipelinePage` | `src/app/pipeline/page.tsx` |
| `DealCard` | `src/components/pipeline/DealCard.tsx` |
| `OverviewRoute` | `src/app/api/deals/overview/route.ts` |
| `StageHistoryRoute` | `src/app/api/deals/overview/stage-history/route.ts` |
| `MeetingsRoute` | `src/app/api/deals/overview/meetings/route.ts` |
| `Mapper` | `src/lib/hubspot/mapper.ts` |
| `CanvasStore` | `src/stores/canvas-store.ts` |
| `CanvasCell` | `src/components/canvas/CanvasCell.tsx` |
| `StageColors` | `src/lib/stage-colors.ts` |
| `Autosuggest` | `src/components/ui/Autosuggest.tsx` |
| `PipelineCache` | `src/lib/pipeline-cache.ts` |
| `Middleware` | `middleware.ts` |
| `AuthConfig` | `src/lib/auth/config.ts` |

Shared support lives in three more modules:

- `Common`: Option, JavaScript truthiness, case folding, `trim`, `split`/`join`, `filter`.
- `Sorting`: `Array.prototype.sort` with a key-difference comparator, as a stable insertion sort.
- `Replace`: the regular-expression replaces as explicit scans over characters.

The model follows these conventions:

- **Time.** Timestamps are integer milliseconds, and "now" is a parameter.
- **Dates.** Parsing a date string (`new Date(s)`, or a `YYYY-MM-DD` day) is a function parameter of type `string -> Option<int>`, where `None` stands for an invalid date (NaN).
- **Fetches.** Fetched HubSpot data are inputs, and a fetch that throws is an input `None`.
- **Random ids.** They are drawn by the caller and passed in.
- **Stateful code.** Code that updates state in place is a class whose methods say what they modify:
  - the canvas store;
  - the autosuggest state;
  - the pipeline page's sort state;
  - the cache's storage.
- **Loops.** A loop in the source is a method with a loop, proved against a function. Examples:
  - truncateHtml;
  - setNestedValue;
  - getFilterDateRange;
  - the funnel aggregation;
  - the company-id collection;
  - the per-deal loops of the routes;
  - hashString.

## Model

| member | source | states |
|---|---|---|
| FunnelView.CompleteIff | src/components/pipeline/FunnelView.tsx:157-162 | a criterion is complete iff it has a start date, a stage when it is stage_reached, and an end date when it is between |
| FunnelView.DateToMsEnd | src/components/pipeline/FunnelView.tsx:116-127 | the end of a day parses exactly when its start does and lies 86 399 999 ms after it |
| FunnelView.MatchTimestampBounds | src/components/pipeline/FunnelView.tsx:192-206 | after ⇔ ts ≥ start of day; before ⇔ ts within or before the day; between ⇔ both inclusive bounds; a between criterion with an unparseable bound accepts |
| FunnelView.DealCreateTimestamp | src/components/pipeline/FunnelView.tsx:104-113 | the parsed createdate, else now − dealAge days, and no time at all exactly when there is no createdate and dealAge ≤ 0 |
| FunnelView.StageReachedSemantics | src/components/pipeline/FunnelView.tsx:164-190 | an incomplete criterion accepts; a complete stage_reached one rejects while loading and without history, else accepts iff some history entry of that stage has a matching parseable time |
| FunnelView.CreateDateSemantics | src/components/pipeline/FunnelView.tsx:170-176 | a complete createdate criterion rejects a deal without creation time and otherwise matches that time |
| FunnelView.ApplyFiltersSpec | src/components/pipeline/FunnelView.tsx:208-223 | without a complete criterion the deals come back unchanged; otherwise exactly the deals that pass are kept, never more than the input |
| FunnelView.PassesLogic | src/components/pipeline/FunnelView.tsx:215-222 | with AND a deal must match every complete criterion, with OR at least one |
| FunnelView.LoadingIrrelevantWithoutStageReached | src/components/pipeline/FunnelView.tsx:178-189 | the loading flag changes the result only through a complete stage_reached criterion |
| FunnelView.GetFilterDateRange | src/components/pipeline/FunnelView.tsx:131-155 | the push loop computes the date-range function |
| FunnelView.CollectBounds | src/components/pipeline/FunnelView.tsx:134-145 | the loop over the active criteria collects exactly their start bounds, and the end bounds of the between criteria that have an end date |
| FunnelView.FilterDateRangeNeedsStart | src/components/pipeline/FunnelView.tsx:131-155 | without a parseable start on a complete criterion there is no range |
| FunnelView.FilterDateRangeFrom | src/components/pipeline/FunnelView.tsx:131-155 | the range starts at the earliest start of the complete criteria and ends after it |
| FunnelView.FilterDateRangeTo | src/components/pipeline/FunnelView.tsx:131-155 | the range ends at the latest between end, or now when there is none |
| FunnelView.UpdateCriterion | src/components/pipeline/FunnelView.tsx:389-394 | criteria with the id get the patch, all others and the logic stay |
| FunnelView.UpdateCriterionLocal | src/components/pipeline/FunnelView.tsx:389-394 | other criteria are untouched and an empty patch changes nothing |
| FunnelView.RemoveCriterionSpec | src/components/pipeline/FunnelView.tsx:396-401 | removal drops exactly the criteria with the id |
| FunnelView.BlankCriterion | src/components/pipeline/FunnelView.tsx:403-411 | the appended criterion is incomplete |
| FunnelView.AddCriterionKeepsResult | src/components/pipeline/FunnelView.tsx:403-411 | adding keeps the old criteria as a prefix and leaves the filtered deals unchanged |
| FunnelView.ToggleLogic | src/components/pipeline/FunnelView.tsx:413-416 | toggling flips AND/OR and keeps the criteria |
| FunnelView.ToggleSingleCriterion | src/components/pipeline/FunnelView.tsx:413-416 | with one complete criterion the toggle does not change the result |
| FunnelView.SetQuickFilter | src/components/pipeline/FunnelView.tsx:418-425 | AND logic; no criterion exactly for '' |
| FunnelView.QuickFilterSemantics | src/components/pipeline/FunnelView.tsx:418-425 | '' shows every deal; a date keeps exactly the deals created on or after that day |
| FunnelView.SaveFilterSetNewName | src/components/pipeline/FunnelView.tsx:440-453 | blank name or no pipeline: no-op; a new trimmed name is appended with the fresh id |
| FunnelView.SaveFilterSetExistingName | src/components/pipeline/FunnelView.tsx:440-453 | an existing name keeps ids, names and length; every set with the found set's id gets the new filter and every other set is unchanged |
| FunnelView.SaveFilterSetUnique | src/components/pipeline/FunnelView.tsx:440-453 | saving keeps names unique |
| FunnelView.DeleteFilterSetSpec | src/components/pipeline/FunnelView.tsx:462-469 | deleting removes exactly the sets with the id and keeps names unique |
| FunnelView.LoadFilterSet | src/components/pipeline/FunnelView.tsx:455-460 | loads the filter of the first set with the id, and nothing iff no set has it |
| FunnelView.SaveThenLoad | src/components/pipeline/FunnelView.tsx:440-460 | a set saved under a new name loads back its filter |
| FunnelView.ClosedStageLabelIdempotent | src/components/pipeline/FunnelView.tsx:471-484 | the label is 'Verloren', 'Gewonnen' or the caption itself, and a second pass changes nothing |
| FunnelView.PartitionStages | src/components/pipeline/FunnelView.tsx:273-285 | the open stages sorted stably by displayOrder, the closed ones in input order, together a permutation of the input |
| FunnelView.StageIndexMap | src/components/pipeline/FunnelView.tsx:287-291 | the map gives each id its last pipeline position and holds no other id |
| FunnelView.AddDeal | src/components/pipeline/FunnelView.tsx:303-319 | one deal is added to pipeline stages 0..k, or to all of them plus its closed stage, or nowhere |
| FunnelView.Aggregate | src/components/pipeline/FunnelView.tsx:297-319 | the nested loops compute, per stage, exactly the deals that reach it |
| FunnelView.EmptyClosedLists | src/components/pipeline/FunnelView.tsx:298-301 | there is one empty list for each closed stage id and no other key |
| FunnelView.CountsNonIncreasing | src/components/pipeline/FunnelView.tsx:303-321 | a later pipeline stage never counts more deals |
| FunnelView.FirstStageCountsKnownDeals | src/components/pipeline/FunnelView.tsx:303-319 | the first stage counts every deal of a known stage; a deal of an unknown stage counts nowhere |
| FunnelView.DealCountsUpToItsStage | src/components/pipeline/FunnelView.tsx:306-309 | a deal of pipeline stage p counts in stage i iff i ≤ p |
| FunnelView.MaxCount | src/components/pipeline/FunnelView.tsx:321-322 | at least 1, at least every count, and 1 or one of the counts |
| FunnelView.FunnelRows | src/components/pipeline/FunnelView.tsx:353-368 | one row per pipeline stage with its counted deals, counts non-increasing and bounded by maxCount ≥ 1 |
| PipelinePage.NextConfig | src/app/pipeline/page.tsx:201-233 | the same field flips direction; a new field starts asc for nextAppointment and desc otherwise |
| PipelinePage.ToggleTwiceRestores | src/app/pipeline/page.tsx:201-233 | two clicks on the same header restore the configuration |
| PipelinePage.PipelineState.HandleSortChange | src/app/pipeline/page.tsx:201-233 | only this column's configuration changes, and the map is cached under 'sort-' + pipeline when one is selected and the write does not throw |
| PipelinePage.PipelineState.HandleListSortChange | src/app/pipeline/page.tsx:334-341 | the list configuration follows the same rule |
| PipelinePage.PipelineState.SortDeals | src/app/pipeline/page.tsx:235-259 | a stable sort of a copy by the configured key and direction, a permutation of the input |
| PipelinePage.DefaultIsRevenueDescending | src/app/pipeline/page.tsx:235-239 | a column without configuration sorts by revenue, descending |
| PipelinePage.MissingAppointmentLast | src/app/pipeline/page.tsx:243-259 | a missing next appointment sorts as +∞ |
| PipelinePage.ReorderedStages | src/app/pipeline/page.tsx:264-282 | the swap on a copy computes the reordering function |
| PipelinePage.ReorderedPermutation | src/app/pipeline/page.tsx:264-282 | the reordering is a permutation and changes nothing unless a lost column precedes a won one |
| PipelinePage.SwapPerm | src/app/pipeline/page.tsx:277-279 | swapping the lost and won entries keeps the multiset of stages |
| PipelinePage.WonBeforeLost | src/app/pipeline/page.tsx:264-282 | when both exist, the first won column ends up no later than the first lost one |
| PipelinePage.WonAndLostAreClosed | src/app/pipeline/page.tsx:264-288 | the swapped columns are closed columns |
| PipelinePage.MergeSecondary | src/app/pipeline/page.tsx:158-166 | every deal keeps its identity, stage and revenue and gets a days-in-stage value |
| PipelinePage.MergeEntries | src/app/pipeline/page.tsx:158-166 | a present meeting gives the appointment with its date and title; a present history entry gives its entry time and its day count, or −1 without one; every other field is the overview's |
| PipelinePage.MergeFallbacks | src/app/pipeline/page.tsx:158-166 | without history −1 days and no entry time; without meetings no appointment |
| PipelinePage.DealsByStage | src/app/pipeline/page.tsx:292-303 | one group per column, in column order |
| PipelinePage.GroupForSpec | src/app/pipeline/page.tsx:292-303 | a column holds only its own deals, sorted; it is a sub-multiset of the stage's deals, all of them unless a closed column has more than 20, and every shown deal may stand before every hidden one; totalCount is the uncut count |
| PipelinePage.DealInOneColumn | src/app/pipeline/page.tsx:292-303 | a deal appears only in the column of its stage |
| PipelinePage.PipelineState.OpenDeals | src/app/pipeline/page.tsx:306-331 | exactly the deals whose stage mentions neither 'abgeschlossen' nor 'closed', sorted by the list configuration |
| Sorting.SortSorted | src/app/pipeline/page.tsx:243-259 | the sort orders by key in the chosen direction |
| Sorting.InsertPerm | src/app/pipeline/page.tsx:243-259 | inserting one element into the sorted tail adds exactly that element to its multiset |
| Sorting.SortStable | src/app/pipeline/page.tsx:243-259 | elements with equal keys keep their input order |
| Sorting.SortInPlace | src/components/pipeline/FunnelView.tsx:283 | the in-place sort leaves the array equal to the stable sort of its old contents |
| Sorting.SortedCopy | src/app/pipeline/page.tsx:235-240 | the copy is sorted and the input untouched |
| DealCard.StageAgeIcon | src/components/pipeline/DealCard.tsx:15-23 | fresh iff ≤ 14 days, half fresh iff 15..45, rotten iff > 45 |
| DealCard.AgeIconMonotone | src/components/pipeline/DealCard.tsx:15-23 | a longer wait never looks fresher |
| DealCard.CardIcon | src/components/pipeline/DealCard.tsx:236-256 | no icon for a concluded stage; the 'Unbekannt' fresh icon for negative days; otherwise the age icon |
| DealCard.RelativeOfSpec | src/components/pipeline/DealCard.tsx:38-54 | each relative-date bucket covers exactly its day differences |
| DealCard.RelativeTextInjective | src/components/pipeline/DealCard.tsx:38-54 | different buckets never produce the same label |
| DealCard.LabelNamesTheDay | src/components/pipeline/DealCard.tsx:38-54 | within a week the label determines the day difference |
| DealCard.WonDealIff | src/components/pipeline/DealCard.tsx:65-69 | a deal is won iff its stage contains 'gewonnen' or 'won', ignoring case |
| DealCard.ClosedStageIffLostOrWon | src/components/pipeline/DealCard.tsx:59-69 | the page's closed stages are exactly the lost or won stages |
| DealCard.DaysSince | src/components/pipeline/DealCard.tsx:71-87 | no date exactly when both dates are empty; otherwise the floored day count from the stage entry time, else the closing date |
| DealCard.DaysSinceSource | src/components/pipeline/DealCard.tsx:71-74 | the closing date is read only when the stage entry time is empty |
| DealCard.BadgesSpec | src/components/pipeline/DealCard.tsx:120-130 | the lost/won badge iff lost/won and 0 ≤ days < 10; 'Neu in Stage' iff neither and 0 ≤ daysInStage < 2 |
| DealCard.NoDateNoBadge | src/components/pipeline/DealCard.tsx:120-127 | without either date there is no lost or won badge |
| OverviewRoute.CalculateDealAge | src/app/api/deals/overview/route.ts:119-125 | 0 without a createdate, else the floored day count |
| OverviewRoute.CalculateDaysInStage | src/app/api/deals/overview/route.ts:129-148 | −1 without a stage id or its entry property, else the floored day count |
| OverviewRoute.CompanyIdsExact | src/app/api/deals/overview/route.ts:99-105 | the collected ids are exactly each deal's first company, without duplicates |
| OverviewRoute.CompanyIds | src/app/api/deals/overview/route.ts:99-105 | the loop computes that collection |
| OverviewRoute.CompanyNamesShape | src/app/api/deals/overview/route.ts:108-115 | every fetched company has a non-empty name entry and nothing else does |
| OverviewRoute.CompaniesMap | src/app/api/deals/overview/route.ts:108-115 | the loop computes the company-name map |
| OverviewRoute.ItemFallbacks | src/app/api/deals/overview/route.ts:151-167 | the company name is the first company's fetched name when it is known and non-empty, else a truthy dealname, else 'Unknown'; the stage is the first matching stage's non-empty label, else a truthy raw dealstage, else 'Unknown'; dealStageId and the −1 days fallback; no next appointment |
| OverviewRoute.StagesOut | src/app/api/deals/overview/route.ts:172-177 | stages keep pipeline order with displayOrder = index |
| OverviewRoute.OverviewErrorOrder | src/app/api/deals/overview/route.ts:43-80 | 401 without a token, 401 on a refresh error, 400 without pipelineId, 404 for an unknown pipeline; a success has one item per deal |
| StageHistoryRoute.DealIdsArePieces | src/app/api/deals/overview/stage-history/route.ts:39 | the parsed ids are exactly the non-empty comma-separated pieces |
| StageHistoryRoute.EntryShape | src/app/api/deals/overview/stage-history/route.ts:58-81 | null for empty or missing history; else first timestamp, floored days and the history mapped in order |
| StageHistoryRoute.CollectStageHistory | src/app/api/deals/overview/stage-history/route.ts:54-82 | one key per listed id, each holding its entry |
| StageHistoryRoute.GetStageHistory | src/app/api/deals/overview/stage-history/route.ts:18-45 | 401 without session, 400 without dealIds, else one entry per parsed id |
| StageHistoryRoute.SeparatorsOnlyGiveEmpty | src/app/api/deals/overview/stage-history/route.ts:39-45 | a parameter of separators only answers {} |
| MeetingsRoute.Earliest | src/app/api/deals/overview/meetings/route.ts:56-67 | an upcoming meeting exists iff one is chosen |
| MeetingsRoute.EarliestIsFirstMinimum | src/app/api/deals/overview/meetings/route.ts:56-67 | the chosen meeting has the smallest start, the first such after a stable sort |
| MeetingsRoute.NextUpcomingIsEarliest | src/app/api/deals/overview/meetings/route.ts:56-73 | the value is an upcoming meeting with the smallest start and title defaulting to 'Meeting' |
| MeetingsRoute.CollectMeetings | src/app/api/deals/overview/meetings/route.ts:50-82 | one key per listed id, each holding its next meeting or null |
| MeetingsRoute.GetMeetings | src/app/api/deals/overview/meetings/route.ts:6-40 | 401 without a token or on refresh error; a success has exactly the parsed ids as keys |
| MeetingsRoute.MissingIdsIsBadRequest | src/app/api/deals/overview/meetings/route.ts:25-32 | a missing or empty dealIds answers 400 |
| Mapper.UnescapeEscape | src/lib/hubspot/mapper.ts:45-48 | unescaping gives back the escaped text |
| Mapper.EscapeTextNoAngles | src/lib/hubspot/mapper.ts:45-48 | no raw '<' or '>' survives escaping |
| Mapper.HtmlToTextInvertsTextToHtml | src/lib/hubspot/mapper.ts:39-52 | htmlToText(textToHtml(t)) is the trimmed non-blank lines of t joined by newlines |
| Mapper.ShowStoppersShape | src/lib/hubspot/mapper.ts:131-133 | every tag is non-empty, trimmed and free of ';' |
| Mapper.ShowStoppersOfJoin | src/lib/hubspot/mapper.ts:131-133 | joining clean tags with ';' and splitting gives them back |
| Mapper.DealOwnerSpec | src/lib/hubspot/mapper.ts:55-59 | the matching owner's first and last name joined with empty parts skipped, else '' |
| Mapper.NextAppointment | src/lib/hubspot/mapper.ts:62-73 | null exactly when no meeting lies after now |
| Mapper.NextAppointmentIsEarliest | src/lib/hubspot/mapper.ts:62-73 | the appointment lies after now and starts no later than any upcoming meeting |
| Mapper.WriteBackUnedited | src/lib/hubspot/mapper.ts:93-175 | writing back an unedited canvas sends the normalised pain, metric and criteria texts and the amount |
| CanvasStore.SetNestedValue | src/stores/canvas-store.ts:30-43 | the walk-and-write loop computes the path-write function |
| CanvasStore.SetThenGet | src/stores/canvas-store.ts:30-43 | a written value reads back at its path |
| CanvasStore.SetKeepsOthers | src/stores/canvas-store.ts:30-43 | every path that parts ways with the written one is unchanged |
| CanvasStore.SetIntoEmpty | src/stores/canvas-store.ts:34-39 | missing intermediates are created as nested objects holding only the path |
| CanvasStore.SetFailsIffBlocked | src/stores/canvas-store.ts:34-39 | the write throws iff a key on the way holds a non-object |
| CanvasStore.Appended | src/stores/canvas-store.ts:83-86 | one element more, the old ones first, the new one with the fresh id |
| CanvasStore.AppendThenRemove | src/stores/canvas-store.ts:80-99 | removing a freshly added id restores the list |
| CanvasStore.RemovedSpec | src/stores/canvas-store.ts:91-99 | a null element throws; otherwise exactly the elements without that id remain |
| CanvasStore.FindById | src/stores/canvas-store.ts:101-110 | the first element with the id, none, or a throw on a null before it |
| CanvasStore.ToggleTwice | src/stores/canvas-store.ts:105-108 | toggling a boolean completed flag twice restores the step |
| CanvasStore.EditFieldSpec | src/stores/canvas-store.ts:72-78 | a field write reads back and leaves the canvas dirty |
| CanvasStore.ListEditsSpec | src/stores/canvas-store.ts:80-131 | add appends, remove filters, and both always set isDirty |
| CanvasStore.ToggleSpec | src/stores/canvas-store.ts:101-110 | only the first match is toggled, and isDirty is set only when there is one |
| CanvasStore.Store.SetCanvasData | src/stores/canvas-store.ts:58-63 | data and snapshot set to the data, error cleared |
| CanvasStore.Store.ClearCanvasData | src/stores/canvas-store.ts:65-70 | data, snapshot and error cleared |
| CanvasStore.Store.UpdateField | src/stores/canvas-store.ts:72-78 | no-op without data; else the dirty path write, or no change when it throws |
| CanvasStore.Store.AddNextStep | src/stores/canvas-store.ts:80-89 | the step appended with the id and isDirty set, or no change |
| CanvasStore.Store.RemoveNextStep | src/stores/canvas-store.ts:91-99 | the steps with the id removed and isDirty set, or no change |
| CanvasStore.Store.ToggleNextStep | src/stores/canvas-store.ts:101-110 | the first matching step toggled |
| CanvasStore.Store.AddMilestone | src/stores/canvas-store.ts:112-121 | the milestone appended with the id and isDirty set |
| CanvasStore.Store.RemoveMilestone | src/stores/canvas-store.ts:123-131 | the milestones with the id removed and isDirty set |
| CanvasStore.Store.UpdateMilestone | src/stores/canvas-store.ts:133-142 | the updates merged into the first matching milestone |
| CanvasStore.Store.SetActiveCell | src/stores/canvas-store.ts:144-147 | only the active cell changes |
| CanvasStore.Store.SetLoading | src/stores/canvas-store.ts:149-152 | only the loading flag changes |
| CanvasStore.Store.SetSaving | src/stores/canvas-store.ts:154-157 | only the saving flag changes |
| CanvasStore.Store.SetError | src/stores/canvas-store.ts:159-162 | only the error changes |
| CanvasStore.Store.ResetChanges | src/stores/canvas-store.ts:164-169 | the data becomes the snapshot when there is one |
| CanvasStore.Store.MarkClean | src/stores/canvas-store.ts:171-178 | not dirty, saved now, snapshot equal to the data |
| CanvasStore.LoadEditReset | src/stores/canvas-store.ts:164-178 | set, edits and reset give back the set data; after markClean a reset changes nothing |
| CanvasCell.TruncateHtml | src/components/canvas/CanvasCell.tsx:28-58 | the character loop computes the truncation function |
| CanvasCell.ScanCounts | src/components/canvas/CanvasCell.tsx:37-53 | copied text never exceeds maxLength; copying stops iff the input has more text than that |
| CanvasCell.TruncatedIsPrefix | src/components/canvas/CanvasCell.tsx:28-58 | for well-nested input the output is a prefix of it, followed by '...' exactly when the text is too long |
| CanvasCell.ShortHtmlUnchanged | src/components/canvas/CanvasCell.tsx:28-58 | input with no unterminated tag and at most maxLength text comes back unchanged |
| CanvasCell.OpenTagDropped | src/components/canvas/CanvasCell.tsx:37-46 | an unterminated trailing tag is dropped |
| CanvasCell.NestedTagFragmentDropped | src/components/canvas/CanvasCell.tsx:37-46 | a '<' inside a tag restarts the buffer, so the output is not a prefix |
| CanvasCell.StripHtmlRemovesTags | src/components/canvas/CanvasCell.tsx:23-25 | no '<…>' span is left after the tag pass |
| CanvasCell.Preview | src/components/canvas/CanvasCell.tsx:78-86 | truncated iff the stripped text is longer than maxLength; the full content unless truncated and collapsed |
| StageColors.HashString | src/lib/stage-colors.ts:94-102 | the loop computes the absolute value of the 32-bit hash, at most 2³¹ |
| StageColors.Hash32IsPolyHash | src/lib/stage-colors.ts:94-102 | the wrapped loop equals the polynomial hash wrapped once |
| StageColors.GetStageColor | src/lib/stage-colors.ts:109-127 | the lookup as written, which equals the corrected colour except for prototype keys |
| StageColors.StageColorSpec | src/lib/stage-colors.ts:109-127 | exact key first, else the first partial match in declaration order, else the hash fallback at a valid index |
| StageColors.SameNormalFormSameColor | src/lib/stage-colors.ts:110 | the colour depends only on the lowercased, trimmed name |
| StageColors.EmptyNameIsNeu | src/lib/stage-colors.ts:118-122 | the empty name gets the 'neu' entry |
| StageColors.StageColorInScheme | src/lib/stage-colors.ts:13-91 | every result is a table colour or a fallback colour |
| StageColors.ConstructorStageHasNoColors | src/lib/stage-colors.ts:113-115 | as written, 'Constructor' returns an object member, not a colour scheme |
| StageColors.StageColorAgrees | src/lib/stage-colors.ts:109-127 | away from prototype keys the code as written returns the corrected colour |
| StageColors.ByPositionSpec | src/lib/stage-colors.ts:133-160 | position 0 is cornflower, the last is electric lime, bands rise with position, won beats lost |
| Autosuggest.FilteredSpec | src/components/ui/Autosuggest.tsx:40-45 | all options for '' ; else exactly the matching ones, in order |
| Autosuggest.AllMatchKeepsAll | src/components/ui/Autosuggest.tsx:40-45 | when every option matches nothing is dropped |
| Autosuggest.FindById | src/components/ui/Autosuggest.tsx:38 | the first option with the value's id |
| Autosuggest.IndexDown | src/components/ui/Autosuggest.tsx:71-76 | one further while below the last option |
| Autosuggest.IndexUp | src/components/ui/Autosuggest.tsx:77-80 | one back, never below 0 |
| Autosuggest.DownReachesLast | src/components/ui/Autosuggest.tsx:71-76 | enough ArrowDown presses reach and stay on the last option |
| Autosuggest.Suggest.HandleKeyDown | src/components/ui/Autosuggest.tsx:61-93 | closed: only Enter/ArrowDown open; open: arrows move, Enter selects only an existing option, Escape closes and clears |
| Autosuggest.Suggest.HandleSelect | src/components/ui/Autosuggest.tsx:47-52 | onChange(id), query cleared, closed, index 0 |
| Autosuggest.Suggest.HandleClear | src/components/ui/Autosuggest.tsx:54-59 | onChange(null), query cleared, closed, index reset by the query effect |
| Autosuggest.Suggest.HandleInput | src/components/ui/Autosuggest.tsx:158-161 | the query becomes the text, the list opens, a changed query resets the index |
| Autosuggest.Suggest.QueryEffect | src/components/ui/Autosuggest.tsx:120-122 | a changed query resets the index |
| Autosuggest.Suggest.HandleMouseEnter | src/components/ui/Autosuggest.tsx:191 | hovering highlights that option |
| Autosuggest.Suggest.HandleClickOutside | src/components/ui/Autosuggest.tsx:106-117 | closes, clears the query, index 0 |
| PipelineCache.SetThenGet | src/lib/pipeline-cache.ts:11-41 | a stored value reads back unchanged within five minutes |
| PipelineCache.ExpiredEntryRemoved | src/lib/pipeline-cache.ts:19-26 | after five minutes the entry reads as null and is removed, other keys untouched |
| PipelineCache.ClearedSpec | src/lib/pipeline-cache.ts:46-62 | one pipeline: exactly its overview and meetings entries go; no id: exactly the prefixed keys go |
| PipelineCache.ClearKeepsHistoryAndSort | src/lib/pipeline-cache.ts:50-53 | clearing a pipeline keeps its stage-history and sort entries |
| PipelineCache.Cache.Get | src/lib/pipeline-cache.ts:11-30 | null without a window; else the lookup, with an expired entry removed |
| PipelineCache.Cache.Set | src/lib/pipeline-cache.ts:32-44 | stores the entry when there is a window and the write does not throw, else leaves the storage unchanged |
| PipelineCache.Cache.Clear | src/lib/pipeline-cache.ts:46-62 | clears when there is a window |
| Middleware.Gate | middleware.ts:16-27 | login redirect iff anonymous and not public, with callbackUrl = pathname; home redirect iff logged in on /login; else pass |
| Middleware.PublicIffPrefix | middleware.ts:10-13 | public iff the path starts with one of the four prefixes |
| Middleware.LoginPrefixIsPublic | middleware.ts:10-13 | every path starting with /login passes anonymously |
| Middleware.NoLoginLoop | middleware.ts:16-27 | anonymous requests to public paths pass, and logged-in users are never sent to /login |
| AuthConfig.SignIn | src/lib/auth/config.ts:4-21 | sign-in is allowed iff the email is present and ends with '@sipgate.de' |
| AuthConfig.DomainAccepted | src/lib/auth/config.ts:17-21 | any local part at sipgate.de is accepted |
| AuthConfig.OthersRejected | src/lib/auth/config.ts:17-21 | a missing or empty email, upper case and subdomains are rejected |

## Left out

- HTTP, sessions and NextAuth, the HubSpot client, the 250 ms pauses between requests and `async` sequencing: fetched data and session flags are inputs.
- Date parsing, local-time day truncation, `toLocaleDateString` and `Intl.NumberFormat`: dates are integers, and parsing is a parameter.
- Floating point: the funnel's ratio, per-week and average-dwell figures, and weighted revenue are left out. Revenue is an integer. `parseFloat`/`parseInt` in the mapper are parameters.
- StageColors.StageColorByPosition: the float `position / max(total−1, 1)` compared with 0.2, 0.4, 0.6 and 0.8 is computed exactly in integer fifths. NaN and infinite inputs are not modelled.
- StageColors.HashString: `charCodeAt` is taken as the character's code point. Characters outside the Basic Multilingual Plane (two UTF-16 units in JavaScript) are not modelled.
- Common.ToLower: only ASCII and the Latin-1 capitals are folded. Other Unicode case mappings are not modelled.
- CanvasCell.TruncatedIsPrefix: proved only for input in which no '<' occurs inside an open tag. For other input the loop discards the buffered tag text on a second '<' (NestedTagFragmentDropped).
- CanvasCell.TruncateHtml: a Dafny `char` is a whole code point, while the source loops over `html.length` and `html[i]` in UTF-16 code units. For text outside the Basic Multilingual Plane the counts differ, and the source can cut a surrogate pair in half ("😀" with maxLength 1 gives a lone high surrogate followed by "..."). This is not modelled.
- CanvasCell.Preview: compares `plainText.length` in UTF-16 code units; the model counts code points, with the same difference as TruncateHtml.
- CanvasStore.SetNestedValue: walking into an array or a Date is reported as a failed write. JavaScript would use the object's own properties there. Path keys inherited from Object.prototype (such as 'constructor') are not modelled.
- CanvasStore.Store.ResetChanges: the snapshot is restored as a value copy. In the source, `JSON.parse(JSON.stringify(..))` in setCanvasData, resetChanges and markClean (src/stores/canvas-store.ts:61, 167 and 176) turns every Date in the canvas into its ISO string: the roadmap start and end dates, milestone and next-step dates, `nextAppointment.date` and `lastSaved`. So after a reset the data equals the data that was set only if it holds no Date (no `Time` value). Date formatting is not part of this model.
- CanvasStore.Store.SetCanvasData: the snapshot is a value copy; in the source its Dates are ISO strings, as above.
- CanvasStore.Store.MarkClean: the snapshot is a value copy; in the source its Dates, `lastSaved` included, are ISO strings, as above.
- CanvasStore.LoadEditReset: "reset gives back the set data" holds in the source only for a canvas without Date values, as above.
- CanvasStore: list elements with their own `push`, `filter` or `find` members are not modelled.
- CanvasStore.Store.UpdateField: an action that throws is reported as `ok == false` with the state unchanged. The exception reaching the caller is not modelled.
- Mapper.MapHubSpotToCanvas: the roadmap and next-step JSON columns (`JSON.parse` with a fallback) are not modelled, and the canvas has no roadmap field.
- PipelinePage: two +∞ keys give +∞ − +∞ = NaN in the comparator, and the sort's SortCompare reads NaN as +0, so such keys compare equal. The model's key order does the same.
- PipelinePage.TimeKey: a non-empty date that does not parse is keyed +∞ and sorts with the missing dates. In the source `getTime()` is NaN there, every comparison with that deal reads as +0, and the comparator is no longer consistent, so ECMAScript leaves the resulting order implementation-defined. This is not modelled.
- PipelinePage.PipelineState.SortDeals: inherits TimeKey's treatment of unparseable appointment and closing dates.
- PipelinePage.PipelineState.OpenDeals: inherits TimeKey's treatment of unparseable dates.
- PipelinePage: handlePipelineChange, the refresh button and the React Query wiring are not part of this model. They only fetch, route or invalidate.
- FunnelView: the saved filter sets are kept as a list. Their localStorage serialisation is not modelled.
- FunnelView: setMonthsAgo and getDefaultSinceDate depend on the local calendar and are not modelled. Criterion ids come from the caller.
- Autosuggest: scrolling the highlighted option into view and focus management are not modelled. The option's `label` is named `caption`.
- PipelineCache: `JSON.parse` failures on stored text read as absent entries.
- PipelineCache.SetThenGet: entries are stored as values. In the source they go through `JSON.stringify` and `JSON.parse`, so the value read back equals the one written only for JSON-safe data (no Dates, `undefined`, functions or cycles).
- Autosuggest.Suggest: `options` and `value` are props, which the parent can change without the query changing. The effect that resets the index runs only on a query change, so in the source `highlightedIndex` can then point past the filtered list, a state that `Valid()` excludes. Prop changes are not modelled.
- Rendering (JSX), the editor, and the UI-only and debug files are not part of this model.

## Findings

| source | as written | input that shows it | evidently intended | confidence | as-written member | corrected member |
|---|---|---|---|---|---|---|
| src/lib/stage-colors.ts:113-115 | the direct lookup `STAGE_COLOR_MAP[normalizedName]` also finds members inherited from Object.prototype | the stage name 'Constructor' (normalised to 'constructor') returns the Object function instead of a colour scheme; '__proto__' likewise | only the table's own keys match exactly; other names fall through to the partial match and the hash fallback | not executed | StageColors.ConstructorStageHasNoColors | StageColors.StageColorInScheme |
