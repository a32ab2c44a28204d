/** The searchable drop-down: an open flag, a query and a highlighted index driven by
    the keyboard and the mouse. The onChange callback is recorded as a log of the
    values it was called with; React's effect that resets the index after a query
    change runs at the end of each handler that changes the query. */
module Autosuggest {
  import opened Common

  datatype SuggestOption = SuggestOption(id: string, caption: string, sublabel: Option<string>)

  datatype Key = Enter | ArrowDown | ArrowUp | Escape | OtherKey(name: string)

  /** The option's label or sublabel contains the query, ignoring case. */
  predicate MatchesQuery(opt: SuggestOption, query: string) {
    Contains(ToLower(opt.caption), ToLower(query))
    || (opt.sublabel.Some? && Contains(ToLower(opt.sublabel.value), ToLower(query)))
  }

  /** filteredOptions: every option for an empty query, else the matching ones. */
  function Filtered(options: seq<SuggestOption>, query: string): seq<SuggestOption> {
    if query == "" then options else Filter(options, (opt: SuggestOption) => MatchesQuery(opt, query))
  }

  /** An option is offered exactly when the query is empty or it matches, and the
      offered options keep their order. */
  lemma FilteredSpec(options: seq<SuggestOption>, query: string, opt: SuggestOption)
    ensures query == "" ==> Filtered(options, query) == options
    ensures opt in Filtered(options, query) <==> opt in options && (query == "" || MatchesQuery(opt, query))
    ensures |Filtered(options, query)| <= |options|
  {
    if query != "" {
      FilterMembership(options, (o: SuggestOption) => MatchesQuery(o, query), opt);
    }
  }

  /** When every option matches, nothing is filtered out. */
  lemma AllMatchKeepsAll(options: seq<SuggestOption>, query: string)
    requires forall k :: 0 <= k < |options| ==> MatchesQuery(options[k], query)
    ensures Filtered(options, query) == options
  {
    if query != "" {
      FilterAll(options, (o: SuggestOption) => MatchesQuery(o, query));
    }
  }

  /** The first option with the given id: selectedOption. */
  function FindById(options: seq<SuggestOption>, value: Option<string>): (r: Option<nat>)
    ensures r.Some? ==> (
      && value.Some? && r.value < |options| && options[r.value].id == value.value
      && forall k :: 0 <= k < r.value ==> options[k].id != value.value)
    ensures r.None? ==> value.None? || forall k :: 0 <= k < |options| ==> options[k].id != value.value
    decreases |options|
  {
    if value.None? || |options| == 0 then None
    else if options[0].id == value.value then Some(0)
    else
      var rest := FindById(options[1..], value);
      if rest.Some? then Some(rest.value + 1) else None
  }

  /** ArrowDown's update: one further while below the last option. */
  function IndexDown(prev: int, count: nat): (r: int)
    ensures prev < count - 1 ==> r == prev + 1
    ensures prev >= count - 1 ==> r == prev
    ensures 0 <= prev ==> 0 <= r && (r < count || r == prev)
  {
    if prev < count - 1 then prev + 1 else prev
  }

  /** ArrowUp's update: one back, never below 0. */
  function IndexUp(prev: int): (r: int)
    ensures prev > 0 ==> r == prev - 1
    ensures r >= 0 && r <= if prev > 0 then prev else 0
  {
    if prev > 0 then prev - 1 else 0
  }

  /** Pressing ArrowDown often enough reaches the last option and stays there. */
  lemma {:induction false} DownReachesLast(prev: nat, count: nat, presses: nat)
    requires prev < count && presses >= count - 1 - prev
    ensures Repeat(prev, count, presses) == count - 1
    decreases presses
  {
    if presses > 0 {
      DownReachesLast(IndexDown(prev, count), count, presses - 1);
    }
  }

  function Repeat(prev: int, count: nat, presses: nat): int
    decreases presses
  {
    if presses == 0 then prev else Repeat(IndexDown(prev, count), count, presses - 1)
  }

  class Suggest {
    var options: seq<SuggestOption>
    var value: Option<string>
    var isOpen: bool
    var query: string
    var highlightedIndex: int
    /** The values onChange was called with, oldest first. */
    var changes: seq<Option<string>>

    function FilteredOptions(): seq<SuggestOption>
      reads this
    {
      Filtered(options, query)
    }

    function SelectedOption(): Option<nat>
      reads this
    {
      FindById(options, value)
    }

    /** The index is never negative and points at an offered option unless it is 0. */
    predicate Valid()
      reads this
    {
      0 <= highlightedIndex && (highlightedIndex == 0 || highlightedIndex < |FilteredOptions()|)
    }

    constructor(options: seq<SuggestOption>, value: Option<string>)
      ensures this.options == options && this.value == value
      ensures !isOpen && query == "" && highlightedIndex == 0 && changes == []
      ensures Valid()
    {
      this.options := options;
      this.value := value;
      isOpen := false;
      query := "";
      highlightedIndex := 0;
      changes := [];
    }

    /** React's effect on `query`: a new query resets the index. */
    method QueryEffect(before: string)
      modifies this
      ensures highlightedIndex == if query != before then 0 else old(highlightedIndex)
      ensures options == old(options) && value == old(value) && isOpen == old(isOpen)
      ensures query == old(query) && changes == old(changes)
    {
      if query != before {
        highlightedIndex := 0;
      }
    }

    /** handleSelect: report the id, clear the query, close, index 0. */
    method HandleSelect(id: string)
      modifies this
      ensures changes == old(changes) + [Some(id)]
      ensures query == "" && !isOpen && highlightedIndex == 0
      ensures options == old(options) && value == old(value)
      ensures Valid()
    {
      changes := changes + [Some(id)];
      query := "";
      isOpen := false;
      highlightedIndex := 0;
    }

    /** handleClear: report null, clear the query, close. */
    method HandleClear()
      requires Valid()
      modifies this
      ensures changes == old(changes) + [None]
      ensures query == "" && !isOpen
      ensures highlightedIndex == if old(query) != "" then 0 else old(highlightedIndex)
      ensures options == old(options) && value == old(value)
      ensures Valid()
    {
      var before := query;
      changes := changes + [None];
      query := "";
      isOpen := false;
      QueryEffect(before);
    }

    /** handleKeyDown. */
    method HandleKeyDown(key: Key)
      requires Valid()
      modifies this
      ensures options == old(options) && value == old(value)
      ensures Valid()
      ensures !old(isOpen) ==>
        && isOpen == (key == Enter || key == ArrowDown)
        && query == old(query) && highlightedIndex == old(highlightedIndex) && changes == old(changes)
      ensures old(isOpen) && key == ArrowDown ==>
        && highlightedIndex == IndexDown(old(highlightedIndex), |old(FilteredOptions())|)
        && isOpen && query == old(query) && changes == old(changes)
      ensures old(isOpen) && key == ArrowUp ==>
        && highlightedIndex == IndexUp(old(highlightedIndex))
        && isOpen && query == old(query) && changes == old(changes)
      ensures old(isOpen) && key == Enter && old(highlightedIndex) < |old(FilteredOptions())| ==>
        && changes == old(changes) + [Some(old(FilteredOptions())[old(highlightedIndex)].id)]
        && query == "" && !isOpen && highlightedIndex == 0
      ensures old(isOpen) && key == Enter && old(highlightedIndex) >= |old(FilteredOptions())| ==>
        && changes == old(changes) && isOpen && query == old(query) && highlightedIndex == old(highlightedIndex)
      ensures old(isOpen) && key == Escape ==>
        && !isOpen && query == "" && highlightedIndex == 0 && changes == old(changes)
      ensures old(isOpen) && key.OtherKey? ==>
        && isOpen && query == old(query) && highlightedIndex == old(highlightedIndex) && changes == old(changes)
    {
      if !isOpen {
        if key == Enter || key == ArrowDown {
          isOpen := true;
        }
        return;
      }
      var filtered := FilteredOptions();
      match key {
        case ArrowDown =>
          highlightedIndex := IndexDown(highlightedIndex, |filtered|);
        case ArrowUp =>
          highlightedIndex := IndexUp(highlightedIndex);
        case Enter =>
          if 0 <= highlightedIndex < |filtered| {
            HandleSelect(filtered[highlightedIndex].id);
          }
        case Escape =>
          isOpen := false;
          query := "";
          highlightedIndex := 0;
        case OtherKey(_) =>
      }
    }

    /** Typing: the query becomes the input's text and the list opens. */
    method HandleInput(text: string)
      requires Valid()
      modifies this
      ensures query == text && isOpen
      ensures highlightedIndex == if text != old(query) then 0 else old(highlightedIndex)
      ensures options == old(options) && value == old(value) && changes == old(changes)
      ensures Valid()
    {
      var before := query;
      query := text;
      if !isOpen {
        isOpen := true;
      }
      QueryEffect(before);
    }

    /** Focusing the input, or clicking the enabled field, opens the list. */
    method Open()
      requires Valid()
      modifies this
      ensures isOpen && query == old(query) && highlightedIndex == old(highlightedIndex)
      ensures options == old(options) && value == old(value) && changes == old(changes)
      ensures Valid()
    {
      isOpen := true;
    }

    /** Hovering the option shown at `index`. */
    method HandleMouseEnter(index: nat)
      requires index < |FilteredOptions()|
      modifies this
      ensures highlightedIndex == index
      ensures isOpen == old(isOpen) && query == old(query)
      ensures options == old(options) && value == old(value) && changes == old(changes)
      ensures Valid()
    {
      highlightedIndex := index;
    }

    /** A mouse press outside the field closes and resets it. */
    method HandleClickOutside()
      modifies this
      ensures !isOpen && query == "" && highlightedIndex == 0
      ensures options == old(options) && value == old(value) && changes == old(changes)
      ensures Valid()
    {
      isOpen := false;
      query := "";
      highlightedIndex := 0;
    }
  }
}
