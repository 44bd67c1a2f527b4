/**
 * The handlers of the available-rooms search bar (src/components/AvailableSearchBar.tsx).
 * The component keeps no state: each handler fires some of the callbacks it was given, in
 * order, and is modelled as the list of callback invocations it makes.
 */
module AvailableSearchBar {
  import opened Text
  import opened Wrappers
  import opened Rooms

  /** One invocation of a callback prop. */
  datatype SearchBarEvent =
    | SearchTermChanged(term: string)     // onSearchTermChange
    | MaxStudentsChanged(capacity: Capacity) // onMaxStudentsChange
    | HasProjectorChanged(projector: bool) // onHasProjectorChange
    | SearchRequested                     // onSearch

  /** `handleKeyDown` on the search field. */
  function HandleKeyDown(key: string): (evs: seq<SearchBarEvent>)
    ensures evs == [SearchRequested] || evs == []
  {
    if key == "Enter" then [SearchRequested] else []
  }

  /** Only the Enter key searches; every other key fires nothing. */
  lemma KeyDownSearchesOnlyOnEnter(key: string)
    ensures SearchRequested in HandleKeyDown(key) <==> key == "Enter"
    ensures key != "Enter" ==> HandleKeyDown(key) == []
  {
  }

  /** `handleClear`: reset the three filters, then search. */
  function HandleClear(): (evs: seq<SearchBarEvent>)
    ensures |evs| > 0 && evs[|evs| - 1] == SearchRequested
    ensures forall i :: 0 <= i < |evs| - 1 ==> evs[i] != SearchRequested
    ensures multiset(evs)[SearchRequested] == 1
    ensures SearchTermChanged("") in evs && MaxStudentsChanged(Unset) in evs && HasProjectorChanged(false) in evs
    ensures forall e :: e in evs ==> e in {SearchTermChanged(""), MaxStudentsChanged(Unset), HasProjectorChanged(false), SearchRequested}
  {
    var evs := [SearchTermChanged(""), MaxStudentsChanged(Unset), HasProjectorChanged(false), SearchRequested];
    assert evs == [SearchTermChanged(""), MaxStudentsChanged(Unset), HasProjectorChanged(false)] + [SearchRequested];
    evs
  }

  /** The capacity a raw capacity field value asks for: `Unset` when it trims to nothing, the parsed number when that is positive, `None` (no callback) otherwise. */
  function CapacityInput(raw: string): (r: Option<Capacity>)
  {
    var value := Trim(raw);
    if value == "" then Some(Unset)
    else match ParseInt(value)
      case Some(n) => if n > 0 then Some(Count(n)) else None
      case None => None
  }

  /** `handleMaxStudentsChange`: at most one `onMaxStudentsChange` call. */
  function HandleMaxStudentsChange(raw: string): (evs: seq<SearchBarEvent>)
    ensures |evs| <= 1
    ensures evs == [MaxStudentsChanged(Unset)] <==> AllWhitespace(raw)
    ensures forall n :: evs == [MaxStudentsChanged(Count(n))] <==> !AllWhitespace(raw) && n > 0 && ParseInt(Trim(raw)) == Some(n)
    ensures evs == [] <==> !AllWhitespace(raw) && (ParseInt(Trim(raw)).None? || ParseInt(Trim(raw)).value <= 0)
  {
    TrimEmptyIff(raw);
    match CapacityInput(raw)
    case Some(c) => [MaxStudentsChanged(c)]
    case None => []
  }

  /** Typing the decimal form of a positive number, with any white space around it, sets exactly that capacity. */
  lemma TypedPositiveNumberSetsCapacity(n: int, before: string, after: string)
    requires n > 0
    requires AllWhitespace(before) && AllWhitespace(after)
    ensures HandleMaxStudentsChange(before + IntToString(n) + after) == [MaxStudentsChanged(Count(n))]
  {
    var digits := IntToString(n);
    var raw := before + digits + after;
    assert digits == NatToString(n);
    TrimAround(before, digits, after);
    ParseIntOfIntToString(n);
    assert !AllWhitespace(raw) by {
      assert raw[|before|] == digits[0];
    }
  }

}
