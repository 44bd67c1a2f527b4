/**
 * The room dashboard (src/pages/Home.tsx): splitting the rooms into occupied (tab 0) and
 * available (other tabs) by the set of occupied room ids, the two tab searches, and the
 * handlers that write the result and the error message into the page state.
 */
module Home {
  import opened Wrappers
  import opened Text
  import opened Rooms
  import Seqs
  import SearchBar = AvailableSearchBar

  /** The fields of a fetched occupation that the page reads. */
  datatype Occupation = Occupation(roomId: int, teacher: string, subject: string)

  /** A room as displayed, with the occupation attached on the occupied tab. */
  datatype RoomCard = RoomCard(room: Room, currentOccupation: Option<Occupation>)

  /** The page's search state: `searchTerm`, `maxStudents` and `hasProjector`. */
  datatype SearchInputs = SearchInputs(searchTerm: string, maxStudents: Capacity, hasProjector: bool)

  /** The two fetches a handler awaits (`findAll` and `getOccupiedRooms`); either failing counts as a failure. */
  datatype Fetch = Fetched(allClassrooms: seq<Room>, occupiedRooms: seq<Occupation>) | FetchFailed

  const NoOccupiedMessage := "Nenhuma sala ocupada no momento"
  const NoAvailableMessage := "Nenhuma sala disponível no momento"
  const NoMatchMessage := "Nenhuma sala encontrada com os critérios de busca"
  const LoadFailedMessage := "Erro ao carregar as salas. Tente novamente."
  const SearchFailedMessage := "Erro ao buscar salas. Tente novamente."

  /** `new Set(occupiedRooms.map(o => o.roomId))`. */
  function OccupiedRoomIds(occupied: seq<Occupation>): set<int>
  {
    set i | 0 <= i < |occupied| :: occupied[i].roomId
  }

  /** `occupiedRooms.find(o => o.roomId === id)`: the first occupation of room `id`. */
  function FindOccupation(occupied: seq<Occupation>, id: int): (r: Option<Occupation>)
    ensures r.None? <==> id !in OccupiedRoomIds(occupied)
    ensures r.Some? ==> exists i :: 0 <= i < |occupied| && occupied[i] == r.value && r.value.roomId == id &&
                               forall j :: 0 <= j < i ==> occupied[j].roomId != id
    decreases |occupied|
  {
    if occupied == [] then None
    else if occupied[0].roomId == id then
      assert occupied[0].roomId in OccupiedRoomIds(occupied);
      Some(occupied[0])
    else
      var r := FindOccupation(occupied[1..], id);
      assert OccupiedRoomIds(occupied) == {occupied[0].roomId} + OccupiedRoomIds(occupied[1..]) by {
        forall x | x in OccupiedRoomIds(occupied)
          ensures x in {occupied[0].roomId} + OccupiedRoomIds(occupied[1..])
        {
          var i :| 0 <= i < |occupied| && occupied[i].roomId == x;
          if i > 0 { assert occupied[1..][i - 1].roomId == x; }
        }
        forall x | x in OccupiedRoomIds(occupied[1..])
          ensures x in OccupiedRoomIds(occupied)
        {
          var i :| 0 <= i < |occupied[1..]| && occupied[1..][i].roomId == x;
          assert occupied[i + 1].roomId == x;
        }
      }
      if r.Some? then
        ghost var i :| 0 <= i < |occupied[1..]| && occupied[1..][i] == r.value && r.value.roomId == id &&
                       forall j :: 0 <= j < i ==> occupied[1..][j].roomId != id;
        assert occupied[i + 1] == r.value;
        assert forall j :: 0 < j < i + 1 ==> occupied[j] == occupied[1..][j - 1];
        r
      else r
  }

  function IsOccupiedBy(ids: set<int>): Room -> bool
  {
    (r: Room) => r.id in ids
  }

  function IsNotOccupiedBy(ids: set<int>): Room -> bool
  {
    (r: Room) => r.id !in ids
  }

  /** `{ ...classroom, currentOccupation: occupiedRooms.find(o => o.roomId === classroom.id) }`. */
  function WithOccupation(occupied: seq<Occupation>): Room -> RoomCard
  {
    (r: Room) => RoomCard(r, FindOccupation(occupied, r.id))
  }

  /** `{ ...classroom }`. */
  function PlainCard(): Room -> RoomCard
  {
    (r: Room) => RoomCard(r, None)
  }

  function CardRoom(): RoomCard -> Room
  {
    (c: RoomCard) => c.room
  }

  /** The rooms shown by a list of cards, in order. */
  function CardRooms(cards: seq<RoomCard>): seq<Room>
  {
    Seqs.Map(CardRoom(), cards)
  }

  /** `loadClassrooms` on tab 0: the occupied rooms with their occupation. */
  function OccupiedCards(all: seq<Room>, occupied: seq<Occupation>): seq<RoomCard>
  {
    Seqs.Map(WithOccupation(occupied), Seqs.Filter(IsOccupiedBy(OccupiedRoomIds(occupied)), all))
  }

  /** `loadClassrooms` on any other tab: the rooms no occupation names. */
  function AvailableCards(all: seq<Room>, occupied: seq<Occupation>): seq<RoomCard>
  {
    Seqs.Map(PlainCard(), Seqs.Filter(IsNotOccupiedBy(OccupiedRoomIds(occupied)), all))
  }

  function TabCards(tab: int, all: seq<Room>, occupied: seq<Occupation>): seq<RoomCard>
  {
    if tab == 0 then OccupiedCards(all, occupied) else AvailableCards(all, occupied)
  }

  /** The filter predicate of `handleSearch` on tab 0. */
  function OccupiedSearchKeeps(occupied: seq<Occupation>, term: string): Room -> bool
  {
    (r: Room) =>
      if r.id !in OccupiedRoomIds(occupied) then false
      else match FindOccupation(occupied, r.id)
        case None => false
        case Some(o) => MatchesTerm(r.roomNumber, term) || MatchesTerm(o.teacher, term) || MatchesTerm(o.subject, term)
  }

  /** The filter predicate of `handleSearch` on the other tabs. */
  function AvailableSearchKeeps(occupied: seq<Occupation>, inputs: SearchInputs): Room -> bool
  {
    (r: Room) =>
      if r.id in OccupiedRoomIds(occupied) then false
      else if inputs.searchTerm != "" && !MatchesTerm(r.roomNumber, inputs.searchTerm) then false
      else if CapacityIsSet(inputs.maxStudents) && r.maxStudents < inputs.maxStudents.n then false
      else if inputs.hasProjector && !r.hasProjector then false
      else true
  }

  function OccupiedSearchCards(all: seq<Room>, occupied: seq<Occupation>, term: string): seq<RoomCard>
  {
    Seqs.Map(WithOccupation(occupied), Seqs.Filter(OccupiedSearchKeeps(occupied, term), all))
  }

  function AvailableSearchCards(all: seq<Room>, occupied: seq<Occupation>, inputs: SearchInputs): seq<RoomCard>
  {
    Seqs.Map(PlainCard(), Seqs.Filter(AvailableSearchKeeps(occupied, inputs), all))
  }

  function SearchCards(tab: int, all: seq<Room>, occupied: seq<Occupation>, inputs: SearchInputs): seq<RoomCard>
  {
    if tab == 0 then OccupiedSearchCards(all, occupied, inputs.searchTerm)
    else AvailableSearchCards(all, occupied, inputs)
  }

  lemma MapRoomsBack(f: Room -> RoomCard, s: seq<Room>)
    requires forall r :: f(r).room == r
    ensures CardRooms(Seqs.Map(f, s)) == s
  {
  }

  /** Tab 0 lists exactly the occupied rooms, in the fetched order, each with its first occupation. */
  lemma OccupiedCardsSpec(all: seq<Room>, occupied: seq<Occupation>)
    ensures Seqs.IsSubsequence(CardRooms(OccupiedCards(all, occupied)), all)
    ensures forall r :: r in CardRooms(OccupiedCards(all, occupied)) <==> r in all && r.id in OccupiedRoomIds(occupied)
    ensures forall c :: c in OccupiedCards(all, occupied) ==>
      c.currentOccupation == FindOccupation(occupied, c.room.id) && c.currentOccupation.Some?
  {
    var kept := Seqs.Filter(IsOccupiedBy(OccupiedRoomIds(occupied)), all);
    MapRoomsBack(WithOccupation(occupied), kept);
    Seqs.FilterIsSubsequence(IsOccupiedBy(OccupiedRoomIds(occupied)), all);
  }

  /** The other tabs list exactly the rooms no occupation names, in the fetched order. */
  lemma AvailableCardsSpec(all: seq<Room>, occupied: seq<Occupation>)
    ensures Seqs.IsSubsequence(CardRooms(AvailableCards(all, occupied)), all)
    ensures forall r :: r in CardRooms(AvailableCards(all, occupied)) <==> r in all && r.id !in OccupiedRoomIds(occupied)
    ensures forall c :: c in AvailableCards(all, occupied) ==> c.currentOccupation.None?
  {
    var kept := Seqs.Filter(IsNotOccupiedBy(OccupiedRoomIds(occupied)), all);
    MapRoomsBack(PlainCard(), kept);
    Seqs.FilterIsSubsequence(IsNotOccupiedBy(OccupiedRoomIds(occupied)), all);
  }

  /** The two tabs partition the fetched rooms: every room is on exactly one of them. */
  lemma TabsPartitionRooms(all: seq<Room>, occupied: seq<Occupation>)
    ensures multiset(CardRooms(OccupiedCards(all, occupied))) + multiset(CardRooms(AvailableCards(all, occupied))) == multiset(all)
    ensures forall r :: r in all ==>
      (r in CardRooms(OccupiedCards(all, occupied)) <==> r !in CardRooms(AvailableCards(all, occupied)))
  {
    var ids := OccupiedRoomIds(occupied);
    MapRoomsBack(WithOccupation(occupied), Seqs.Filter(IsOccupiedBy(ids), all));
    MapRoomsBack(PlainCard(), Seqs.Filter(IsNotOccupiedBy(ids), all));
    Seqs.FilterPartition(IsOccupiedBy(ids), IsNotOccupiedBy(ids), all);
    OccupiedCardsSpec(all, occupied);
    AvailableCardsSpec(all, occupied);
  }

  /** The tab-0 search keeps an occupied room iff the term occurs in its number or in its occupation's teacher or subject. */
  lemma OccupiedSearchSpec(all: seq<Room>, occupied: seq<Occupation>, term: string)
    ensures Seqs.IsSubsequence(CardRooms(OccupiedSearchCards(all, occupied, term)), all)
    ensures forall r :: r in CardRooms(OccupiedSearchCards(all, occupied, term)) <==>
      r in all && r.id in OccupiedRoomIds(occupied) && OccupiedTermOccurs(r, FindOccupation(occupied, r.id).value, term)
  {
    var keeps := OccupiedSearchKeeps(occupied, term);
    MapRoomsBack(WithOccupation(occupied), Seqs.Filter(keeps, all));
    Seqs.FilterIsSubsequence(keeps, all);
    forall r: Room | r.id in OccupiedRoomIds(occupied)
      ensures keeps(r) <==> OccupiedTermOccurs(r, FindOccupation(occupied, r.id).value, term)
    {
      OccupiedKeepsRoom(occupied, term, r);
    }
  }

  ghost predicate OccupiedTermOccurs(r: Room, o: Occupation, term: string)
  {
    (exists i :: OccursAt(ToLower(r.roomNumber), ToLower(term), i))
    || (exists i :: OccursAt(ToLower(o.teacher), ToLower(term), i))
    || (exists i :: OccursAt(ToLower(o.subject), ToLower(term), i))
  }

  lemma OccupiedKeepsRoom(occupied: seq<Occupation>, term: string, r: Room)
    requires r.id in OccupiedRoomIds(occupied)
    ensures OccupiedSearchKeeps(occupied, term)(r) <==> OccupiedTermOccurs(r, FindOccupation(occupied, r.id).value, term)
  {
    var o := FindOccupation(occupied, r.id).value;
    assert OccupiedSearchKeeps(occupied, term)(r) == (MatchesTerm(r.roomNumber, term) || MatchesTerm(o.teacher, term) || MatchesTerm(o.subject, term));
    IncludesIffOccurs(ToLower(r.roomNumber), ToLower(term));
    IncludesIffOccurs(ToLower(o.teacher), ToLower(term));
    IncludesIffOccurs(ToLower(o.subject), ToLower(term));
  }

  /** With an empty term the tab-0 search shows the same list as loading tab 0. */
  lemma OccupiedSearchEmptyTerm(all: seq<Room>, occupied: seq<Occupation>)
    ensures OccupiedSearchCards(all, occupied, "") == OccupiedCards(all, occupied)
  {
    var ids := OccupiedRoomIds(occupied);
    forall i | 0 <= i < |all|
      ensures OccupiedSearchKeeps(occupied, "")(all[i]) == IsOccupiedBy(ids)(all[i])
    {
      IncludesEmpty(ToLower(all[i].roomNumber));
    }
    Seqs.FilterCongruent(OccupiedSearchKeeps(occupied, ""), IsOccupiedBy(ids), all);
  }

  /** The search on the other tabs drops a room iff it is occupied, misses a non-empty term, is below a set capacity, or lacks a requested projector. */
  lemma AvailableSearchSpec(all: seq<Room>, occupied: seq<Occupation>, inputs: SearchInputs)
    ensures Seqs.IsSubsequence(CardRooms(AvailableSearchCards(all, occupied, inputs)), all)
    ensures forall r :: r in CardRooms(AvailableSearchCards(all, occupied, inputs)) <==>
      r in all
      && r.id !in OccupiedRoomIds(occupied)
      && (inputs.searchTerm == "" || exists i :: OccursAt(ToLower(r.roomNumber), ToLower(inputs.searchTerm), i))
      && (inputs.maxStudents == Unset || inputs.maxStudents == Count(0) || r.maxStudents >= inputs.maxStudents.n)
      && (!inputs.hasProjector || r.hasProjector)
  {
    var keeps := AvailableSearchKeeps(occupied, inputs);
    MapRoomsBack(PlainCard(), Seqs.Filter(keeps, all));
    Seqs.FilterIsSubsequence(keeps, all);
    forall r: Room
      ensures keeps(r) <==>
        r.id !in OccupiedRoomIds(occupied)
        && (inputs.searchTerm == "" || exists i :: OccursAt(ToLower(r.roomNumber), ToLower(inputs.searchTerm), i))
        && (inputs.maxStudents == Unset || inputs.maxStudents == Count(0) || r.maxStudents >= inputs.maxStudents.n)
        && (!inputs.hasProjector || r.hasProjector)
    {
      IncludesIffOccurs(ToLower(r.roomNumber), ToLower(inputs.searchTerm));
    }
  }

  /** The search inputs after the clear button: no term, no capacity, no projector. */
  const ClearedInputs := SearchInputs("", Unset, false)

  /** Searching the other tabs with cleared inputs shows the same list as loading them. */
  lemma ClearedSearchShowsAllAvailable(all: seq<Room>, occupied: seq<Occupation>)
    ensures AvailableSearchCards(all, occupied, ClearedInputs) == AvailableCards(all, occupied)
  {
    Seqs.FilterCongruent(AvailableSearchKeeps(occupied, ClearedInputs), IsNotOccupiedBy(OccupiedRoomIds(occupied)), all);
  }

  /** The effect of one search-bar callback on the page's search state (`setSearchTerm` and friends). */
  function ApplySetter(inputs: SearchInputs, e: SearchBar.SearchBarEvent): SearchInputs
  {
    match e
    case SearchTermChanged(t) => inputs.(searchTerm := t)
    case MaxStudentsChanged(c) => inputs.(maxStudents := c)
    case HasProjectorChanged(p) => inputs.(hasProjector := p)
    case SearchRequested => inputs
  }

  function ApplySetters(inputs: SearchInputs, evs: seq<SearchBar.SearchBarEvent>): SearchInputs
    decreases |evs|
  {
    if evs == [] then inputs else ApplySetters(ApplySetter(inputs, evs[0]), evs[1..])
  }

  /** Whatever the state was, the clear button leaves the cleared inputs behind. */
  lemma ClearResetsInputs(inputs: SearchInputs)
    ensures ApplySetters(inputs, SearchBar.HandleClear()) == ClearedInputs
  {
    var evs := SearchBar.HandleClear();
    assert evs[1..][1..][1..][1..] == [];
  }

  /**
   * What the clear button's `onSearch()` searches with, as written: `handleSearch` is the
   * closure of the render the button belongs to, so it reads the state of that render, which
   * the setters called just before it have not changed.
   */
  function ClearSearchAsWritten(all: seq<Room>, occupied: seq<Occupation>, render: SearchInputs): seq<RoomCard>
  {
    AvailableSearchCards(all, occupied, render)
  }

  /** A concrete case: with the term "101" typed, clearing still hides room 202. */
  lemma ClearSearchAsWrittenKeepsOldFilter()
    ensures var all := [StaleExampleRoom(1, "101"), StaleExampleRoom(2, "202")];
      ApplySetters(SearchInputs("101", Unset, false), SearchBar.HandleClear()) == ClearedInputs
      && CardRooms(ClearSearchAsWritten(all, [], SearchInputs("101", Unset, false))) == [all[0]]
      && CardRooms(AvailableCards(all, [])) == all
  {
    var all := [StaleExampleRoom(1, "101"), StaleExampleRoom(2, "202")];
    ClearResetsInputs(SearchInputs("101", Unset, false));
    var inputs := SearchInputs("101", Unset, false);
    assert MatchesTerm("101", "101") by { assert StartsWith("101", "101"); }
    assert !MatchesTerm("202", "101") by {
      assert ToLower("202") == "202" && ToLower("101") == "101";
      assert "202"[..3][0] != "101"[0];
      assert "202"[1..] == "02" && "02"[1..] == "2" && "2"[1..] == "";
      assert !Includes("", "101");
      assert !Includes("2", "101");
      assert !Includes("02", "101");
    }
    assert Seqs.Filter(AvailableSearchKeeps([], inputs), all) == [all[0]];
    assert OccupiedRoomIds([]) == {};
    assert Seqs.Filter(IsNotOccupiedBy(OccupiedRoomIds([])), all) == all;
  }

  function StaleExampleRoom(id: int, number: string): Room
  {
    Room(id, number, 30, true, None, None, None, None)
  }

  /** The intended clear: the search runs on the cleared inputs, so it shows every available room. */
  function ClearSearch(all: seq<Room>, occupied: seq<Occupation>, render: SearchInputs): (cards: seq<RoomCard>)
    ensures cards == AvailableCards(all, occupied)
  {
    ClearResetsInputs(render);
    ClearedSearchShowsAllAvailable(all, occupied);
    AvailableSearchCards(all, occupied, ApplySetters(render, SearchBar.HandleClear()))
  }

  /** The page state that the handlers write. */
  class HomePage {
    var currentTab: int
    var inputs: SearchInputs
    var classrooms: seq<RoomCard>
    var error: string
    var isLoading: bool

    constructor ()
      ensures currentTab == 0 && inputs == ClearedInputs
      ensures classrooms == [] && error == "" && !isLoading
    {
      currentTab := 0;
      inputs := ClearedInputs;
      classrooms := [];
      error := "";
      isLoading := false;
    }

    /** `loadClassrooms`, run to completion with the outcome of its two fetches. */
    method LoadClassrooms(fetch: Fetch)
      modifies this`classrooms, this`error, this`isLoading
      ensures !isLoading
      ensures fetch.Fetched? ==>
        classrooms == TabCards(currentTab, fetch.allClassrooms, fetch.occupiedRooms)
        && error == (if classrooms != [] then "" else if currentTab == 0 then NoOccupiedMessage else NoAvailableMessage)
      ensures fetch.FetchFailed? ==> classrooms == old(classrooms) && error == LoadFailedMessage
    {
      isLoading := true;
      error := "";
      match fetch {
        case Fetched(all, occupied) =>
          var filtered := TabCards(currentTab, all, occupied);
          classrooms := filtered;
          if |filtered| == 0 {
            error := if currentTab == 0 then NoOccupiedMessage else NoAvailableMessage;
          }
        case FetchFailed =>
          error := LoadFailedMessage;
      }
      isLoading := false;
    }

    /** `handleSearch`, run to completion with the outcome of its two fetches and the current search state. */
    method HandleSearch(fetch: Fetch)
      modifies this`classrooms, this`error, this`isLoading
      ensures !isLoading
      ensures fetch.Fetched? ==>
        classrooms == SearchCards(currentTab, fetch.allClassrooms, fetch.occupiedRooms, inputs)
        && error == (if classrooms != [] then "" else NoMatchMessage)
      ensures fetch.FetchFailed? ==> classrooms == [] && error == SearchFailedMessage
    {
      isLoading := true;
      error := "";
      match fetch {
        case Fetched(all, occupied) =>
          var filtered := SearchCards(currentTab, all, occupied, inputs);
          classrooms := filtered;
          if |filtered| == 0 {
            error := NoMatchMessage;
          }
        case FetchFailed =>
          error := SearchFailedMessage;
          classrooms := [];
      }
      isLoading := false;
    }

    /** The clear button with the intended behaviour: reset the filters, then search with the reset filters. */
    method ClearFilters(fetch: Fetch)
      requires currentTab != 0
      modifies this`inputs, this`classrooms, this`error, this`isLoading
      ensures !isLoading
      ensures inputs == ClearedInputs
      ensures fetch.Fetched? ==> classrooms == AvailableCards(fetch.allClassrooms, fetch.occupiedRooms)
      ensures fetch.Fetched? ==> error == (if classrooms != [] then "" else NoMatchMessage)
      ensures fetch.FetchFailed? ==> classrooms == [] && error == SearchFailedMessage
    {
      ClearResetsInputs(inputs);
      inputs := ApplySetters(inputs, SearchBar.HandleClear());
      HandleSearch(fetch);
      if fetch.Fetched? {
        ClearedSearchShowsAllAvailable(fetch.allClassrooms, fetch.occupiedRooms);
      }
    }
  }
}
