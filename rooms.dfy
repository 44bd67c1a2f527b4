/**
 * The room record and `classroomService.searchByFilters` (src/services/api.ts): one `filter`
 * over the fetched rooms whose predicate returns early on the first failed criterion.
 */
module Rooms {
  import opened Wrappers
  import opened Text
  import Seqs

  /**
   * A room as the room list code reads it. The occupancy fields (`isOccupied`,
   * `currentTeacher`, `currentSubject`) and `projectors` are optional, since the declared room
   * type does not carry them; fields nothing here reads are left out.
   */
  datatype Room = Room(
    id: int,
    roomNumber: string,
    maxStudents: int,
    hasProjector: bool,
    projectors: Option<int>,
    isOccupied: Option<bool>,
    currentTeacher: Option<string>,
    currentSubject: Option<string>)

  /** A capacity field typed `number | ''`: `Unset` is the empty string. */
  datatype Capacity = Unset | Count(n: int)

  /** JavaScript truthiness of a `number | ''` value: neither `''` nor `0`. */
  predicate CapacityIsSet(c: Capacity)
  {
    c.Count? && c.n != 0
  }

  datatype SearchFilters = SearchFilters(
    searchTerm: string,
    maxStudents: Capacity,
    hasProjector: bool,
    isOccupied: Option<bool>)

  /** ASCII-lower-cased `text` contains the ASCII-lower-cased `term`. */
  predicate MatchesTerm(text: string, term: string)
  {
    Includes(ToLower(text), ToLower(term))
  }

  /** An optional text (`classroom.currentTeacher?.toLowerCase().includes(...)`): absent never matches. */
  predicate MatchesOptionalTerm(text: Option<string>, term: string)
  {
    text.Some? && MatchesTerm(text.value, term)
  }

  /** The filter predicate of `searchByFilters`, as the early-return chain of the source. */
  function KeepRoom(f: SearchFilters, r: Room): bool
  {
    if f.isOccupied.Some? && f.isOccupied != r.isOccupied then false
    else if f.searchTerm != ""
      && !MatchesTerm(r.roomNumber, f.searchTerm)
      && !MatchesOptionalTerm(r.currentTeacher, f.searchTerm)
      && !MatchesOptionalTerm(r.currentSubject, f.searchTerm) then false
    else if CapacityIsSet(f.maxStudents) && r.maxStudents < f.maxStudents.n then false
    else if f.hasProjector && r.projectors == Some(0) then false
    else true
  }

  /** `KeepRoom` with its filters fixed, as handed to `filter`. */
  function Keeper(f: SearchFilters): Room -> bool
  {
    r => KeepRoom(f, r)
  }

  function SearchByFilters(rooms: seq<Room>, f: SearchFilters): seq<Room>
  {
    Seqs.Filter(Keeper(f), rooms)
  }

  // Each criterion on its own, stated independently of the early-return chain.

  /** A defined occupancy filter keeps exactly the rooms whose occupancy equals it. */
  ghost predicate OccupancyCriterion(f: SearchFilters, r: Room)
  {
    f.isOccupied.None? || r.isOccupied == Some(f.isOccupied.value)
  }

  /** A non-empty term must occur, ignoring ASCII case, in the room number, teacher or subject. */
  ghost predicate TermCriterion(f: SearchFilters, r: Room)
  {
    f.searchTerm == []
    || (exists i :: OccursAt(ToLower(r.roomNumber), ToLower(f.searchTerm), i))
    || (r.currentTeacher.Some? && exists i :: OccursAt(ToLower(r.currentTeacher.value), ToLower(f.searchTerm), i))
    || (r.currentSubject.Some? && exists i :: OccursAt(ToLower(r.currentSubject.value), ToLower(f.searchTerm), i))
  }

  /** A capacity other than `''` and `0` drops the rooms strictly smaller than it. */
  ghost predicate CapacityCriterion(f: SearchFilters, r: Room)
  {
    f.maxStudents == Unset || f.maxStudents == Count(0) || r.maxStudents >= f.maxStudents.n
  }

  /** Asking for a projector drops only the rooms that report exactly zero projectors. */
  ghost predicate ProjectorCriterion(f: SearchFilters, r: Room)
  {
    !f.hasProjector || r.projectors != Some(0)
  }

  /** A room survives `searchByFilters` exactly when it meets all four criteria. */
  lemma KeepRoomIffCriteria(f: SearchFilters, r: Room)
    ensures KeepRoom(f, r) <==>
      OccupancyCriterion(f, r) && TermCriterion(f, r) && CapacityCriterion(f, r) && ProjectorCriterion(f, r)
  {
    IncludesIffOccurs(ToLower(r.roomNumber), ToLower(f.searchTerm));
    if r.currentTeacher.Some? {
      IncludesIffOccurs(ToLower(r.currentTeacher.value), ToLower(f.searchTerm));
    }
    if r.currentSubject.Some? {
      IncludesIffOccurs(ToLower(r.currentSubject.value), ToLower(f.searchTerm));
    }
  }

  /** The result lists input rooms in their input order, and a room is listed iff it meets every criterion. */
  lemma SearchByFiltersSpec(rooms: seq<Room>, f: SearchFilters)
    ensures Seqs.IsSubsequence(SearchByFilters(rooms, f), rooms)
    ensures forall r :: r in SearchByFilters(rooms, f) <==>
      r in rooms && OccupancyCriterion(f, r) && TermCriterion(f, r) && CapacityCriterion(f, r) && ProjectorCriterion(f, r)
  {
    Seqs.FilterIsSubsequence(Keeper(f), rooms);
    forall r
      ensures r in SearchByFilters(rooms, f) <==>
        r in rooms && OccupancyCriterion(f, r) && TermCriterion(f, r) && CapacityCriterion(f, r) && ProjectorCriterion(f, r)
    {
      KeepRoomIffCriteria(f, r);
    }
  }

  /** The filters of an untouched search bar: no term, no capacity, no projector, any occupancy. */
  const NoFilters := SearchFilters("", Unset, false, None)

  /** With no filter set, every room comes back, in order. */
  lemma SearchWithoutFiltersKeepsAll(rooms: seq<Room>)
    ensures SearchByFilters(rooms, NoFilters) == rooms
  {
    Seqs.FilterKeepsAll(Keeper(NoFilters), rooms);
  }

  /** A capacity of `0` filters nothing, like `''`. */
  lemma ZeroCapacityDoesNotFilter(rooms: seq<Room>, f: SearchFilters)
    requires f.maxStudents == Count(0)
    ensures SearchByFilters(rooms, f) == SearchByFilters(rooms, f.(maxStudents := Unset))
  {
    Seqs.FilterCongruent(Keeper(f), Keeper(f.(maxStudents := Unset)), rooms);
  }
}
