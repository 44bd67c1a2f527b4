/** `classroomSchema` (src/schemas/classroomSchema.ts): per-field bounds on the room form. */
module ClassroomSchema {
  import opened Wrappers
  import opened Validation

  /** The form's fields; numbers are integers here. */
  datatype ClassroomInput = ClassroomInput(
    roomNumber: string, floor: int, building: string, desks: int, chairs: int,
    computers: Option<int>, hasProjector: Option<bool>, maxStudents: int)

  /** `safeParse(...).error.issues`, in field order. */
  function Issues(c: ClassroomInput): seq<Issue>
  {
    LengthIssues("roomNumber", c.roomNumber, 1, "Número da sala é obrigatório", 10, "Número da sala deve ter no máximo 10 caracteres")
    + RangeIssues("floor", c.floor, 0, "O andar deve ser maior ou igual a 0", 100, "O andar deve ser menor ou igual a 100")
    + LengthIssues("building", c.building, 1, "Prédio é obrigatório", 50, "Prédio deve ter no máximo 50 caracteres")
    + RangeIssues("desks", c.desks, 1, "Número de mesas deve ser maior que 0", 100, "Número de mesas deve ser menor ou igual a 100")
    + RangeIssues("chairs", c.chairs, 1, "Número de cadeiras deve ser maior que 0", 200, "Número de cadeiras deve ser menor ou igual a 200")
    + (match c.computers
       case None => []
       case Some(n) => RangeIssues("computers", n, 0, "Número de computadores deve ser maior ou igual a 0", 50, "Número de computadores deve ser menor ou igual a 50"))
    + RangeIssues("maxStudents", c.maxStudents, 1, "Capacidade máxima deve ser maior que 0", 200, "Capacidade máxima deve ser menor ou igual a 200")
  }

  predicate Valid(c: ClassroomInput)
  {
    Issues(c) == []
  }

  /** A room form is accepted iff each field is within its bounds; no rule relates two fields. */
  lemma ValidIff(c: ClassroomInput)
    ensures Valid(c) <==>
      1 <= |c.roomNumber| <= 10
      && 0 <= c.floor <= 100
      && 1 <= |c.building| <= 50
      && 1 <= c.desks <= 100
      && 1 <= c.chairs <= 200
      && (c.computers.None? || 0 <= c.computers.value <= 50)
      && 1 <= c.maxStudents <= 200
  {
  }

  /** An issue is reported only against a field of the form, never against `hasProjector`. */
  lemma IssuePaths(c: ClassroomInput)
    ensures Paths(Issues(c)) <= {"roomNumber", "floor", "building", "desks", "chairs", "computers", "maxStudents"}
  {
    forall i | 0 <= i < |Issues(c)|
      ensures Issues(c)[i].path in {"roomNumber", "floor", "building", "desks", "chairs", "computers", "maxStudents"}
    {
      var all := Issues(c);
      assert all[i] in all;
    }
  }

  /** Neither of the optional fields is required, and `hasProjector` is never checked. */
  lemma OptionalFieldsMayBeAbsent(c: ClassroomInput, p: Option<bool>)
    ensures Valid(c.(computers := None)) <==> Valid(c.(computers := None, hasProjector := p))
    ensures Valid(c) ==> Valid(c.(computers := None))
  {
    ValidIff(c);
    ValidIff(c.(computers := None));
    ValidIff(c.(computers := None, hasProjector := p));
  }

  /** The bounds are inclusive at both ends. */
  lemma BoundsAreInclusive()
    ensures Valid(ClassroomInput("A", 0, "B", 1, 1, Some(0), None, 1))
    ensures Valid(ClassroomInput("0123456789", 100, "B", 100, 200, Some(50), Some(true), 200))
    ensures !Valid(ClassroomInput("01234567890", 100, "B", 100, 200, Some(50), Some(true), 200))
  {
    ValidIff(ClassroomInput("A", 0, "B", 1, 1, Some(0), None, 1));
    ValidIff(ClassroomInput("0123456789", 100, "B", 100, 200, Some(50), Some(true), 200));
    ValidIff(ClassroomInput("01234567890", 100, "B", 100, 200, Some(50), Some(true), 200));
  }
}
