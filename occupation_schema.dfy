/** `occupationSchema` (src/schemas/occupationSchema.ts): per-field rules on the booking form. */
module OccupationSchema {
  import opened Validation
  import opened Wrappers
  import OccupationForm

  datatype OccupationInput = OccupationInput(
    teacher: string, disciplina: string,
    startDate: string, endDate: string, startTime: string, endTime: string,
    daysOfWeek: seq<int>)

  /** `safeParse(...).error.issues`, in field order. */
  function Issues(o: OccupationInput): seq<Issue>
  {
    MinLengthIssues("teacher", o.teacher, 1, "Professor é obrigatório")
    + LengthIssues("disciplina", o.disciplina, 3, "Disciplina deve ter no mínimo 3 caracteres", 100, "Disciplina deve ter no máximo 100 caracteres")
    + MinLengthIssues("startDate", o.startDate, 1, "Data inicial é obrigatória")
    + MinLengthIssues("endDate", o.endDate, 1, "Data final é obrigatória")
    + MinLengthIssues("startTime", o.startTime, 1, "Horário inicial é obrigatório")
    + MinLengthIssues("endTime", o.endTime, 1, "Horário final é obrigatório")
    + RangeIssues("daysOfWeek", |o.daysOfWeek|, 1, "Selecione pelo menos um dia da semana", 7, "Máximo de 7 dias da semana")
  }

  predicate Valid(o: OccupationInput)
  {
    Issues(o) == []
  }

  /** A booking form is accepted iff each field meets its own rule. */
  lemma ValidIff(o: OccupationInput)
    ensures Valid(o) <==>
      o.teacher != ""
      && 3 <= |o.disciplina| <= 100
      && o.startDate != "" && o.endDate != "" && o.startTime != "" && o.endTime != ""
      && 1 <= |o.daysOfWeek| <= 7
  {
  }

  /**
   * Only the number of selected days matters: their values, their order and repetitions are
   * not checked, and neither is the order of the dates or of the times.
   */
  lemma DaysAreCountedOnly(o: OccupationInput, days: seq<int>, startDate: string, endDate: string)
    requires |days| == |o.daysOfWeek|
    requires (startDate == "") == (o.startDate == "") && (endDate == "") == (o.endDate == "")
    ensures Valid(o) <==> Valid(o.(daysOfWeek := days, startDate := startDate, endDate := endDate))
  {
    ValidIff(o);
    ValidIff(o.(daysOfWeek := days, startDate := startDate, endDate := endDate));
  }

  /** A form naming the same unknown day seven times, ending before it starts, passes. */
  lemma NoRangeOrOrderCheck()
    ensures Valid(OccupationInput("t", "Redes", "2025-12-31", "2025-01-01", "18:00", "08:00", [9, 9, 9, 9, 9, 9, 9]))
  {
    ValidIff(OccupationInput("t", "Redes", "2025-12-31", "2025-01-01", "18:00", "08:00", [9, 9, 9, 9, 9, 9, 9]));
  }

  /** The values the schema would see for a submitted payload (`subject` is the form's `disciplina`). */
  function FromPayload(p: OccupationForm.OccupationPayload): OccupationInput
  {
    OccupationInput(p.teacher, p.subject, p.startDate, p.endDate, p.startTime, p.endTime, p.daysOfWeek)
  }

  /**
   * The dialog submits through its own `onSubmit` handler, not through the form library's,
   * so the schema is not applied: a payload with no day selected is handed on although the
   * schema rejects it.
   */
  lemma SubmitSkipsSchema(email: string, name: string, values: OccupationForm.FormValues)
    ensures var p := OccupationForm.Payload(Some(email), Some(name), values, []);
      p.daysOfWeek == [] && !Valid(FromPayload(p))
      && Issue("daysOfWeek", "Selecione pelo menos um dia da semana") in Issues(FromPayload(p))
  {
  }
}
