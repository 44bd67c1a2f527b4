/**
 * The booking dialog (src/components/OccupationForm.tsx): the weekday table, the toggle a
 * weekday button performs on the selected days, the summary line under the buttons and the
 * payload handed to `onSubmit`.
 */
module OccupationForm {
  import opened Wrappers
  import opened Text
  import opened Sorting
  import Seqs

  datatype DayOption = DayOption(value: int, caption: string)

  /** `DAYS_OF_WEEK`, Sunday first. */
  const DaysOfWeek: seq<DayOption> := [
    DayOption(0, "Domingo"),
    DayOption(1, "Segunda"),
    DayOption(2, "Terça"),
    DayOption(3, "Quarta"),
    DayOption(4, "Quinta"),
    DayOption(5, "Sexta"),
    DayOption(6, "Sábado")
  ]

  predicate IsDay(d: int)
  {
    0 <= d < |DaysOfWeek|
  }

  predicate AllDays(days: seq<int>)
  {
    forall i :: 0 <= i < |days| ==> IsDay(days[i])
  }

  /** `DAYS_OF_WEEK[day].caption`: indexing by the day finds the option whose value is that day. */
  function DayLabel(day: int): (l: string)
    requires IsDay(day)
    ensures exists k :: 0 <= k < |DaysOfWeek| && DaysOfWeek[k].value == day && DaysOfWeek[k].caption == l
    ensures forall k :: 0 <= k < |DaysOfWeek| && DaysOfWeek[k].caption == l ==> DaysOfWeek[k].value == day
  {
    DaysOfWeek[day].caption
  }

  function IsNot(d: int): int -> bool
  {
    x => x != d
  }

  /** The state update of `handleDayClick`: drop the day if selected, otherwise add it and sort ascending. */
  function ToggleDay(days: seq<int>, d: int): seq<int>
  {
    if d in days then Seqs.Filter(IsNot(d), days) else Sort(days + [d])
  }

  /** Toggling flips the membership of the toggled day and keeps that of every other day. */
  lemma ToggleFlipsMembership(days: seq<int>, d: int)
    ensures d in ToggleDay(days, d) <==> d !in days
    ensures forall x :: x != d ==> (x in ToggleDay(days, d) <==> x in days)
  {
    var r := ToggleDay(days, d);
    if d !in days {
      assert multiset(r) == multiset(days) + multiset{d};
      forall x ensures x in r <==> x == d || x in days {
        assert x in r <==> x in multiset(r);
        assert x in days <==> x in multiset(days);
      }
    }
  }

  /** Removing a selected day keeps the other days in their order and drops every copy of it. */
  lemma ToggleOffSpec(days: seq<int>, d: int)
    requires d in days
    ensures ToggleDay(days, d) == Seqs.Filter(IsNot(d), days)
    ensures Seqs.IsSubsequence(ToggleDay(days, d), days)
    ensures d !in ToggleDay(days, d)
  {
    Seqs.FilterIsSubsequence(IsNot(d), days);
  }

  /** Adding a day not selected gives the old days plus that day, in ascending order. */
  lemma ToggleOnSpec(days: seq<int>, d: int)
    requires d !in days
    ensures Sorted(ToggleDay(days, d))
    ensures multiset(ToggleDay(days, d)) == multiset(days) + multiset{d}
  {
  }

  lemma StrictlySortedIsSorted(s: seq<int>)
    requires StrictlySorted(s)
    ensures Sorted(s)
  {
  }

  /** A sorted list without repetitions stays so under a toggle. */
  lemma ToggleKeepsStrictlySorted(days: seq<int>, d: int)
    requires StrictlySorted(days)
    ensures StrictlySorted(ToggleDay(days, d))
  {
    if d in days {
      Seqs.FilterIsSubsequence(IsNot(d), days);
      SubsequenceStrictlySorted(Seqs.Filter(IsNot(d), days), days);
    } else {
      StrictlySortedIsSorted(days);
      SortAppendIsInsert(days, d);
      InsertStrictlySorted(d, days);
    }
  }

  /** Toggles keep the selection within the table's days. */
  lemma ToggleKeepsDays(days: seq<int>, d: int)
    requires AllDays(days) && IsDay(d)
    ensures AllDays(ToggleDay(days, d))
  {
    var r := ToggleDay(days, d);
    ToggleFlipsMembership(days, d);
    forall i | 0 <= i < |r| ensures IsDay(r[i]) {
      assert r[i] in r;
      if r[i] != d {
        var k :| 0 <= k < |days| && days[k] == r[i];
      }
    }
  }

  /** Pressing the same day button twice gives back a sorted selection without repetitions. */
  lemma ToggleTwice(days: seq<int>, d: int)
    requires StrictlySorted(days)
    ensures ToggleDay(ToggleDay(days, d), d) == days
  {
    var once := ToggleDay(days, d);
    ToggleKeepsStrictlySorted(days, d);
    ToggleKeepsStrictlySorted(once, d);
    ToggleFlipsMembership(days, d);
    ToggleFlipsMembership(once, d);
    StrictlySortedUnique(ToggleDay(once, d), days);
  }

  /** `array.join(sep)`. */
  function Join(parts: seq<string>, sep: string): string
    decreases |parts|
  {
    if parts == [] then ""
    else if |parts| == 1 then parts[0]
    else Join(parts[..|parts| - 1], sep) + sep + parts[|parts| - 1]
  }

  function DayLabels(days: seq<int>): (labels: seq<string>)
    requires AllDays(days)
    ensures |labels| == |days|
    ensures forall i :: 0 <= i < |days| ==> labels[i] == DayLabel(days[i])
  {
    seq(|days|, i requires 0 <= i < |days| => DayLabel(days[i]))
  }

  const SummaryPrefix := "Dias selecionados: "

  /** The helper text under the buttons: shown only when some day is selected. */
  function SelectedDaysText(days: seq<int>): (text: Option<string>)
    requires AllDays(days)
    ensures text.None? <==> days == []
    ensures text.Some? ==> StartsWith(text.value, SummaryPrefix)
  {
    if |days| > 0 then
      var t := SummaryPrefix + Join(DayLabels(days), ", ");
      assert t[..|SummaryPrefix|] == SummaryPrefix;
      Some(t)
    else None
  }

  /** Adding one more day extends the summary by a comma and that day's label. */
  lemma SummaryGrowsByLabel(days: seq<int>, d: int)
    requires AllDays(days) && days != [] && IsDay(d)
    ensures AllDays(days + [d])
    ensures SelectedDaysText(days + [d]) == Some(SelectedDaysText(days).value + ", " + DayLabel(d))
  {
    var labels := DayLabels(days + [d]);
    assert labels[..|labels| - 1] == DayLabels(days);
    assert labels[|labels| - 1] == DayLabel(d);
    var before := Join(DayLabels(days), ", ");
    assert Join(labels, ", ") == before + ", " + DayLabel(d);
    assert SummaryPrefix + (before + ", " + DayLabel(d)) == (SummaryPrefix + before) + ", " + DayLabel(d);
  }

  /** Selecting a single day from nothing shows just its label. */
  lemma SummaryOfOneDay(d: int)
    requires IsDay(d)
    ensures AllDays(ToggleDay([], d))
    ensures SelectedDaysText(ToggleDay([], d)) == Some(SummaryPrefix + DayLabel(d))
  {
    assert ToggleDay([], d) == Insert(d, []) by { SortAppendIsInsert([], d); }
    assert Insert(d, []) == [d];
  }

  /** The text fields read from the submitted form. */
  datatype FormValues = FormValues(startDate: string, endDate: string, startTime: string, endTime: string)

  /** The object passed to `onSubmit`. */
  datatype OccupationPayload = OccupationPayload(
    teacher: string, subject: string,
    startDate: string, endDate: string, startTime: string, endTime: string,
    daysOfWeek: seq<int>)

  /**
   * The payload built by `onFormSubmit`: the user's e-mail (`currentUser?.email || ''`),
   * the chosen discipline's name (`selectedDiscipline?.baseDiscipline?.name || ''`), the
   * form's dates and times, and the selected days as they are.
   */
  function Payload(userEmail: Option<string>, disciplineName: Option<string>, values: FormValues, selectedDays: seq<int>): (p: OccupationPayload)
    ensures p.daysOfWeek == selectedDays
    ensures p.teacher == "" <==> userEmail.None? || userEmail.value == ""
    ensures p.teacher != "" ==> userEmail == Some(p.teacher)
    ensures p.subject != "" ==> disciplineName == Some(p.subject)
    ensures disciplineName.Some? ==> p.subject == disciplineName.value
    ensures p.startDate == values.startDate && p.endDate == values.endDate
    ensures p.startTime == values.startTime && p.endTime == values.endTime
  {
    OccupationPayload(
      if userEmail.Some? then userEmail.value else "",
      if disciplineName.Some? then disciplineName.value else "",
      values.startDate, values.endDate, values.startTime, values.endTime,
      selectedDays)
  }

  /** The dialog's day selection: `selectedDays` and its copy in the form (`setValue('daysOfWeek', …)`). */
  class DayPicker {
    var selectedDays: seq<int>
    var formDays: seq<int>

    predicate Valid()
      reads this
    {
      StrictlySorted(selectedDays) && formDays == selectedDays
    }

    constructor ()
      ensures Valid() && selectedDays == []
    {
      selectedDays := [];
      formDays := [];
    }

    /** `handleDayClick`. */
    method HandleDayClick(d: int)
      requires Valid()
      modifies this
      ensures Valid()
      ensures selectedDays == ToggleDay(old(selectedDays), d)
      ensures AllDays(old(selectedDays)) && IsDay(d) ==> AllDays(selectedDays)
    {
      var newDays := ToggleDay(selectedDays, d);
      ToggleKeepsStrictlySorted(selectedDays, d);
      if AllDays(selectedDays) && IsDay(d) {
        ToggleKeepsDays(selectedDays, d);
      }
      formDays := newDays;
      selectedDays := newDays;
    }

    /** `onFormSubmit`: the payload handed on; the selection itself is not checked here. */
    method Submit(userEmail: Option<string>, disciplineName: Option<string>, values: FormValues) returns (p: OccupationPayload)
      ensures p == Payload(userEmail, disciplineName, values, selectedDays)
      ensures p.daysOfWeek == selectedDays
    {
      p := Payload(userEmail, disciplineName, values, selectedDays);
    }
  }
}
