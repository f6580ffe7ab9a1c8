/** The booking page's own state: the chosen exam, date and time slot, the
    calendar's disabled days, the slot buttons and the summary box. Dates
    are time values (milliseconds), so "earlier than now" is `<` on them. */
module BookingPage {

  import opened Options
  import opened Tables

  /** One entry of the exam menu. */
  datatype ExamOption = ExamOption(id: string, name: string, duration: string, fee: string)

  const ExamOptions: seq<ExamOption> := [
    ExamOption("ielts", "IELTS Academic", "2 hours 45 min", "$245"),
    ExamOption("toefl", "TOEFL iBT", "3 hours", "$225"),
    ExamOption("pte", "PTE Academic", "2 hours", "$200"),
    ExamOption("duolingo", "Duolingo English Test", "1 hour", "$49")
  ]

  const TimeSlots: seq<string> := ["09:00 AM", "10:30 AM", "12:00 PM", "02:00 PM", "03:30 PM", "05:00 PM"]

  const NotSelected := "Not selected"
  const NoFee := "$0"

  /** `selectedDate`, `selectedExam` and `selectedTime`; the empty string
      means nothing is chosen. */
  datatype Selection = Selection(date: int, exam: string, time: string)

  /** On first render the date is the current moment and nothing else is
      chosen. */
  function Init(now: int): (s: Selection)
    ensures s.date == now && s.exam == "" && s.time == ""
  {
    Selection(now, "", "")
  }

  function SelectExam(s: Selection, id: string): (r: Selection)
    ensures r.exam == id && r.date == s.date && r.time == s.time
  {
    s.(exam := id)
  }

  function SelectTime(s: Selection, time: string): (r: Selection)
    ensures r.time == time && r.date == s.date && r.exam == s.exam
  {
    s.(time := time)
  }

  /** The calendar greys out every day earlier than the current moment; a
      day's time value is its midnight, so today itself is greyed out too
      once the day has begun. */
  predicate DateDisabled(day: int, now: int)
  {
    day < now
  }

  /** `onSelect`: a cleared selection falls back to the current moment. */
  function OnSelectDate(s: Selection, picked: Option<int>, now: int): (r: Selection)
    ensures picked.Some? ==> r.date == picked.value
    ensures picked.None? ==> r.date == now
    ensures r.exam == s.exam && r.time == s.time
  {
    s.(date := picked.GetOr(now))
  }

  /** Since the calendar offers only days that are not greyed out, a date
      chosen on it is never earlier than the moment of choosing, and the
      selection is never left empty. */
  lemma PickedDateNotInPast(s: Selection, picked: Option<int>, now: int)
    requires picked.Some? ==> !DateDisabled(picked.value, now)
    ensures OnSelectDate(s, picked, now).date >= now
  {
  }

  /** The key `examTypes.find(e => e.id === id)` compares. */
  function OptionId(e: ExamOption): string { e.id }

  /** The menu's ids are distinct. */
  predicate DistinctIds(options: seq<ExamOption>)
  {
    forall i, j :: 0 <= i < j < |options| ==> options[i].id != options[j].id
  }

  /** With distinct ids, looking up an option's id finds that option. */
  lemma FindListed(options: seq<ExamOption>, k: nat)
    requires DistinctIds(options) && k < |options|
    ensures FindBy(options, OptionId, options[k].id) == Some(options[k])
  {
    var id := options[k].id;
    var r := FindBy(options, OptionId, id);
    assert OptionId(options[k]) == id;
    var i :| 0 <= i < |options| && options[i] == r.value && OptionId(r.value) == id
             && forall j :: 0 <= j < i ==> OptionId(options[j]) != id;
    assert i == k;
  }

  /** The "Exam:" line: "Not selected" before a choice; otherwise the name
      of the matching option, or nothing when no option matches. */
  function ExamSummary(s: Selection): (r: string)
    ensures s.exam == "" ==> r == NotSelected
    ensures s.exam != "" ==> match FindBy(ExamOptions, OptionId, s.exam)
                             case Some(e) => r == e.name
                             case None => r == ""
  {
    if s.exam == "" then NotSelected
    else match FindBy(ExamOptions, OptionId, s.exam)
      case Some(e) => e.name
      case None => ""
  }

  /** The "Time:" line. */
  function TimeSummary(s: Selection): (r: string)
    ensures s.time == "" ==> r == NotSelected
    ensures s.time != "" ==> r == s.time
  {
    if s.time == "" then NotSelected else s.time
  }

  /** The "Total:" line: the chosen option's fee, "$0" before a choice. */
  function TotalSummary(s: Selection): (r: string)
    ensures s.exam == "" ==> r == NoFee
    ensures s.exam != "" ==> match FindBy(ExamOptions, OptionId, s.exam)
                             case Some(e) => r == e.fee
                             case None => r == ""
  {
    if s.exam == "" then NoFee
    else match FindBy(ExamOptions, OptionId, s.exam)
      case Some(e) => e.fee
      case None => ""
  }

  /** A slot button takes the filled style exactly when it is the chosen
      time. */
  function SlotButtons(s: Selection): (r: seq<bool>)
    ensures |r| == |TimeSlots|
    ensures forall i :: 0 <= i < |r| ==> (r[i] <==> TimeSlots[i] == s.time)
  {
    seq(|TimeSlots|, i requires 0 <= i < |TimeSlots| => TimeSlots[i] == s.time)
  }

  /** Choosing any menu entry puts its name and fee in the summary. */
  lemma SummaryShowsChosenExam(s: Selection, k: nat)
    requires k < |ExamOptions|
    ensures ExamSummary(SelectExam(s, ExamOptions[k].id)) == ExamOptions[k].name
    ensures TotalSummary(SelectExam(s, ExamOptions[k].id)) == ExamOptions[k].fee
  {
    assert DistinctIds(ExamOptions);
    FindListed(ExamOptions, k);
  }

  /** Clicking a time slot puts it on the "Time:" line and leaves the
      exam and fee lines as they were. */
  lemma SummaryShowsChosenTime(s: Selection, k: nat)
    requires k < |TimeSlots|
    ensures TimeSummary(SelectTime(s, TimeSlots[k])) == TimeSlots[k]
    ensures ExamSummary(SelectTime(s, TimeSlots[k])) == ExamSummary(s)
    ensures TotalSummary(SelectTime(s, TimeSlots[k])) == TotalSummary(s)
  {
  }

  /** An exam id the menu does not list leaves the name and fee blank,
      because `find` yields `undefined`. */
  lemma UnknownExamShowsBlank(s: Selection, id: string)
    requires id != ""
    requires forall i :: 0 <= i < |ExamOptions| ==> ExamOptions[i].id != id
    ensures ExamSummary(SelectExam(s, id)) == ""
    ensures TotalSummary(SelectExam(s, id)) == ""
  {
  }

  /** Clicking a slot button highlights that button and no other. */
  lemma {:induction false} ExactlyOneSlotHighlighted(s: Selection, k: nat)
    requires k < |TimeSlots|
    ensures var buttons := SlotButtons(SelectTime(s, TimeSlots[k]));
            buttons[k] && forall i :: 0 <= i < |buttons| && i != k ==> !buttons[i]
  {
    var buttons := SlotButtons(SelectTime(s, TimeSlots[k]));
    forall i | 0 <= i < |buttons| && i != k ensures !buttons[i] {
      assert TimeSlots[i] != TimeSlots[k];
    }
  }

  /** The opening summary, and the summary stays untouched by date
      choices. */
  lemma OpeningSummary(now: int, picked: Option<int>)
    ensures var s := Init(now);
            && ExamSummary(s) == NotSelected && TimeSummary(s) == NotSelected && TotalSummary(s) == NoFee
            && ExamSummary(OnSelectDate(s, picked, now)) == NotSelected
  {
  }
}
