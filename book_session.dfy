/** The session booking page: a month grid of day buttons, a list of time slots, and a
    summary that labels the chosen date and time. */
module BookSession {
  import opened Options
  import opened Strings

  const SelectedMonth := "June 2023"

  const TimeSlots: seq<string> := [
    "0:00 AM - 1:00 PM", "0:00 PM - 1:00 PM",
    "1:00 PM - 2:00 PM", "1:00 PM - 4:00 PM",
    "2:00 PM - 4:00 PM", "3:00 PM - 5:00 PM",
    "4:00 PM - 5:00 PM", "4:00 PM - 5:00 PM",
    "5:00 PM - 6:00 PM"]

  const Days: seq<string> := ["Su", "Mo", "Tu", "We", "Th", "Fr", "Sa"]

  /** Leading blank cells: the month starts on the fifth column, a Thursday. */
  const LeadingBlanks: nat := 4
  const DaysInMonth: nat := 30

  /** Four blank cells, then one cell per day 1..30 in order. */
  predicate MonthGrid(cells: seq<Option<nat>>) {
    && |cells| == LeadingBlanks + DaysInMonth
    && (forall k :: 0 <= k < LeadingBlanks ==> cells[k].None?)
    && (forall k :: LeadingBlanks <= k < |cells| ==> cells[k] == Some(k - LeadingBlanks + 1))
  }

  /** `calendarDays`, built by two loops. */
  method CalendarDays() returns (cells: seq<Option<nat>>)
    ensures MonthGrid(cells)
  {
    cells := [];
    var i := 0;
    while i < LeadingBlanks
      invariant 0 <= i <= LeadingBlanks && |cells| == i
      invariant forall k :: 0 <= k < i ==> cells[k].None?
    {
      cells := cells + [None];
      i := i + 1;
    }
    i := 1;
    while i <= DaysInMonth
      invariant 1 <= i <= DaysInMonth + 1 && |cells| == LeadingBlanks + i - 1
      invariant forall k :: 0 <= k < LeadingBlanks ==> cells[k].None?
      invariant forall k :: LeadingBlanks <= k < |cells| ==> cells[k] == Some(k - LeadingBlanks + 1)
    {
      cells := cells + [Some(i)];
      i := i + 1;
    }
  }

  /** In such a grid every day of the month has exactly one cell, and no cell holds
      anything else. */
  lemma EachDayOnce(cells: seq<Option<nat>>, d: nat)
    requires MonthGrid(cells)
    ensures 1 <= d <= DaysInMonth ==> forall k :: 0 <= k < |cells| ==> (cells[k] == Some(d) <==> k == d + LeadingBlanks - 1)
    ensures (d == 0 || d > DaysInMonth) ==> forall k :: 0 <= k < |cells| ==> cells[k] != Some(d)
  {
  }

  /** The weekday heading above day `d`'s cell. */
  function WeekdayOf(d: nat): string
    requires 1 <= d <= DaysInMonth
  {
    Days[(d + LeadingBlanks - 1) % 7]
  }

  lemma MonthWeekdays()
    ensures WeekdayOf(1) == "Th" && WeekdayOf(30) == "Fr"
  {
  }

  /** A day button is highlighted exactly when it is the selected date. */
  predicate DayHighlighted(day: nat, selectedDate: Option<nat>) {
    selectedDate == Some(day)
  }

  /** At most one cell of the grid is highlighted. */
  lemma OneDayHighlighted(cells: seq<Option<nat>>, selectedDate: Option<nat>, k: nat, m: nat)
    requires MonthGrid(cells)
    requires k < |cells| && m < |cells| && cells[k].Some? && cells[m].Some?
    requires DayHighlighted(cells[k].value, selectedDate) && DayHighlighted(cells[m].value, selectedDate)
    ensures k == m
  {
  }

  /** A time slot button is highlighted when its whole text equals the selected slot. */
  predicate SlotHighlighted(slot: string, selectedSlot: Option<string>) {
    selectedSlot == Some(slot)
  }

  /** The two "4:00 PM - 5:00 PM" buttons are the same text, so picking either lights both,
      and nothing else. */
  lemma DuplicateSlotHighlight(chosen: nat)
    requires chosen == 6 || chosen == 7
    ensures forall k :: 0 <= k < |TimeSlots| ==>
      (SlotHighlighted(TimeSlots[k], Some(TimeSlots[chosen])) <==> k == 6 || k == 7)
  {
    assert TimeSlots[0][0] != '4' && TimeSlots[1][0] != '4' && TimeSlots[2][0] != '4';
    assert TimeSlots[3][0] != '4' && TimeSlots[4][0] != '4' && TimeSlots[5][0] != '4';
    assert TimeSlots[8][0] != '4' && TimeSlots[6][0] == '4';
  }

  /** The month's name: the text before the first space of "June 2023". */
  function MonthName(): (r: string)
    ensures r == "June"
  {
    MonthSplit();
    Split(SelectedMonth, " ")[0]
  }

  lemma MonthSplit()
    ensures Split(SelectedMonth, " ")[0] == "June"
  {
    assert SelectedMonth == "June" + " " + "2023";
    assert NoOccurrenceBefore("June" + " " + "2023", " ", 4) by {
      NoCharOccurrence("June", ' ', " 2023");
      assert "June" + " 2023" == "June" + " " + "2023";
    }
    SplitAtFirst("June", " ", "2023");
  }

  /** The summary's date: "June d" for a selected day, "Not selected" when there is none
      (a day of 0 counts as none, as it is falsy). */
  function DateLabel(selectedDate: Option<nat>): (r: string)
    ensures selectedDate.Some? && selectedDate.value != 0 ==> r == "June " + NatToString(selectedDate.value)
    ensures selectedDate.None? || selectedDate.value == 0 ==> r == "Not selected"
  {
    if selectedDate.Some? && selectedDate.value != 0 then
      var month := MonthName();
      assert month + " " == "June ";
      month + " " + NatToString(selectedDate.value)
    else "Not selected"
  }

  /** The summary's time: the selected slot's text up to its first " - ", or "Not selected"
      when there is none (an empty slot text is falsy). */
  function TimeLabel(selectedSlot: Option<string>): (r: string)
    ensures selectedSlot.None? || selectedSlot.value == "" ==> r == "Not selected"
    ensures selectedSlot.Some? && selectedSlot.value != "" ==> r <= selectedSlot.value
    ensures selectedSlot.Some? && selectedSlot.value != "" ==> NoOccurrenceBefore(selectedSlot.value, " - ", |r|)
    ensures selectedSlot.Some? && selectedSlot.value != "" ==>
              r == selectedSlot.value || OccursAt(selectedSlot.value, " - ", |r|)
  {
    if selectedSlot.Some? && selectedSlot.value != "" then
      FirstPiece(selectedSlot.value, " - ");
      Split(selectedSlot.value, " - ")[0]
    else "Not selected"
  }

  /** A slot written "start - end" with no '-' in its start is labelled by its start. */
  lemma TimeLabelOfRange(start: string, end: string)
    requires '-' !in start
    ensures TimeLabel(Some(start + " - " + end)) == start
  {
    var s := start + " - " + end;
    forall j | 0 <= j < |start| ensures !OccursAt(s, " - ", j) {
      if j + 3 <= |s| {
        assert s[j..j + 3][1] == s[j + 1];
        if j + 1 < |start| {
          assert s[j + 1] == start[j + 1];
        } else {
          assert s[j + 1] == ' ';
        }
      }
    }
    SplitAtFirst(start, " - ", end);
  }

  /** A slot "a - b" whose first " - " is the one after `a` is labelled by `a`, whatever
      `a` and `b` hold otherwise. */
  lemma TimeLabelOfFirst(a: string, b: string)
    requires NoOccurrenceBefore(a + " - " + b, " - ", |a|)
    ensures TimeLabel(Some(a + " - " + b)) == a
  {
    SplitAtFirst(a, " - ", b);
  }

  /** A slot text without " - " is shown whole. */
  lemma TimeLabelWithoutSeparator(s: string)
    requires s != "" && NoOccurrenceBefore(s, " - ", |s|)
    ensures TimeLabel(Some(s)) == s
  {
    SplitWithout(s, " - ");
  }

  /** "hh:mm XM - ...": a seven-character start free of '-', then " - ". */
  predicate RangeShaped(s: string) {
    |s| >= 10 && s[7] == ' ' && s[8] == '-' && s[9] == ' ' && forall j :: 0 <= j < 7 ==> s[j] != '-'
  }

  lemma TimeLabelOfShaped(s: string)
    requires RangeShaped(s)
    ensures TimeLabel(Some(s)) == s[..7]
  {
    assert s == s[..7] + " - " + s[10..];
    TimeLabelOfRange(s[..7], s[10..]);
  }

  lemma SlotShaped(k: nat)
    requires k < |TimeSlots|
    ensures RangeShaped(TimeSlots[k])
  {
  }

  /** Every slot of the list is labelled by its seven-character start time; the first one,
      for instance, by "0:00 AM". */
  lemma SlotLabelsAreStartTimes()
    ensures forall k :: 0 <= k < |TimeSlots| ==> TimeLabel(Some(TimeSlots[k])) == TimeSlots[k][..7]
    ensures TimeLabel(Some(TimeSlots[0])) == "0:00 AM"
  {
    forall k | 0 <= k < |TimeSlots| ensures TimeLabel(Some(TimeSlots[k])) == TimeSlots[k][..7] {
      SlotShaped(k);
      TimeLabelOfShaped(TimeSlots[k]);
    }
  }

  /** The page's selection state. */
  class BookingPage {
    var selectedDate: Option<nat>
    var selectedSlot: Option<string>

    constructor()
      ensures selectedDate.None? && selectedSlot.None?
    {
      selectedDate := None;
      selectedSlot := None;
    }

    /** Clicking a day replaces any earlier choice of day. */
    method SelectDate(day: nat)
      modifies this
      ensures selectedDate == Some(day) && selectedSlot == old(selectedSlot)
    {
      selectedDate := Some(day);
    }

    /** Clicking a slot replaces any earlier choice of slot. */
    method SelectSlot(slot: string)
      modifies this
      ensures selectedSlot == Some(slot) && selectedDate == old(selectedDate)
    {
      selectedSlot := Some(slot);
    }
  }
}
