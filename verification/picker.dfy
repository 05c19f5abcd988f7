/** The date-range picker's popup: its state, how initialisation normalises the
    selected dates, and the open / close / toggle / outside-click transitions.

    Every transition is a pure function from the picker's state to the next
    state together with the notifications it raises, in the order it raises
    them. */
module Picker {
  import opened Optional
  import opened Calendar
  import opened Ranges

  datatype DayOfWeek = Sunday | Monday | Tuesday | Wednesday | Thursday | Friday | Saturday

  /** A calendar panel, reduced to the first day of week it was built with and
      the year and month it shows. */
  datatype CalendarType = CalendarType(firstDayOfWeek: DayOfWeek, month: YearMonth)

  /** The component parameters the modelled operations read; `null` is `None`. */
  datatype Settings = Settings(
    autoApply: Option<bool>,
    singleDatePicker: Option<bool>,
    closeOnOutsideClick: Option<bool>,
    autoAdjustCalendars: Option<bool>,
    ranges: Option<seq<RangeEntry>>,
    customRangeLabel: Option<string>,
    firstDayOfWeek: Option<DayOfWeek>)

  /** The picker's state. `oldStartValue`/`oldEndValue` are the selection as it
      was when the popup last opened, kept for rolling back. */
  datatype Picker = Picker(
    settings: Settings,
    startDate: Option<Ticks>,
    endDate: Option<Ticks>,
    oldStartValue: Option<Ticks>,
    oldEndValue: Option<Ticks>,
    chosenLabel: Option<string>,
    calendarsVisible: bool,
    visible: bool,
    leftCalendar: CalendarType,
    rightCalendar: CalendarType)

  /** Notifications raised to the host: `OnOpened`, `OnClosed`, and `OnCancel`
      carrying whether the cancel was explicit (`false` for an outside click). */
  datatype Event = Opened | Closed | Cancel(explicit: bool)

  /** A transition's result: the next state and the notifications raised. */
  datatype Step = Step(picker: Picker, events: seq<Event>)

  // ---------------------------------------------------------------------------
  // Calendars

  /** The month the right calendar is anchored to before the collision rule:
      that of the end date, or of one month from now when there is none. */
  function RightAnchor(endDate: Option<Ticks>, now: Ticks): (r: YearMonth)
    ensures r.Valid()
    ensures endDate.Some? ==> FirstDayOf(r) <= Day(endDate.value) < FirstDayOf(Next(r))
    ensures endDate.None? ==> r.Index() == MonthOfTicks(now).Index() + 1
  {
    match endDate
    case Some(e) => MonthOfTicks(e)
    case None => Next(MonthOfTicks(now))
  }

  /** Points the left calendar at the start date's month (or now's) and the right
      one at the end date's month (or next month's), moving the right one on by
      a month when both would show the same month. */
  function AdjustCalendars(p: Picker, now: Ticks): (r: Picker)
    ensures r == p.(leftCalendar := r.leftCalendar, rightCalendar := r.rightCalendar)
    ensures r.leftCalendar.firstDayOfWeek == p.leftCalendar.firstDayOfWeek
    ensures r.rightCalendar.firstDayOfWeek == p.rightCalendar.firstDayOfWeek
    ensures r.leftCalendar.month.Valid() && r.rightCalendar.month.Valid()
    ensures FirstDayOf(r.leftCalendar.month) <= Day(p.startDate.GetOr(now)) < FirstDayOf(Next(r.leftCalendar.month))
    ensures r.rightCalendar.month == RightAnchor(p.endDate, now) <==>
              RightAnchor(p.endDate, now) != r.leftCalendar.month
    ensures RightAnchor(p.endDate, now) == r.leftCalendar.month ==>
              r.rightCalendar.month.Index() == r.leftCalendar.month.Index() + 1
    ensures r.leftCalendar.month != r.rightCalendar.month
  {
    var left := MonthOfTicks(p.startDate.GetOr(now));
    var anchor := RightAnchor(p.endDate, now);
    var right := if left == anchor then Next(anchor) else anchor;
    NextRollsOver(anchor);
    p.(leftCalendar := p.leftCalendar.(month := left),
       rightCalendar := p.rightCalendar.(month := right))
  }

  function ShowCalendars(p: Picker): (r: Picker)
    ensures r.calendarsVisible
    ensures r == p.(calendarsVisible := r.calendarsVisible)
  {
    p.(calendarsVisible := true)
  }

  function HideCalendars(p: Picker): (r: Picker)
    ensures !r.calendarsVisible
    ensures r == p.(calendarsVisible := r.calendarsVisible)
  {
    p.(calendarsVisible := false)
  }

  // ---------------------------------------------------------------------------
  // Initialisation

  /** The picker as `OnInitialized` leaves it, given the parameters it was created
      with, the culture's first day of week and the current time. The start date
      is truncated to its day, the end date is pushed to the last tick of its day,
      a single-date picker always applies automatically, and both calendars are
      built and positioned. */
  function Initialize(settings: Settings, startDate: Option<Ticks>, endDate: Option<Ticks>, visible: bool,
                      cultureFirstDay: DayOfWeek, now: Ticks): (r: Picker)
    ensures r.startDate.Some? <==> startDate.Some?
    ensures startDate.Some? ==>
              Day(r.startDate.value) == Day(startDate.value) && r.startDate.value % TicksPerDay == 0
    ensures r.endDate.Some? <==> endDate.Some?
    ensures endDate.Some? ==>
              Day(r.endDate.value) == Day(endDate.value) && r.endDate.value % TicksPerDay == TicksPerDay - 1
    ensures IsTrue(settings.singleDatePicker) ==> IsTrue(r.settings.autoApply)
    ensures !IsTrue(settings.singleDatePicker) ==> r.settings.autoApply == settings.autoApply
    ensures r.settings.firstDayOfWeek.Some?
    ensures settings.firstDayOfWeek.Some? ==> r.settings.firstDayOfWeek == settings.firstDayOfWeek
    ensures settings.firstDayOfWeek.None? ==> r.settings.firstDayOfWeek == Some(cultureFirstDay)
    ensures r.settings == settings.(autoApply := r.settings.autoApply, firstDayOfWeek := r.settings.firstDayOfWeek)
    ensures r.leftCalendar.firstDayOfWeek == r.settings.firstDayOfWeek.value
    ensures r.rightCalendar.firstDayOfWeek == r.settings.firstDayOfWeek.value
    ensures r.leftCalendar.month == MonthOfTicks(startDate.GetOr(now))
    ensures r.rightCalendar.month == RightAnchor(endDate, now) <==>
              RightAnchor(endDate, now) != r.leftCalendar.month
    ensures RightAnchor(endDate, now) == r.leftCalendar.month ==>
              r.rightCalendar.month == Next(r.leftCalendar.month)
    ensures r.leftCalendar.month != r.rightCalendar.month
    ensures r.visible == visible
    ensures r.oldStartValue.None? && r.oldEndValue.None? && r.chosenLabel.None? && !r.calendarsVisible
  {
    var autoApply := if IsTrue(settings.singleDatePicker) then Some(true) else settings.autoApply;
    var firstDay := settings.firstDayOfWeek.GetOr(cultureFirstDay);
    // The calendars' months before the first adjustment are never observed.
    var blank := CalendarType(firstDay, YearMonth(1, 1));
    var p := Picker(
      settings.(autoApply := autoApply, firstDayOfWeek := Some(firstDay)),
      startDate.Map(StartOfDay),
      endDate.Map(EndOfDay),
      None, None, None, false, visible, blank, blank);
    NormalisingKeepsMonths(startDate, endDate, now);
    AdjustCalendars(p, now)
  }

  /** Normalising the dates within their days does not move the months the
      calendars are anchored to. */
  lemma NormalisingKeepsMonths(startDate: Option<Ticks>, endDate: Option<Ticks>, now: Ticks)
    ensures MonthOfTicks(startDate.Map(StartOfDay).GetOr(now)) == MonthOfTicks(startDate.GetOr(now))
    ensures RightAnchor(endDate.Map(EndOfDay), now) == RightAnchor(endDate, now)
  {
    if startDate.Some? {
      SameDaySameMonth(StartOfDay(startDate.value), startDate.value);
    }
    if endDate.Some? {
      SameDaySameMonth(EndOfDay(endDate.value), endDate.value);
    }
  }

  /** Initialising a picker whose dates are already normalised leaves them as they are. */
  lemma InitializeIdempotentOnDates(settings: Settings, startDate: Option<Ticks>, endDate: Option<Ticks>,
                                    visible: bool, cultureFirstDay: DayOfWeek, now: Ticks, later: Ticks)
    ensures var p := Initialize(settings, startDate, endDate, visible, cultureFirstDay, now);
            var q := Initialize(p.settings, p.startDate, p.endDate, visible, cultureFirstDay, later);
            q.startDate == p.startDate && q.endDate == p.endDate && q.settings == p.settings
  {
    var p := Initialize(settings, startDate, endDate, visible, cultureFirstDay, now);
    if startDate.Some? {
      NormalisationIdempotent(startDate.value);
    }
    if endDate.Some? {
      NormalisationIdempotent(endDate.value);
    }
  }

  // ---------------------------------------------------------------------------
  // Popup transitions

  /** Shows the popup. Already visible: nothing happens. Otherwise the selection
      is remembered for rollback, the calendars are repositioned when
      `AutoAdjustCalendars` is true, the chosen label is looked up among the
      predefined ranges, the popup becomes visible and `Opened` is raised.

      The lookup yields a pair whenever `Ranges` is set, matching or not, so the
      custom-range label (with the calendars shown) is chosen only when `Ranges`
      is null; an unmatched lookup chooses the default pair's null key. */
  function Open(p: Picker, now: Ticks): (r: Step)
    ensures p.visible ==> r == Step(p, [])
    ensures !p.visible ==> r.events == [Opened] && r.picker.visible
    ensures !p.visible ==> r.picker.oldStartValue == p.startDate && r.picker.oldEndValue == p.endDate
    ensures r.picker.startDate == p.startDate && r.picker.endDate == p.endDate
    ensures r.picker.settings == p.settings
    ensures !p.visible && IsTrue(p.settings.autoAdjustCalendars) ==>
              r.picker.leftCalendar == AdjustCalendars(p, now).leftCalendar &&
              r.picker.rightCalendar == AdjustCalendars(p, now).rightCalendar
    ensures !IsTrue(p.settings.autoAdjustCalendars) ==>
              r.picker.leftCalendar == p.leftCalendar && r.picker.rightCalendar == p.rightCalendar
    ensures !p.visible && p.settings.ranges.None? ==>
              r.picker.chosenLabel == p.settings.customRangeLabel && r.picker.calendarsVisible
    ensures !p.visible && p.settings.ranges.Some? ==>
              r.picker.chosenLabel == KeyOf(FirstOrDefault(p.settings.ranges.value, p.startDate, p.endDate)) &&
              r.picker.calendarsVisible == p.calendarsVisible
  {
    if p.visible then Step(p, [])
    else
      var snapshot := p.(oldStartValue := p.startDate, oldEndValue := p.endDate);
      var adjusted := if IsTrue(p.settings.autoAdjustCalendars) then AdjustCalendars(snapshot, now) else snapshot;
      var selectedRange := SelectedRange(p.settings.ranges, adjusted.startDate, adjusted.endDate);
      var labelled :=
        match selectedRange
        case Some(pair) => adjusted.(chosenLabel := KeyOf(pair))
        case None => ShowCalendars(adjusted.(chosenLabel := p.settings.customRangeLabel));
      Step(labelled.(visible := true), [Opened])
  }

  /** With predefined ranges set, the label `Open` chooses is the key of the
      earliest range whose bounds fall on the selection's start and end days,
      and there is a label exactly when such a range exists. */
  lemma OpenChoosesFirstMatchingLabel(p: Picker, now: Ticks)
    requires !p.visible && p.settings.ranges.Some?
    ensures var chosen := Open(p, now).picker.chosenLabel;
            var rs := p.settings.ranges.value;
            && (chosen.Some? <==> exists i :: 0 <= i < |rs| && Matches(rs[i], p.startDate, p.endDate))
            && forall i :: FirstMatchAt(rs, i, p.startDate, p.endDate) ==> chosen == Some(rs[i].key)
  {
    FirstOrDefaultIsFirstMatch(p.settings.ranges.value, p.startDate, p.endDate);
  }

  /** With predefined ranges set but none matching, `Open` chooses no label at
      all (the default pair's null key) rather than the custom-range label, and
      does not show the calendars. */
  lemma OpenUnmatchedChoosesNoLabel(p: Picker, now: Ticks)
    requires !p.visible && p.settings.ranges.Some?
    requires forall i :: 0 <= i < |p.settings.ranges.value| ==>
               !Matches(p.settings.ranges.value[i], p.startDate, p.endDate)
    ensures Open(p, now).picker.chosenLabel.None?
    ensures Open(p, now).picker.calendarsVisible == p.calendarsVisible
  {
    FirstOrDefaultIsFirstMatch(p.settings.ranges.value, p.startDate, p.endDate);
  }

  /** Hides the popup and raises `Closed`, touching nothing else, whether or not
      the popup was showing. */
  function Close(p: Picker): (r: Step)
    ensures !r.picker.visible
    ensures r.picker == p.(visible := false)
    ensures r.events == [Closed]
  {
    Step(p.(visible := false), [Closed])
  }

  /** Closes a showing popup and opens a hidden one. */
  function Toggle(p: Picker, now: Ticks): (r: Step)
    ensures r.picker.visible == !p.visible
    ensures p.visible ==> r.events == [Closed]
    ensures !p.visible ==> r.events == [Opened]
    ensures r.picker.startDate == p.startDate && r.picker.endDate == p.endDate
    ensures p.visible ==> r == Close(p)
    ensures !p.visible ==> r == Open(p, now)
  {
    if p.visible then Close(p) else Open(p, now)
  }

  /** A click outside a showing popup that closes on outside clicks rolls the
      selection back to what it was when the popup opened, closes it, and
      raises `Closed` then a non-explicit `Cancel`. Any other outside click does
      nothing, including when `CloseOnOutsideClick` is null. */
  function InvokeClickOutside(p: Picker): (r: Step)
    ensures p.visible && IsTrue(p.settings.closeOnOutsideClick) ==>
              && r.picker == p.(startDate := p.oldStartValue, endDate := p.oldEndValue, visible := false)
              && r.events == [Closed, Cancel(false)]
    ensures !(p.visible && IsTrue(p.settings.closeOnOutsideClick)) ==> r == Step(p, [])
  {
    if p.visible && IsTrue(p.settings.closeOnOutsideClick) then
      var restored := p.(startDate := p.oldStartValue, endDate := p.oldEndValue);
      var closed := Close(restored);
      Step(closed.picker, closed.events + [Cancel(false)])
    else
      Step(p, [])
  }
}
