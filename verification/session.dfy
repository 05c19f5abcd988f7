/** Sequences of calls on one picker: the host's calls and the edits its
    two-way bindings make to the selection, run one after another with their
    notifications collected into a single log. */
module Session {
  import opened Optional
  import opened Calendar
  import opened Picker

  /** One call on the picker. `EditDates` stands for any change the host makes
      to `StartDate`/`EndDate` while the popup is showing. */
  datatype Command =
    | OpenPopup(now: Ticks)
    | ClosePopup
    | TogglePopup(now: Ticks)
    | OutsideClick
    | AdjustCalendarPanels(now: Ticks)
    | EditDates(start: Option<Ticks>, end: Option<Ticks>)
    | ShowCalendarPanels
    | HideCalendarPanels

  function Apply(p: Picker, c: Command): Step {
    match c
    case OpenPopup(now) => Open(p, now)
    case ClosePopup => Close(p)
    case TogglePopup(now) => Toggle(p, now)
    case OutsideClick => InvokeClickOutside(p)
    case AdjustCalendarPanels(now) => Step(AdjustCalendars(p, now), [])
    case EditDates(s, e) => Step(p.(startDate := s, endDate := e), [])
    case ShowCalendarPanels => Step(ShowCalendars(p), [])
    case HideCalendarPanels => Step(HideCalendars(p), [])
  }

  /** Runs the commands in order; the log is every notification in the order raised. */
  function Run(p: Picker, cs: seq<Command>): Step
    decreases |cs|
  {
    if |cs| == 0 then Step(p, [])
    else
      var first := Apply(p, cs[0]);
      var rest := Run(first.picker, cs[1..]);
      Step(rest.picker, first.events + rest.events)
  }

  /** Running two command sequences back to back is running their concatenation. */
  lemma {:induction false} RunAppend(p: Picker, a: seq<Command>, b: seq<Command>)
    ensures var ra := Run(p, a);
            var rb := Run(ra.picker, b);
            Run(p, a + b) == Step(rb.picker, ra.events + rb.events)
    decreases |a|
  {
    if |a| == 0 {
      assert a + b == b;
    } else {
      var first := Apply(p, a[0]);
      assert (a + b)[0] == a[0];
      assert (a + b)[1..] == a[1..] + b;
      RunAppend(first.picker, a[1..], b);
      var ra := Run(first.picker, a[1..]);
      var rb := Run(ra.picker, b);
      assert first.events + (ra.events + rb.events) == (first.events + ra.events) + rb.events;
    }
  }

  /** Commands that only edit the selection or switch the calendar panels. */
  predicate IsEdit(c: Command) {
    c.EditDates? || c.ShowCalendarPanels? || c.HideCalendarPanels?
  }

  /** Edits raise nothing and leave visibility, settings and the rollback
      snapshot alone. */
  lemma {:induction false} EditsKeepSnapshot(p: Picker, edits: seq<Command>)
    requires forall i :: 0 <= i < |edits| ==> IsEdit(edits[i])
    ensures var r := Run(p, edits);
            && r.events == []
            && r.picker.visible == p.visible
            && r.picker.settings == p.settings
            && r.picker.oldStartValue == p.oldStartValue
            && r.picker.oldEndValue == p.oldEndValue
    decreases |edits|
  {
    if |edits| > 0 {
      EditsKeepSnapshot(Apply(p, edits[0]).picker, edits[1..]);
    }
  }

  /** A run of one command is that command's transition. */
  lemma RunOne(p: Picker, c: Command)
    ensures Run(p, [c]) == Apply(p, c)
  {
    assert [c][1..] == [];
    assert Apply(p, c).events + [] == Apply(p, c).events;
  }

  /** Opening a hidden picker and then editing leaves it showing, with the
      selection it had before opening as its rollback snapshot. */
  lemma OpenThenEdit(p: Picker, now: Ticks, edits: seq<Command>)
    requires !p.visible
    requires forall i :: 0 <= i < |edits| ==> IsEdit(edits[i])
    ensures var r := Run(p, [OpenPopup(now)] + edits);
            && r.picker.visible
            && r.picker.oldStartValue == p.startDate
            && r.picker.oldEndValue == p.endDate
            && r.picker.settings == p.settings
            && r.events == [Opened]
  {
    var opening := Open(p, now);
    RunOne(p, OpenPopup(now));
    RunAppend(p, [OpenPopup(now)], edits);
    EditsKeepSnapshot(opening.picker, edits);
  }

  /** Opening a hidden picker that closes on outside clicks, editing the selection
      in any way, and then clicking outside puts the selection back exactly as it
      was before opening, hides the popup, and logs `Opened`, `Closed` and a
      non-explicit `Cancel`. */
  lemma OutsideClickRollsBack(p: Picker, now: Ticks, edits: seq<Command>)
    requires !p.visible && IsTrue(p.settings.closeOnOutsideClick)
    requires forall i :: 0 <= i < |edits| ==> IsEdit(edits[i])
    ensures var r := Run(p, [OpenPopup(now)] + edits + [OutsideClick]);
            && r.picker.startDate == p.startDate
            && r.picker.endDate == p.endDate
            && !r.picker.visible
            && r.events == [Opened, Closed, Cancel(false)]
  {
    OpenThenEdit(p, now, edits);
    var edited := Run(p, [OpenPopup(now)] + edits);
    RunOne(edited.picker, OutsideClick);
    RunAppend(p, [OpenPopup(now)] + edits, [OutsideClick]);
    assert [Opened] + [Closed, Cancel(false)] == [Opened, Closed, Cancel(false)];
  }

  /** `Close` is not guarded: closing twice logs `Closed` twice. */
  lemma CloseTwiceLogsTwice(p: Picker)
    ensures Run(p, [ClosePopup, ClosePopup]) == Step(p.(visible := false), [Closed, Closed])
  {
    assert [ClosePopup, ClosePopup][1..] == [ClosePopup];
  }

  // ---------------------------------------------------------------------------
  // Visibility agrees with the log

  /** Whether the popup is showing after the notifications `events`, starting
      from `shown`: the last `Opened` or `Closed` decides. */
  function ShownAfter(events: seq<Event>, shown: bool): bool
    decreases |events|
  {
    if |events| == 0 then shown
    else
      ShownAfter(events[1..], ShownAfterOne(events[0], shown))
  }

  /** The notification `e` alone moves the popup from `shown` to this. */
  function ShownAfterOne(e: Event, shown: bool): bool {
    match e
    case Opened => true
    case Closed => false
    case Cancel(_) => shown
  }

  lemma {:induction false} ShownAfterAppend(a: seq<Event>, b: seq<Event>, shown: bool)
    ensures ShownAfter(a + b, shown) == ShownAfter(b, ShownAfter(a, shown))
    decreases |a|
  {
    if |a| == 0 {
      assert a + b == b;
    } else {
      assert (a + b)[0] == a[0];
      assert (a + b)[1..] == a[1..] + b;
      ShownAfterAppend(a[1..], b, ShownAfterOne(a[0], shown));
    }
  }

  /** Each single command leaves `Visible` as its own notifications say. */
  lemma ApplyVisibilityFollowsLog(p: Picker, c: Command)
    ensures Apply(p, c).picker.visible == ShownAfter(Apply(p, c).events, p.visible)
  {
    var events := Apply(p, c).events;
    if events == [Opened] || events == [Closed] {
      assert events[1..] == [];
    } else if events == [Closed, Cancel(false)] {
      assert events[1..] == [Cancel(false)] && events[1..][1..] == [];
      assert ShownAfter([Cancel(false)], false) == false;
    }
  }

  /** After any run, `Visible` is what the log's last `Opened`/`Closed` says,
      or what it was before when the log has neither. */
  lemma {:induction false} VisibilityFollowsLog(p: Picker, cs: seq<Command>)
    ensures Run(p, cs).picker.visible == ShownAfter(Run(p, cs).events, p.visible)
    decreases |cs|
  {
    if |cs| > 0 {
      var first := Apply(p, cs[0]);
      ApplyVisibilityFollowsLog(p, cs[0]);
      VisibilityFollowsLog(first.picker, cs[1..]);
      ShownAfterAppend(first.events, Run(first.picker, cs[1..]).events, p.visible);
    }
  }

  // ---------------------------------------------------------------------------
  // The two calendars never show the same month

  predicate CalendarsDistinct(p: Picker) {
    p.leftCalendar.month != p.rightCalendar.month
  }

  /** No modelled command makes the two calendars show the same month. */
  lemma {:induction false} RunKeepsCalendarsDistinct(p: Picker, cs: seq<Command>)
    requires CalendarsDistinct(p)
    ensures CalendarsDistinct(Run(p, cs).picker)
    decreases |cs|
  {
    if |cs| > 0 {
      var first := Apply(p, cs[0]);
      assert CalendarsDistinct(first.picker);
      RunKeepsCalendarsDistinct(first.picker, cs[1..]);
    }
  }

  /** From initialisation onwards the two calendars always show different months. */
  lemma InitializedCalendarsStayDistinct(settings: Settings, startDate: Option<Ticks>, endDate: Option<Ticks>,
                                         visible: bool, cultureFirstDay: DayOfWeek, now: Ticks, cs: seq<Command>)
    ensures CalendarsDistinct(Run(Initialize(settings, startDate, endDate, visible, cultureFirstDay, now), cs).picker)
  {
    RunKeepsCalendarsDistinct(Initialize(settings, startDate, endDate, visible, cultureFirstDay, now), cs);
  }

  /** Toggling a hidden picker twice opens then closes it, leaving the selection
      as it was and the snapshot equal to it. */
  lemma ToggleTwiceFromHidden(p: Picker, now: Ticks, later: Ticks)
    requires !p.visible
    ensures var r := Run(p, [TogglePopup(now), TogglePopup(later)]);
            && !r.picker.visible
            && r.events == [Opened, Closed]
            && r.picker.startDate == p.startDate && r.picker.endDate == p.endDate
            && r.picker.oldStartValue == p.startDate && r.picker.oldEndValue == p.endDate
  {
    var first := Open(p, now);
    var second := Close(first.picker);
    assert [TogglePopup(now), TogglePopup(later)][1..] == [TogglePopup(later)];
    assert Run(first.picker, [TogglePopup(later)]) == Step(second.picker, second.events + []);
  }
}
