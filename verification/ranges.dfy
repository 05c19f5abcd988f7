/** The predefined ranges a user can pick from, and the lookup `Open` uses to
    find which of them, if any, the current selection is. */
module Ranges {
  import opened Optional
  import opened Calendar

  /** The bounds of a predefined range; neither bound may be null. */
  datatype DateRange = DateRange(start: Ticks, end: Ticks)

  /** One `KeyValuePair<string, DateRange>` of the `Ranges` dictionary, in
      enumeration order. */
  datatype RangeEntry = RangeEntry(key: string, value: DateRange)

  /** `bound.Date == selected?.Date`: the lifted comparison is false when the
      selected value is null, and otherwise compares calendar days. */
  predicate SameDay(bound: Ticks, selected: Option<Ticks>) {
    selected.Some? && Day(bound) == Day(selected.value)
  }

  /** The predicate handed to `FirstOrDefault` in `Open`. */
  predicate Matches(e: RangeEntry, start: Option<Ticks>, end: Option<Ticks>) {
    SameDay(e.value.start, start) && SameDay(e.value.end, end)
  }

  /** Entry `i` is the earliest entry that matches the selection. */
  ghost predicate FirstMatchAt(ranges: seq<RangeEntry>, i: int, start: Option<Ticks>, end: Option<Ticks>) {
    && 0 <= i < |ranges|
    && Matches(ranges[i], start, end)
    && forall j :: 0 <= j < i ==> !Matches(ranges[j], start, end)
  }

  /** `ranges.FirstOrDefault(pred)`: the earliest matching entry, or the default
      pair (`None` here) when nothing matches. */
  function FirstOrDefault(ranges: seq<RangeEntry>, start: Option<Ticks>, end: Option<Ticks>): (r: Option<RangeEntry>)
    ensures r.Some? ==> r.value in ranges && Matches(r.value, start, end)
    ensures r.None? ==> forall i :: 0 <= i < |ranges| ==> !Matches(ranges[i], start, end)
    ensures start.None? || end.None? ==> r.None?
  {
    if |ranges| == 0 then None
    else if Matches(ranges[0], start, end) then Some(ranges[0])
    else FirstOrDefault(ranges[1..], start, end)
  }

  /** The `Key` of a pair returned by `FirstOrDefault`; the default pair's key is null. */
  function KeyOf(found: Option<RangeEntry>): Option<string> {
    match found
    case Some(e) => Some(e.key)
    case None => None
  }

  /** `Ranges?.FirstOrDefault(pred)`: null exactly when `Ranges` is null. When
      `Ranges` is present the result is a (lifted) pair even if nothing matched. */
  function SelectedRange(ranges: Option<seq<RangeEntry>>, start: Option<Ticks>, end: Option<Ticks>)
    : (r: Option<Option<RangeEntry>>)
    ensures r.Some? <==> ranges.Some?
  {
    match ranges
    case Some(rs) => Some(FirstOrDefault(rs, start, end))
    case None => None
  }

  /** The lookup finds a key exactly when some entry matches, and the key it finds
      is that of the earliest matching entry. */
  lemma {:induction false} FirstOrDefaultIsFirstMatch(ranges: seq<RangeEntry>, start: Option<Ticks>, end: Option<Ticks>)
    ensures KeyOf(FirstOrDefault(ranges, start, end)).Some? <==>
              exists i :: 0 <= i < |ranges| && Matches(ranges[i], start, end)
    ensures forall i :: FirstMatchAt(ranges, i, start, end) ==>
              KeyOf(FirstOrDefault(ranges, start, end)) == Some(ranges[i].key)
  {
    if |ranges| > 0 && !Matches(ranges[0], start, end) {
      FirstOrDefaultIsFirstMatch(ranges[1..], start, end);
      forall i | FirstMatchAt(ranges, i, start, end)
        ensures FirstMatchAt(ranges[1..], i - 1, start, end)
      {
        assert i > 0;
        forall j | 0 <= j < i - 1
          ensures !Matches(ranges[1..][j], start, end)
        {
          assert ranges[1..][j] == ranges[j + 1];
        }
      }
      if exists i :: 0 <= i < |ranges| && Matches(ranges[i], start, end) {
        var i :| 0 <= i < |ranges| && Matches(ranges[i], start, end);
        assert ranges[1..][i - 1] == ranges[i];
      }
    }
  }

  /** Only the calendar day of the selection matters to the lookup, never its
      time of day. */
  lemma {:induction false} LookupIgnoresTimeOfDay(ranges: seq<RangeEntry>, s1: Ticks, e1: Ticks, s2: Ticks, e2: Ticks)
    requires Day(s1) == Day(s2) && Day(e1) == Day(e2)
    ensures FirstOrDefault(ranges, Some(s1), Some(e1)) == FirstOrDefault(ranges, Some(s2), Some(e2))
  {
    if |ranges| > 0 {
      LookupIgnoresTimeOfDay(ranges[1..], s1, e1, s2, e2);
    }
  }
}
