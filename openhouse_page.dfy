/** The open-house calendar page: events carry a month key `YYYY-MM`, the month
    buttons list the distinct keys in sorted order, and the list shows the events of
    the selected month. The page's state hooks are the fields of a class. */
module OpenHousePage {
  import opened Common

  /** `getMonth()`: 0 for January up to 11 for December. */
  type MonthIndex = m: nat | m < 12

  /** An event, with the year and month of its `event_date` as the local clock reads
      them. */
  datatype Event = Event(id: string, year: nat, month: MonthIndex)

  /** `String(n).padStart(2, '0')`. */
  function PadTwo(s: string): (r: string)
    ensures |s| >= 2 ==> r == s
    ensures |s| < 2 ==> |r| == 2 && r[2 - |s|..] == s && forall i :: 0 <= i < 2 - |s| ==> r[i] == '0'
  {
    if |s| == 0 then "00" else if |s| == 1 then "0" + s else s
  }

  /** The month as two digits, `01` to `12`. */
  function MonthText(m: MonthIndex): (r: string)
    ensures |r| == 2 && IsDigit(r[0]) && IsDigit(r[1])
  {
    var digits := NatToString(m + 1);
    if m + 1 < 10 then
      assert |digits| == 1;
      PadTwo(digits)
    else
      assert digits == NatToBase((m + 1) / 10, 10) + [DigitChar((m + 1) % 10)];
      PadTwo(digits)
  }

  /** `${year}-${String(month + 1).padStart(2, '0')}`. */
  function MonthKey(e: Event): (key: string)
    ensures |key| == |NatToString(e.year)| + 3 && key[|key| - 3] == '-'
    ensures key[..|key| - 3] == NatToString(e.year) && key[|key| - 2..] == MonthText(e.month)
  {
    var key := NatToString(e.year) + "-" + MonthText(e.month);
    assert key[..|key| - 3] == NatToString(e.year);
    assert key[|key| - 2..] == MonthText(e.month);
    key
  }

  lemma {:induction false} ParseLeadingZero(s: string)
    ensures ParseBase("0" + s, 10) == ParseBase(s, 10)
  {
    if s != [] {
      assert ("0" + s)[..|"0" + s| - 1] == "0" + s[..|s| - 1];
      ParseLeadingZero(s[..|s| - 1]);
    } else {
      assert ("0")[..0] == [];
    }
  }

  /** The two digits read back as the month number. */
  lemma MonthTextParses(m: MonthIndex)
    ensures ParseBase(MonthText(m), 10) == m + 1
  {
    ParseNatToBase(m + 1, 10);
    if m + 1 < 10 {
      ParseLeadingZero(NatToString(m + 1));
    }
  }

  /** Two events share a key exactly when they fall in the same year and month. */
  lemma MonthKeyInjective(a: Event, b: Event)
    ensures MonthKey(a) == MonthKey(b) <==> a.year == b.year && a.month == b.month
  {
    if MonthKey(a) == MonthKey(b) {
      ParseNatToBase(a.year, 10);
      ParseNatToBase(b.year, 10);
      MonthTextParses(a.month);
      MonthTextParses(b.month);
    }
  }

  function MonthKeys(events: seq<Event>): (keys: seq<string>)
    ensures |keys| == |events|
    ensures forall i :: 0 <= i < |events| ==> keys[i] == MonthKey(events[i])
  {
    if events == [] then [] else [MonthKey(events[0])] + MonthKeys(events[1..])
  }

  /** The events of month `key`; every event when no month is selected. */
  function EventsIn(events: seq<Event>, key: string): (r: seq<Event>)
    ensures key == "" ==> r == events
    ensures key != "" ==> forall e :: e in r <==> e in events && MonthKey(e) == key
    ensures IsSubsequence(r, events)
  {
    if key == "" then
      assert IsSubsequence(events, events) by {
        FilterAll(events, (e: Event) => true);
      }
      events
    else Filter(events, (e: Event) => MonthKey(e) == key)
  }

  /** The `forEach` that adds each key to a `Set`: the keys in first-seen order. */
  method CollectDistinct(keys: seq<string>) returns (seen: seq<string>)
    ensures seen == Dedup(keys)
  {
    seen := [];
    var i := 0;
    while i < |keys|
      invariant 0 <= i <= |keys|
      invariant Distinct(seen)
      invariant DedupAfter(seen, keys[i..]) == Dedup(keys)
    {
      assert keys[i..][0] == keys[i] && keys[i..][1..] == keys[i + 1..];
      if keys[i] !in seen {
        seen := seen + [keys[i]];
      }
      i := i + 1;
    }
    assert keys[i..] == [];
  }

  lemma KeysOfEvents(events: seq<Event>)
    ensures forall k :: k in MonthKeys(events) <==> exists i :: 0 <= i < |events| && MonthKey(events[i]) == k
  {
    var keys := MonthKeys(events);
    forall k | k in keys ensures exists i :: 0 <= i < |events| && MonthKey(events[i]) == k {
      var j :| 0 <= j < |keys| && keys[j] == k;
      assert MonthKey(events[j]) == k;
    }
  }

  class Page {
    var events: seq<Event>
    var selectedMonth: string

    constructor()
      ensures events == [] && selectedMonth == ""
    {
      events := [];
      selectedMonth := "";
    }

    /** The effect after the fetch: on success the events are shown and, when there
        is one, the first event's month becomes the selection. A failed fetch
        (`None`) changes nothing. */
    method Loaded(data: Option<seq<Event>>)
      modifies this
      ensures data.None? ==> events == old(events) && selectedMonth == old(selectedMonth)
      ensures data.Some? ==> events == data.value
      ensures data.Some? && data.value != [] ==> selectedMonth == MonthKey(data.value[0])
      ensures data.Some? && data.value == [] ==> selectedMonth == old(selectedMonth)
    {
      if data.Some? {
        events := data.value;
        if |data.value| > 0 {
          var first := data.value[0];
          selectedMonth := NatToString(first.year) + "-" + PadTwo(NatToString(first.month + 1));
        }
      }
    }

    /** A month button's `onClick`. */
    method SelectMonth(key: string)
      modifies this
      ensures selectedMonth == key && events == old(events)
    {
      selectedMonth := key;
    }

    /** `filteredEvents`. */
    function FilteredEvents(): (r: seq<Event>)
      reads this
      ensures selectedMonth == "" ==> r == events
      ensures selectedMonth != "" ==> forall e :: e in r <==> e in events && MonthKey(e) == selectedMonth
      ensures IsSubsequence(r, events)
    {
      EventsIn(events, selectedMonth)
    }

    /** `getUniqueMonths`: the keys collected into a set event by event, then sorted. */
    method GetUniqueMonths() returns (months: seq<string>)
      ensures months == SortedUnique(MonthKeys(events))
      ensures StrictlySorted(months)
      ensures forall k :: k in months <==> exists i :: 0 <= i < |events| && MonthKey(events[i]) == k
    {
      var keys := MonthKeys(events);
      var seen := CollectDistinct(keys);
      months := SortStrings(seen);
      KeysOfEvents(events);
    }

    /** The text shown when the list is empty. */
    function EmptyStateText(): (t: string)
      reads this
      ensures t == "No hay eventos próximos" <==> selectedMonth == ""
      ensures t == "No hay eventos próximos" || t == "No hay eventos en este mes"
    {
      if selectedMonth != "" then "No hay eventos en este mes" else "No hay eventos próximos"
    }
  }

  /** The empty-state text tells the truth about an empty list: the month text
      appears only when some month is selected and no event falls in it, and the
      general text only when there are no events at all. */
  lemma EmptyTextTruthful(p: Page)
    requires p.FilteredEvents() == []
    ensures p.EmptyStateText() == "No hay eventos en este mes" ==>
      p.selectedMonth != "" && forall e :: e in p.events ==> MonthKey(e) != p.selectedMonth
    ensures p.EmptyStateText() == "No hay eventos próximos" ==> p.events == []
    ensures p.events != [] ==> p.EmptyStateText() == "No hay eventos en este mes"
  {
  }

  /** After a successful non-empty load the default month shows at least the first
      event, so the list starts non-empty. */
  method LoadShowsFirstEvent(data: seq<Event>) returns (p: Page)
    requires data != []
    ensures fresh(p)
    ensures data[0] in p.FilteredEvents()
  {
    p := new Page();
    p.Loaded(Some(data));
    assert p.selectedMonth == MonthKey(data[0]);
    assert p.selectedMonth != "";
  }
}
