/** The shift-creation calendar of the admin page: the date keys it uses, the
    selection of dates with their times, the 42-cell month grid, the pending
    count on the dashboard and the checks before shifts are sent. */
module Calendar {
  import opened Common
  import opened Text

  // ---------- Date keys ----------

  /** A day as the Date getters report it: the full year, the month counted
      from 0 and the day of the month. */
  datatype CalendarDate = CalendarDate(year: nat, month: nat, day: nat)

  predicate ValidDate(d: CalendarDate) {
    d.month < 12 && 1 <= d.day <= 31
  }

  lemma DecimalBelow100(n: nat)
    requires n < 100
    ensures |Decimal(n)| <= 2
  {
    if n >= 10 {
      assert |Decimal(n / 10)| == 1;
    }
  }

  /** `formatDateForCalendar`: `year-MM-DD`, with the month (plus one) and the
      day padded to two digits. */
  function FormatDateForCalendar(d: CalendarDate): string {
    Decimal(d.year) + "-" + PadStart2(Decimal(d.month + 1)) + "-" + PadStart2(Decimal(d.day))
  }

  /** Reads a `year-MM-DD` key back into a date. */
  function ParseDateKey(key: string): Option<CalendarDate> {
    if |key| < 7 || key[|key| - 6] != '-' || key[|key| - 3] != '-' then None
    else
      var y, m, d := key[..|key| - 6], key[|key| - 5..|key| - 3], key[|key| - 2..];
      if AllDigits(y) && AllDigits(m) && AllDigits(d) && ParseDecimal(m) >= 1 then
        Some(CalendarDate(ParseDecimal(y), ParseDecimal(m) - 1, ParseDecimal(d)))
      else None
  }

  /** A one- or two-digit number padded to two characters: two digits that
      read back as the number. */
  lemma ParsePadded(n: nat)
    requires n < 100
    ensures |PadStart2(Decimal(n))| == 2
    ensures AllDigits(PadStart2(Decimal(n))) && ParseDecimal(PadStart2(Decimal(n))) == n
  {
    DecimalBelow100(n);
    ParseDecimalOfDecimal(n);
    if |Decimal(n)| == 1 {
      ParseDecimalLeadingZero(Decimal(n));
    }
  }

  /** Where the parts of a key sit: the year's digits, then `-`, two month
      digits, `-` and two day digits. */
  lemma FormatParts(d: CalendarDate)
    requires ValidDate(d)
    ensures var key := FormatDateForCalendar(d);
      && |key| >= 7 && key[|key| - 6] == '-' && key[|key| - 3] == '-'
      && key[..|key| - 6] == Decimal(d.year)
      && key[|key| - 5..|key| - 3] == PadStart2(Decimal(d.month + 1))
      && key[|key| - 2..] == PadStart2(Decimal(d.day))
  {
    ParsePadded(d.month + 1);
    ParsePadded(d.day);
    var y, m, dd := Decimal(d.year), PadStart2(Decimal(d.month + 1)), PadStart2(Decimal(d.day));
    var key := y + "-" + m + "-" + dd;
    assert key == FormatDateForCalendar(d);
    assert |key| == |y| + 6;
    assert key[..|y|] == y;
    assert key[|y| + 1..|y| + 3] == m;
    assert key[|y| + 4..] == dd;
  }

  /** The key of a date determines the date. */
  lemma FormatRoundTrip(d: CalendarDate)
    requires ValidDate(d)
    ensures ParseDateKey(FormatDateForCalendar(d)) == Some(d)
  {
    FormatParts(d);
    ParseDecimalOfDecimal(d.year);
    ParsePadded(d.month + 1);
    ParsePadded(d.day);
  }

  /** Two different dates never share a key, so the key identifies the date. */
  lemma FormatInjective(d1: CalendarDate, d2: CalendarDate)
    requires ValidDate(d1) && ValidDate(d2)
    requires FormatDateForCalendar(d1) == FormatDateForCalendar(d2)
    ensures d1 == d2
  {
    FormatRoundTrip(d1);
    FormatRoundTrip(d2);
  }

  // ---------- The selected dates ----------

  /** The value stored for a selected date. */
  datatype DateEntry = DateEntry(date: string, startTime: string, endTime: string)

  datatype TimeField = StartTime | EndTime

  const DefaultStart: string := "09:00"
  const DefaultEnd: string := "18:00"

  predicate HasKey(es: seq<DateEntry>, key: string) {
    exists i :: 0 <= i < |es| && es[i].date == key
  }

  ghost predicate KeysUnique(es: seq<DateEntry>) {
    forall i, j :: 0 <= i < j < |es| ==> es[i].date != es[j].date
  }

  /** The selection seen as the map from date key to entry: each entry in turn
      is stored under its key. */
  ghost function AsMap(es: seq<DateEntry>): map<string, DateEntry>
    requires KeysUnique(es)
  {
    if es == [] then map[]
    else AsMap(es[..|es| - 1])[es[|es| - 1].date := es[|es| - 1]]
  }

  /** The map's keys are exactly the keys of the entries. */
  lemma {:induction false} AsMapKeys(es: seq<DateEntry>, key: string)
    requires KeysUnique(es)
    ensures key in AsMap(es) <==> HasKey(es, key)
  {
    if es != [] {
      var init := es[..|es| - 1];
      AsMapKeys(init, key);
      if HasKey(init, key) {
        var j :| 0 <= j < |init| && init[j].date == key;
        assert es[j].date == key;
      }
      if HasKey(es, key) && key != es[|es| - 1].date {
        var j :| 0 <= j < |es| && es[j].date == key;
        assert init[j].date == key;
      }
    }
  }

  /** Every entry of the selection is the map's value under its own key. */
  lemma {:induction false} AsMapAt(es: seq<DateEntry>, i: nat)
    requires KeysUnique(es) && i < |es|
    ensures es[i].date in AsMap(es) && AsMap(es)[es[i].date] == es[i]
  {
    if i < |es| - 1 {
      var init := es[..|es| - 1];
      AsMapAt(init, i);
    }
  }

  /** The entries without the one under `key`, the others in their order. */
  function Without(es: seq<DateEntry>, key: string): (r: seq<DateEntry>)
    ensures |r| <= |es|
    ensures forall e :: e in r <==> e in es && e.date != key
  {
    if es == [] then []
    else
      var init, last := es[..|es| - 1], es[|es| - 1];
      assert es == init + [last];
      Without(init, key) + if last.date == key then [] else [last]
  }

  /** Removal keeps the order of the remaining entries: removing from a
      concatenation removes from each part. */
  lemma {:induction false} WithoutAppend(a: seq<DateEntry>, b: seq<DateEntry>, key: string)
    ensures Without(a + b, key) == Without(a, key) + Without(b, key)
  {
    if b == [] {
      assert a + b == a;
    } else {
      var init, last := b[..|b| - 1], b[|b| - 1];
      assert (a + b)[..|a + b| - 1] == a + init;
      assert (a + b)[|a + b| - 1] == last;
      WithoutAppend(a, init, key);
    }
  }

  /** Removing a key that is not there changes nothing. */
  lemma {:induction false} WithoutAbsent(es: seq<DateEntry>, key: string)
    requires !HasKey(es, key)
    ensures Without(es, key) == es
  {
    if es != [] {
      var init, last := es[..|es| - 1], es[|es| - 1];
      assert !HasKey(init, key) by {
        assert forall i :: 0 <= i < |init| ==> init[i] == es[i];
      }
      WithoutAbsent(init, key);
      assert es == init + [last];
    }
  }

  function WithTime(e: DateEntry, field: TimeField, value: string): DateEntry {
    match field
    case StartTime => e.(startTime := value)
    case EndTime => e.(endTime := value)
  }

  /** A selection with unique keys splits into its earlier entries, themselves
      with unique keys, and a last entry whose key none of them has. */
  lemma SplitLast(es: seq<DateEntry>)
    requires KeysUnique(es) && es != []
    ensures KeysUnique(es[..|es| - 1]) && !HasKey(es[..|es| - 1], es[|es| - 1].date)
    ensures AsMap(es) == AsMap(es[..|es| - 1])[es[|es| - 1].date := es[|es| - 1]]
  {
    var init := es[..|es| - 1];
    assert forall i :: 0 <= i < |init| ==> init[i] == es[i];
  }

  /** Removing entries introduces no key. */
  lemma WithoutLacks(es: seq<DateEntry>, key: string, k: string)
    requires !HasKey(es, k)
    ensures !HasKey(Without(es, key), k)
  {
  }

  lemma RemoveThenStore(m: map<string, DateEntry>, key: string, k: string, v: DateEntry)
    requires k != key
    ensures (m - {key})[k := v] == m[k := v] - {key}
  {
  }

  lemma StoreThenRemove(m: map<string, DateEntry>, key: string, v: DateEntry)
    ensures m[key := v] - {key} == m - {key}
  {
  }

  /** Removing an entry keeps the keys unique and takes exactly its key out
      of the map. */
  lemma {:induction false} AsMapWithout(es: seq<DateEntry>, key: string)
    requires KeysUnique(es)
    ensures KeysUnique(Without(es, key))
    ensures AsMap(Without(es, key)) == AsMap(es) - {key}
  {
    if es != [] {
      var init, last := es[..|es| - 1], es[|es| - 1];
      SplitLast(es);
      AsMapWithout(init, key);
      var w0 := Without(init, key);
      if last.date != key {
        assert Without(es, key) == w0 + [last];
        WithoutLacks(init, key, last.date);
        AsMapAppend(w0, last);
        RemoveThenStore(AsMap(init), key, last.date, last);
      } else {
        assert Without(es, key) == w0;
        StoreThenRemove(AsMap(init), key, last);
      }
    }
  }

  /** Appending an entry under a new key adds exactly that key to the map. */
  lemma AsMapAppend(es: seq<DateEntry>, e: DateEntry)
    requires KeysUnique(es) && !HasKey(es, e.date)
    ensures KeysUnique(es + [e])
    ensures AsMap(es + [e]) == AsMap(es)[e.date := e]
  {
    assert (es + [e])[..|es|] == es;
  }

  /** Overwriting an entry in place under the same key changes only that key. */
  lemma {:induction false} AsMapUpdate(es: seq<DateEntry>, i: nat, e: DateEntry)
    requires KeysUnique(es) && i < |es| && e.date == es[i].date
    ensures KeysUnique(es[i := e])
    ensures AsMap(es[i := e]) == AsMap(es)[e.date := e]
  {
    var init, last := es[..|es| - 1], es[|es| - 1];
    SplitLast(es);
    if i == |es| - 1 {
      assert es[i := e] == init + [e];
      AsMapAppend(init, e);
    } else {
      assert init[i].date == e.date;
      AsMapUpdate(init, i, e);
      assert es[i := e] == init[i := e] + [last];
      assert !HasKey(init[i := e], last.date);
      AsMapAppend(init[i := e], last);
    }
  }

  /** Selecting an unselected date and then toggling it again restores the
      selection exactly, order included. */
  lemma ToggleTwiceRestores(es: seq<DateEntry>, key: string)
    requires !HasKey(es, key)
    ensures var added := es + [DateEntry(key, DefaultStart, DefaultEnd)];
      HasKey(added, key) && Without(added, key) == es
  {
    var e := DateEntry(key, DefaultStart, DefaultEnd);
    var added := es + [e];
    assert added[|es|] == e;
    assert added[..|added| - 1] == es;
    WithoutAbsent(es, key);
  }

  /** One grid cell: the day number shown, whether it belongs to a neighbouring
      month, and the `selected` and `has-time` marks. */
  datatype Cell = Cell(day: int, otherMonth: bool, today: bool, selected: bool, hasTime: bool)

  /** A greyed cell of the previous or next month: never today, never selected. */
  function OtherMonthCell(day: int): Cell {
    Cell(day, true, false, false, false)
  }

  /** The first loop of `renderCalendar`: the last `startDay` days of the
      previous month, counting down the offset from its last day. */
  method PreviousMonthCells(startDay: nat, prevMonthLastDay: nat) returns (cells: seq<Cell>)
    ensures |cells| == startDay
    ensures forall k :: 0 <= k < startDay ==> cells[k] == OtherMonthCell(prevMonthLastDay - startDay + 1 + k)
  {
    cells := [];
    var i: int := startDay - 1;
    while i >= 0
      invariant -1 <= i < startDay
      invariant |cells| == startDay - 1 - i
      invariant forall k :: 0 <= k < |cells| ==> cells[k] == OtherMonthCell(prevMonthLastDay - startDay + 1 + k)
    {
      cells := cells + [OtherMonthCell(prevMonthLastDay - i)];
      i := i - 1;
    }
  }

  /** The third loop of `renderCalendar`: days 1 to `remaining` of the next month. */
  method NextMonthCells(remaining: nat) returns (cells: seq<Cell>)
    ensures |cells| == remaining
    ensures forall k :: 0 <= k < |cells| ==> cells[k] == OtherMonthCell(k + 1)
  {
    cells := [];
    var day := 1;
    while day <= remaining
      invariant 1 <= day <= remaining + 1
      invariant |cells| == day - 1
      invariant forall k :: 0 <= k < |cells| ==> cells[k] == OtherMonthCell(k + 1)
    {
      cells := cells + [OtherMonthCell(day)];
      day := day + 1;
    }
  }

  /** A dashboard shift record; only whether it has an assignee matters here. */
  datatype Shift = Shift(assignedUserId: Option<string>)

  function Unassigned(): Shift -> bool {
    (s: Shift) => !Truthy(s.assignedUserId)
  }

  /** The pending-shift statistic: the number of shifts without an assignee. */
  function PendingCount(shifts: seq<Shift>): (n: nat)
    ensures n <= |shifts|
    ensures n == 0 <==> forall i :: 0 <= i < |shifts| ==> Truthy(shifts[i].assignedUserId)
    ensures n == |shifts| <==> forall i :: 0 <= i < |shifts| ==> !Truthy(shifts[i].assignedUserId)
  {
    var pending := Filter(shifts, Unassigned());
    assert pending != [] ==> pending[0] in pending;
    assert pending == [] ==> forall i :: 0 <= i < |shifts| ==> shifts[i] !in pending;
    |pending|
  }

  /** The pending count of a single shift is 1 exactly when it has no assignee. */
  lemma PendingCountOne(s: Shift)
    ensures PendingCount([s]) == if Truthy(s.assignedUserId) then 0 else 1
  {
  }

  /** The pending count adds up over a split of the shift list; with
      `PendingCountOne` it is the number of shifts without an assignee. */
  lemma PendingCountAppend(a: seq<Shift>, b: seq<Shift>)
    ensures PendingCount(a + b) == PendingCount(a) + PendingCount(b)
  {
    FilterAppend(a, b, Unassigned());
  }

  /** Why `createComplexShift` stops before sending anything. */
  datatype ShiftError = MissingTitle | NoDateSelected

  /** The body of one shift-creation request. */
  datatype ShiftRequest = ShiftRequest(title: string, description: string, date: string, startTime: string, endTime: string)

  /** The module-level `selectedDates` Map. Its entries are kept in insertion
      order, which is the order `Array.from(selectedDates.values())` yields. */
  class DateSelection {
    var entries: seq<DateEntry>

    ghost predicate Valid()
      reads this
    {
      KeysUnique(entries)
    }

    constructor ()
      ensures Valid() && entries == []
    {
      entries := [];
    }

    /** `selectedDates.clear()`, done when the creation dialog opens or closes. */
    method Clear()
      modifies this
      ensures Valid() && entries == []
    {
      entries := [];
    }

    /** `selectedDates.has(key)`. */
    function Has(key: string): bool
      reads this
    {
      HasKey(entries, key)
    }

    /** `toggleDateSelection`: a selected date is removed; an unselected one is
        added with the default times 09:00 to 18:00. */
    method Toggle(d: CalendarDate)
      requires Valid() && ValidDate(d)
      modifies this
      ensures Valid()
      ensures var key := FormatDateForCalendar(d);
        if HasKey(old(entries), key) then
          && entries == Without(old(entries), key)
          && AsMap(entries) == old(AsMap(entries)) - {key}
        else
          && entries == old(entries) + [DateEntry(key, DefaultStart, DefaultEnd)]
          && AsMap(entries) == old(AsMap(entries))[key := DateEntry(key, DefaultStart, DefaultEnd)]
    {
      var key := FormatDateForCalendar(d);
      if Has(key) {
        AsMapWithout(entries, key);
        entries := Without(entries, key);
      } else {
        AsMapAppend(entries, DateEntry(key, DefaultStart, DefaultEnd));
        entries := entries + [DateEntry(key, DefaultStart, DefaultEnd)];
      }
    }

    /** `removeDate`: only the given key leaves the selection. */
    method Remove(key: string)
      requires Valid()
      modifies this
      ensures Valid()
      ensures entries == Without(old(entries), key)
      ensures AsMap(entries) == old(AsMap(entries)) - {key}
    {
      AsMapWithout(entries, key);
      entries := Without(entries, key);
    }

    /** `updateTime`: sets one time of a selected date in place; an unselected
        date leaves everything as it was. */
    method UpdateTime(key: string, field: TimeField, value: string)
      requires Valid()
      modifies this
      ensures Valid()
      ensures |entries| == |old(entries)|
      ensures forall i :: 0 <= i < |entries| ==>
        entries[i] == if old(entries)[i].date == key then WithTime(old(entries)[i], field, value) else old(entries)[i]
      ensures key in old(AsMap(entries)) ==>
        AsMap(entries) == old(AsMap(entries))[key := WithTime(old(AsMap(entries))[key], field, value)]
      ensures key !in old(AsMap(entries)) ==> entries == old(entries)
    {
      var idx := FindIndex(entries, (e: DateEntry) => e.date == key);
      AsMapKeys(entries, key);
      if idx >= 0 {
        var e := WithTime(entries[idx], field, value);
        AsMapAt(entries, idx);
        AsMapUpdate(entries, idx, e);
        entries := entries[idx := e];
      }
    }

    /** The cell of day `day` of the displayed month; `todayDay` is the day
        of the month that is today, or 0 when today lies in another month. */
    function DayCell(year: nat, month: nat, day: nat, todayDay: nat): Cell
      requires month < 12 && 1 <= day <= 31
      reads this
    {
      var key := FormatDateForCalendar(CalendarDate(year, month, day));
      var selected := Has(key);
      var hasTime := selected && exists i :: 0 <= i < |entries| && entries[i].date == key && entries[i].startTime != "";
      Cell(day, false, day == todayDay, selected, hasTime)
    }

    /** The second loop of `renderCalendar`: one cell per day of the month. */
    method MonthCells(year: nat, month: nat, daysInMonth: nat, todayDay: nat) returns (cells: seq<Cell>)
      requires month < 12 && daysInMonth <= 31
      ensures |cells| == daysInMonth
      ensures forall k :: 0 <= k < daysInMonth ==> cells[k] == DayCell(year, month, k + 1, todayDay)
    {
      cells := [];
      var day := 1;
      while day <= daysInMonth
        invariant 1 <= day <= daysInMonth + 1
        invariant |cells| == day - 1
        invariant forall k :: 0 <= k < |cells| ==> cells[k] == DayCell(year, month, k + 1, todayDay)
      {
        cells := cells + [DayCell(year, month, day, todayDay)];
        day := day + 1;
      }
    }

    /** `renderCalendar`: the tail of the previous month, the displayed month,
        then the head of the next, 42 cells in all. The first day's weekday,
        the month's length and the previous month's length come from the
        `Date` arithmetic of the page and are inputs here. */
    method RenderGrid(year: nat, month: nat, startDay: nat, daysInMonth: nat, prevMonthLastDay: nat, todayDay: nat)
      returns (cells: seq<Cell>)
      requires month < 12 && startDay <= 6 && 28 <= daysInMonth <= 31 && 28 <= prevMonthLastDay <= 31
      ensures |cells| == 42
      ensures forall i :: 0 <= i < startDay ==>
        cells[i] == OtherMonthCell(prevMonthLastDay - startDay + 1 + i)
      ensures forall i :: startDay <= i < startDay + daysInMonth ==>
        cells[i] == DayCell(year, month, i - startDay + 1, todayDay)
      ensures forall i :: startDay + daysInMonth <= i < 42 ==>
        cells[i] == OtherMonthCell(i - startDay - daysInMonth + 1)
    {
      var before := PreviousMonthCells(startDay, prevMonthLastDay);
      var days := MonthCells(year, month, daysInMonth, todayDay);
      var after := NextMonthCells(42 - (startDay + daysInMonth));
      cells := before + days + after;
    }

    /** The checks and requests of `createComplexShift`: a blank title or an
        empty selection stops it; otherwise one request per selected date, in
        selection order, with the trimmed title and description. */
    function ComplexShiftRequests(title: string, description: string): (r: Result<seq<ShiftRequest>, ShiftError>)
      reads this
      ensures r == Err(MissingTitle) <==> forall i :: 0 <= i < |title| ==> IsJsWhitespace(title[i])
      ensures r == Err(NoDateSelected) <==> Trim(title) != "" && entries == []
      ensures r.Ok? ==> |r.value| == |entries| && |r.value| > 0
      ensures r.Ok? ==> forall i :: 0 <= i < |r.value| ==>
        r.value[i] == ShiftRequest(Trim(title), Trim(description), entries[i].date, entries[i].startTime, entries[i].endTime)
    {
      var t := Trim(title);
      if t == "" then Err(MissingTitle)
      else if entries == [] then Err(NoDateSelected)
      else
        var d := Trim(description);
        Ok(seq(|entries|, i requires 0 <= i < |entries| reads this =>
          ShiftRequest(t, d, entries[i].date, entries[i].startTime, entries[i].endTime)))
    }
  }
}
