/**
 * The LedArt editor's local stores (ledart-app.js): the widget list with its
 * selection, the calendar-event list, the birthday CSV import, and the copies of
 * both lists kept in the browser's local storage.
 */
module LedEditor {
  import opened Wrappers
  import opened Text
  import opened Seqs

  // ---- widgets ----

  datatype Properties =
    | TextProperties(text: string, fontSize: int, color: string, bold: bool, italic: bool,
                     animation: string, speed: int)
    | ClockProperties(format: string, syncTime: bool)

  datatype Widget = Widget(id: string, kind: string, x: int, y: int, width: int, height: int,
                           properties: Properties)

  /** The widget types the editor can create. */
  predicate IsWidgetType(kind: string) {
    kind == "text" || kind == "clock"
  }

  /**
   * `createWidget`: a widget at (10, 10), 16 high, 64 wide for a clock and 80 wide
   * otherwise, with the defaults of its type; no widget for any other type.
   * `stamp` is the `Date.now()` reading the id is made from.
   */
  function CreateWidget(kind: string, stamp: nat): (r: Option<Widget>)
    ensures r.Some? <==> IsWidgetType(kind)
    ensures r.Some? ==> r.value.id == "widget_" + NatToString(stamp) && r.value.kind == kind
    ensures r.Some? ==> r.value.x == 10 && r.value.y == 10 && r.value.height == 16
    ensures r.Some? ==> r.value.width == (if kind == "clock" then 64 else 80)
    ensures kind == "text" ==>
      r.value.properties == TextProperties("Sample Text", 12, "#FF0000", false, false, "scrollLeft", 50)
    ensures kind == "clock" ==> r.value.properties == ClockProperties("24h", true)
  {
    var id := "widget_" + NatToString(stamp);
    var width := if kind == "clock" then 64 else 80;
    if kind == "text" then
      Some(Widget(id, kind, 10, 10, width, 16,
                  TextProperties("Sample Text", 12, "#FF0000", false, false, "scrollLeft", 50)))
    else if kind == "clock" then
      Some(Widget(id, kind, 10, 10, width, 16, ClockProperties("24h", true)))
    else None
  }

  /** `Math.max(0, start + delta)`: the dragged coordinate, never left of or above the canvas. */
  function DragPosition(start: int, delta: int): (r: nat)
    ensures r >= start + delta
    ensures r == 0 || r == start + delta
  {
    if start + delta > 0 then start + delta else 0
  }

  predicate OnCanvas(w: Widget) {
    w.x >= 0 && w.y >= 0
  }

  predicate AllOnCanvas(ws: seq<Widget>) {
    forall k :: 0 <= k < |ws| ==> OnCanvas(ws[k])
  }

  /** `widgets.filter(w => w.id !== id)`. */
  function WithoutWidget(ws: seq<Widget>, id: string): (r: seq<Widget>)
    ensures forall k :: 0 <= k < |r| ==> r[k].id != id
  {
    Filter(ws, (w: Widget) => w.id != id)
  }

  /**
   * Deleting by id keeps exactly the widgets with another id, in their order:
   * it distributes over concatenation and drops one widget per match.
   */
  lemma DeleteWidgetKeepsOthers(ws: seq<Widget>, more: seq<Widget>, id: string, w: Widget)
    ensures w in WithoutWidget(ws, id) <==> w in ws && w.id != id
    ensures WithoutWidget(ws + more, id) == WithoutWidget(ws, id) + WithoutWidget(more, id)
    ensures |WithoutWidget(ws, id)| == |ws| - Count(ws, (v: Widget) => v.id == id)
  {
    FilterMembership(ws, (v: Widget) => v.id != id, w);
    FilterAppend(ws, more, (v: Widget) => v.id != id);
    FilterLength(ws, (v: Widget) => v.id != id);
    CountComplement(ws, id);
  }

  lemma {:induction false} CountComplement(ws: seq<Widget>, id: string)
    ensures Count(ws, (v: Widget) => v.id != id) + Count(ws, (v: Widget) => v.id == id) == |ws|
  {
    if ws != [] {
      CountComplement(ws[1..], id);
    }
  }

  // ---- calendar events ----

  datatype CalendarEvent = CalendarEvent(id: string, title: string, date: string, time: string,
                                         message: string, repeat: bool)

  /** `scheduledEvents.filter(e => e.id !== id)`. */
  function WithoutEvent(es: seq<CalendarEvent>, id: string): (r: seq<CalendarEvent>)
    ensures forall k :: 0 <= k < |r| ==> r[k].id != id
  {
    Filter(es, (e: CalendarEvent) => e.id != id)
  }

  /** `deleteEvent` keeps exactly the events whose id differs, in their order. */
  lemma DeleteEventKeepsOthers(es: seq<CalendarEvent>, more: seq<CalendarEvent>, id: string, e: CalendarEvent)
    ensures e in WithoutEvent(es, id) <==> e in es && e.id != id
    ensures WithoutEvent(es + more, id) == WithoutEvent(es, id) + WithoutEvent(more, id)
  {
    FilterMembership(es, (v: CalendarEvent) => v.id != id, e);
    FilterAppend(es, more, (v: CalendarEvent) => v.id != id);
  }

  /** `updateScheduledCount`: "N event", with an "s" unless N is 1. */
  function ScheduledCountLabel(count: nat): (r: string)
    ensures |r| > 0
    ensures (r[|r| - 1] == 's') <==> count != 1
    ensures ParseDecimal(Split(r, ' ')[0]) == Some(count)
    ensures Split(r, ' ') == [NatToString(count), if count != 1 then "events" else "event"]
  {
    var digits := NatToString(count);
    var word := if count != 1 then "events" else "event";
    assert ' ' !in digits by {
      forall k | 0 <= k < |digits| ensures digits[k] != ' ' { assert IsDigit(digits[k]); }
    }
    SplitJoin([digits, word], ' ');
    assert Join([digits, word], " ") == digits + " " + word;
    ParseNatToString(count);
    digits + " " + word
  }

  // ---- birthday CSV import ----

  /**
   * The event `handleBirthdayUpload` makes of one CSV row (line `index` of the file).
   * The script's cake and party emoji are stored as UTF-8 bytes read as Windows-1252,
   * so its strings hold the four characters of each as written there.
   */
  const Cake := "\U{F0}\U{178}\U{17D}\U{201A}"
  const Party := "\U{F0}\U{178}\U{17D}\U{2030}"

  function BirthdayEvent(name: string, date: string, index: nat, stamp: nat): CalendarEvent {
    CalendarEvent("birthday_" + NatToString(stamp) + "_" + NatToString(index),
                  Cake + " " + name + "'s Birthday", date, "09:00",
                  "Happy Birthday " + name + "! " + Party, true)
  }

  /**
   * One line of the file: the header (line 0) and blank lines are skipped; otherwise
   * the first two comma-separated fields, trimmed, are the name and the date, and
   * both must be non-empty.
   */
  function ParseBirthdayLine(line: string, index: nat, stamp: nat): Option<CalendarEvent> {
    if index == 0 || Trim(line) == [] then None
    else
      var fields := Split(line, ',');
      var name := Trim(fields[0]);
      var date := if |fields| > 1 then Trim(fields[1]) else "";
      if name != [] && date != [] then Some(BirthdayEvent(name, date, index, stamp)) else None
  }

  /**
   * A line yields an event exactly when it is not the header and its first two
   * fields are non-blank; the event carries those fields trimmed. A blank line
   * never yields one (its fields are blank too).
   */
  lemma ParseBirthdayLineSpec(line: string, index: nat, stamp: nat)
    ensures var fields, r := Split(line, ','), ParseBirthdayLine(line, index, stamp);
      && (index == 0 || AllSpace(line) ==> r.None?)
      && (r.Some? <==> index > 0 && |fields| >= 2 && Trim(fields[0]) != [] && Trim(fields[1]) != [])
      && (r.Some? ==> r.value == BirthdayEvent(Trim(fields[0]), Trim(fields[1]), index, stamp))
  {
    TrimEmptyIffAllSpace(line);
  }

  /** What line `i` of the file contributes: at most one event. */
  function LineEvents(lines: seq<string>, stamp: nat, i: nat): (r: seq<CalendarEvent>)
    requires i < |lines|
    ensures |r| <= 1
  {
    var parsed := ParseBirthdayLine(lines[i], i, stamp);
    if parsed.Some? then [parsed.value] else []
  }

  /** The events imported from the first `n` lines, in file order. */
  function ImportedEvents(lines: seq<string>, stamp: nat, n: nat): (r: seq<CalendarEvent>)
    requires n <= |lines|
    ensures |r| <= n
  {
    if n == 0 then []
    else
      ImportedEvents(lines, stamp, n - 1) + LineEvents(lines, stamp, n - 1)
  }

  /** The events imported from the text of a CSV file. */
  function CsvEvents(csv: string, stamp: nat): seq<CalendarEvent> {
    var lines := Split(csv, '\n');
    ImportedEvents(lines, stamp, |lines|)
  }

  /** What the import creates: a yearly event at 09:00 with a non-empty date. */
  predicate IsImportedBirthday(e: CalendarEvent) {
    e.time == "09:00" && e.repeat && e.date != []
  }

  /** Every imported event is a yearly 09:00 event with a non-empty date. */
  lemma {:induction false} ImportedEventsAreBirthdays(lines: seq<string>, stamp: nat, n: nat)
    requires n <= |lines|
    ensures forall e :: e in ImportedEvents(lines, stamp, n) ==> IsImportedBirthday(e)
  {
    if n > 0 {
      ImportedEventsAreBirthdays(lines, stamp, n - 1);
      var prev, here := ImportedEvents(lines, stamp, n - 1), LineEvents(lines, stamp, n - 1);
      LineEventIsBirthday(lines, stamp, n - 1);
      AllAppend(prev, here, IsImportedBirthday);
    }
  }

  lemma LineEventIsBirthday(lines: seq<string>, stamp: nat, i: nat)
    requires i < |lines|
    ensures forall e :: e in LineEvents(lines, stamp, i) ==> IsImportedBirthday(e)
  {
    ParseBirthdayLineSpec(lines[i], i, stamp);
  }

  /** A field that survives the import unchanged: non-empty, trimmed, no comma or newline. */
  predicate PlainField(s: string) {
    s != [] && ',' !in s && '\n' !in s && Trim(s) == s
  }

  datatype BirthdayRow = BirthdayRow(name: string, date: string)

  function RowLine(row: BirthdayRow): string {
    row.name + "," + row.date
  }

  /** A birthday CSV file: a header line followed by one `name,date` line per row. */
  function BirthdayCsv(header: string, rows: seq<BirthdayRow>): string {
    Join([header] + RowLines(rows), "\n")
  }

  function RowLines(rows: seq<BirthdayRow>): (r: seq<string>)
    ensures |r| == |rows| && forall k :: 0 <= k < |rows| ==> r[k] == RowLine(rows[k])
  {
    seq(|rows|, k requires 0 <= k < |rows| => RowLine(rows[k]))
  }

  /**
   * Importing a well-formed birthday file yields one event per row, in row order,
   * each with the row's name and date: the import inverts the file layout.
   */
  lemma BirthdayImportRoundTrip(header: string, rows: seq<BirthdayRow>, stamp: nat)
    requires '\n' !in header
    requires forall k :: 0 <= k < |rows| ==> PlainField(rows[k].name) && PlainField(rows[k].date)
    ensures var lines := Split(BirthdayCsv(header, rows), '\n');
      ImportedEvents(lines, stamp, |lines|) == RowEvents(rows, stamp, |rows|)
  {
    CsvLines(header, rows);
    var lines := Split(BirthdayCsv(header, rows), '\n');
    ImportedRows(lines, rows, stamp, |lines|);
  }

  /** The lines of a birthday file are its header and its rows. */
  lemma CsvLines(header: string, rows: seq<BirthdayRow>)
    requires '\n' !in header
    requires forall k :: 0 <= k < |rows| ==> PlainField(rows[k].name) && PlainField(rows[k].date)
    ensures Split(BirthdayCsv(header, rows), '\n') == [header] + RowLines(rows)
  {
    var parts := [header] + RowLines(rows);
    forall k | 0 <= k < |parts| ensures '\n' !in parts[k] {
      if k > 0 {
        var row := rows[k - 1];
        assert parts[k] == row.name + [','] + row.date;
      }
    }
    SplitJoin(parts, '\n');
  }

  /** The first `n` lines of a file whose line `j` (`j >= 1`) is row `j - 1`. */
  lemma {:induction false} ImportedRows(lines: seq<string>, rows: seq<BirthdayRow>, stamp: nat, n: nat)
    requires 1 <= n <= |lines| == |rows| + 1
    requires forall j :: 1 <= j < |lines| ==> lines[j] == RowLine(rows[j - 1])
    requires forall k :: 0 <= k < |rows| ==> PlainField(rows[k].name) && PlainField(rows[k].date)
    ensures ImportedEvents(lines, stamp, n) == RowEvents(rows, stamp, n - 1)
  {
    if n == 1 {
      HeaderSkipped(lines, stamp);
    } else {
      ImportedRows(lines, rows, stamp, n - 1);
      RowLineImported(lines, rows[n - 2], stamp, n - 1);
      RowEventsStep(rows, stamp, n - 1);
    }
  }

  /** The events of the first `n` rows, row `k` imported as line `k + 1`. */
  function RowEvents(rows: seq<BirthdayRow>, stamp: nat, n: nat): (r: seq<CalendarEvent>)
    requires n <= |rows|
    ensures |r| == n
    ensures forall k :: 0 <= k < n ==> r[k] == BirthdayEvent(rows[k].name, rows[k].date, k + 1, stamp)
  {
    seq(n, k requires 0 <= k < n => BirthdayEvent(rows[k].name, rows[k].date, k + 1, stamp))
  }

  lemma RowEventsStep(rows: seq<BirthdayRow>, stamp: nat, n: nat)
    requires 1 <= n <= |rows|
    ensures RowEvents(rows, stamp, n)
      == RowEvents(rows, stamp, n - 1) + [BirthdayEvent(rows[n - 1].name, rows[n - 1].date, n, stamp)]
  {
  }

  /** Line `j` of the file, holding row `j - 1`, yields exactly that row's event. */
  lemma RowLineImported(lines: seq<string>, row: BirthdayRow, stamp: nat, j: nat)
    requires 1 <= j < |lines| && lines[j] == RowLine(row)
    requires PlainField(row.name) && PlainField(row.date)
    ensures LineEvents(lines, stamp, j) == [BirthdayEvent(row.name, row.date, j, stamp)]
  {
    RowLineParses(row, j, stamp);
  }

  /** The header line never yields an event. */
  lemma HeaderSkipped(lines: seq<string>, stamp: nat)
    requires |lines| >= 1
    ensures ImportedEvents(lines, stamp, 1) == []
  {
    assert LineEvents(lines, stamp, 0) == [];
  }

  lemma RowLineParses(row: BirthdayRow, index: nat, stamp: nat)
    requires index >= 1
    requires PlainField(row.name) && PlainField(row.date)
    ensures ParseBirthdayLine(RowLine(row), index, stamp) == Some(BirthdayEvent(row.name, row.date, index, stamp))
  {
    var line := RowLine(row);
    assert Split(line, ',') == [row.name, row.date] by {
      assert Join([row.name, row.date], [',']) == line;
      SplitJoin([row.name, row.date], ',');
    }
    ParseBirthdayLineSpec(line, index, stamp);
    var r := ParseBirthdayLine(line, index, stamp);
    assert r.Some?;
    assert r.value == BirthdayEvent(row.name, row.date, index, stamp);
  }

  /**
   * The import loop of `handleBirthdayUpload`: walks the lines in order, keeps one
   * event per usable line and counts them in `importCount`.
   */
  method ReadBirthdays(lines: seq<string>, stamp: nat) returns (events: seq<CalendarEvent>, importCount: nat)
    ensures events == ImportedEvents(lines, stamp, |lines|)
    ensures importCount == |events|
  {
    events, importCount := [], 0;
    var index := 0;
    while index < |lines|
      invariant 0 <= index <= |lines|
      invariant events == ImportedEvents(lines, stamp, index)
      invariant importCount == |events|
    {
      var found := LineEvents(lines, stamp, index);
      assert ImportedEvents(lines, stamp, index + 1) == events + found;
      assert |events + found| == importCount + |found|;
      events := events + found;
      importCount := importCount + |found|;
      index := index + 1;
    }
  }

  // ---- the application state ----

  /**
   * `AppState`'s widget and event lists with the selection, and the two lists as
   * last written to local storage (`ledboard_widgets`, `ledboard_events`).
   */
  class AppState {
    var widgets: seq<Widget>
    var selectedWidget: Option<string>
    var scheduledEvents: seq<CalendarEvent>
    var storedWidgets: seq<Widget>
    var storedEvents: seq<CalendarEvent>

    /** `initializeApp`: the lists are loaded from storage (empty when nothing was stored). */
    constructor (savedWidgets: seq<Widget>, savedEvents: seq<CalendarEvent>)
      ensures widgets == storedWidgets == savedWidgets
      ensures scheduledEvents == storedEvents == savedEvents
      ensures selectedWidget == None
    {
      widgets, storedWidgets := savedWidgets, savedWidgets;
      scheduledEvents, storedEvents := savedEvents, savedEvents;
      selectedWidget := None;
    }

    /** `addWidget`: append the new widget, save the list, select the widget. */
    method AddWidget(kind: string, stamp: nat)
      requires IsWidgetType(kind)
      modifies this
      ensures widgets == old(widgets) + [CreateWidget(kind, stamp).value]
      ensures storedWidgets == widgets
      ensures selectedWidget == Some(CreateWidget(kind, stamp).value.id)
      ensures scheduledEvents == old(scheduledEvents) && storedEvents == old(storedEvents)
      ensures AllOnCanvas(old(widgets)) ==> AllOnCanvas(widgets)
    {
      var widget := CreateWidget(kind, stamp).value;
      widgets := widgets + [widget];
      storedWidgets := widgets;
      selectedWidget := Some(widget.id);
    }

    /** `deleteWidget`: drop every widget with this id, save, clear the selection. */
    method DeleteWidget(id: string)
      modifies this
      ensures widgets == WithoutWidget(old(widgets), id)
      ensures storedWidgets == widgets
      ensures selectedWidget == None
      ensures scheduledEvents == old(scheduledEvents) && storedEvents == old(storedEvents)
      ensures AllOnCanvas(old(widgets)) ==> AllOnCanvas(widgets)
    {
      ghost var before := widgets;
      widgets := WithoutWidget(widgets, id);
      storedWidgets := widgets;
      selectedWidget := None;
      forall k | 0 <= k < |widgets| ensures AllOnCanvas(before) ==> OnCanvas(widgets[k]) {
        DeleteWidgetKeepsOthers(before, [], id, widgets[k]);
      }
    }

    /**
     * One mouse-move step of a drag that started with the widget at
     * (startLeft, startTop): both coordinates are clamped at 0. The drag does not save.
     */
    method DragWidget(i: nat, startLeft: int, startTop: int, deltaX: int, deltaY: int)
      requires i < |widgets|
      modifies this
      ensures widgets == old(widgets)[i := old(widgets)[i].(x := DragPosition(startLeft, deltaX),
                                                            y := DragPosition(startTop, deltaY))]
      ensures OnCanvas(widgets[i])
      ensures storedWidgets == old(storedWidgets) && selectedWidget == old(selectedWidget)
      ensures scheduledEvents == old(scheduledEvents) && storedEvents == old(storedEvents)
      ensures AllOnCanvas(old(widgets)) ==> AllOnCanvas(widgets)
    {
      var w := widgets[i];
      widgets := widgets[i := w.(x := DragPosition(startLeft, deltaX), y := DragPosition(startTop, deltaY))];
    }

    /** `scheduleEvent`: append an event made from the form fields and save. */
    method ScheduleEvent(stamp: nat, title: string, date: string, time: string, message: string, repeat: bool)
      modifies this
      ensures scheduledEvents == old(scheduledEvents)
        + [CalendarEvent("event_" + NatToString(stamp), title, date, time, message, repeat)]
      ensures storedEvents == scheduledEvents
      ensures widgets == old(widgets) && storedWidgets == old(storedWidgets)
      ensures selectedWidget == old(selectedWidget)
    {
      var event := CalendarEvent("event_" + NatToString(stamp), title, date, time, message, repeat);
      scheduledEvents := scheduledEvents + [event];
      storedEvents := scheduledEvents;
    }

    /** `deleteEvent`: when the user confirms, drop the events with this id and save. */
    method DeleteEvent(id: string, confirmed: bool)
      modifies this
      ensures scheduledEvents == if confirmed then WithoutEvent(old(scheduledEvents), id) else old(scheduledEvents)
      ensures storedEvents == if confirmed then scheduledEvents else old(storedEvents)
      ensures widgets == old(widgets) && storedWidgets == old(storedWidgets)
      ensures selectedWidget == old(selectedWidget)
    {
      if confirmed {
        scheduledEvents := WithoutEvent(scheduledEvents, id);
        storedEvents := scheduledEvents;
      }
    }

    /**
     * `handleBirthdayUpload`'s reader callback: the events read from the file are
     * appended; the list is saved only when something was imported.
     */
    method ImportBirthdays(csv: string, stamp: nat) returns (importCount: nat)
      modifies this
      ensures scheduledEvents == old(scheduledEvents) + CsvEvents(csv, stamp)
      ensures importCount == |CsvEvents(csv, stamp)|
      ensures storedEvents == if importCount > 0 then scheduledEvents else old(storedEvents)
      ensures widgets == old(widgets) && storedWidgets == old(storedWidgets)
      ensures selectedWidget == old(selectedWidget)
    {
      var lines := Split(csv, '\n');
      var imported;
      imported, importCount := ReadBirthdays(lines, stamp);
      scheduledEvents := scheduledEvents + imported;
      if importCount > 0 {
        storedEvents := scheduledEvents;
      }
    }
  }
}
