/**
 * The LedArt message history (ledart-app.js): the mock board API records every
 * quick message and every program it sends in a list kept in local storage and
 * capped at the newest 100 records; the home page shows the newest five, and each
 * record's age is shown in whole minutes, hours or days.
 */
module LedHistory {
  import opened Wrappers
  import opened Text
  import opened Seqs
  import LedEditor

  const HistoryCap := 100
  const MinuteMs := 60000
  const HourMs := 3600000
  const DayMs := 86400000

  datatype RecordType = QuickMessage | ProgramSent

  /**
   * One history record: `id` is the `Date.now()` reading, `sentAt` the send time in
   * milliseconds, and a program record carries the widgets that were sent.
   */
  datatype HistoryRecord = HistoryRecord(id: nat, message: string, sentAt: int, kind: RecordType,
                                         status: string, programData: Option<seq<LedEditor.Widget>>)

  /** The newest `n` entries of `s` (all of them when there are no more than `n`). */
  function Newest<T>(s: seq<T>, n: nat): (r: seq<T>)
    ensures |r| <= n && |r| <= |s|
    ensures |r| == n || r == s
  {
    if |s| <= n then s else s[|s| - n..]
  }

  /** `Newest` keeps a suffix: entry k of the result is entry k of `s`'s last |r|. */
  lemma NewestIsSuffix<T>(s: seq<T>, n: nat)
    ensures var r := Newest(s, n);
      forall k :: 0 <= k < |r| ==> r[k] == s[|s| - |r| + k]
  {
  }

  /**
   * Appending one entry and keeping the newest `n` is keeping the newest `n - 1`
   * and appending the entry: the oldest record is the one dropped.
   */
  lemma NewestAppend<T>(h: seq<T>, x: T, n: nat)
    requires n >= 1
    ensures Newest(h + [x], n) == Newest(h, n - 1) + [x]
  {
    if |h| + 1 > n {
      assert (h + [x])[|h| + 1 - n..] == h[|h| - (n - 1)..] + [x];
    }
  }

  /** The message of a program record. */
  function ProgramSummary(widgetCount: nat): (r: string)
    ensures |r| > 19 && r[..9] == "Program: " && r[|r| - 10..] == " widget(s)"
    ensures ParseDecimal(r[9..|r| - 10]) == Some(widgetCount) && r[9..|r| - 10] == NatToString(widgetCount)
  {
    var digits := NatToString(widgetCount);
    ParseNatToString(widgetCount);
    var r := "Program: " + digits + " widget(s)";
    assert r[9..|r| - 10] == digits;
    r
  }

  /**
   * `updateMessageHistory`'s list: the last five records, newest first. The page
   * says "No messages sent yet" exactly when this is empty.
   */
  function RecentMessages(history: seq<HistoryRecord>): (r: seq<HistoryRecord>)
    ensures |r| == if |history| < 5 then |history| else 5
    ensures forall k :: 0 <= k < |r| ==> r[k] == history[|history| - 1 - k]
    ensures r == [] <==> history == []
  {
    var last := Newest(history, 5);
    NewestIsSuffix(history, 5);
    Reverse(last)
  }

  // ---- formatMessageTime ----

  /** How old a record is, as `formatMessageTime` words it. */
  datatype Age = JustNow | MinutesAgo(minutes: nat) | HoursAgo(hours: nat) | DaysAgo(days: nat) | OnDate

  /**
   * The bucket for an age of `elapsed` milliseconds. The counts are the floors of
   * the elapsed units (`Math.floor`; Dafny's `/` by a positive divisor rounds down
   * too), and a record from the future is "Just now".
   */
  function AgeOf(elapsed: int): (a: Age)
    ensures a == JustNow <==> elapsed < MinuteMs
    ensures a.MinutesAgo? <==> MinuteMs <= elapsed < HourMs
    ensures a.HoursAgo? <==> HourMs <= elapsed < DayMs
    ensures a.DaysAgo? <==> DayMs <= elapsed < 7 * DayMs
    ensures a == OnDate <==> 7 * DayMs <= elapsed
    ensures a.MinutesAgo? ==>
      1 <= a.minutes < 60 && a.minutes * MinuteMs <= elapsed < (a.minutes + 1) * MinuteMs
    ensures a.HoursAgo? ==>
      1 <= a.hours < 24 && a.hours * HourMs <= elapsed < (a.hours + 1) * HourMs
    ensures a.DaysAgo? ==>
      1 <= a.days < 7 && a.days * DayMs <= elapsed < (a.days + 1) * DayMs
  {
    var minutes, hours, days := elapsed / MinuteMs, elapsed / HourMs, elapsed / DayMs;
    if minutes < 1 then JustNow
    else if minutes < 60 then MinutesAgo(minutes)
    else if hours < 24 then HoursAgo(hours)
    else if days < 7 then DaysAgo(days)
    else OnDate
  }

  /**
   * `formatMessageTime(timestamp)` read at time `now`; `localDate` is what
   * `toLocaleDateString` shows for the record's date.
   */
  function FormatMessageTime(sentAt: int, now: int, localDate: string): (r: string)
    ensures now - sentAt < MinuteMs ==> r == "Just now"
    ensures MinuteMs <= now - sentAt < HourMs ==> var n := (now - sentAt) / MinuteMs;
      |r| > 5 && r[|r| - 5..] == "m ago" && ParseDecimal(r[..|r| - 5]) == Some(n) && r[..|r| - 5] == NatToString(n)
    ensures HourMs <= now - sentAt < DayMs ==> var n := (now - sentAt) / HourMs;
      |r| > 5 && r[|r| - 5..] == "h ago" && ParseDecimal(r[..|r| - 5]) == Some(n) && r[..|r| - 5] == NatToString(n)
    ensures DayMs <= now - sentAt < 7 * DayMs ==> var n := (now - sentAt) / DayMs;
      |r| > 5 && r[|r| - 5..] == "d ago" && ParseDecimal(r[..|r| - 5]) == Some(n) && r[..|r| - 5] == NatToString(n)
    ensures 7 * DayMs <= now - sentAt ==> r == localDate
  {
    var elapsed := now - sentAt;
    match AgeOf(elapsed)
    case JustNow => "Just now"
    case MinutesAgo(n) => assert n == elapsed / MinuteMs; AgoText(n, 'm')
    case HoursAgo(n) => assert n == elapsed / HourMs; AgoText(n, 'h')
    case DaysAgo(n) => assert n == elapsed / DayMs; AgoText(n, 'd')
    case OnDate => localDate
  }

  function AgoText(n: nat, unit: char): (r: string)
    ensures |r| > 5 && r[|r| - 5..] == [unit] + " ago" && ParseDecimal(r[..|r| - 5]) == Some(n)
    ensures r[..|r| - 5] == NatToString(n)
  {
    ParseNatToString(n);
    var r := NatToString(n) + [unit] + " ago";
    assert r[..|r| - 5] == NatToString(n);
    r
  }

  // ---- the stored history ----

  /** The `ledboard_messages` list in local storage, as the mock board API updates it. */
  class MessageHistory {
    var records: seq<HistoryRecord>

    /** The list as read from storage (empty when nothing was stored). */
    constructor (saved: seq<HistoryRecord>)
      ensures records == saved
    {
      records := saved;
    }

    /** Push one record, then splice off the oldest so that at most 100 remain. */
    method Store(record: HistoryRecord)
      modifies this
      ensures records == Newest(old(records), HistoryCap - 1) + [record]
      ensures |records| <= HistoryCap
    {
      NewestAppend(records, record, HistoryCap);
      records := records + [record];
      if |records| > HistoryCap {
        records := records[|records| - HistoryCap..];
      }
    }

    /** `sendQuickMessage`: record a quick message sent at `now` with id `stamp`. */
    method SendQuickMessage(message: string, stamp: nat, now: int)
      modifies this
      ensures records == Newest(old(records), HistoryCap - 1)
        + [HistoryRecord(stamp, message, now, QuickMessage, "sent", None)]
      ensures |records| <= HistoryCap
    {
      Store(HistoryRecord(stamp, message, now, QuickMessage, "sent", None));
    }

    /** `sendProgram`: record a program of `widgets` sent at `now` with id `stamp`. */
    method SendProgram(widgets: seq<LedEditor.Widget>, stamp: nat, now: int)
      modifies this
      ensures records == Newest(old(records), HistoryCap - 1)
        + [HistoryRecord(stamp, ProgramSummary(|widgets|), now, ProgramSent, "sent", Some(widgets))]
      ensures |records| <= HistoryCap
    {
      Store(HistoryRecord(stamp, ProgramSummary(|widgets|), now, ProgramSent, "sent", Some(widgets)));
    }
  }

  /**
   * Two sends in a row keep the newest 98 earlier records followed by both new
   * ones, in send order.
   */
  lemma {:induction false} TwoSends(h: seq<HistoryRecord>, a: HistoryRecord, b: HistoryRecord)
    ensures Newest(Newest(h, HistoryCap - 1) + [a], HistoryCap - 1) + [b]
      == Newest(h, HistoryCap - 2) + [a, b]
  {
    NewestAppend(Newest(h, HistoryCap - 1), a, HistoryCap - 1);
    NewestOfNewest(h, HistoryCap - 1, HistoryCap - 2);
  }

  lemma NewestOfNewest<T>(s: seq<T>, n: nat, m: nat)
    requires m <= n
    ensures Newest(Newest(s, n), m) == Newest(s, m)
  {
  }
}
