/**
 * The figures `updateDashboard` (frontend script.js) shows: the number of log
 * entries, the number of each type, the three newest entries, and each entry's
 * message cut to 50 characters.
 */
module Dashboard {
  import opened Seqs
  import opened Scheduler

  /** `l => l.type === kind`. */
  function OfKind(kind: string): LogEntry -> bool {
    (l: LogEntry) => l.kind == kind
  }

  /** `logs.filter(l => l.type === kind).length`. */
  function KindCount(logs: seq<LogEntry>, kind: string): (n: nat)
    ensures n == Count(logs, OfKind(kind))
    ensures n <= |logs|
  {
    FilterLength(logs, OfKind(kind));
    |Filter(logs, OfKind(kind))|
  }

  /** The four figures at the top of the dashboard. */
  datatype Stats = Stats(total: nat, manual: nat, birthday: nat, scheduled: nat)

  /**
   * Total Messages, Manual, Birthday and Scheduled: the number of entries, and the
   * number of entries of each of the three types.
   */
  function DashboardStats(logs: seq<LogEntry>): (r: Stats)
    ensures r.total == |logs|
    ensures r.manual == KindCount(logs, "Manual") && r.birthday == KindCount(logs, "Birthday")
      && r.scheduled == KindCount(logs, "Scheduled")
    ensures r.manual + r.birthday + r.scheduled <= r.total
  {
    TypesWithinTotal(logs);
    Stats(|logs|, KindCount(logs, "Manual"), KindCount(logs, "Birthday"), KindCount(logs, "Scheduled"))
  }

  /** An entry has one type, so the three per-type figures together never exceed the total. */
  lemma {:induction false} TypesWithinTotal(logs: seq<LogEntry>)
    ensures Count(logs, OfKind("Manual")) + Count(logs, OfKind("Birthday")) + Count(logs, OfKind("Scheduled"))
      <= |logs|
  {
    if logs != [] {
      TypesWithinTotal(logs[1..]);
    }
  }

  /** An entry put in front of the log adds one to its own type's figure and to no other. */
  lemma PrependCount(e: LogEntry, logs: seq<LogEntry>, kind: string)
    ensures KindCount([e] + logs, kind) == KindCount(logs, kind) + (if e.kind == kind then 1 else 0)
  {
    assert ([e] + logs)[1..] == logs;
  }

  /**
   * The figures after an entry is put in front of the log: the total and the
   * entry's own type each grow by one, and the other figures stay as they were.
   */
  lemma StatsAfterPrepend(e: LogEntry, logs: seq<LogEntry>)
    ensures var before, after := DashboardStats(logs), DashboardStats([e] + logs);
      after.total == before.total + 1
      && after.manual == before.manual + (if e.kind == "Manual" then 1 else 0)
      && after.birthday == before.birthday + (if e.kind == "Birthday" then 1 else 0)
      && after.scheduled == before.scheduled + (if e.kind == "Scheduled" then 1 else 0)
  {
    PrependCount(e, logs, "Manual");
    PrependCount(e, logs, "Birthday");
    PrependCount(e, logs, "Scheduled");
  }

  /** Every entry the check writes is of type `Scheduled`. */
  lemma {:induction false} SentEntriesCount(fired: seq<ScheduledMessage>, now: int, stamp: nat, kind: string)
    ensures KindCount(SentEntries(fired, now, stamp), kind) == if kind == "Scheduled" then |fired| else 0
  {
    if fired != [] {
      var init := fired[..|fired| - 1];
      SentEntriesCount(init, now, stamp, kind);
      PrependCount(SentEntry(fired[|fired| - 1], now, stamp), SentEntries(init, now, stamp), kind);
    }
  }

  /**
   * After a check, the `Scheduled` figure has grown by the number of messages sent
   * and the other types' figures are unchanged.
   */
  lemma CheckCounts(messages: seq<ScheduledMessage>, logs: seq<LogEntry>, now: int, stamp: nat, kind: string)
    ensures var after := SentEntries(Fired(messages, now), now, stamp) + logs;
      KindCount(after, kind) == KindCount(logs, kind) + if kind == "Scheduled" then |Fired(messages, now)| else 0
  {
    var entries := SentEntries(Fired(messages, now), now, stamp);
    CountAppend(entries, logs, OfKind(kind));
    SentEntriesCount(Fired(messages, now), now, stamp, kind);
  }

  /**
   * The recent-activity list, `logs.slice(0, 3)`: the three entries at the front,
   * which are the newest ones because every entry is put in front.
   */
  function RecentActivity(logs: seq<LogEntry>): (r: seq<LogEntry>)
    ensures |r| == if |logs| < 3 then |logs| else 3
    ensures forall k :: 0 <= k < |r| ==> r[k] == logs[k]
  {
    if |logs| < 3 then logs else logs[..3]
  }

  /** A new entry heads the recent activity, followed by up to two of the earlier ones. */
  lemma RecentAfterPrepend(e: LogEntry, logs: seq<LogEntry>)
    ensures RecentActivity([e] + logs) == [e] + RecentActivity(logs)[..if |logs| < 2 then |logs| else 2]
  {
    var r, old3 := RecentActivity([e] + logs), RecentActivity(logs);
    var n := if |logs| < 2 then |logs| else 2;
    assert |r| == n + 1;
    forall k | 0 <= k < |r| ensures r[k] == ([e] + old3[..n])[k] {
      if k > 0 {
        assert r[k] == logs[k - 1];
      }
    }
  }

  /**
   * The text shown for an entry: `message.substring(0, 50)`, followed by "..."
   * exactly when the message is longer than 50 characters.
   */
  function ActivityText(message: string): (r: string)
    ensures |message| <= 50 ==> r == message
    ensures |message| > 50 ==> |r| == 53 && r[..50] == message[..50] && r[50..] == "..."
    ensures |r| > 50 <==> |message| > 50
  {
    if |message| > 50 then message[..50] + "..." else message
  }
}
