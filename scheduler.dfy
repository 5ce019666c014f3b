/**
 * The LED board controller page (frontend script.js): the queue of scheduled
 * messages, the send log, the birthday list read from a CSV file, and the
 * once-a-minute check that sends the scheduled messages whose time has come.
 * Times are milliseconds; `now`, the page's local midnight and the `Date.now()`
 * readings used as ids are parameters.
 */
module Scheduler {
  import opened Wrappers
  import opened Text
  import Seqs

  const MinuteMs := 60000
  const HourMs := 3600000
  const DayMs := 86400000

  /** An entry of `messages`; `timestamp` is when it was scheduled. */
  datatype ScheduledMessage = ScheduledMessage(id: nat, message: string, scheduledTime: int,
                                               timestamp: int, kind: string, status: string)

  /** An entry of `logs`. */
  datatype LogEntry = LogEntry(id: nat, message: string, timestamp: int, kind: string, status: string)

  /** An entry of `birthdays`. */
  datatype Birthday = Birthday(id: int, name: string, dob: string)

  // ---- scheduleMessage ----

  /**
   * `Number(s)` for the digit strings a time field holds: the text is trimmed, then
   * blank is 0, a run of decimal digits is its value, anything else is NaN (None).
   */
  function NumberValue(s: string): (r: Option<nat>)
    ensures AllSpace(s) ==> r == Some(0)
    ensures ParseDecimal(s).Some? ==> r == ParseDecimal(s)
    ensures ParseDecimal(Trim(s)).Some? ==> r == ParseDecimal(Trim(s))
  {
    TrimEmptyIffAllSpace(s);
    var t := Trim(s);
    if t == [] then Some(0)
    else
      TrimNoSpaceEdges(s);
      ParseDecimal(t)
  }

  /** The hours and minutes of an `HH:MM` field (`time.split(':')` then `setHours`). */
  function ParseClockTime(time: string): Option<(nat, nat)> {
    var parts := Split(time, ':');
    if |parts| < 2 then None
    else match (NumberValue(parts[0]), NumberValue(parts[1]))
      case (Some(h), Some(m)) => Some((h, m))
      case _ => None
  }

  /** A time field as the browser fills it in, `HH:MM`, reads back as its hours and minutes. */
  lemma ParseClockTimeRoundTrip(hours: nat, minutes: nat)
    requires hours < 100 && minutes < 100
    ensures ParseClockTime(Pad2(hours) + ":" + Pad2(minutes)) == Some((hours, minutes))
  {
    var hh, mm := Pad2(hours), Pad2(minutes);
    assert Join([hh, mm], [':']) == hh + ":" + mm;
    SplitJoin([hh, mm], ':');
  }

  /**
   * The send time `scheduleMessage` computes: today at `hours:minutes:00.000`,
   * moved to the next day when that is not after `now`.
   */
  function RollForward(todayStart: int, now: int, hours: nat, minutes: nat): (r: int)
    ensures r > now || todayStart + hours * HourMs + minutes * MinuteMs + DayMs <= now
    ensures var atTime := todayStart + hours * HourMs + minutes * MinuteMs;
      (atTime > now ==> r == atTime) && (atTime <= now ==> r == atTime + DayMs)
  {
    var atTime := todayStart + hours * HourMs + minutes * MinuteMs;
    if atTime <= now then atTime + DayMs else atTime
  }

  /**
   * For a time of day read during the day that starts at `todayStart`, the message
   * goes out within the next 24 hours and never at or before `now`.
   */
  lemma RollForwardWithinADay(todayStart: int, now: int, hours: nat, minutes: nat)
    requires todayStart <= now < todayStart + DayMs
    requires hours < 24 && minutes < 60
    ensures var r := RollForward(todayStart, now, hours, minutes);
      now < r <= now + DayMs
  {
  }

  // ---- checkScheduledMessages ----

  /** A message the check sends: its time has come and it is still `Scheduled`. */
  predicate Due(m: ScheduledMessage, now: int) {
    m.scheduledTime <= now && m.status == "Scheduled"
  }

  /**
   * What stays in `messages` after one check. `forEach` with `splice` removes a due
   * message and then moves on to the next index, so the message that slid into the
   * removed one's place is not looked at in this pass.
   */
  function Kept(s: seq<ScheduledMessage>, now: int): (r: seq<ScheduledMessage>)
    ensures |r| <= |s|
  {
    if s == [] then []
    else if Due(s[0], now) then (if |s| == 1 then [] else [s[1]] + Kept(s[2..], now))
    else [s[0]] + Kept(s[1..], now)
  }

  /** The messages one check sends, in queue order. */
  function Fired(s: seq<ScheduledMessage>, now: int): (r: seq<ScheduledMessage>)
    ensures |r| <= |s|
  {
    if s == [] then []
    else if Due(s[0], now) then [s[0]] + (if |s| == 1 then [] else Fired(s[2..], now))
    else Fired(s[1..], now)
  }

  /** The log entry for a message the check sends. */
  function SentEntry(m: ScheduledMessage, now: int, stamp: nat): LogEntry {
    LogEntry(stamp, m.message, now, "Scheduled", "Sent")
  }

  /** The entries the check puts in front of `logs`: one per sent message, the last sent first. */
  function SentEntries(fired: seq<ScheduledMessage>, now: int, stamp: nat): (r: seq<LogEntry>)
    ensures |r| == |fired|
  {
    if fired == [] then []
    else [SentEntry(fired[|fired| - 1], now, stamp)] + SentEntries(fired[..|fired| - 1], now, stamp)
  }

  /** Entry k of the check's log entries is for the k-th message from the end of the sent ones. */
  lemma {:induction false} SentEntriesNewestFirst(fired: seq<ScheduledMessage>, now: int, stamp: nat)
    ensures forall k :: 0 <= k < |fired| ==>
      SentEntries(fired, now, stamp)[k] == SentEntry(fired[|fired| - 1 - k], now, stamp)
  {
    if fired != [] {
      var init := fired[..|fired| - 1];
      SentEntriesNewestFirst(init, now, stamp);
      var r, rest := SentEntries(fired, now, stamp), SentEntries(init, now, stamp);
      forall k | 0 <= k < |fired| ensures r[k] == SentEntry(fired[|fired| - 1 - k], now, stamp) {
        if k > 0 {
          assert r[k] == rest[k - 1];
          assert init[|init| - 1 - (k - 1)] == fired[|fired| - 1 - k];
        }
      }
    }
  }

  /** Which messages of the queue one check sends (true) and which it keeps (false). */
  function FireMask(s: seq<ScheduledMessage>, now: int): (mask: seq<bool>)
    ensures |mask| == |s|
  {
    if s == [] then []
    else if Due(s[0], now) then [true] + (if |s| == 1 then [] else [false] + FireMask(s[2..], now))
    else [false] + FireMask(s[1..], now)
  }

  /** The rule a mask follows: a message is sent iff it is due and the one before it was not sent. */
  predicate FollowsSkipRule(s: seq<ScheduledMessage>, now: int, mask: seq<bool>)
    requires |mask| == |s|
  {
    forall i {:trigger mask[i]} :: 0 <= i < |s| ==> (mask[i] <==> Due(s[i], now) && (i == 0 || !mask[i - 1]))
  }

  /** The elements of `s` whose mask entry is `b`, in order. */
  function Pick<T>(s: seq<T>, mask: seq<bool>, b: bool): (r: seq<T>)
    requires |mask| == |s|
    ensures |r| <= |s|
  {
    if s == [] then [] else (if mask[0] == b then [s[0]] else []) + Pick(s[1..], mask[1..], b)
  }

  /** The check's mask follows the skip rule. */
  lemma {:induction false} FireMaskFollowsRule(s: seq<ScheduledMessage>, now: int)
    ensures FollowsSkipRule(s, now, FireMask(s, now))
  {
    if s == [] {
    } else if Due(s[0], now) && |s| >= 2 {
      FireMaskFollowsRule(s[2..], now);
      RuleAfterSend(s, now, FireMask(s[2..], now));
      FireMaskSend(s, now);
    } else if !Due(s[0], now) {
      FireMaskFollowsRule(s[1..], now);
      RuleAfterKeep(s, now, FireMask(s[1..], now));
      FireMaskKeep(s, now);
    }
  }

  lemma FireMaskSend(s: seq<ScheduledMessage>, now: int)
    requires |s| >= 2 && Due(s[0], now)
    ensures FireMask(s, now) == [true, false] + FireMask(s[2..], now)
  {
  }

  lemma FireMaskKeep(s: seq<ScheduledMessage>, now: int)
    requires |s| >= 1 && !Due(s[0], now)
    ensures FireMask(s, now) == [false] + FireMask(s[1..], now)
  {
  }

  /** A due first message is sent, the one behind it is kept, and the rule goes on from there. */
  lemma RuleAfterSend(s: seq<ScheduledMessage>, now: int, rest: seq<bool>)
    requires |s| >= 2 && Due(s[0], now) && |rest| == |s| - 2
    requires FollowsSkipRule(s[2..], now, rest)
    ensures FollowsSkipRule(s, now, [true, false] + rest)
  {
    var mask, tail := [true, false] + rest, s[2..];
    assert FollowsSkipRule(tail, now, rest);
    forall i | 0 <= i < |s| ensures mask[i] <==> Due(s[i], now) && (i == 0 || !mask[i - 1]) {
      if i >= 2 {
        var j := i - 2;
        assert mask[i] == rest[j] && s[i] == tail[j];
        assert rest[j] <==> Due(tail[j], now) && (j == 0 || !rest[j - 1]);
        if j > 0 {
          assert mask[i - 1] == rest[j - 1];
        }
      }
    }
    assert FollowsSkipRule(s, now, mask);
  }

  /** A first message that is not due is kept, and the rule goes on from the next one. */
  lemma RuleAfterKeep(s: seq<ScheduledMessage>, now: int, rest: seq<bool>)
    requires |s| >= 1 && !Due(s[0], now) && |rest| == |s| - 1
    requires FollowsSkipRule(s[1..], now, rest)
    ensures FollowsSkipRule(s, now, [false] + rest)
  {
    var mask := [false] + rest;
    forall i | 0 <= i < |s| ensures mask[i] <==> Due(s[i], now) && (i == 0 || !mask[i - 1]) {
      if i >= 1 {
        var j := i - 1;
        assert mask[i] == rest[j] && s[i] == s[1..][j];
        assert rest[j] <==> Due(s[1..][j], now) && (j == 0 || !rest[j - 1]);
        if j > 0 {
          assert mask[i - 1] == rest[j - 1];
        }
      }
    }
    assert FollowsSkipRule(s, now, mask);
  }

  /** The skip rule fixes the mask: no other choice of sent messages follows it. */
  lemma SkipRuleDeterminesMask(s: seq<ScheduledMessage>, now: int, mask: seq<bool>)
    requires |mask| == |s| && FollowsSkipRule(s, now, mask)
    ensures mask == FireMask(s, now)
  {
    var fm := FireMask(s, now);
    FireMaskFollowsRule(s, now);
    forall i | 0 <= i < |s| ensures mask[i] == fm[i] {
      RuleAgreesAt(s, now, mask, fm, i);
    }
  }

  /** Two masks that follow the rule agree at `i`, because they agree at every index before it. */
  lemma {:induction false} RuleAgreesAt(s: seq<ScheduledMessage>, now: int, mask: seq<bool>, other: seq<bool>, i: nat)
    requires |mask| == |s| && |other| == |s| && i < |s|
    requires FollowsSkipRule(s, now, mask) && FollowsSkipRule(s, now, other)
    ensures mask[i] == other[i]
  {
    if i > 0 {
      RuleAgreesAt(s, now, mask, other, i - 1);
    }
    assert mask[i] <==> Due(s[i], now) && (i == 0 || !mask[i - 1]);
    assert other[i] <==> Due(s[i], now) && (i == 0 || !other[i - 1]);
  }

  /**
   * The check keeps exactly the unmasked messages and sends exactly the masked ones,
   * each group in its original order.
   */
  lemma KeptAndFiredByMask(s: seq<ScheduledMessage>, now: int)
    ensures Kept(s, now) == Pick(s, FireMask(s, now), false)
    ensures Fired(s, now) == Pick(s, FireMask(s, now), true)
  {
    KeptByMask(s, now);
    FiredByMask(s, now);
  }

  lemma {:induction false} KeptByMask(s: seq<ScheduledMessage>, now: int)
    ensures Kept(s, now) == Pick(s, FireMask(s, now), false)
  {
    if s == [] {
    } else if Due(s[0], now) && |s| >= 2 {
      KeptByMask(s[2..], now);
      FireMaskSend(s, now);
      PickPair(s, FireMask(s[2..], now), false);
    } else if !Due(s[0], now) {
      KeptByMask(s[1..], now);
      FireMaskKeep(s, now);
      PickStep(s, FireMask(s, now), false);
    }
  }

  lemma {:induction false} FiredByMask(s: seq<ScheduledMessage>, now: int)
    ensures Fired(s, now) == Pick(s, FireMask(s, now), true)
  {
    if s == [] {
    } else if Due(s[0], now) && |s| >= 2 {
      FiredByMask(s[2..], now);
      FireMaskSend(s, now);
      PickPair(s, FireMask(s[2..], now), true);
    } else if !Due(s[0], now) {
      FiredByMask(s[1..], now);
      FireMaskKeep(s, now);
      PickStep(s, FireMask(s, now), true);
    }
  }

  lemma PickStep<T>(s: seq<T>, mask: seq<bool>, b: bool)
    requires |mask| == |s| > 0
    ensures Pick(s, mask, b) == (if mask[0] == b then [s[0]] else []) + Pick(s[1..], mask[1..], b)
  {
  }

  /** Under a mask that starts with a sent entry and a kept one, each group gets one of the two. */
  lemma PickPair<T>(s: seq<T>, rest: seq<bool>, b: bool)
    requires |s| >= 2 && |rest| == |s| - 2
    ensures Pick(s, [true, false] + rest, b) == (if b then [s[0]] else [s[1]]) + Pick(s[2..], rest, b)
  {
    var mask := [true, false] + rest;
    PickStep(s, mask, b);
    PickStep(s[1..], mask[1..], b);
    assert mask[1..][1..] == rest && s[1..][1..] == s[2..];
  }

  /** Every message the check sends was due. */
  lemma {:induction false} FiredAreDue(s: seq<ScheduledMessage>, now: int)
    ensures forall m :: m in Fired(s, now) ==> Due(m, now)
  {
    if s != [] {
      if Due(s[0], now) && |s| >= 2 {
        FiredAreDue(s[2..], now);
      } else if !Due(s[0], now) {
        FiredAreDue(s[1..], now);
      }
    }
  }

  /**
   * The check neither loses nor invents a message: what it keeps and what it sends
   * together make up the queue it started from.
   */
  lemma KeptAndFiredPartition(s: seq<ScheduledMessage>, now: int)
    ensures multiset(Kept(s, now)) + multiset(Fired(s, now)) == multiset(s)
  {
    KeptAndFiredByMask(s, now);
    PickPartition(s, FireMask(s, now));
  }

  /** Splitting a sequence by a mask loses and invents nothing. */
  lemma {:induction false} PickPartition<T>(s: seq<T>, mask: seq<bool>)
    requires |mask| == |s|
    ensures multiset(Pick(s, mask, false)) + multiset(Pick(s, mask, true)) == multiset(s)
  {
    if s != [] {
      PickPartition(s[1..], mask[1..]);
      assert s == [s[0]] + s[1..];
    }
  }

  /** Number of due messages in the queue. */
  function DueCount(s: seq<ScheduledMessage>, now: int): (n: nat)
    ensures n <= |s|
  {
    if s == [] then 0 else (if Due(s[0], now) then 1 else 0) + DueCount(s[1..], now)
  }

  /**
   * Each sent message shields at most the one message behind it, so a check sends
   * at least half of the due messages, and at least one when any is due.
   */
  lemma {:induction false} CheckSendsHalfTheDue(s: seq<ScheduledMessage>, now: int)
    ensures |Fired(s, now)| + DueCount(Kept(s, now), now) == DueCount(s, now)
    ensures DueCount(Kept(s, now), now) <= |Fired(s, now)|
    ensures DueCount(s, now) > 0 ==> |Fired(s, now)| > 0
  {
    if s != [] {
      if Due(s[0], now) && |s| >= 2 {
        CheckSendsHalfTheDue(s[2..], now);
        assert s[1..][1..] == s[2..];
        assert Kept(s, now)[1..] == Kept(s[2..], now);
      } else if !Due(s[0], now) {
        CheckSendsHalfTheDue(s[1..], now);
        assert Kept(s, now)[1..] == Kept(s[1..], now);
      }
    }
  }

  /** With nothing due the check changes nothing. */
  lemma {:induction false} NothingDueNothingChanges(s: seq<ScheduledMessage>, now: int)
    requires DueCount(s, now) == 0
    ensures Kept(s, now) == s && Fired(s, now) == []
  {
    if s != [] {
      NothingDueNothingChanges(s[1..], now);
    }
  }

  /** Two due messages next to each other: the first check sends only the first one. */
  lemma AdjacentDueNeedTwoChecks(a: ScheduledMessage, b: ScheduledMessage, now: int, later: int)
    requires Due(a, now) && Due(b, now) && now <= later
    ensures Fired([a, b], now) == [a] && Kept([a, b], now) == [b]
    ensures Fired([b], later) == [b] && Kept([b], later) == []
  {
    assert [a, b][2..] == [];
  }

  /**
   * Over two checks no message is sent twice: the messages sent by both together
   * are among those queued before the first.
   */
  lemma AtMostOnceOverTwoChecks(s: seq<ScheduledMessage>, t1: int, t2: int)
    ensures multiset(Fired(s, t1)) + multiset(Fired(Kept(s, t1), t2)) <= multiset(s)
  {
    KeptAndFiredPartition(s, t1);
    KeptAndFiredPartition(Kept(s, t1), t2);
  }

  // ---- the CSV birthday upload ----

  /** The birthday line `i` of the file adds, if it has at least two comma-separated fields. */
  function CsvBirthday(lines: seq<string>, stamp: int, i: nat): (r: seq<Birthday>)
    requires i < |lines|
    ensures |r| <= 1
  {
    var values := Split(lines[i], ',');
    if |values| >= 2 then [Birthday(stamp + i, Trim(values[0]), Trim(values[1]))] else []
  }

  /** The birthdays lines 1 .. n-1 add, in file order (line 0 is the header). */
  function CsvBirthdays(lines: seq<string>, stamp: int, n: nat): (r: seq<Birthday>)
    requires n <= |lines|
    ensures |r| < n || n == 0
  {
    if n <= 1 then [] else CsvBirthdays(lines, stamp, n - 1) + CsvBirthday(lines, stamp, n - 1)
  }

  /** Reading line `i` appends what that line adds. */
  lemma CsvBirthdaysStep(lines: seq<string>, stamp: int, i: nat, saved: seq<Birthday>, list: seq<Birthday>)
    requires 1 <= i < |lines| && list == saved + CsvBirthdays(lines, stamp, i)
    ensures var values := Split(lines[i], ',');
      saved + CsvBirthdays(lines, stamp, i + 1)
      == list + if |values| >= 2 then [Birthday(stamp + i, Trim(values[0]), Trim(values[1]))] else []
  {
    Seqs.Associative(saved, CsvBirthdays(lines, stamp, i), CsvBirthday(lines, stamp, i));
  }

  /** A line of the file holding `name,dob`. */
  function BirthdayLine(name: string, dob: string): string {
    name + "," + dob
  }

  /** A `name,dob` line adds a birthday with the trimmed name and date of birth. */
  lemma BirthdayLineRead(lines: seq<string>, stamp: int, i: nat, name: string, dob: string)
    requires 1 <= i < |lines| && lines[i] == BirthdayLine(name, dob)
    requires ',' !in name && ',' !in dob
    ensures CsvBirthday(lines, stamp, i) == [Birthday(stamp + i, Trim(name), Trim(dob))]
  {
    assert Join([name, dob], [',']) == lines[i];
    SplitJoin([name, dob], ',');
  }

  /** A line without a comma adds nothing, blank lines included. */
  lemma LineWithoutCommaSkipped(lines: seq<string>, stamp: int, i: nat)
    requires i < |lines| && ',' !in lines[i]
    ensures CsvBirthday(lines, stamp, i) == []
  {
    assert IndexOf(lines[i], ',') == |lines[i]|;
  }

  // ---- the page state ----

  /** The page's `birthdays`, `messages` and `logs` arrays. */
  class Board {
    var birthdays: seq<Birthday>
    var messages: seq<ScheduledMessage>
    var logs: seq<LogEntry>

    /** The arrays as read from local storage (empty when nothing was stored). */
    constructor (savedBirthdays: seq<Birthday>, savedMessages: seq<ScheduledMessage>, savedLogs: seq<LogEntry>)
      ensures birthdays == savedBirthdays && messages == savedMessages && logs == savedLogs
    {
      birthdays, messages, logs := savedBirthdays, savedMessages, savedLogs;
    }

    /**
     * `scheduleMessage`: when the form is valid and the time parses, queue one
     * `Scheduled` message for the rolled-forward time; otherwise change nothing
     * (an empty time returns early, and an unreadable one makes `toISOString` throw
     * before the push).
     */
    method ScheduleMessage(formValid: bool, message: string, time: string, now: int, todayStart: int, stamp: nat)
      modifies this
      ensures var clock := ParseClockTime(time);
        if formValid && time != [] && clock.Some? then
          messages == old(messages) + [ScheduledMessage(stamp, message,
            RollForward(todayStart, now, clock.value.0, clock.value.1), now, "Scheduled", "Scheduled")]
        else messages == old(messages)
      ensures logs == old(logs) && birthdays == old(birthdays)
    {
      if !formValid || time == [] {
        return;
      }
      var clock := ParseClockTime(time);
      if clock.None? {
        return;
      }
      var (hours, minutes) := clock.value;
      var scheduledTime := RollForward(todayStart, now, hours, minutes);
      messages := messages + [ScheduledMessage(stamp, message, scheduledTime, now, "Scheduled", "Scheduled")];
    }

    /** `sendMessage` once its delay has passed: a `Manual` entry goes in front of the log. */
    method SendMessage(formValid: bool, message: string, now: int, stamp: nat)
      modifies this
      ensures logs == if formValid then [LogEntry(stamp, message, now, "Manual", "Sent")] + old(logs) else old(logs)
      ensures messages == old(messages) && birthdays == old(birthdays)
    {
      if formValid {
        logs := [LogEntry(stamp, message, now, "Manual", "Sent")] + logs;
      }
    }

    /** `clearLogs`: empties the log when the user confirms. */
    method ClearLogs(confirmed: bool)
      modifies this
      ensures logs == if confirmed then [] else old(logs)
      ensures messages == old(messages) && birthdays == old(birthdays)
    {
      if confirmed {
        logs := [];
      }
    }

    /**
     * `checkScheduledMessages`: walks `messages` as `forEach` does, sending and
     * splicing out each due message it looks at and putting its log entry in front.
     */
    method CheckScheduledMessages(now: int, stamp: nat)
      modifies this
      ensures messages == Kept(old(messages), now)
      ensures logs == SentEntries(Fired(old(messages), now), now, stamp) + old(logs)
      ensures birthdays == old(birthdays)
    {
      messages, logs := Tick(messages, logs, now, stamp);
    }

    /**
     * `handleFileUpload`'s reader callback: every line after the header with at least
     * two comma-separated fields adds a birthday, in file order; then the list is saved.
     */
    method UploadBirthdays(csv: string, stamp: int)
      modifies this
      ensures var lines := Split(csv, '\n');
        birthdays == old(birthdays) + CsvBirthdays(lines, stamp, |lines|)
      ensures messages == old(messages) && logs == old(logs)
    {
      birthdays := ReadBirthdays(birthdays, csv, stamp);
    }
  }

  /**
   * The loop of `checkScheduledMessages` over the queue `messages`: `index` runs over
   * the positions the queue had at the start, a due message is spliced out at
   * `index` and its log entry put in front of `logs`.
   */
  method Tick(messages: seq<ScheduledMessage>, logs: seq<LogEntry>, now: int, stamp: nat)
    returns (queue: seq<ScheduledMessage>, sent: seq<LogEntry>)
    ensures queue == Kept(messages, now)
    ensures sent == SentEntries(Fired(messages, now), now, stamp) + logs
  {
    ghost var kept, rest, fired := [], messages, [];
    queue, sent := messages, logs;
    AppendToEmpty(Kept(messages, now));
    AppendToEmpty(Fired(messages, now));
    AppendToEmpty(logs);
    var length := |queue|;
    var index := 0;
    while index < length
      invariant 0 <= index <= length
      invariant queue == kept + rest
      invariant Kept(messages, now) == kept + Kept(rest, now)
      invariant Fired(messages, now) == fired + Fired(rest, now)
      invariant sent == SentEntries(fired, now, stamp) + logs
      invariant index == |kept| || (index > |kept| && rest == [])
      invariant |rest| <= length - index
    {
      if index < |queue| && Due(queue[index], now) {
        var msg := queue[index];
        ghost var (nextKept, nextRest) := if |rest| >= 2 then (kept + [rest[1]], rest[2..]) else (kept, []);
        SendPreserves(messages, logs, kept, rest, fired, now, stamp, nextKept, nextRest);
        sent := [SentEntry(msg, now, stamp)] + sent;
        queue := queue[..index] + queue[index + 1..];
        fired := fired + [msg];
        kept, rest := nextKept, nextRest;
      } else if index < |queue| {
        KeepPreserves(messages, kept, rest, now);
        assert queue == (kept + [rest[0]]) + rest[1..] by {
          assert rest == [rest[0]] + rest[1..];
          Seqs.Associative(kept, [rest[0]], rest[1..]);
        }
        kept, rest := kept + [rest[0]], rest[1..];
      }
      index := index + 1;
    }
    assert rest == [] && Kept(rest, now) == [] && Fired(rest, now) == [];
    assert Kept(messages, now) == kept by {
      assert kept + [] == kept;
    }
    assert Fired(messages, now) == fired by {
      assert fired + [] == fired;
    }
  }

  /** The reader callback's loop: the birthdays of `csv`, appended to `saved`. */
  method ReadBirthdays(saved: seq<Birthday>, csv: string, stamp: int) returns (list: seq<Birthday>)
    ensures var lines := Split(csv, '\n');
      list == saved + CsvBirthdays(lines, stamp, |lines|)
  {
    var lines := Split(csv, '\n');
    list := saved;
    var i := 1;
    while i < |lines|
      invariant 1 <= i <= |lines|
      invariant list == saved + CsvBirthdays(lines, stamp, i)
    {
      var values := Split(lines[i], ',');
      CsvBirthdaysStep(lines, stamp, i, saved, list);
      if |values| >= 2 {
        list := list + [Birthday(stamp + i, Trim(values[0]), Trim(values[1]))];
      }
      i := i + 1;
    }
  }

  /**
   * One step of the check at a due message: it is sent, its entry goes in front of
   * the log, and the message that slides into its place is passed over.
   */
  lemma SendPreserves(start: seq<ScheduledMessage>, startLogs: seq<LogEntry>, kept: seq<ScheduledMessage>,
                      rest: seq<ScheduledMessage>, fired: seq<ScheduledMessage>, now: int, stamp: nat,
                      nextKept: seq<ScheduledMessage>, nextRest: seq<ScheduledMessage>)
    requires rest != [] && Due(rest[0], now)
    requires Kept(start, now) == kept + Kept(rest, now)
    requires Fired(start, now) == fired + Fired(rest, now)
    requires (nextKept, nextRest) == if |rest| >= 2 then (kept + [rest[1]], rest[2..]) else (kept, [])
    ensures (kept + rest)[..|kept|] + (kept + rest)[|kept| + 1..] == nextKept + nextRest
    ensures Kept(start, now) == nextKept + Kept(nextRest, now)
    ensures Fired(start, now) == (fired + [rest[0]]) + Fired(nextRest, now)
    ensures SentEntries(fired + [rest[0]], now, stamp) + startLogs
      == [SentEntry(rest[0], now, stamp)] + (SentEntries(fired, now, stamp) + startLogs)
  {
    SpliceFront(kept, rest);
    SentEntriesAppend(fired, rest[0], now, stamp);
    Seqs.Associative([SentEntry(rest[0], now, stamp)], SentEntries(fired, now, stamp), startLogs);
    if |rest| >= 2 {
      assert rest[1..] == [rest[1]] + rest[2..];
      Seqs.Associative(kept, [rest[1]], rest[2..]);
      Seqs.Associative(kept, [rest[1]], Kept(rest[2..], now));
      Seqs.Associative(fired, [rest[0]], Fired(rest[2..], now));
    } else {
      assert kept + [] == kept;
    }
  }

  /** One step of the check at a message that is not due: it stays. */
  lemma KeepPreserves(start: seq<ScheduledMessage>, kept: seq<ScheduledMessage>, rest: seq<ScheduledMessage>, now: int)
    requires rest != [] && !Due(rest[0], now)
    requires Kept(start, now) == kept + Kept(rest, now)
    ensures Kept(start, now) == (kept + [rest[0]]) + Kept(rest[1..], now)
    ensures Fired(rest, now) == Fired(rest[1..], now)
  {
    Seqs.Associative(kept, [rest[0]], Kept(rest[1..], now));
  }

  /** Splicing out the entry at |kept| from kept + rest leaves kept and the rest of rest. */
  lemma SpliceFront<T>(kept: seq<T>, rest: seq<T>)
    requires rest != []
    ensures (kept + rest)[..|kept|] + (kept + rest)[|kept| + 1..] == kept + rest[1..]
  {
    assert (kept + rest)[..|kept|] == kept;
    assert (kept + rest)[|kept| + 1..] == rest[1..];
  }

  lemma AppendToEmpty<T>(s: seq<T>)
    ensures [] + s == s
  {
  }

  lemma SentEntriesAppend(fired: seq<ScheduledMessage>, m: ScheduledMessage, now: int, stamp: nat)
    ensures SentEntries(fired + [m], now, stamp) == [SentEntry(m, now, stamp)] + SentEntries(fired, now, stamp)
  {
    assert (fired + [m])[..|fired|] == fired;
  }
}
