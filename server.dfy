/**
 * The helpers of the Flask server (app.py) that carry rules of their own: the
 * upload file-name check, the upcoming-birthday list of the dashboard, the
 * month-day match of the daily birthday send, the fallback birthday greeting, the
 * display text of a program of widgets, and the stored schedule with its cron job.
 * The database, the AI client and the clock are parameters; the board connection
 * inside `send_message` is left out, and a text handed to it is kept in `outbox`.
 */
module Server {
  import opened Wrappers
  import opened Text
  import opened Seqs
  import opened Calendar

  // ---- allowed_file ----

  const AllowedExtensions: set<string> := {"csv", "xlsx"}

  /** `s.rsplit(c, 1)[-1]`: the text after the last `c` (all of `s` when there is none). */
  function AfterLast(s: string, c: char): (r: string)
    ensures |r| <= |s| && r == s[|s| - |r|..]
    ensures c !in r
    ensures c in s ==> |r| < |s| && s[|s| - |r| - 1] == c
  {
    if s == [] then []
    else if s[|s| - 1] == c then []
    else
      var init := s[..|s| - 1];
      var r := AfterLast(init, c) + [s[|s| - 1]];
      assert c in s ==> c in init by {
        if c in s {
          var k :| 0 <= k < |s| && s[k] == c;
          assert init[k] == c;
        }
      }
      r
  }

  /** `allowed_file`: the name has a '.' and what follows the last one, lower-cased, is csv or xlsx. */
  predicate AllowedFile(filename: string) {
    '.' in filename && LowerAscii(AfterLast(filename, '.')) in AllowedExtensions
  }

  /**
   * A name is accepted exactly when it has a '.' followed by a dot-free extension
   * that lower-cases to csv or xlsx.
   */
  lemma AllowedFileMeans(filename: string)
    ensures AllowedFile(filename) <==>
      exists i :: 0 <= i < |filename| && filename[i] == '.' && '.' !in filename[i + 1..]
        && LowerAscii(filename[i + 1..]) in AllowedExtensions
  {
    var r := AfterLast(filename, '.');
    if AllowedFile(filename) {
      var j := |filename| - |r| - 1;
      assert filename[j + 1..] == r;
    }
    if exists i :: 0 <= i < |filename| && filename[i] == '.' && '.' !in filename[i + 1..]
        && LowerAscii(filename[i + 1..]) in AllowedExtensions
    {
      var i :| 0 <= i < |filename| && filename[i] == '.' && '.' !in filename[i + 1..]
        && LowerAscii(filename[i + 1..]) in AllowedExtensions;
      assert '.' in filename;
      assert r == filename[i + 1..];
    }
  }

  /** `base.ext` with a dot-free extension is accepted exactly for the csv and xlsx extensions, in any case. */
  lemma ExtensionDecides(base: string, ext: string)
    requires '.' !in ext
    ensures AllowedFile(base + "." + ext) <==> LowerAscii(ext) in AllowedExtensions
  {
    var f := base + "." + ext;
    var i := |base|;
    assert f[i] == '.' && f[i + 1..] == ext;
    AllowedFileMeans(f);
  }

  // ---- dates as the database stores them ----

  /** `d.strftime('%Y-%m-%d')`. */
  function FormatIsoDate(d: Date): (s: string)
    requires Valid(d)
    ensures |s| == 10
  {
    Pad4(d.year) + "-" + Pad2(d.month) + "-" + Pad2(d.day)
  }

  /**
   * `%m` read as the whole field: `1[0-2]|0[1-9]|[1-9]`, that is one or two digits
   * worth 1 to 12.
   */
  function MonthField(t: string): (r: Option<nat>)
    ensures r.Some? <==> 1 <= |t| <= 2 && ParseDecimal(t).Some? && 1 <= ParseDecimal(t).value <= 12
    ensures r.Some? ==> r == ParseDecimal(t)
  {
    if 1 <= |t| <= 2 then
      match ParseDecimal(t)
      case Some(m) => if 1 <= m <= 12 then Some(m) else None
      case None => None
    else None
  }

  /**
   * `%d` read as the whole field: `3[01]|[12]\d|0[1-9]|[1-9]| [1-9]`, that is one or
   * two digits worth 1 to 31, or a space followed by a digit 1 to 9.
   */
  function DayField(t: string): (r: Option<nat>)
    ensures r.Some? ==> 1 <= r.value <= 31
    ensures |t| >= 1 && IsDigit(t[0]) ==>
      (r.Some? <==> |t| <= 2 && ParseDecimal(t).Some? && 1 <= ParseDecimal(t).value <= 31)
    ensures |t| >= 1 && IsDigit(t[0]) && r.Some? ==> r == ParseDecimal(t)
    ensures |t| >= 1 && !IsDigit(t[0]) ==> (r.Some? <==> |t| == 2 && t[0] == ' ' && '1' <= t[1] <= '9')
  {
    if |t| == 2 && t[0] == ' ' then
      if '1' <= t[1] <= '9' then Some(DigitValue(t[1])) else None
    else if 1 <= |t| <= 2 then
      match ParseDecimal(t)
      case Some(d) => if 1 <= d <= 31 then Some(d) else None
      case None => None
    else None
  }

  /**
   * `datetime.strptime(s, '%Y-%m-%d').date()`: four digits of year, a dash, the
   * month field, a dash and the day field, with nothing left over. A month and
   * day may have one digit ("1990-3-5"); the day may also be a space and a digit.
   * Anything else, or a day that does not exist, is an error (None).
   */
  function ParseIsoDate(s: string): (r: Option<Date>)
    ensures r.Some? ==> Valid(r.value)
    ensures r.Some? ==> 8 <= |s| <= 10 && s[4] == '-' && ParseDecimal(s[..4]) == Some(r.value.year)
  {
    if |s| < 8 || s[4] != '-' then None
    else
      var width := if s[6] == '-' then 1 else 2;
      if s[5 + width] != '-' then None
      else match (ParseDecimal(s[..4]), MonthField(s[5..5 + width]), DayField(s[6 + width..]))
        case (Some(y), Some(m), Some(d)) =>
          var date := Date(y, m, d);
          if Valid(date) then Some(date) else None
        case _ => None
  }

  /** A stored date reads back as itself. */
  lemma IsoDateRoundTrip(d: Date)
    requires Valid(d)
    ensures ParseIsoDate(FormatIsoDate(d)) == Some(d)
  {
    var s := FormatIsoDate(d);
    assert s[..4] == Pad4(d.year);
    assert s[5..7] == Pad2(d.month);
    assert s[8..] == Pad2(d.day);
  }

  // ---- the upcoming birthdays of the dashboard ----

  const UpcomingWindow := 30

  /**
   * The next birthday on or after `today`: the date of birth in this year, or in
   * next year when this year's is already past. `replace(year=...)` fails for
   * 29 February in a common year, so such a birthday is an error.
   */
  function NextBirthday(dob: Date, today: Date): (r: Result<Date, DateError>)
    requires Valid(dob) && Valid(today)
    ensures r.Success? ==> Valid(r.value) && r.value.month == dob.month && r.value.day == dob.day
    ensures r.Success? ==> !Before(r.value, today)
    ensures r.Success? ==> r.value.year == today.year || r.value.year == today.year + 1
    ensures r.Success? ==>
      (r.value.year == today.year + 1 <==> Before(Date(today.year, dob.month, dob.day), today))
  {
    match ReplaceYear(dob, today.year)
    case Failure(e) => Failure(e)
    case Success(thisYear) =>
      if Before(thisYear, today) then ReplaceYear(thisYear, today.year + 1) else Success(thisYear)
  }

  /**
   * The next-birthday computation fails exactly for 29 February when this year has
   * none or when it is past and next year has none (and at the end of year 9999).
   */
  lemma NextBirthdayFails(dob: Date, today: Date)
    requires Valid(dob) && Valid(today)
    ensures var y := today.year;
      NextBirthday(dob, today).Failure? <==>
        (dob.month == 2 && dob.day == 29 && (!IsLeap(y) || Before(Date(y, 2, 29), today)))
        || (y == MaxYear && Before(Date(y, dob.month, dob.day), today))
  {
    var y := today.year;
    if dob.month == 2 && dob.day == 29 && IsLeap(y) {
      assert !IsLeap(y + 1);
    }
  }

  /** `(next_birthday - today).days`. */
  function DaysUntil(dob: Date, today: Date): (r: Result<int, DateError>)
    requires Valid(dob) && Valid(today)
    ensures r.Success? ==> r.value >= 0
    ensures r.Success? ==> (r.value == 0 <==> dob.month == today.month && dob.day == today.day)
    ensures r.Failure? <==> NextBirthday(dob, today).Failure?
    ensures r.Success? ==> r.value == DaysBetween(today, NextBirthday(dob, today).value)
  {
    match NextBirthday(dob, today)
    case Failure(e) => Failure(e)
    case Success(next) =>
      OrdinalMonotone(today, next);
      OrdinalMonotone(next, today);
      Success(DaysBetween(today, next))
  }

  /** The next birthday is never more than 365 days away. */
  lemma DaysUntilWithinAYear(dob: Date, today: Date)
    requires Valid(dob) && Valid(today)
    ensures var r := DaysUntil(dob, today);
      r.Success? ==> 0 <= r.value <= 365
  {
    var n := NextBirthday(dob, today);
    if n.Success? {
      var next := n.value;
      if next.year == today.year {
        SameYearGap(today, next);
      } else {
        assert ReplaceYear(dob, today.year).Success?;
        NextYearGap(today, next);
      }
    }
  }

  /** A date `datetime.now().date()` can return. */
  type Day = d: Date | Valid(d) witness Date(1970, 1, 1)

  datatype BirthdayRow = BirthdayRow(name: string, dob: string)
  datatype Upcoming = Upcoming(name: string, days: int)

  /** Why the dashboard fails: a date that does not parse, or a birthday with no date this year. */
  datatype DashboardError = BadDate(dob: string) | NoSuchDate(error: DateError)

  /** The entry one row adds: one when the birthday is at most 30 days away, none otherwise. */
  function RowUpcoming(row: BirthdayRow, today: Day): Result<seq<Upcoming>, DashboardError> {
    match ParseIsoDate(row.dob)
    case None => Failure(BadDate(row.dob))
    case Some(dob) =>
      match DaysUntil(dob, today)
      case Failure(e) => Failure(NoSuchDate(e))
      case Success(days) => Success(if days <= UpcomingWindow then [Upcoming(row.name, days)] else [])
  }

  /**
   * A row whose date parses and has a next birthday adds exactly the entry with its
   * name and day count when that count is at most 30; a birthday today adds 0 days.
   */
  lemma RowUpcomingMeans(row: BirthdayRow, today: Day, dob: Date, u: Upcoming)
    requires ParseIsoDate(row.dob) == Some(dob) && DaysUntil(dob, today).Success?
    ensures RowUpcoming(row, today).Success?
    ensures u in RowUpcoming(row, today).value <==>
      u.name == row.name && Success(u.days) == DaysUntil(dob, today) && u.days <= UpcomingWindow
    ensures dob.month == today.month && dob.day == today.day ==>
      RowUpcoming(row, today).value == [Upcoming(row.name, 0)]
  {
  }

  /** A row adds at most one entry, with its own name, between 0 and 30 days away. */
  lemma RowUpcomingInWindow(row: BirthdayRow, today: Day)
    ensures var r := RowUpcoming(row, today);
      r.Success? ==> |r.value| <= 1 && forall u :: u in r.value ==> u.name == row.name && 0 <= u.days <= UpcomingWindow
  {
  }

  function RowStep(today: Day): BirthdayRow -> Result<seq<Upcoming>, DashboardError> {
    (row: BirthdayRow) => RowUpcoming(row, today)
  }

  /**
   * What a loop over `items` that appends the entries `step` gives for each has
   * collected after the first `n` items; the first failure stops it.
   */
  function Gather<T, U, E>(items: seq<T>, step: T -> Result<seq<U>, E>, n: nat): Result<seq<U>, E>
    requires n <= |items|
  {
    if n == 0 then Success([])
    else match Gather(items, step, n - 1)
      case Failure(e) => Failure(e)
      case Success(prev) =>
        match step(items[n - 1])
        case Failure(e) => Failure(e)
        case Success(here) => Success(prev + here)
  }

  /**
   * When the loop gets through, it holds exactly the entries the steps gave, and
   * it fails exactly when some step failed.
   */
  lemma {:induction false} GatherMeans<T, U, E>(items: seq<T>, step: T -> Result<seq<U>, E>, n: nat)
    requires n <= |items|
    ensures var g := Gather(items, step, n);
      g.Success? ==> forall u :: u in g.value <==>
        exists i :: 0 <= i < n && step(items[i]).Success? && u in step(items[i]).value
    ensures Gather(items, step, n).Failure? <==> exists i :: 0 <= i < n && step(items[i]).Failure?
  {
    if n > 0 {
      GatherMeans(items, step, n - 1);
    }
    var g := Gather(items, step, n);
    if g.Success? {
      forall u ensures u in g.value <==>
        exists i :: 0 <= i < n && step(items[i]).Success? && u in step(items[i]).value
      {
        GatherHas(items, step, n, u);
      }
    }
  }

  lemma {:induction false} GatherHas<T, U, E>(items: seq<T>, step: T -> Result<seq<U>, E>, n: nat, u: U)
    requires n <= |items|
    requires Gather(items, step, n).Success?
    ensures u in Gather(items, step, n).value <==>
      exists i :: 0 <= i < n && step(items[i]).Success? && u in step(items[i]).value
  {
    if n > 0 {
      GatherHas(items, step, n - 1, u);
      var prev := Gather(items, step, n - 1).value;
      var here := step(items[n - 1]);
      assert Gather(items, step, n).value == prev + here.value;
      if u in prev {
        var i :| 0 <= i < n - 1 && step(items[i]).Success? && u in step(items[i]).value;
        assert 0 <= i < n && step(items[i]).Success? && u in step(items[i]).value;
      } else if u in here.value {
        assert 0 <= n - 1 < n && step(items[n - 1]).Success? && u in step(items[n - 1]).value;
      }
    }
  }

  /** Once a step has failed, the whole loop has failed with that step's error. */
  lemma {:induction false} GatherFailureSticks<T, U, E>(items: seq<T>, step: T -> Result<seq<U>, E>, n: nat, m: nat)
    requires n <= m <= |items|
    requires Gather(items, step, n).Failure?
    ensures Gather(items, step, m) == Gather(items, step, n)
    decreases m - n
  {
    if n < m {
      GatherFailureSticks(items, step, n, m - 1);
    }
  }

  /** Every entry on the dashboard's list is between 0 and 30 days away and names its row. */
  lemma UpcomingWithinWindow(rows: seq<BirthdayRow>, today: Day)
    ensures var g := Gather(rows, RowStep(today), |rows|);
      g.Success? ==> forall u :: u in g.value ==>
        0 <= u.days <= UpcomingWindow && exists i :: 0 <= i < |rows| && rows[i].name == u.name
  {
    GatherMeans(rows, RowStep(today), |rows|);
    var g := Gather(rows, RowStep(today), |rows|);
    if g.Success? {
      forall u | u in g.value
        ensures 0 <= u.days <= UpcomingWindow && exists i :: 0 <= i < |rows| && rows[i].name == u.name
      {
        var i :| 0 <= i < |rows| && RowStep(today)(rows[i]).Success? && u in RowStep(today)(rows[i]).value;
        assert RowUpcoming(rows[i], today) == RowStep(today)(rows[i]);
        RowUpcomingInWindow(rows[i], today);
      }
    }
  }

  // ---- upcoming.sort(key=lambda x: x['days']) ----

  predicate SortedByDays(s: seq<Upcoming>) {
    forall i, j :: 0 <= i < j < |s| ==> s[i].days <= s[j].days
  }

  /** Insertion of `x` after every entry with no more days than it has. */
  function InsertByDays(x: Upcoming, s: seq<Upcoming>): (r: seq<Upcoming>)
    ensures |r| == |s| + 1
  {
    if s == [] then [x]
    else if x.days < s[0].days then [x] + s
    else [s[0]] + InsertByDays(x, s[1..])
  }

  /** The stable sort by days (Python's `list.sort` is stable). */
  function SortByDays(s: seq<Upcoming>): (r: seq<Upcoming>)
    ensures |r| == |s|
  {
    if s == [] then [] else InsertByDays(s[|s| - 1], SortByDays(s[..|s| - 1]))
  }

  function HasDays(days: int): Upcoming -> bool {
    (u: Upcoming) => u.days == days
  }

  lemma {:induction false} InsertKeepsEntries(x: Upcoming, s: seq<Upcoming>)
    ensures multiset(InsertByDays(x, s)) == multiset(s) + multiset{x}
  {
    if s != [] && x.days >= s[0].days {
      InsertKeepsEntries(x, s[1..]);
      assert s == [s[0]] + s[1..];
    }
  }

  lemma {:induction false} InsertKeepsOrder(x: Upcoming, s: seq<Upcoming>)
    requires SortedByDays(s)
    ensures SortedByDays(InsertByDays(x, s))
  {
    if s != [] && x.days >= s[0].days {
      var tail := s[1..];
      InsertKeepsOrder(x, tail);
      InsertKeepsEntries(x, tail);
      var ins := InsertByDays(x, tail);
      forall k | 0 <= k < |ins| ensures s[0].days <= ins[k].days {
        assert ins[k] in multiset(ins);
        assert ins[k] in tail || ins[k] == x;
      }
    }
  }

  /**
   * Inserting `x` puts it after every entry with the same number of days, so the
   * entries with any given day count keep their order.
   */
  lemma {:induction false} InsertIsStable(x: Upcoming, s: seq<Upcoming>, days: int)
    requires SortedByDays(s)
    ensures Filter(InsertByDays(x, s), HasDays(days))
      == Filter(s, HasDays(days)) + (if x.days == days then [x] else [])
  {
    var p := HasDays(days);
    if s == [] {
    } else if x.days < s[0].days {
      if x.days == days {
        NoneWithDays(s, days);
      }
    } else {
      var tail := s[1..];
      InsertIsStable(x, tail, days);
      assert Filter(InsertByDays(x, s), p) == (if p(s[0]) then [s[0]] else []) + Filter(InsertByDays(x, tail), p);
      Associative(if p(s[0]) then [s[0]] else [], Filter(tail, p), if x.days == days then [x] else []);
    }
  }

  lemma {:induction false} NoneWithDays(s: seq<Upcoming>, days: int)
    requires SortedByDays(s) && s != [] && days < s[0].days
    ensures Filter(s, HasDays(days)) == []
  {
    if |s| > 1 {
      NoneWithDays(s[1..], days);
    }
  }

  /**
   * The sort orders the entries by days, keeps every entry, and keeps the order of
   * entries with the same number of days.
   */
  lemma SortByDaysCorrect(s: seq<Upcoming>)
    ensures SortedByDays(SortByDays(s))
    ensures multiset(SortByDays(s)) == multiset(s)
    ensures forall days :: Filter(SortByDays(s), HasDays(days)) == Filter(s, HasDays(days))
  {
    SortByDaysSorted(s);
    SortByDaysPermutes(s);
    forall days ensures Filter(SortByDays(s), HasDays(days)) == Filter(s, HasDays(days)) {
      SortByDaysStable(s, days);
    }
  }

  lemma {:induction false} SortByDaysSorted(s: seq<Upcoming>)
    ensures SortedByDays(SortByDays(s))
  {
    if s != [] {
      SortByDaysSorted(s[..|s| - 1]);
      InsertKeepsOrder(s[|s| - 1], SortByDays(s[..|s| - 1]));
    }
  }

  lemma {:induction false} SortByDaysPermutes(s: seq<Upcoming>)
    ensures multiset(SortByDays(s)) == multiset(s)
  {
    if s != [] {
      var init, last := s[..|s| - 1], s[|s| - 1];
      SortByDaysPermutes(init);
      InsertKeepsEntries(last, SortByDays(init));
      assert s == init + [last];
    }
  }

  lemma {:induction false} SortByDaysStable(s: seq<Upcoming>, days: int)
    ensures Filter(SortByDays(s), HasDays(days)) == Filter(s, HasDays(days))
  {
    if s != [] {
      var init, last := s[..|s| - 1], s[|s| - 1];
      SortByDaysStable(init, days);
      SortByDaysSorted(init);
      InsertIsStable(last, SortByDays(init), days);
      assert s == init + [last];
      FilterAppend(init, [last], HasDays(days));
      assert Filter([last], HasDays(days)) == if last.days == days then [last] else [];
    }
  }

  /**
   * The dashboard's list: for each row, the days until the next birthday, kept when
   * at most 30, then sorted by days. A date that does not parse or a 29 February with
   * no date this year ends the request with an error.
   */
  method UpcomingBirthdays(rows: seq<BirthdayRow>, today: Day) returns (r: Result<seq<Upcoming>, DashboardError>)
    ensures match Gather(rows, RowStep(today), |rows|)
      case Failure(e) => r == Failure(e)
      case Success(found) => r == Success(SortByDays(found))
  {
    var found := GatherAll(rows, RowStep(today));
    if found.Failure? {
      return Failure(found.error);
    }
    r := Success(SortByDays(found.value));
  }

  /**
   * The loop over the rows: append what each row gives, and stop at the first row
   * that fails.
   */
  method GatherAll<T, U, E>(items: seq<T>, step: T -> Result<seq<U>, E>) returns (r: Result<seq<U>, E>)
    ensures r == Gather(items, step, |items|)
  {
    var collected := [];
    var i := 0;
    while i < |items|
      invariant 0 <= i <= |items|
      invariant Gather(items, step, i) == Success(collected)
    {
      var here := step(items[i]);
      if here.Failure? {
        GatherFailureSticks(items, step, i + 1, |items|);
        return Failure(here.error);
      }
      collected := collected + here.value;
      i := i + 1;
    }
    r := Success(collected);
  }

  // ---- send_birthday_messages ----

  /** SQLite's `substr(dob, 6)`: the text from the sixth character on, empty for shorter text. */
  function FromSixth(dob: string): (r: string)
    ensures |r| == if |dob| > 5 then |dob| - 5 else 0
    ensures r == dob[|dob| - |r|..]
  {
    if |dob| > 5 then dob[5..] else ""
  }

  /** `today.strftime('%m-%d')`. */
  function MonthDay(today: Day): (s: string)
    ensures |s| == 5 && s[2] == '-'
    ensures ParseDecimal(s[..2]) == Some(today.month) && ParseDecimal(s[3..]) == Some(today.day)
  {
    var s := Pad2(today.month) + "-" + Pad2(today.day);
    assert s[..2] == Pad2(today.month) && s[3..] == Pad2(today.day);
    s
  }

  /** The birthday query's condition: the stored date from its sixth character on is today's `MM-DD`. */
  predicate BirthdayToday(dob: string, today: Day) {
    FromSixth(dob) == MonthDay(today)
  }

  function BornOn(today: Day): BirthdayRow -> bool {
    (row: BirthdayRow) => BirthdayToday(row.dob, today)
  }

  /** Two two-digit strings with the same value are the same string. */
  lemma TwoDigitsDetermined(s: string, n: nat)
    requires |s| == 2 && ParseDecimal(s) == Some(n)
    ensures n < 100 && s == Pad2(n)
  {
    assert ParseDecimal(s[..1]) == Some(DigitValue(s[0]));
    var p := Pad2(n);
    assert DigitValue(p[0]) == DigitValue(s[0]) && DigitValue(p[1]) == DigitValue(s[1]);
  }

  /**
   * A date that parses was written in the form the server writes it exactly when it
   * is ten characters long with a digit where the day starts: four, two and two digits.
   */
  lemma IsoDateCanonical(s: string)
    requires ParseIsoDate(s).Some?
    ensures FormatIsoDate(ParseIsoDate(s).value) == s <==> |s| == 10 && IsDigit(s[8])
  {
    var d := ParseIsoDate(s).value;
    var f := FormatIsoDate(d);
    assert f[8..] == Pad2(d.day);
    if |s| == 10 && IsDigit(s[8]) {
      IsoDateFields(s);
      assert s[..4] == Pad4(d.year) by {
        FourDigitsDetermined(s[..4], d.year);
      }
      assert s[5..7] == Pad2(d.month) by {
        TwoDigitsDetermined(s[5..7], d.month);
      }
      assert s[8..] == Pad2(d.day) by {
        TwoDigitsDetermined(s[8..], d.day);
      }
      assert s == s[..4] + "-" + s[5..7] + "-" + s[8..];
    }
  }

  /** The fields `ParseIsoDate` reads from a ten-character date whose day starts with a digit. */
  lemma IsoDateFields(s: string)
    requires ParseIsoDate(s).Some? && |s| == 10 && IsDigit(s[8])
    ensures var d := ParseIsoDate(s).value;
      s[4] == '-' && s[7] == '-' && ParseDecimal(s[..4]) == Some(d.year)
      && ParseDecimal(s[5..7]) == Some(d.month) && ParseDecimal(s[8..]) == Some(d.day)
  {
    assert |s[7..]| == 3;
    assert s[8..][0] == s[8];
  }

  lemma FourDigitsDetermined(y: string, n: nat)
    requires |y| == 4 && ParseDecimal(y) == Some(n)
    ensures n < 10000 && y == Pad4(n)
  {
    assert y == y[..2] + y[2..];
    ParseTwoPairs(y[..2], y[2..]);
    TwoDigitsDetermined(y[..2], n / 100);
    TwoDigitsDetermined(y[2..], n % 100);
  }

  /** Four digits read as a number are their first pair times 100 plus their second pair. */
  lemma ParseTwoPairs(a: string, b: string)
    requires |a| == 2 && |b| == 2 && ParseDecimal(a + b).Some?
    ensures ParseDecimal(a).Some? && ParseDecimal(b).Some?
    ensures ParseDecimal(a + b).value == 100 * ParseDecimal(a).value + ParseDecimal(b).value
  {
    var s := a + b;
    assert s[..3][..2] == a && s[..2] == a;
    assert IsDigit(s[0]) && IsDigit(s[1]) && IsDigit(s[2]) && IsDigit(s[3]);
    assert b[..1] == [b[0]];
  }

  /**
   * For a date stored as `YYYY-MM-DD` the query matches exactly on the same month and
   * day, in any year.
   */
  lemma BirthdayTodayMeans(d: Date, today: Day)
    requires Valid(d)
    ensures BirthdayToday(FormatIsoDate(d), today) <==> d.month == today.month && d.day == today.day
  {
    var md := FromSixth(FormatIsoDate(d));
    assert md == Pad2(d.month) + "-" + Pad2(d.day);
    assert md[..2] == Pad2(d.month) && md[3..] == Pad2(d.day);
  }

  /**
   * The rows the 9 o'clock send greets are listed by the dashboard as 0 days away,
   * and for a date stored as the server writes it the converse holds too.
   */
  lemma SendAgreesWithDashboard(row: BirthdayRow, today: Day)
    requires ParseIsoDate(row.dob).Some?
    ensures var d := ParseIsoDate(row.dob).value;
      BirthdayToday(row.dob, today) ==> DaysUntil(d, today) == Success(0)
    ensures var d := ParseIsoDate(row.dob).value;
      FormatIsoDate(d) == row.dob ==> (BirthdayToday(row.dob, today) <==> DaysUntil(d, today) == Success(0))
  {
    var d := ParseIsoDate(row.dob).value;
    if BirthdayToday(row.dob, today) {
      FromSixthOfMatch(row.dob, today);
    }
    IsoDateCanonical(row.dob);
    if FormatIsoDate(d) == row.dob {
      BirthdayTodayMeans(d, today);
    }
    ZeroDaysOnBirthday(d, today);
  }

  /** Text the query matches is ten characters long with a digit where the day starts. */
  lemma FromSixthOfMatch(dob: string, today: Day)
    requires BirthdayToday(dob, today)
    ensures |dob| == 10 && IsDigit(dob[8])
  {
    var md := MonthDay(today);
    assert md[3..][0] == md[3];
    assert dob[8] == FromSixth(dob)[3];
  }

  /**
   * A date `strptime` reads but that is not written as four, two and two digits
   * ("1990-3-5", "1990-03- 5") is never matched by the query, on any day.
   */
  lemma ShortDateNeverGreeted(dob: string, today: Day)
    requires ParseIsoDate(dob).Some? && FormatIsoDate(ParseIsoDate(dob).value) != dob
    ensures !BirthdayToday(dob, today)
  {
    if BirthdayToday(dob, today) {
      FromSixthOfMatch(dob, today);
      IsoDateCanonical(dob);
    }
  }

  /**
   * On 5 March the dashboard lists a row stored as "1990-3-5" as a birthday 0 days
   * away, and the 9 o'clock query does not match it, so no greeting is sent.
   */
  lemma ShortDateMissedOnItsDay()
    ensures var row, today := BirthdayRow("Ann", "1990-3-5"), Date(2024, 3, 5);
      ParseIsoDate(row.dob) == Some(Date(1990, 3, 5))
      && RowUpcoming(row, today) == Success([Upcoming("Ann", 0)])
      && !BirthdayToday(row.dob, today)
  {
    var s := "1990-3-5";
    assert s[..4] == "1990" && s[5..6] == "3" && s[7..] == "5";
    assert ParseDecimal("1990") == Some(1990) by {
      assert "1990"[..3] == "199" && "199"[..2] == "19" && "19"[..1] == "1";
    }
    var today := Date(2024, 3, 5);
    assert ReplaceYear(Date(1990, 3, 5), 2024) == Success(today);
    assert FromSixth(s) == "3-5";
  }

  /**
   * The match the daily job evidently intends: the stored date, read as the
   * dashboard reads it, falls on today's month and day.
   */
  predicate BirthdayMatches(dob: string, today: Day) {
    match ParseIsoDate(dob)
    case Some(d) => d.month == today.month && d.day == today.day
    case None => false
  }

  /**
   * With the intended match the job greets exactly the rows the dashboard lists as
   * 0 days away, however the date is written, and it agrees with the query on every
   * date written as the server writes it.
   */
  lemma BirthdayMatchesDashboard(row: BirthdayRow, today: Day)
    requires ParseIsoDate(row.dob).Some?
    ensures var d := ParseIsoDate(row.dob).value;
      BirthdayMatches(row.dob, today) <==> DaysUntil(d, today) == Success(0)
    ensures var d := ParseIsoDate(row.dob).value;
      FormatIsoDate(d) == row.dob ==> (BirthdayMatches(row.dob, today) <==> BirthdayToday(row.dob, today))
  {
    var d := ParseIsoDate(row.dob).value;
    assert BirthdayMatches(row.dob, today) <==> d.month == today.month && d.day == today.day;
    ZeroDaysOnBirthday(d, today);
    if FormatIsoDate(d) == row.dob {
      BirthdayTodayMeans(d, today);
    }
  }

  /** The next birthday is 0 days away exactly when today has the birth month and day. */
  lemma ZeroDaysOnBirthday(d: Date, today: Day)
    requires Valid(d)
    ensures DaysUntil(d, today) == Success(0) <==> d.month == today.month && d.day == today.day
  {
    if d.month == today.month && d.day == today.day {
      assert ReplaceYear(d, today.year) == Success(today);
    }
  }

  /** The names the birthday query returns, in table order. */
  function BirthdayNames(rows: seq<BirthdayRow>, today: Day): (names: seq<string>)
    ensures |names| == Count(rows, BornOn(today))
  {
    if rows == [] then []
    else (if BornOn(today)(rows[0]) then [rows[0].name] else []) + BirthdayNames(rows[1..], today)
  }

  /** A name is returned exactly when some row with that name has its birthday today. */
  lemma {:induction false} BirthdayNamesMeans(rows: seq<BirthdayRow>, today: Day, name: string)
    ensures name in BirthdayNames(rows, today) <==>
      exists i :: 0 <= i < |rows| && rows[i].name == name && BirthdayToday(rows[i].dob, today)
  {
    if rows != [] {
      BirthdayNamesMeans(rows[1..], today, name);
      if exists i :: 0 <= i < |rows| && rows[i].name == name && BirthdayToday(rows[i].dob, today) {
        var i :| 0 <= i < |rows| && rows[i].name == name && BirthdayToday(rows[i].dob, today);
        if i > 0 {
          assert rows[1..][i - 1] == rows[i];
        }
      }
      if name in BirthdayNames(rows[1..], today) {
        var i :| 0 <= i < |rows| - 1 && rows[1..][i].name == name && BirthdayToday(rows[1..][i].dob, today);
        assert rows[i + 1] == rows[1..][i];
      }
    }
  }

  function RowName(row: BirthdayRow): string {
    row.name
  }

  /**
   * The query returns the name of each matching row, once per row and in table
   * order: the names of the rows the filter keeps.
   */
  lemma {:induction false} BirthdayNamesInOrder(rows: seq<BirthdayRow>, today: Day)
    ensures BirthdayNames(rows, today) == MapSeq(Filter(rows, BornOn(today)), RowName)
  {
    if rows != [] {
      BirthdayNamesInOrder(rows[1..], today);
      var head := if BornOn(today)(rows[0]) then [rows[0]] else [];
      MapSeqAppend(head, Filter(rows[1..], BornOn(today)), RowName);
    }
  }

  lemma MapSeqAppend<T, U>(a: seq<T>, b: seq<T>, f: T -> U)
    ensures MapSeq(a + b, f) == MapSeq(a, f) + MapSeq(b, f)
  {
    var l, r := MapSeq(a + b, f), MapSeq(a, f) + MapSeq(b, f);
    forall k | 0 <= k < |l| ensures l[k] == r[k] {
      if k >= |a| {
        assert (a + b)[k] == b[k - |a|];
      }
    }
  }

  /** The row of `ai_settings` the greeting prompt is built from. */
  datatype AiSettings = AiSettings(style: string, language: string, tone: string)

  function BirthdayPrompt(name: string, ai: AiSettings): string {
    "Generate a " + ai.style + " birthday message for " + name + " in " + ai.language
      + ", with a " + ai.tone + " tone, including emojis."
  }

  /**
   * `generate_birthday_message`: with an AI client and a settings row, the reply to
   * the prompt (`reply` stands for the chat completion) without white space at its
   * ends; otherwise the fixed greeting "Happy Birthday {name}!".
   */
  function BirthdayMessage(name: string, hasClient: bool, ai: Option<AiSettings>, reply: string -> string): (r: string)
    ensures !(hasClient && ai.Some?) ==>
      |r| == |name| + 16 && r[..15] == "Happy Birthday " && r[15..|r| - 1] == name && r[|r| - 1] == '!'
    ensures hasClient && ai.Some? ==> r == Trim(reply(BirthdayPrompt(name, ai.value)))
    ensures hasClient && ai.Some? ==>
      |r| <= |reply(BirthdayPrompt(name, ai.value))| && (r != [] ==> !IsSpace(r[0]) && !IsSpace(r[|r| - 1]))
  {
    if hasClient && ai.Some? then Trim(reply(BirthdayPrompt(name, ai.value)))
    else "Happy Birthday " + name + "!"
  }

  function Greeter(hasClient: bool, ai: Option<AiSettings>, reply: string -> string): string -> string {
    (name: string) => BirthdayMessage(name, hasClient, ai, reply)
  }

  /** `f` applied to each entry of `s`, in order. */
  function MapSeq<T, U>(s: seq<T>, f: T -> U): (r: seq<U>)
    ensures |r| == |s|
    ensures forall k :: 0 <= k < |s| ==> r[k] == f(s[k])
  {
    if s == [] then [] else MapSeq(s[..|s| - 1], f) + [f(s[|s| - 1])]
  }

  /** The greeting for each name, in order. */
  function Greetings(names: seq<string>, hasClient: bool, ai: Option<AiSettings>, reply: string -> string): seq<string> {
    MapSeq(names, Greeter(hasClient, ai, reply))
  }

  /**
   * Without an AI client every greeting the send gives is the fixed greeting of a
   * person whose birthday is today, and there is one per such row.
   */
  lemma FallbackGreetings(rows: seq<BirthdayRow>, today: Day, ai: Option<AiSettings>, reply: string -> string)
    ensures var g := Greetings(BirthdayNames(rows, today), false, ai, reply);
      |g| == Count(rows, BornOn(today))
      && forall k :: 0 <= k < |g| ==> exists i :: (0 <= i < |rows| && BirthdayToday(rows[i].dob, today)
        && g[k] == "Happy Birthday " + rows[i].name + "!")
  {
    var born := Filter(rows, BornOn(today));
    var g := Greetings(BirthdayNames(rows, today), false, ai, reply);
    FallbackGreetingsInOrder(rows, today, ai, reply);
    FilterLength(rows, BornOn(today));
    forall k | 0 <= k < |g|
      ensures exists i :: (0 <= i < |rows| && BirthdayToday(rows[i].dob, today)
        && g[k] == "Happy Birthday " + rows[i].name + "!")
    {
      FilterMembership(rows, BornOn(today), born[k]);
      var i :| 0 <= i < |rows| && rows[i] == born[k];
      assert BornOn(today)(rows[i]);
    }
  }

  /**
   * Without an AI client greeting k is the fixed greeting of the k-th row whose
   * birthday is today: one per matching row, in table order.
   */
  lemma FallbackGreetingsInOrder(rows: seq<BirthdayRow>, today: Day, ai: Option<AiSettings>, reply: string -> string)
    ensures var g, born := Greetings(BirthdayNames(rows, today), false, ai, reply), Filter(rows, BornOn(today));
      |g| == |born| && forall k :: 0 <= k < |g| ==> g[k] == "Happy Birthday " + born[k].name + "!"
  {
    var names, born := BirthdayNames(rows, today), Filter(rows, BornOn(today));
    var g := Greetings(names, false, ai, reply);
    BirthdayNamesInOrder(rows, today);
    forall k | 0 <= k < |g|
      ensures g[k] == "Happy Birthday " + born[k].name + "!"
    {
      assert names[k] == born[k].name;
      FallbackText(names[k], ai, reply);
    }
  }

  /** Without an AI client the greeting is exactly "Happy Birthday {name}!". */
  lemma FallbackText(name: string, ai: Option<AiSettings>, reply: string -> string)
    ensures BirthdayMessage(name, false, ai, reply) == "Happy Birthday " + name + "!"
  {
    var m := BirthdayMessage(name, false, ai, reply);
    assert m[..15] + m[15..|m| - 1] + [m[|m| - 1]] == m;
  }

  // ---- the clock widget of api_program ----

  datatype TimeOfDay = TimeOfDay(hour: nat, minute: nat)

  /** A time `datetime.now()` can show. */
  type Now = t: TimeOfDay | t.hour < 24 && t.minute < 60 witness TimeOfDay(0, 0)

  /** The hour on a 12-hour clock (`%I`): 0 and 12 show as 12, 13 as 1. */
  function Hour12(hour: nat): (r: nat)
    requires hour < 24
    ensures 1 <= r <= 12 && r % 12 == hour % 12
  {
    if hour % 12 == 0 then 12 else hour % 12
  }

  /** `strftime('%H:%M')`. */
  function Format24(t: Now): (s: string)
    ensures |s| == 5
  {
    Pad2(t.hour) + ":" + Pad2(t.minute)
  }

  /** `strftime('%I:%M %p')` with the C locale's AM and PM. */
  function Format12(t: Now): (s: string)
    ensures |s| == 8
  {
    Pad2(Hour12(t.hour)) + ":" + Pad2(t.minute) + (if t.hour < 12 then " AM" else " PM")
  }

  /** Reading an `HH:MM` text back. */
  function Read24(s: string): Option<TimeOfDay> {
    if |s| != 5 || s[2] != ':' then None
    else match (ParseDecimal(s[..2]), ParseDecimal(s[3..]))
      case (Some(h), Some(m)) => if h < 24 && m < 60 then Some(TimeOfDay(h, m)) else None
      case _ => None
  }

  /** Reading an `hh:MM AM` or `hh:MM PM` text back. */
  function Read12(s: string): Option<TimeOfDay> {
    if |s| != 8 || s[2] != ':' || s[5] != ' ' || (s[6..] != "AM" && s[6..] != "PM") then None
    else match (ParseDecimal(s[..2]), ParseDecimal(s[3..5]))
      case (Some(h), Some(m)) =>
        if 1 <= h <= 12 && m < 60 then Some(TimeOfDay(h % 12 + (if s[6..] == "PM" then 12 else 0), m)) else None
      case _ => None
  }

  /** The 24-hour text shows the time it was made from. */
  lemma Format24RoundTrip(t: Now)
    ensures Read24(Format24(t)) == Some(t)
  {
    var s := Format24(t);
    assert s[..2] == Pad2(t.hour) && s[3..] == Pad2(t.minute);
  }

  /** The 12-hour text, with its AM or PM, shows the time it was made from. */
  lemma Format12RoundTrip(t: Now)
    ensures Read12(Format12(t)) == Some(t)
  {
    var s, h := Format12(t), Hour12(t.hour);
    var half := if t.hour < 12 then "AM" else "PM";
    assert |s| == 8 && s[2] == ':' && s[5] == ' ' && s[6..] == half
      && ParseDecimal(s[..2]) == Some(h) && ParseDecimal(s[3..5]) == Some(t.minute) by {
      assert s == Pad2(h) + ":" + Pad2(t.minute) + " " + half;
      Read12Parts(Pad2(h), Pad2(t.minute), half);
    }
    assert h % 12 + (if half == "PM" then 12 else 0) == t.hour;
  }

  /** How `Read12` takes an `hh:MM AM` text apart. */
  lemma Read12Parts(hh: string, mm: string, half: string)
    requires |hh| == 2 && |mm| == 2 && (half == "AM" || half == "PM")
    ensures var s := hh + ":" + mm + " " + half;
      s[..2] == hh && s[2] == ':' && s[3..5] == mm && s[5] == ' ' && s[6..] == half && |s| == 8
  {
  }

  // ---- api_program ----

  /** One entry of the request's `widgets`: its `type` and `properties`, either of which may be absent. */
  datatype ProgramWidget = ProgramWidget(kind: Option<string>, properties: Option<map<string, string>>)

  /** The `KeyError` that ends the request with status 500. */
  datatype ProgramError = MissingKey(key: string)

  /**
   * What one widget adds to the display: its text, the time in its format, or
   * nothing for any other type.
   */
  function WidgetPart(w: ProgramWidget, now: Now): Result<seq<string>, ProgramError> {
    match w.kind
    case None => Failure(MissingKey("type"))
    case Some(kind) =>
      if kind == "text" then
        match w.properties
        case None => Failure(MissingKey("properties"))
        case Some(p) => if "text" in p then Success([p["text"]]) else Failure(MissingKey("text"))
      else if kind == "clock" then
        match w.properties
        case None => Failure(MissingKey("properties"))
        case Some(p) =>
          if "format" !in p then Failure(MissingKey("format"))
          else if p["format"] == "12h" then Success([Format12(now)])
          else Success([Format24(now)])
      else Success([])
  }

  function WidgetStep(now: Now): ProgramWidget -> Result<seq<string>, ProgramError> {
    (w: ProgramWidget) => WidgetPart(w, now)
  }

  predicate Shown(w: ProgramWidget) {
    w.kind == Some("text") || w.kind == Some("clock")
  }

  /** `' | '.join(parts) if parts else 'Program Active'`. */
  function CombinedMessage(parts: seq<string>): (r: string)
    ensures parts == [] ==> r == "Program Active"
    ensures parts != [] ==> |parts[0]| <= |r| && r[..|parts[0]|] == parts[0]
    ensures parts != [] ==> |parts[|parts| - 1]| <= |r| && r[|r| - |parts[|parts| - 1]|..] == parts[|parts| - 1]
  {
    if parts == [] then "Program Active"
    else
      JoinEnds(parts, " | ");
      Join(parts, " | ")
  }

  /**
   * The combined message is the parts separated by " | ": a single part alone, and
   * otherwise the first part, the separator, and the combination of the rest.
   */
  lemma CombinedMessageParts(parts: seq<string>)
    ensures |parts| == 1 ==> CombinedMessage(parts) == parts[0]
    ensures |parts| >= 2 ==> CombinedMessage(parts) == parts[0] + " | " + CombinedMessage(parts[1..])
  {
  }

  /**
   * Each part adds its own length, and each gap between two parts the three
   * characters of the separator.
   */
  lemma {:induction false} CombinedMessageLength(parts: seq<string>)
    requires parts != []
    ensures |CombinedMessage(parts)| == TotalLength(parts) + 3 * (|parts| - 1)
  {
    if |parts| >= 2 {
      CombinedMessageLength(parts[1..]);
      CombinedMessageParts(parts);
    }
  }

  function TotalLength(parts: seq<string>): nat {
    if parts == [] then 0 else |parts[0]| + TotalLength(parts[1..])
  }

  /** A join starts with the first piece and ends with the last. */
  lemma {:induction false} JoinEnds(parts: seq<string>, sep: string)
    requires parts != []
    ensures var r := Join(parts, sep);
      |parts[0]| <= |r| && r[..|parts[0]|] == parts[0]
      && |parts[|parts| - 1]| <= |r| && r[|r| - |parts[|parts| - 1]|..] == parts[|parts| - 1]
  {
    if |parts| > 1 {
      JoinEnds(parts[1..], sep);
      var rest := Join(parts[1..], sep);
      var r := parts[0] + sep + rest;
      assert Join(parts, sep) == r;
      assert r[..|parts[0]|] == parts[0];
      assert r[|r| - |rest|..] == rest;
    }
  }

  /** When the request gets through, there is one part per text or clock widget. */
  lemma {:induction false} ProgramPartsCount(widgets: seq<ProgramWidget>, now: Now, n: nat)
    requires n <= |widgets|
    ensures var g := Gather(widgets, WidgetStep(now), n);
      g.Success? ==> |g.value| == Count(widgets[..n], Shown)
  {
    if n > 0 {
      ProgramPartsCount(widgets, now, n - 1);
      var init := widgets[..n - 1];
      assert widgets[..n] == init + [widgets[n - 1]];
      CountAppend(init, [widgets[n - 1]], Shown);
      assert WidgetStep(now)(widgets[n - 1]) == WidgetPart(widgets[n - 1], now);
    }
  }

  /**
   * A widget of any type other than text and clock changes nothing: the program
   * with it appended gives the same parts, or the same error.
   */
  lemma OtherWidgetIgnored(widgets: seq<ProgramWidget>, w: ProgramWidget, now: Now)
    requires w.kind.Some? && !Shown(w)
    ensures Gather(widgets + [w], WidgetStep(now), |widgets| + 1) == Gather(widgets, WidgetStep(now), |widgets|)
  {
    assert WidgetStep(now)(w) == Success([]) by {
      assert WidgetStep(now)(w) == WidgetPart(w, now);
    }
    GatherSkip(widgets, w, WidgetStep(now));
  }

  /** An item whose step adds nothing leaves the loop's outcome as it was. */
  lemma GatherSkip<T, U, E>(items: seq<T>, x: T, step: T -> Result<seq<U>, E>)
    requires step(x) == Success([])
    ensures Gather(items + [x], step, |items| + 1) == Gather(items, step, |items|)
  {
    GatherPrefix(items, [x], step, |items|);
    assert (items + [x])[|items|] == x;
    var g := Gather(items, step, |items|);
    if g.Success? {
      assert g.value + [] == g.value;
    }
  }

  /** The loop over a longer list agrees with the shorter one on its first `n` items. */
  lemma {:induction false} GatherPrefix<T, U, E>(items: seq<T>, more: seq<T>, step: T -> Result<seq<U>, E>, n: nat)
    requires n <= |items|
    ensures Gather(items + more, step, n) == Gather(items, step, n)
  {
    if n > 0 {
      GatherPrefix(items, more, step, n - 1);
      assert (items + more)[n - 1] == items[n - 1];
    }
  }

  /**
   * A program of text widgets that all carry a text shows those texts in order:
   * part `k` is widget `k`'s text.
   */
  lemma {:induction false} TextProgramParts(widgets: seq<ProgramWidget>, now: Now, n: nat)
    requires n <= |widgets|
    requires forall k :: 0 <= k < |widgets| ==>
      widgets[k].kind == Some("text") && widgets[k].properties.Some? && "text" in widgets[k].properties.value
    ensures var g := Gather(widgets, WidgetStep(now), n);
      g.Success? && |g.value| == n
      && forall k :: 0 <= k < n ==> g.value[k] == widgets[k].properties.value["text"]
  {
    if n > 0 {
      TextProgramParts(widgets, now, n - 1);
      assert WidgetStep(now)(widgets[n - 1]) == Success([widgets[n - 1].properties.value["text"]]);
    }
  }

  // ---- api_schedule ----

  /**
   * `int(s)` for the digit strings a time field holds: decimal digits with any
   * white space around them.
   */
  function IntValue(s: string): (r: Option<nat>)
    ensures ParseDecimal(s).Some? ==> r == ParseDecimal(s)
  {
    TrimNoSpaceEdges(s);
    ParseDecimal(Trim(s))
  }

  /**
   * The hour and minute of the cron job: `int(time.split(':')[0])` and
   * `int(time.split(':')[1])`. A time without ':', a part that is not a number, an
   * hour above 23 or a minute above 59 is an error.
   */
  function CronTime(time: string): (r: Option<(nat, nat)>)
    ensures r.Some? ==> r.value.0 < 24 && r.value.1 < 60
    ensures ':' !in time ==> r.None?
  {
    var parts := Split(time, ':');
    if |parts| < 2 then None
    else match (IntValue(parts[0]), IntValue(parts[1]))
      case (Some(h), Some(m)) => if h < 24 && m < 60 then Some((h, m)) else None
      case _ => None
  }

  /** A time stored as the settings page writes it, `HH:MM`, gives a job at that hour and minute. */
  lemma CronTimeOfClock(t: Now)
    ensures CronTime(Format24(t)) == Some((t.hour, t.minute))
  {
    var hh, mm := Pad2(t.hour), Pad2(t.minute);
    assert Join([hh, mm], [':']) == Format24(t);
    SplitJoin([hh, mm], ':');
  }

  datatype MessageRow = MessageRow(message: string, timestamp: string, kind: string)
  datatype ScheduleRow = ScheduleRow(time: string, message: string, active: int)
  datatype CronJob = CronJob(hour: nat, minute: nat, message: string)

  /** The log row of a message sent with type `kind` at `timestamp`. */
  function LogAs(timestamp: string, kind: string): string -> MessageRow {
    (message: string) => MessageRow(message, timestamp, kind)
  }

  /**
   * The loop of `send_birthday_messages` over the greetings: each one is handed to
   * `send_message` and then goes into the log.
   */
  method SendEach<T>(outbox: seq<string>, messages: seq<T>, texts: seq<string>, log: string -> T)
    returns (sent: seq<string>, logged: seq<T>)
    ensures sent == outbox + texts
    ensures logged == messages + MapSeq(texts, log)
  {
    sent, logged := outbox, messages;
    var i := 0;
    while i < |texts|
      invariant 0 <= i <= |texts|
      invariant sent == outbox + texts[..i]
      invariant logged == messages + MapSeq(texts[..i], log)
    {
      var message := texts[i];
      assert texts[..i + 1] == texts[..i] + [message];
      assert MapSeq(texts[..i + 1], log) == MapSeq(texts[..i], log) + [log(message)];
      sent := sent + [message];
      logged := logged + [log(message)];
      i := i + 1;
    }
    assert texts[..i] == texts;
  }

  /**
   * The server's state: the `messages` and `schedules` tables, the jobs added to
   * the scheduler, and the texts handed to `send_message`, oldest first. Whether
   * `send_message` passes a text on to the board depends on the `board_settings`
   * row and the network, which are not part of this model.
   */
  class Backend {
    var messages: seq<MessageRow>
    var schedules: seq<ScheduleRow>
    var jobs: seq<CronJob>
    var outbox: seq<string>

    constructor (messages: seq<MessageRow>, schedules: seq<ScheduleRow>)
      ensures this.messages == messages && this.schedules == schedules
      ensures jobs == [] && outbox == []
    {
      this.messages := messages;
      this.schedules := schedules;
      jobs := [];
      outbox := [];
    }

    /**
     * `send_birthday_messages`: greet every row whose birthday is today, hand each
     * greeting to `send_message` and log it as a `birthday` message stamped `timestamp`.
     */
    method SendBirthdayMessages(rows: seq<BirthdayRow>, today: Day, hasClient: bool, ai: Option<AiSettings>,
                                reply: string -> string, timestamp: string)
      modifies this
      ensures var g := Greetings(BirthdayNames(rows, today), hasClient, ai, reply);
        outbox == old(outbox) + g && messages == old(messages) + MapSeq(g, LogAs(timestamp, "birthday"))
      ensures schedules == old(schedules) && jobs == old(jobs)
    {
      var greetings := Greetings(BirthdayNames(rows, today), hasClient, ai, reply);
      outbox, messages := SendEach(outbox, messages, greetings, LogAs(timestamp, "birthday"));
    }

    /**
     * `api_program`: compose the widgets' parts; on success hand the combined text
     * to `send_message` and log it as `Program: ` + text; a missing key ends the
     * request with nothing sent or logged.
     */
    method ApiProgram(widgets: seq<ProgramWidget>, now: Now, timestamp: string)
      returns (r: Result<string, ProgramError>)
      modifies this
      ensures match Gather(widgets, WidgetStep(now), |widgets|)
        case Failure(e) => r == Failure(e) && outbox == old(outbox) && messages == old(messages)
        case Success(parts) =>
          r == Success(CombinedMessage(parts))
          && outbox == old(outbox) + [CombinedMessage(parts)]
          && messages == old(messages) + [MessageRow("Program: " + CombinedMessage(parts), timestamp, "program")]
      ensures schedules == old(schedules) && jobs == old(jobs)
    {
      var parts := GatherAll(widgets, WidgetStep(now));
      if parts.Failure? {
        return Failure(parts.error);
      }
      var combined := CombinedMessage(parts.value);
      outbox := outbox + [combined];
      messages := messages + [MessageRow("Program: " + combined, timestamp, "program")];
      r := Success(combined);
    }

    /**
     * `api_schedule`: store the row with `active` as 1 or 0, and for an active
     * message add a daily job at the time's hour and minute. The row is stored even
     * when the time then fails to give a job, and the request fails (`ok` false).
     */
    method ApiSchedule(time: string, message: string, active: bool) returns (ok: bool)
      modifies this
      ensures schedules == old(schedules) + [ScheduleRow(time, message, if active then 1 else 0)]
      ensures ok <==> !active || CronTime(time).Some?
      ensures jobs == if active && CronTime(time).Some?
        then old(jobs) + [CronJob(CronTime(time).value.0, CronTime(time).value.1, message)]
        else old(jobs)
      ensures messages == old(messages) && outbox == old(outbox)
    {
      schedules := schedules + [ScheduleRow(time, message, if active then 1 else 0)];
      ok := true;
      if active {
        var at := CronTime(time);
        if at.None? {
          return false;
        }
        jobs := jobs + [CronJob(at.value.0, at.value.1, message)];
      }
    }
  }
}
