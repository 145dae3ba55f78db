/**
 * The period-deduplicating scheduler: a fixed table of named tasks, the rule
 * that decides whether a task is due at a tick, the ledger of the last period
 * marker each task ran for, and the tick itself
 * (`SidekickLogic.check_and_run_schedules`).
 */
module Scheduler {
  import opened Wrappers
  import opened Markers
  import opened Text

  /** Task name to the last period marker it ran for (table `sidekick_schedule_log`). */
  type Ledger = map<string, string>

  /** When a task fires: at a given hour from a given minute on, once per calendar
      hour; or on a given weekday from a given hour on, once per `%U` week. */
  datatype Trigger = Daily(hour: int, minute: int) | Weekly(hour: int, dayOfWeek: int)

  /** What a task does when launched. */
  datatype Action = SendFromPool(category: string) | RenewResponses

  datatype ScheduleEntry = ScheduleEntry(name: string, trigger: Trigger, action: Action)

  const Quotes := "SCHEDULED_QUOTES"
  const Buy := "SCHEDULED_BUY"
  const Pump := "SCHEDULED_PUMP"

  /** The seventeen scheduled tasks, in declaration order. A task without a
      `minute` entry fires from minute 0. */
  const Schedules: seq<ScheduleEntry> := [
    ScheduleEntry("sk_quote_10", Daily(10, 0), SendFromPool(Quotes)),
    ScheduleEntry("sk_quote_20", Daily(20, 0), SendFromPool(Quotes)),
    ScheduleEntry("sk_buy_00", Daily(0, 0), SendFromPool(Buy)),
    ScheduleEntry("sk_buy_01", Daily(1, 0), SendFromPool(Buy)),
    ScheduleEntry("sk_buy_03", Daily(3, 0), SendFromPool(Buy)),
    ScheduleEntry("sk_buy_13", Daily(13, 0), SendFromPool(Buy)),
    ScheduleEntry("sk_buy_15", Daily(15, 0), SendFromPool(Buy)),
    ScheduleEntry("sk_buy_16", Daily(16, 0), SendFromPool(Buy)),
    ScheduleEntry("sk_pump_0030", Daily(0, 30), SendFromPool(Pump)),
    ScheduleEntry("sk_pump_0130", Daily(1, 30), SendFromPool(Pump)),
    ScheduleEntry("sk_pump_0300", Daily(3, 0), SendFromPool(Pump)),
    ScheduleEntry("sk_pump_0500", Daily(5, 0), SendFromPool(Pump)),
    ScheduleEntry("sk_pump_1330", Daily(13, 30), SendFromPool(Pump)),
    ScheduleEntry("sk_pump_1430", Daily(14, 30), SendFromPool(Pump)),
    ScheduleEntry("sk_pump_1530", Daily(15, 30), SendFromPool(Pump)),
    ScheduleEntry("sk_pump_1630", Daily(16, 30), SendFromPool(Pump)),
    ScheduleEntry("sk_ai_renewal", Weekly(8, 6), RenewResponses)
  ]

  /** The posting tasks post from the quote, buy and pump pools. */
  lemma PostingCategories()
    ensures forall e | e in Schedules && e.action.SendFromPool? :: e.action.category in {Quotes, Buy, Pump}
  {
  }

  predicate UniqueNames(es: seq<ScheduleEntry>) {
    forall i, j :: 0 <= i < j < |es| ==> es[i].name != es[j].name
  }

  /** The table is keyed by name: no two tasks share one. */
  lemma SchedulesHaveUniqueNames()
    ensures UniqueNames(Schedules)
  {
    BuyNamesDiffer();
    PumpNamesDiffer();
    assert forall i :: 0 <= i < |Schedules| ==>
      |Schedules[i].name| == if i < 2 then 11 else if i < 8 then 9 else if i < 16 then 12 else 13;
  }

  /** The six buy tasks, all of the same name length, have distinct names. */
  lemma BuyNamesDiffer()
    ensures forall i, j :: 2 <= i < j < 8 ==> Schedules[i].name != Schedules[j].name
  {
  }

  /** The eight pump tasks, all of the same name length, have distinct names. */
  lemma PumpNamesDiffer()
    ensures forall i, j :: 8 <= i < j < 16 ==> Schedules[i].name != Schedules[j].name
  {
  }

  /** The marker a task is deduplicated on: weekly tasks use the weekly marker, all others the hourly one. */
  function Marker(e: ScheduleEntry, now: Time): (r: string)
    requires WellFormed(now)
  {
    if e.trigger.Weekly? then WeeklyMarker(now) else HourlyMarker(now)
  }

  /** `should_run`: the time condition of the trigger holds and the ledger's
      value for that task (`None` when missing) differs from the current marker. */
  predicate IsDue(e: ScheduleEntry, now: Time, last: Option<string>)
    requires WellFormed(now)
  {
    match e.trigger
    case Weekly(hour, dayOfWeek) =>
      now.weekday == dayOfWeek && now.hour >= hour && last != Some(Marker(e, now))
    case Daily(hour, minute) =>
      now.hour == hour && now.minute >= minute && last != Some(Marker(e, now))
  }

  /** The ledger value `last` is the marker of calendar hour `p`. */
  predicate RecordsHour(last: Option<string>, p: HourPeriod) {
    last.Some? && ParseHourly(last.value) == Some(p)
  }

  /** The ledger value `last` is the marker of week `p`. */
  predicate RecordsWeek(last: Option<string>, p: WeekPeriod) {
    last.Some? && ParseWeekly(last.value) == Some(p)
  }

  /** Daily rule: due exactly at the target hour, from the target minute on,
      unless the ledger already records the current calendar hour. A missing
      entry records nothing, so that task counts as not yet run. */
  lemma DailyDueRule(e: ScheduleEntry, now: Time, last: Option<string>)
    requires WellFormed(now) && e.trigger.Daily?
    ensures IsDue(e, now, last) <==>
      now.hour == e.trigger.hour && now.minute >= e.trigger.minute && !RecordsHour(last, HourOf(now))
  {
    ParseFormatHour(HourOf(now));
    if RecordsHour(last, HourOf(now)) {
      FormatParseHour(last.value);
    }
  }

  /** Weekly rule: due on the target weekday from the target hour on, unless
      the ledger already records the current `%U` week. */
  lemma WeeklyDueRule(e: ScheduleEntry, now: Time, last: Option<string>)
    requires WellFormed(now) && e.trigger.Weekly?
    ensures IsDue(e, now, last) <==>
      now.weekday == e.trigger.dayOfWeek && now.hour >= e.trigger.hour && !RecordsWeek(last, WeekOf(now))
  {
    ParseFormatWeek(WeekOf(now));
    if RecordsWeek(last, WeekOf(now)) {
      FormatParseWeek(last.value);
    }
  }

  /** A task at 10:00 against a ledger holding the 09 hour: due at 10:00, not
      at 09:59, and not at 10:05 once the 10 hour is recorded. */
  lemma DailyExamples()
    ensures var e := Schedules[0];
      && IsDue(e, Time(2024, 5, 1, 10, 0, 2, 17), Some("2024-05-01-09"))
      && !IsDue(e, Time(2024, 5, 1, 9, 59, 2, 17), Some("2024-05-01-09"))
      && !IsDue(e, Time(2024, 5, 1, 10, 5, 2, 17), Some("2024-05-01-10"))
  {
    ExampleHourMarker();
    assert "2024-05-01-10"[12] != "2024-05-01-09"[12];
  }

  /** The weekly regeneration, Sundays from 08:00: due at 08:30 on Sunday
      5 May 2024 with nothing recorded, not due on the Saturday before, and
      not due at 20:00 that Sunday once the week's marker is recorded. */
  lemma WeeklyExamples()
    ensures var e := Schedules[16];
      var sunday := Time(2024, 5, 5, 8, 30, 6, 18);
      && IsDue(e, sunday, None)
      && !IsDue(e, Time(2024, 5, 4, 9, 0, 5, 17), None)
      && !IsDue(e, Time(2024, 5, 5, 20, 0, 6, 18), Some(WeeklyMarker(sunday)))
  {
  }

  lemma ExampleHourMarker()
    ensures FormatHour(HourPeriod(2024, 5, 1, 10)) == "2024-05-01-10"
  {
    assert DigitChar(0) == '0' && DigitChar(1) == '1' && DigitChar(2) == '2';
    assert DigitChar(4) == '4' && DigitChar(5) == '5';
    PadStep(2, 1);
    PadStep(20, 2);
    PadStep(202, 3);
    PadStep(2024, 4);
    var year := Pad(2024, 4);
    assert year == "2024";
    PadStep(0, 1);
    PadStep(5, 2);
    PadStep(1, 2);
    PadStep(1, 1);
    PadStep(10, 2);
    var month, day, hour := Pad(5, 2), Pad(1, 2), Pad(10, 2);
    assert month == "05" && day == "01" && hour == "10";
    assert year + "-" + month + "-" + day + "-" + hour == "2024-05-01-10";
  }

  /** Two instants are in the same period as far as `e` is concerned. */
  predicate SamePeriod(e: ScheduleEntry, t1: Time, t2: Time)
    requires WellFormed(t1) && WellFormed(t2)
  {
    if e.trigger.Weekly? then WeekOf(t1) == WeekOf(t2) else HourOf(t1) == HourOf(t2)
  }

  /** A task's marker tells its periods apart: equal markers exactly within one period. */
  lemma MarkerIdentifiesPeriod(e: ScheduleEntry, t1: Time, t2: Time)
    requires WellFormed(t1) && WellFormed(t2)
    ensures Marker(e, t1) == Marker(e, t2) <==> SamePeriod(e, t1, t2)
  {
    if e.trigger.Weekly? {
      WeeklyMarkerIdentifiesWeek(t1, t2);
    } else {
      HourlyMarkerIdentifiesHour(t1, t2);
    }
  }

  /** The ledger as the scheduler can read it: an unreachable store reads as empty. */
  function Visible(ledger: Ledger, reachable: bool): (r: Ledger) {
    if reachable then ledger else map[]
  }

  /** The outcome of one tick: the names launched, in table order, and the new ledger. */
  datatype TickResult = TickResult(launched: seq<string>, ledger: Ledger)

  /** The loop of a tick over the entries `es`: each entry reads the ledger as
      left by the entries before it; a due entry is launched and, when the
      store is reachable, its marker is upserted. */
  function RunEntries(es: seq<ScheduleEntry>, ledger: Ledger, now: Time, reachable: bool): (r: TickResult)
    requires WellFormed(now)
    decreases |es|
  {
    if es == [] then TickResult([], ledger)
    else
      var e := es[0];
      var due := IsDue(e, now, Lookup(Visible(ledger, reachable), e.name));
      var next := if due && reachable then ledger[e.name := Marker(e, now)] else ledger;
      var rest := RunEntries(es[1..], next, now, reachable);
      TickResult(if due then [e.name] + rest.launched else rest.launched, rest.ledger)
  }

  /** One iteration of the tick loop keeps its invariant: when `whole` is the
      launches so far followed by what the remaining entries `tail` launch
      against the current ledger, it is also the launches after the first of
      them followed by what the others launch against the ledger it leaves. */
  lemma RunEntriesStep(tail: seq<ScheduleEntry>, whole: TickResult, launched: seq<string>,
                       ledger: Ledger, now: Time, reachable: bool, due: bool, marker: string)
    requires WellFormed(now) && tail != []
    requires due == IsDue(tail[0], now, Lookup(Visible(ledger, reachable), tail[0].name))
    requires marker == Marker(tail[0], now)
    requires var rest := RunEntries(tail, ledger, now, reachable);
      whole == TickResult(launched + rest.launched, rest.ledger)
    ensures var next := if due && reachable then ledger[tail[0].name := marker] else ledger;
      var rest := RunEntries(tail[1..], next, now, reachable);
      whole == TickResult((if due then launched + [tail[0].name] else launched) + rest.launched, rest.ledger)
  {
    var next := if due && reachable then ledger[tail[0].name := marker] else ledger;
    var rest := RunEntries(tail[1..], next, now, reachable);
    AppendOne(launched, tail[0].name, rest.launched);
  }

  lemma AppendOne(a: seq<string>, x: string, b: seq<string>)
    ensures a + ([x] + b) == (a + [x]) + b
  {
  }

  /** One call of `check_and_run_schedules` at `now`. */
  function Tick(ledger: Ledger, now: Time, reachable: bool): (r: TickResult)
    requires WellFormed(now)
  {
    RunEntries(Schedules, ledger, now, reachable)
  }

  /** The names of the entries of `es` that are due against `ledger`, in order. */
  function DueNames(es: seq<ScheduleEntry>, ledger: Ledger, now: Time): (r: seq<string>)
    requires WellFormed(now)
  {
    if es == [] then []
    else
      (if IsDue(es[0], now, Lookup(ledger, es[0].name)) then [es[0].name] else [])
      + DueNames(es[1..], ledger, now)
  }

  function Count(s: seq<string>, x: string): (r: nat) {
    if s == [] then 0 else (if s[0] == x then 1 else 0) + Count(s[1..], x)
  }

  lemma {:induction false} CountConcat(a: seq<string>, b: seq<string>, x: string)
    ensures Count(a + b, x) == Count(a, x) + Count(b, x)
  {
    if a == [] {
      assert a + b == b;
    } else {
      assert (a + b)[0] == a[0];
      assert (a + b)[1..] == a[1..] + b;
      CountConcat(a[1..], b, x);
    }
  }

  lemma {:induction false} CountMembership(s: seq<string>, x: string)
    ensures x in s <==> Count(s, x) > 0
  {
    if s != [] {
      CountMembership(s[1..], x);
      assert s == [s[0]] + s[1..];
    }
  }

  predicate AgreeOnNames(l1: Ledger, l2: Ledger, es: seq<ScheduleEntry>) {
    forall i :: 0 <= i < |es| ==> Lookup(l1, es[i].name) == Lookup(l2, es[i].name)
  }

  /** Which entries are due depends on the ledger only through those entries' own names. */
  lemma {:induction false} DueNamesFrame(es: seq<ScheduleEntry>, l1: Ledger, l2: Ledger, now: Time)
    requires WellFormed(now) && AgreeOnNames(l1, l2, es)
    ensures DueNames(es, l1, now) == DueNames(es, l2, now)
  {
    if es != [] {
      assert Lookup(l1, es[0].name) == Lookup(l2, es[0].name);
      assert AgreeOnNames(l1, l2, es[1..]) by {
        forall i | 0 <= i < |es[1..]| ensures Lookup(l1, es[1..][i].name) == Lookup(l2, es[1..][i].name) {
          assert es[1..][i] == es[i + 1];
        }
      }
      DueNamesFrame(es[1..], l1, l2, now);
    }
  }

  /** A name that is no entry's does not occur among the due names. */
  lemma {:induction false} DueNamesAbsent(es: seq<ScheduleEntry>, ledger: Ledger, now: Time, x: string)
    requires WellFormed(now)
    requires forall i :: 0 <= i < |es| ==> es[i].name != x
    ensures Count(DueNames(es, ledger, now), x) == 0
  {
    if es != [] {
      assert forall i :: 0 <= i < |es[1..]| ==> es[1..][i] == es[i + 1];
      DueNamesAbsent(es[1..], ledger, now, x);
      CountConcat(if IsDue(es[0], now, Lookup(ledger, es[0].name)) then [es[0].name] else [],
                  DueNames(es[1..], ledger, now), x);
    }
  }

  /** With unique names, entry `i` occurs among the due names once if it is due and never otherwise. */
  lemma {:induction false} DueNamesCount(es: seq<ScheduleEntry>, ledger: Ledger, now: Time, i: int)
    requires WellFormed(now) && UniqueNames(es) && 0 <= i < |es|
    ensures Count(DueNames(es, ledger, now), es[i].name) ==
      if IsDue(es[i], now, Lookup(ledger, es[i].name)) then 1 else 0
  {
    var head := if IsDue(es[0], now, Lookup(ledger, es[0].name)) then [es[0].name] else [];
    CountConcat(head, DueNames(es[1..], ledger, now), es[i].name);
    assert forall k :: 0 <= k < |es[1..]| ==> es[1..][k] == es[k + 1];
    if i == 0 {
      DueNamesAbsent(es[1..], ledger, now, es[0].name);
    } else {
      DueNamesCount(es[1..], ledger, now, i - 1);
    }
  }

  /** With unique names, the tick launches exactly the entries due against the ledger it started from. */
  lemma {:induction false} RunEntriesLaunchesDue(es: seq<ScheduleEntry>, ledger: Ledger, now: Time, reachable: bool)
    requires WellFormed(now) && UniqueNames(es)
    ensures RunEntries(es, ledger, now, reachable).launched == DueNames(es, Visible(ledger, reachable), now)
  {
    if es != [] {
      var e := es[0];
      var due := IsDue(e, now, Lookup(Visible(ledger, reachable), e.name));
      var next := if due && reachable then ledger[e.name := Marker(e, now)] else ledger;
      assert forall k :: 0 <= k < |es[1..]| ==> es[1..][k] == es[k + 1];
      assert AgreeOnNames(Visible(next, reachable), Visible(ledger, reachable), es[1..]);
      DueNamesFrame(es[1..], Visible(next, reachable), Visible(ledger, reachable), now);
      RunEntriesLaunchesDue(es[1..], next, now, reachable);
    }
  }

  /** A key that is no entry's name keeps its ledger value. */
  lemma {:induction false} RunEntriesUntouched(es: seq<ScheduleEntry>, ledger: Ledger, now: Time, reachable: bool, k: string)
    requires WellFormed(now)
    requires forall i :: 0 <= i < |es| ==> es[i].name != k
    ensures Lookup(RunEntries(es, ledger, now, reachable).ledger, k) == Lookup(ledger, k)
  {
    if es != [] {
      var e := es[0];
      var due := IsDue(e, now, Lookup(Visible(ledger, reachable), e.name));
      var next := if due && reachable then ledger[e.name := Marker(e, now)] else ledger;
      assert forall i :: 0 <= i < |es[1..]| ==> es[1..][i] == es[i + 1];
      RunEntriesUntouched(es[1..], next, now, reachable, k);
    }
  }

  /** Entry `i`'s ledger value after the loop: its current marker if it was due
      and the store reachable, its old value otherwise. */
  lemma {:induction false} RunEntriesRecords(es: seq<ScheduleEntry>, ledger: Ledger, now: Time, reachable: bool, i: int)
    requires WellFormed(now) && UniqueNames(es) && 0 <= i < |es|
    ensures Lookup(RunEntries(es, ledger, now, reachable).ledger, es[i].name) ==
      if reachable && IsDue(es[i], now, Lookup(ledger, es[i].name)) then Some(Marker(es[i], now))
      else Lookup(ledger, es[i].name)
  {
    var e := es[0];
    var due := IsDue(e, now, Lookup(Visible(ledger, reachable), e.name));
    var next := if due && reachable then ledger[e.name := Marker(e, now)] else ledger;
    assert forall k :: 0 <= k < |es[1..]| ==> es[1..][k] == es[k + 1];
    if i == 0 {
      RunEntriesUntouched(es[1..], next, now, reachable, e.name);
    } else {
      RunEntriesRecords(es[1..], next, now, reachable, i - 1);
    }
  }

  /** When the store is unreachable the ledger keeps every value. */
  lemma {:induction false} RunEntriesUnreachable(es: seq<ScheduleEntry>, ledger: Ledger, now: Time)
    requires WellFormed(now)
    ensures RunEntries(es, ledger, now, false).ledger == ledger
  {
    if es != [] {
      RunEntriesUnreachable(es[1..], ledger, now);
    }
  }

  /** A tick launches the due tasks, in table order, judged against the ledger it
      started from (read as empty when the store is unreachable). */
  lemma TickLaunchesDue(ledger: Ledger, now: Time, reachable: bool)
    requires WellFormed(now)
    ensures Tick(ledger, now, reachable).launched == DueNames(Schedules, Visible(ledger, reachable), now)
  {
    SchedulesHaveUniqueNames();
    RunEntriesLaunchesDue(Schedules, ledger, now, reachable);
  }

  /** Task `i` is launched by a tick exactly when it is due, and then only once. */
  lemma TickLaunchesTask(ledger: Ledger, now: Time, reachable: bool, i: int)
    requires WellFormed(now) && 0 <= i < |Schedules|
    ensures var n := Schedules[i].name; var last := Lookup(Visible(ledger, reachable), n);
      && (n in Tick(ledger, now, reachable).launched <==> IsDue(Schedules[i], now, last))
      && Count(Tick(ledger, now, reachable).launched, n) == if IsDue(Schedules[i], now, last) then 1 else 0
  {
    var launched := Tick(ledger, now, reachable).launched;
    TickLaunchesDue(ledger, now, reachable);
    SchedulesHaveUniqueNames();
    DueNamesCount(Schedules, Visible(ledger, reachable), now, i);
    CountMembership(launched, Schedules[i].name);
  }

  /** Upsert is a keyed overwrite: after a tick, a launched task's entry holds
      the current marker (when the store is reachable), and only the entries
      of launched tasks differ from before. */
  lemma TickRecordsLaunched(ledger: Ledger, now: Time, reachable: bool, i: int)
    requires WellFormed(now) && 0 <= i < |Schedules|
    ensures var r := Tick(ledger, now, reachable); var n := Schedules[i].name;
      Lookup(r.ledger, n) == if reachable && n in r.launched then Some(Marker(Schedules[i], now)) else Lookup(ledger, n)
  {
    SchedulesHaveUniqueNames();
    TickLaunchesTask(ledger, now, reachable, i);
    RunEntriesRecords(Schedules, ledger, now, reachable, i);
  }

  /** Any key whose ledger value a tick changes belongs to a task the tick launched. */
  lemma OnlyLaunchedKeysChange(ledger: Ledger, now: Time, reachable: bool, k: string)
    requires WellFormed(now)
    ensures var r := Tick(ledger, now, reachable);
      Lookup(r.ledger, k) != Lookup(ledger, k) ==> reachable && k in r.launched
  {
    var r := Tick(ledger, now, reachable);
    if i :| 0 <= i < |Schedules| && Schedules[i].name == k {
      TickRecordsLaunched(ledger, now, reachable, i);
    } else {
      RunEntriesUntouched(Schedules, ledger, now, reachable, k);
    }
  }

  /** With the store unreachable nothing is read or recorded: every task whose
      time condition holds is launched, at every such tick. */
  lemma UnreachableStoreRecordsNothing(ledger: Ledger, now: Time)
    requires WellFormed(now)
    ensures Tick(ledger, now, false).ledger == ledger
    ensures Tick(ledger, now, false).launched == DueNames(Schedules, map[], now)
  {
    RunEntriesUnreachable(Schedules, ledger, now);
    TickLaunchesDue(ledger, now, false);
  }

  /** After a task is launched, a later tick in the same period does not launch it again. */
  lemma NotDueAgainInPeriod(ledger: Ledger, t1: Time, t2: Time, i: int)
    requires WellFormed(t1) && WellFormed(t2) && 0 <= i < |Schedules|
    requires SamePeriod(Schedules[i], t1, t2)
    requires Schedules[i].name in Tick(ledger, t1, true).launched
    ensures Schedules[i].name !in Tick(Tick(ledger, t1, true).ledger, t2, true).launched
  {
    var after := Tick(ledger, t1, true).ledger;
    TickRecordsLaunched(ledger, t1, true, i);
    MarkerIdentifiesPeriod(Schedules[i], t1, t2);
    TickLaunchesTask(after, t2, true, i);
  }

  predicate AllWellFormed(ticks: seq<Time>) {
    forall j :: 0 <= j < |ticks| ==> WellFormed(ticks[j])
  }

  /** A run of ticks against a reachable store. */
  function RunTicks(ledger: Ledger, ticks: seq<Time>): (r: TickResult)
    requires AllWellFormed(ticks)
    decreases |ticks|
  {
    if ticks == [] then TickResult([], ledger)
    else
      var first := Tick(ledger, ticks[0], true);
      var rest := RunTicks(first.ledger, ticks[1..]);
      TickResult(first.launched + rest.launched, rest.ledger)
  }

  /** Once the ledger holds marker `m` for task `i`, ticks whose marker for that task is `m` never launch it. */
  lemma {:induction false} RecordedTaskStaysQuiet(ledger: Ledger, ticks: seq<Time>, i: int, m: string)
    requires AllWellFormed(ticks) && 0 <= i < |Schedules|
    requires Lookup(ledger, Schedules[i].name) == Some(m)
    requires forall j :: 0 <= j < |ticks| ==> Marker(Schedules[i], ticks[j]) == m
    ensures Count(RunTicks(ledger, ticks).launched, Schedules[i].name) == 0
    decreases |ticks|
  {
    if ticks != [] {
      var first := Tick(ledger, ticks[0], true);
      TickLaunchesTask(ledger, ticks[0], true, i);
      TickRecordsLaunched(ledger, ticks[0], true, i);
      assert Marker(Schedules[i], ticks[0]) == m;
      RecordedTaskStaysQuiet(first.ledger, ticks[1..], i, m);
      CountConcat(first.launched, RunTicks(first.ledger, ticks[1..]).launched, Schedules[i].name);
    }
  }

  /** At most once per period: however many ticks fall within one period of
      task `i` (one calendar hour for a daily task, one `%U` week for the weekly
      one), that task is launched at most once across them. */
  lemma {:induction false} AtMostOncePerPeriod(ledger: Ledger, ticks: seq<Time>, i: int)
    requires AllWellFormed(ticks) && |ticks| > 0 && 0 <= i < |Schedules|
    requires forall j :: 0 <= j < |ticks| ==> SamePeriod(Schedules[i], ticks[0], ticks[j])
    ensures Count(RunTicks(ledger, ticks).launched, Schedules[i].name) <= 1
    decreases |ticks|
  {
    var e := Schedules[i];
    var first := Tick(ledger, ticks[0], true);
    var rest := ticks[1..];
    TickLaunchesTask(ledger, ticks[0], true, i);
    CountConcat(first.launched, RunTicks(first.ledger, rest).launched, e.name);
    if IsDue(e, ticks[0], Lookup(ledger, e.name)) {
      TickRecordsLaunched(ledger, ticks[0], true, i);
      forall j | 0 <= j < |rest| ensures Marker(e, rest[j]) == Marker(e, ticks[0]) {
        assert rest[j] == ticks[j + 1];
        MarkerIdentifiesPeriod(e, ticks[0], rest[j]);
      }
      RecordedTaskStaysQuiet(first.ledger, rest, i, Marker(e, ticks[0]));
    } else if rest != [] {
      forall j | 0 <= j < |rest| ensures SamePeriod(e, rest[0], rest[j]) {
        assert rest[j] == ticks[j + 1] && rest[0] == ticks[1];
      }
      AtMostOncePerPeriod(first.ledger, rest, i);
    }
  }

  /** The store behind `_get_last_run_date` and `_update_last_run_date`: a
      table with upsert semantics, which may be unreachable (no connection). */
  class LedgerStore {
    var rows: Ledger
    var reachable: bool

    constructor (rows: Ledger, reachable: bool)
      ensures this.rows == rows && this.reachable == reachable
    {
      this.rows := rows;
      this.reachable := reachable;
    }

    /** The stored marker for `name`; `None` when there is no row or no connection. */
    method GetLastRun(name: string) returns (last: Option<string>)
      ensures last.Some? <==> reachable && name in rows
      ensures last.Some? ==> last.value == rows[name]
    {
      if !reachable {
        return None;
      }
      last := Lookup(rows, name);
    }

    /** Insert or overwrite the row for `name`; nothing happens without a connection. */
    method UpdateLastRun(name: string, marker: string)
      modifies this
      ensures reachable == old(reachable)
      ensures reachable ==> rows == old(rows)[name := marker]
      ensures !reachable ==> rows == old(rows)
    {
      if reachable {
        rows := rows[name := marker];
      }
    }
  }

  /** The loop of `check_and_run_schedules` over the table `es`: each task's
      marker is read from the store, a due task is launched (a launch is
      recorded by appending its name) and its current marker is upserted. */
  method RunTable(store: LedgerStore, es: seq<ScheduleEntry>, now: Time) returns (launched: seq<string>)
    requires WellFormed(now)
    modifies store
    ensures store.reachable == old(store.reachable)
    ensures TickResult(launched, store.rows) == RunEntries(es, old(store.rows), now, store.reachable)
  {
    launched := [];
    var i := 0;
    while i < |es|
      invariant 0 <= i <= |es|
      invariant store.reachable == old(store.reachable)
      invariant var rest := RunEntries(es[i..], store.rows, now, store.reachable);
        RunEntries(es, old(store.rows), now, store.reachable) == TickResult(launched + rest.launched, rest.ledger)
    {
      var entry := es[i];
      var marker := Marker(entry, now);
      var last := store.GetLastRun(entry.name);
      var shouldRun := IsDue(entry, now, last);
      assert es[i..][0] == entry && es[i..][1..] == es[i + 1..];
      RunEntriesStep(es[i..], RunEntries(es, old(store.rows), now, store.reachable), launched,
                     store.rows, now, store.reachable, shouldRun, marker);
      if shouldRun {
        launched := launched + [entry.name];
        store.UpdateLastRun(entry.name, marker);
      }
      i := i + 1;
    }
  }

  /** `check_and_run_schedules`: one tick over the schedule table. */
  method CheckAndRunSchedules(store: LedgerStore, now: Time) returns (launched: seq<string>)
    requires WellFormed(now)
    modifies store
    ensures store.reachable == old(store.reachable)
    ensures TickResult(launched, store.rows) == Tick(old(store.rows), now, store.reachable)
  {
    launched := RunTable(store, Schedules, now);
  }
}
