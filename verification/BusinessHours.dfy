/**
 Business-hours arithmetic for SLA clocks.

 Instants are integer milliseconds. A calendar lives in a zone of fixed offset, so local
 day `d` is the half-open interval [DayStart(d), DayStart(d + 1)). The three scans of the
 calculator walk at most SCAN_DAYS days; `IsOpenAt` is the point-wise meaning they refine.
 */
module BusinessHours {
  import opened Integers

  const MINUTE_MS := 60_000
  const DAY_MINUTES := 1_440
  const DAY_MS := 86_400_000
  const SCAN_DAYS := 800

  /** A weekly rule: day 0 is Sunday; start and end are minutes after local midnight. */
  datatype Rule = Rule(day: int, start: nat, end: nat)

  datatype Calendar = Calendar(offset: int, rules: seq<Rule>, holidays: set<int>)

  datatype Window = Window(start: int, end: int)

  // ----- the calendar -----

  function Day(cal: Calendar, t: int): int {
    (t + cal.offset) / DAY_MS
  }

  function DayStart(cal: Calendar, d: int): int {
    d * DAY_MS - cal.offset
  }

  /** Day 0 of the epoch was a Thursday. */
  function Weekday(d: int): int {
    (d + 4) % 7
  }

  function WindowFor(cal: Calendar, d: int, rule: Rule): Window {
    Window(DayStart(cal, d) + rule.start * MINUTE_MS, DayStart(cal, d) + rule.end * MINUTE_MS)
  }

  predicate Covers(w: Window, t: int) {
    w.start <= t < w.end
  }

  predicate IsOpenAt(cal: Calendar, t: int) {
    cal.rules == [] ||
    (Day(cal, t) !in cal.holidays &&
     exists i :: 0 <= i < |cal.rules| && RuleOpens(cal, cal.rules[i], t))
  }

  predicate RuleOpens(cal: Calendar, rule: Rule, t: int) {
    rule.day == Weekday(Day(cal, t)) && Covers(WindowFor(cal, Day(cal, t), rule), t)
  }

  /** Windows of the rules that apply to day `d`, in rule order, empty ones dropped. */
  function WindowsFrom(cal: Calendar, rules: seq<Rule>, d: int): seq<Window> {
    if rules == [] then []
    else (if rules[0].day == Weekday(d) && rules[0].start < rules[0].end
          then [WindowFor(cal, d, rules[0])] else [])
         + WindowsFrom(cal, rules[1..], d)
  }

  function WindowsOn(cal: Calendar, d: int): seq<Window> {
    if d in cal.holidays then [] else WindowsFrom(cal, cal.rules, d)
  }

  /** Length of the intersection of a window with [a, b). */
  function Overlap(w: Window, a: int, b: int): int {
    Max(0, Min(b, w.end) - Max(a, w.start))
  }

  // ----- what the three scans compute -----

  function Measure(ws: seq<Window>, a: int, b: int): int {
    if ws == [] then 0 else Overlap(ws[0], a, b) + Measure(ws[1..], a, b)
  }

  function ElapsedScan(cal: Calendar, d: int, n: nat, from: int, to: int): int
    decreases n, d
  {
    if n == 0 || DayStart(cal, d) > to then 0
    else Measure(WindowsOn(cal, d), from, to) + ElapsedScan(cal, d + 1, n - 1, from, to)
  }

  function Elapsed(cal: Calendar, from: int, to: int): int {
    if to <= from then 0
    else if cal.rules == [] then to - from
    else ElapsedScan(cal, Day(cal, from), SCAN_DAYS, from, to)
  }

  datatype Progress = At(instant: int) | Remaining(ms: int)

  function AddOn(ws: seq<Window>, from: int, remaining: int): Progress {
    if ws == [] then Remaining(remaining)
    else
      var begin := Max(ws[0].start, from);
      if begin >= ws[0].end then AddOn(ws[1..], from, remaining)
      else if ws[0].end - begin >= remaining then At(begin + remaining)
      else AddOn(ws[1..], from, remaining - (ws[0].end - begin))
  }

  function AddScan(cal: Calendar, d: int, n: nat, from: int, remaining: int): Progress
    decreases n, d
  {
    if n == 0 then Remaining(remaining)
    else
      match AddOn(WindowsOn(cal, d), from, remaining)
      case At(t) => At(t)
      case Remaining(r) => AddScan(cal, d + 1, n - 1, from, r)
  }

  function Add(cal: Calendar, from: int, minutes: int): int {
    if minutes <= 0 then from
    else if cal.rules == [] then from + minutes * MINUTE_MS
    else
      match AddScan(cal, Day(cal, from), SCAN_DAYS, from, minutes * MINUTE_MS)
      case At(t) => t
      case Remaining(_) => from + minutes * MINUTE_MS
  }

  datatype Opening = Opens(instant: int) | NeverOpens

  function FirstStart(ws: seq<Window>, from: int): Opening {
    if ws == [] then NeverOpens
    else if ws[0].start >= from then Opens(ws[0].start)
    else FirstStart(ws[1..], from)
  }

  function OpeningScan(cal: Calendar, d: int, n: nat, from: int): Opening
    decreases n, d
  {
    if n == 0 then NeverOpens
    else
      match FirstStart(WindowsOn(cal, d), from)
      case Opens(t) => Opens(t)
      case NeverOpens => OpeningScan(cal, d + 1, n - 1, from)
  }

  function NextOpeningAt(cal: Calendar, from: int): int {
    if IsOpenAt(cal, from) then from
    else
      match OpeningScan(cal, Day(cal, from), SCAN_DAYS, from)
      case Opens(t) => t
      case NeverOpens => from
  }

  // ----- the loops -----

  lemma WindowsFromAt(cal: Calendar, d: int, i: nat)
    requires i < |cal.rules|
    ensures WindowsFrom(cal, cal.rules[i..], d) ==
      (if cal.rules[i].day == Weekday(d) && cal.rules[i].start < cal.rules[i].end then [WindowFor(cal, d, cal.rules[i])] else [])
      + WindowsFrom(cal, cal.rules[i + 1..], d)
  {
  }

  method CollectWindows(cal: Calendar, d: int) returns (windows: seq<Window>)
    ensures windows == WindowsOn(cal, d)
  {
    windows := [];
    if d in cal.holidays { return; }
    ghost var all := WindowsFrom(cal, cal.rules, d);
    assert cal.rules[0..] == cal.rules;
    for i := 0 to |cal.rules|
      invariant windows + WindowsFrom(cal, cal.rules[i..], d) == all
    {
      ghost var rest := WindowsFrom(cal, cal.rules[i + 1..], d);
      WindowsFromAt(cal, d, i);
      var rule := cal.rules[i];
      if rule.day == Weekday(d) {
        var window := WindowFor(cal, d, rule);
        if window.start < window.end {
          assert windows + ([window] + rest) == windows + [window] + rest;
          windows := windows + [window];
        }
      }
      assert windows + rest == all;
    }
  }

  method ElapsedWorkingMs(cal: Calendar, from: int, to: int) returns (total: int)
    ensures total == Elapsed(cal, from, to)
  {
    if to <= from { return 0; }
    if |cal.rules| == 0 { return to - from; }
    total := 0;
    var cursor, guard := Day(cal, from), 0;
    while DayStart(cal, cursor) <= to && guard < SCAN_DAYS
      invariant guard <= SCAN_DAYS
      invariant total + ElapsedScan(cal, cursor, SCAN_DAYS - guard, from, to) == Elapsed(cal, from, to)
    {
      var windows := CollectWindows(cal, cursor);
      ghost var before := total;
      for i := 0 to |windows|
        invariant total + Measure(windows[i..], from, to) == before + Measure(windows, from, to)
      {
        var overlap := Overlap(windows[i], from, to);
        total := total + overlap;
      }
      guard, cursor := guard + 1, cursor + 1;
    }
  }

  /** The loop over one day's windows: where the time is used up, or what remains of it. */
  method UseWindows(windows: seq<Window>, from: int, amount: int) returns (progress: Progress)
    ensures progress == AddOn(windows, from, amount)
  {
    var remaining := amount;
    for i := 0 to |windows|
      invariant AddOn(windows[i..], from, remaining) == AddOn(windows, from, amount)
    {
      var begin := Max(windows[i].start, from);
      if begin >= windows[i].end { continue; }
      var available := windows[i].end - begin;
      if available >= remaining { return At(begin + remaining); }
      remaining := remaining - available;
    }
    progress := Remaining(remaining);
  }

  method AddWorkingMinutes(cal: Calendar, from: int, minutes: int) returns (due: int)
    ensures due == Add(cal, from, minutes)
  {
    if minutes <= 0 { return from; }
    if |cal.rules| == 0 { return from + minutes * MINUTE_MS; }
    var remaining, cursor := minutes * MINUTE_MS, Day(cal, from);
    for guard := 0 to SCAN_DAYS
      invariant AddScan(cal, cursor, SCAN_DAYS - guard, from, remaining)
             == AddScan(cal, Day(cal, from), SCAN_DAYS, from, minutes * MINUTE_MS)
    {
      var windows := CollectWindows(cal, cursor);
      var progress := UseWindows(windows, from, remaining);
      if progress.At? { return progress.instant; }
      remaining, cursor := progress.ms, cursor + 1;
    }
    due := from + minutes * MINUTE_MS;
  }

  method NextOpening(cal: Calendar, from: int) returns (opening: int)
    ensures opening == NextOpeningAt(cal, from)
  {
    if |cal.rules| == 0 || IsOpenAt(cal, from) { return from; }
    var cursor := Day(cal, from);
    for guard := 0 to SCAN_DAYS
      invariant OpeningScan(cal, cursor, SCAN_DAYS - guard, from)
             == OpeningScan(cal, Day(cal, from), SCAN_DAYS, from)
    {
      var windows := CollectWindows(cal, cursor);
      for i := 0 to |windows|
        invariant FirstStart(windows[i..], from) == FirstStart(windows, from)
      {
        if windows[i].start >= from { return windows[i].start; }
      }
      cursor := cursor + 1;
    }
    opening := from;
  }
}
