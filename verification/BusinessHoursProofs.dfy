/**
 What the business-hours scans mean, in terms of the point-wise test `IsOpenAt`.

 Each scan is first rewritten over `Flat`, the single list of windows it visits. The result here
 is `ElapsedExact`: the elapsed scan is the measure of `IsOpenAt` if and only if the rules are tidy.
 */
module BusinessHoursProofs {
  import opened Integers
  import opened BusinessHours

  // ----- the measure of open time -----

  /** Milliseconds of [a, b) at which the business is open. */
  ghost function OpenCount(cal: Calendar, a: int, b: int): nat
    decreases b - a
  {
    if b <= a then 0 else OpenCount(cal, a, b - 1) + (if IsOpenAt(cal, b - 1) then 1 else 0)
  }

  /** First instant beyond the days a scan from `from` visits. */
  ghost function Horizon(cal: Calendar, from: int): int {
    DayStart(cal, Day(cal, from) + SCAN_DAYS)
  }

  /** How far towards `to` a scan sees; a calendar without rules is not scanned at all. */
  ghost function Reach(cal: Calendar, from: int, to: int): int {
    if cal.rules == [] then to else Min(to, Horizon(cal, from))
  }

  ghost predicate Effective(rule: Rule) {
    0 <= rule.day <= 6 && rule.start < rule.end
  }

  ghost predicate InDay(rules: seq<Rule>) {
    forall i :: 0 <= i < |rules| && Effective(rules[i]) ==> rules[i].end <= DAY_MINUTES
  }

  ghost predicate SameDay(r: Rule, s: Rule) {
    Effective(r) && Effective(s) && r.day == s.day
  }

  ghost predicate Disjoint(rules: seq<Rule>) {
    forall i, j :: 0 <= i < j < |rules| && SameDay(rules[i], rules[j])
      ==> rules[i].end <= rules[j].start || rules[j].end <= rules[i].start
  }

  /** No rule reaches past midnight and rules of one weekday do not overlap. */
  ghost predicate Tidy(rules: seq<Rule>) {
    InDay(rules) && Disjoint(rules)
  }

  /** Rules of one weekday are listed in order, each ending before the next starts. */
  ghost predicate Ordered(rules: seq<Rule>) {
    forall i, j :: 0 <= i < j < |rules| && SameDay(rules[i], rules[j]) ==> rules[i].end <= rules[j].start
  }

  // ----- window lists -----

  ghost function Cover(ws: seq<Window>, t: int): nat {
    if ws == [] then 0 else (if Covers(ws[0], t) then 1 else 0) + Cover(ws[1..], t)
  }

  ghost function Flat(cal: Calendar, d: int, n: nat): seq<Window>
    decreases n, d
  {
    if n == 0 then [] else WindowsOn(cal, d) + Flat(cal, d + 1, n - 1)
  }

  ghost predicate Chained(ws: seq<Window>) {
    && (forall i :: 0 <= i < |ws| ==> ws[i].start < ws[i].end)
    && (forall i, j :: 0 <= i < j < |ws| ==> ws[i].end <= ws[j].start)
  }

  lemma {:induction false} MeasureStep(ws: seq<Window>, a: int, b: int)
    requires a < b
    ensures Measure(ws, a, b) == Measure(ws, a, b - 1) + Cover(ws, b - 1)
  {
    if ws != [] { MeasureStep(ws[1..], a, b); }
  }

  lemma {:induction false} MeasureEmpty(ws: seq<Window>, a: int, b: int)
    requires b <= a || forall i :: 0 <= i < |ws| ==> b <= ws[i].start
    ensures Measure(ws, a, b) == 0
  {
    if ws != [] { MeasureEmpty(ws[1..], a, b); }
  }

  lemma {:induction false} MeasureAppend(ws: seq<Window>, vs: seq<Window>, a: int, b: int)
    ensures Measure(ws + vs, a, b) == Measure(ws, a, b) + Measure(vs, a, b)
  {
    if ws == [] {
      assert ws + vs == vs;
    } else {
      assert (ws + vs)[1..] == ws[1..] + vs;
      MeasureAppend(ws[1..], vs, a, b);
    }
  }

  lemma {:induction false} CoverAppend(ws: seq<Window>, vs: seq<Window>, t: int)
    ensures Cover(ws + vs, t) == Cover(ws, t) + Cover(vs, t)
  {
    if ws == [] {
      assert ws + vs == vs;
    } else {
      assert (ws + vs)[1..] == ws[1..] + vs;
      CoverAppend(ws[1..], vs, t);
    }
  }

  lemma {:induction false} CoverNone(ws: seq<Window>, t: int)
    requires forall i :: 0 <= i < |ws| ==> !Covers(ws[i], t)
    ensures Cover(ws, t) == 0
  {
    if ws != [] { CoverNone(ws[1..], t); }
  }

  lemma {:induction false} CoverSome(ws: seq<Window>, t: int) returns (i: nat)
    requires Cover(ws, t) > 0
    ensures i < |ws| && Covers(ws[i], t)
  {
    if Covers(ws[0], t) {
      i := 0;
    } else {
      var k := CoverSome(ws[1..], t);
      i := k + 1;
    }
  }

  lemma {:induction false} CoverAtLeast(ws: seq<Window>, t: int, i: nat)
    requires i < |ws| && Covers(ws[i], t)
    ensures Cover(ws, t) >= 1
  {
    if i > 0 { CoverAtLeast(ws[1..], t, i - 1); }
  }

  lemma {:induction false} CoverTwice(ws: seq<Window>, t: int, i: nat, j: nat)
    requires i < j < |ws| && Covers(ws[i], t) && Covers(ws[j], t)
    ensures Cover(ws, t) >= 2
  {
    if i == 0 {
      CoverAtLeast(ws[1..], t, j - 1);
    } else {
      CoverTwice(ws[1..], t, i - 1, j - 1);
    }
  }

  lemma {:induction false} CoverOnce(ws: seq<Window>, t: int)
    requires forall i, j :: 0 <= i < j < |ws| ==> !(Covers(ws[i], t) && Covers(ws[j], t))
    ensures Cover(ws, t) <= 1
  {
    if ws != [] {
      if Covers(ws[0], t) {
        forall i | 0 <= i < |ws[1..]| ensures !Covers(ws[1..][i], t) { assert ws[1..][i] == ws[i + 1]; }
        CoverNone(ws[1..], t);
      } else {
        CoverOnce(ws[1..], t);
      }
    }
  }

  // ----- the scans over the flat list -----

  lemma {:induction false} FlatWindow(cal: Calendar, d: int, n: nat, i: nat) returns (k: int)
    requires i < |Flat(cal, d, n)|
    ensures d <= k < d + n && Flat(cal, d, n)[i] in WindowsOn(cal, k)
    decreases n
  {
    var ws := WindowsOn(cal, d);
    if i < |ws| {
      k := d;
    } else {
      k := FlatWindow(cal, d + 1, n - 1, i - |ws|);
    }
  }

  lemma {:induction false} FlatIndex(cal: Calendar, d: int, n: nat, k: int, i: nat) returns (j: nat)
    requires d <= k < d + n && i < |WindowsOn(cal, k)|
    ensures j < |Flat(cal, d, n)| && Flat(cal, d, n)[j] == WindowsOn(cal, k)[i]
    decreases n
  {
    if k == d {
      j := i;
    } else {
      var j' := FlatIndex(cal, d + 1, n - 1, k, i);
      j := |WindowsOn(cal, d)| + j';
    }
  }

  /** Every window of day `d` comes from an effective rule, in rule order. */
  lemma {:induction false} WindowRule(cal: Calendar, rules: seq<Rule>, d: int, i: nat) returns (k: nat)
    requires i < |WindowsFrom(cal, rules, d)|
    ensures k < |rules| && rules[k].day == Weekday(d) && Effective(rules[k])
    ensures WindowsFrom(cal, rules, d)[i] == WindowFor(cal, d, rules[k])
  {
    var used := rules[0].day == Weekday(d) && rules[0].start < rules[0].end;
    if used && i == 0 {
      k := 0;
    } else {
      var k' := WindowRule(cal, rules[1..], d, if used then i - 1 else i);
      k := k' + 1;
    }
  }

  /** As `WindowRule`, for two positions at once: order is kept. */
  lemma {:induction false} WindowRules(cal: Calendar, rules: seq<Rule>, d: int, i: nat, j: nat) returns (k: nat, l: nat)
    requires i < j < |WindowsFrom(cal, rules, d)|
    ensures k < l < |rules| && SameDay(rules[k], rules[l]) && rules[k].day == Weekday(d)
    ensures WindowsFrom(cal, rules, d)[i] == WindowFor(cal, d, rules[k])
    ensures WindowsFrom(cal, rules, d)[j] == WindowFor(cal, d, rules[l])
  {
    var used := rules[0].day == Weekday(d) && rules[0].start < rules[0].end;
    if used && i == 0 {
      var l' := WindowRule(cal, rules[1..], d, j - 1);
      k, l := 0, l' + 1;
    } else {
      var step := if used then 1 else 0;
      var k', l' := WindowRules(cal, rules[1..], d, i - step, j - step);
      k, l := k' + 1, l' + 1;
    }
  }

  /** The converse: an effective rule of the weekday contributes its window. */
  lemma {:induction false} RuleWindow(cal: Calendar, rules: seq<Rule>, d: int, k: nat) returns (i: nat)
    requires k < |rules| && rules[k].day == Weekday(d) && rules[k].start < rules[k].end
    ensures i < |WindowsFrom(cal, rules, d)| && WindowsFrom(cal, rules, d)[i] == WindowFor(cal, d, rules[k])
  {
    var used := rules[0].day == Weekday(d) && rules[0].start < rules[0].end;
    if k == 0 {
      i := 0;
    } else {
      var i' := RuleWindow(cal, rules[1..], d, k - 1);
      i := if used then i' + 1 else i';
    }
  }

  lemma {:induction false} RuleWindows(cal: Calendar, rules: seq<Rule>, d: int, k: nat, l: nat) returns (i: nat, j: nat)
    requires k < l < |rules| && SameDay(rules[k], rules[l]) && rules[k].day == Weekday(d)
    ensures i < j < |WindowsFrom(cal, rules, d)|
    ensures WindowsFrom(cal, rules, d)[i] == WindowFor(cal, d, rules[k])
    ensures WindowsFrom(cal, rules, d)[j] == WindowFor(cal, d, rules[l])
  {
    var used := rules[0].day == Weekday(d) && rules[0].start < rules[0].end;
    if k == 0 {
      var j' := RuleWindow(cal, rules[1..], d, l - 1);
      i, j := 0, j' + 1;
    } else {
      var i', j' := RuleWindows(cal, rules[1..], d, k - 1, l - 1);
      i, j := if used then i' + 1 else i', if used then j' + 1 else j';
    }
  }

  lemma {:induction false} FlatStarts(cal: Calendar, d: int, n: nat)
    ensures forall i :: 0 <= i < |Flat(cal, d, n)| ==>
      DayStart(cal, d) <= Flat(cal, d, n)[i].start < Flat(cal, d, n)[i].end
  {
    forall i | 0 <= i < |Flat(cal, d, n)|
      ensures DayStart(cal, d) <= Flat(cal, d, n)[i].start < Flat(cal, d, n)[i].end
    {
      var k := FlatWindow(cal, d, n, i);
      var j :| 0 <= j < |WindowsOn(cal, k)| && WindowsOn(cal, k)[j] == Flat(cal, d, n)[i];
      var r := WindowRule(cal, cal.rules, k, j);
    }
  }

  lemma {:induction false} ElapsedFlat(cal: Calendar, d: int, n: nat, from: int, to: int)
    ensures ElapsedScan(cal, d, n, from, to) == Measure(Flat(cal, d, n), from, to)
    decreases n
  {
    if n == 0 {
    } else if DayStart(cal, d) > to {
      FlatStarts(cal, d, n);
      MeasureEmpty(Flat(cal, d, n), from, to);
    } else {
      ElapsedFlat(cal, d + 1, n - 1, from, to);
      MeasureAppend(WindowsOn(cal, d), Flat(cal, d + 1, n - 1), from, to);
    }
  }

  // ----- elapsed time -----

  ghost predicate ElapsedMeets(cal: Calendar, from: int, to: int) {
    Elapsed(cal, from, to) == OpenCount(cal, from, Reach(cal, from, to))
  }

  /** 1 where a scan with this horizon ought to count, 0 elsewhere. */
  ghost function OpenBit(cal: Calendar, horizon: int, t: int): nat {
    if t < horizon && IsOpenAt(cal, t) then 1 else 0
  }

  lemma {:induction false} MeasureVersusOpen(cal: Calendar, ws: seq<Window>, a: int, b: int, horizon: int)
    requires forall t :: a <= t < b ==> Cover(ws, t) >= OpenBit(cal, horizon, t)
    ensures Measure(ws, a, b) >= OpenCount(cal, a, Min(b, horizon))
    ensures Measure(ws, a, b) == OpenCount(cal, a, Min(b, horizon)) <==>
      forall t :: a <= t < b ==> Cover(ws, t) == OpenBit(cal, horizon, t)
    decreases b - a
  {
    if b <= a {
      MeasureEmpty(ws, a, b);
    } else {
      MeasureStep(ws, a, b);
      MeasureVersusOpen(cal, ws, a, b - 1, horizon);
    }
  }

  /** The scan visits the day of every instant before its horizon. */
  lemma {:induction false} FlatCoversOpen(cal: Calendar, d: int, n: nat, t: int)
    requires cal.rules != [] && d <= Day(cal, t) < d + n
    ensures IsOpenAt(cal, t) ==> Cover(WindowsOn(cal, Day(cal, t)), t) >= 1
    ensures Cover(Flat(cal, d, n), t) >= Cover(WindowsOn(cal, Day(cal, t)), t)
    decreases n
  {
    if IsOpenAt(cal, t) {
      var k :| 0 <= k < |cal.rules| && RuleOpens(cal, cal.rules[k], t);
      var i := RuleWindow(cal, cal.rules, Day(cal, t), k);
      CoverAtLeast(WindowsOn(cal, Day(cal, t)), t, i);
    }
    CoverAppend(WindowsOn(cal, d), Flat(cal, d + 1, n - 1), t);
    if Day(cal, t) != d {
      FlatCoversOpen(cal, d + 1, n - 1, t);
    }
  }

  lemma FlatCoversAll(cal: Calendar, from: int, t: int)
    requires cal.rules != [] && from <= t
    ensures Cover(Flat(cal, Day(cal, from), SCAN_DAYS), t) >= OpenBit(cal, Horizon(cal, from), t)
  {
    if t < Horizon(cal, from) {
      FlatCoversOpen(cal, Day(cal, from), SCAN_DAYS, t);
    }
  }

  /** With tidy rules the windows of a day cover an instant of that day once if it is open, and no other. */
  lemma TidyDay(cal: Calendar, d: int, t: int)
    requires cal.rules != [] && Tidy(cal.rules)
    ensures Cover(WindowsOn(cal, d), t) == if d == Day(cal, t) && IsOpenAt(cal, t) then 1 else 0
  {
    var ws := WindowsOn(cal, d);
    forall i, j | 0 <= i < j < |ws| ensures !(Covers(ws[i], t) && Covers(ws[j], t)) {
      var k, l := WindowRules(cal, cal.rules, d, i, j);
    }
    CoverOnce(ws, t);
    if Cover(ws, t) > 0 {
      var i := CoverSome(ws, t);
      var k := WindowRule(cal, cal.rules, d, i);
      assert d == Day(cal, t);
      assert RuleOpens(cal, cal.rules[k], t);
    } else if d == Day(cal, t) {
      FlatCoversOpen(cal, d, 1, t);
    }
  }

  lemma {:induction false} TidyFlat(cal: Calendar, d: int, n: nat, t: int)
    requires cal.rules != [] && Tidy(cal.rules)
    ensures Cover(Flat(cal, d, n), t) == if d <= Day(cal, t) < d + n && IsOpenAt(cal, t) then 1 else 0
    decreases n
  {
    if n > 0 {
      TidyDay(cal, d, t);
      TidyFlat(cal, d + 1, n - 1, t);
      CoverAppend(WindowsOn(cal, d), Flat(cal, d + 1, n - 1), t);
    }
  }

  lemma {:induction false} AlwaysOpenCount(cal: Calendar, a: int, b: int)
    requires forall t :: a <= t < b ==> IsOpenAt(cal, t)
    ensures OpenCount(cal, a, b) == Max(0, b - a)
    decreases b - a
  {
    if a < b { AlwaysOpenCount(cal, a, b - 1); }
  }

  /** With tidy rules the windowed loop computes the measure of the point-wise test. */
  lemma TidyElapsed(cal: Calendar, from: int, to: int)
    requires Tidy(cal.rules)
    ensures Elapsed(cal, from, to) == OpenCount(cal, from, Reach(cal, from, to))
  {
    if from < to {
      if cal.rules == [] {
        AlwaysOpenCount(cal, from, to);
      } else {
        var ws := Flat(cal, Day(cal, from), SCAN_DAYS);
        ElapsedFlat(cal, Day(cal, from), SCAN_DAYS, from, to);
        forall t | from <= t < to ensures Cover(ws, t) == OpenBit(cal, Horizon(cal, from), t) {
          TidyFlat(cal, Day(cal, from), SCAN_DAYS, t);
        }
        MeasureVersusOpen(cal, ws, from, to, Horizon(cal, from));
      }
    }
  }

  /** Some day of the given weekday lies beyond every holiday. */
  lemma {:induction false} WorkingDay(holidays: set<int>, weekday: int) returns (d: int)
    requires 0 <= weekday <= 6
    ensures Weekday(d) == weekday && forall h :: h in holidays ==> h < d
  {
    if h :| h in holidays {
      var d' := WorkingDay(holidays - {h}, weekday);
      if h < d' {
        d := d';
      } else {
        d := d' + 7 * (h - d' + 1);
      }
      forall x | x in holidays ensures x < d { assert x == h || x in holidays - {h}; }
    } else {
      d := weekday + 3;
    }
  }

  /** An instant covered more often than `IsOpenAt` warrants makes the elapsed scan overcount. */
  lemma OvercountAt(cal: Calendar, from: int, t: int)
    requires cal.rules != [] && from <= t
    requires Cover(Flat(cal, Day(cal, from), SCAN_DAYS), t) > OpenBit(cal, Horizon(cal, from), t)
    ensures !ElapsedMeets(cal, from, t + 1)
  {
    var ws := Flat(cal, Day(cal, from), SCAN_DAYS);
    ElapsedFlat(cal, Day(cal, from), SCAN_DAYS, from, t + 1);
    forall u | from <= u < t + 1 ensures Cover(ws, u) >= OpenBit(cal, Horizon(cal, from), u) {
      FlatCoversAll(cal, from, u);
    }
    MeasureVersusOpen(cal, ws, from, t + 1, Horizon(cal, from));
  }

  lemma DayOfStart(cal: Calendar, d: int)
    ensures Day(cal, DayStart(cal, d)) == d
  {
  }

  /** On a working day the scan starting that day sees at least that day's windows. */
  lemma FirstDayCover(cal: Calendar, d: int, n: nat, t: int, least: nat)
    requires d !in cal.holidays && n > 0 && Cover(WindowsFrom(cal, cal.rules, d), t) >= least
    ensures Cover(Flat(cal, d, n), t) >= least
  {
    assert Flat(cal, d, n) == WindowsOn(cal, d) + Flat(cal, d + 1, n - 1);
    CoverAppend(WindowsOn(cal, d), Flat(cal, d + 1, n - 1), t);
  }

  /** An instant that two rules of a working day share is covered twice. */
  lemma SharedInstant(cal: Calendar, d: int, k: nat, l: nat, t: int)
    requires k < l < |cal.rules| && SameDay(cal.rules[k], cal.rules[l]) && cal.rules[k].day == Weekday(d)
    requires Covers(WindowFor(cal, d, cal.rules[k]), t) && Covers(WindowFor(cal, d, cal.rules[l]), t)
    ensures Cover(WindowsFrom(cal, cal.rules, d), t) >= 2
  {
    var i, j := RuleWindows(cal, cal.rules, d, k, l);
    CoverTwice(WindowsFrom(cal, cal.rules, d), t, i, j);
  }

  lemma UntidyOverlap(cal: Calendar, k: nat, l: nat) returns (from: int, to: int)
    requires k < l < |cal.rules| && SameDay(cal.rules[k], cal.rules[l])
    requires cal.rules[k].end > cal.rules[l].start && cal.rules[l].end > cal.rules[k].start
    ensures !ElapsedMeets(cal, from, to)
  {
    var d := WorkingDay(cal.holidays, cal.rules[k].day);
    from := DayStart(cal, d);
    var t := from + Max(cal.rules[k].start, cal.rules[l].start) * MINUTE_MS;
    SharedInstant(cal, d, k, l, t);
    DayOfStart(cal, d);
    FirstDayCover(cal, d, SCAN_DAYS, t, 2);
    OvercountAt(cal, from, t);
    to := t + 1;
  }

  /** A window reaching past midnight is counted on top of what the later days contribute. */
  lemma OverflowCover(cal: Calendar, d: int, n: nat, t: int)
    requires cal.rules != [] && d !in cal.holidays && n > 0
    requires DayStart(cal, d + 1) <= t && Cover(WindowsFrom(cal, cal.rules, d), t) >= 1
    ensures Cover(Flat(cal, d, n), t) > OpenBit(cal, DayStart(cal, d + n), t)
  {
    assert Flat(cal, d, n) == WindowsOn(cal, d) + Flat(cal, d + 1, n - 1);
    CoverAppend(WindowsOn(cal, d), Flat(cal, d + 1, n - 1), t);
    if t < DayStart(cal, d + n) && IsOpenAt(cal, t) {
      FlatCoversOpen(cal, d + 1, n - 1, t);
    }
  }

  lemma UntidyOverflow(cal: Calendar, k: nat) returns (from: int, to: int)
    requires k < |cal.rules| && Effective(cal.rules[k]) && cal.rules[k].end > DAY_MINUTES
    ensures !ElapsedMeets(cal, from, to)
  {
    var rule := cal.rules[k];
    var d := WorkingDay(cal.holidays, rule.day);
    from := DayStart(cal, d);
    var t := from + Max(rule.start, DAY_MINUTES) * MINUTE_MS;
    var i := RuleWindow(cal, cal.rules, d, k);
    CoverAtLeast(WindowsFrom(cal, cal.rules, d), t, i);
    DayOfStart(cal, d);
    OverflowCover(cal, d, SCAN_DAYS, t);
    OvercountAt(cal, from, t);
    to := t + 1;
  }

  /**
   The elapsed scan equals the number of open milliseconds on every interval, up to the scan
   horizon, if and only if no rule runs past midnight and no two rules of a weekday overlap.
   */
  lemma ElapsedExact(cal: Calendar)
    ensures (forall from, to :: ElapsedMeets(cal, from, to)) <==> Tidy(cal.rules)
  {
    if Tidy(cal.rules) {
      forall from, to ensures ElapsedMeets(cal, from, to) { TidyElapsed(cal, from, to); }
    } else if !InDay(cal.rules) {
      var k :| 0 <= k < |cal.rules| && Effective(cal.rules[k]) && cal.rules[k].end > DAY_MINUTES;
      var from, to := UntidyOverflow(cal, k);
    } else {
      var k, l :| 0 <= k < l < |cal.rules| && SameDay(cal.rules[k], cal.rules[l])
        && !(cal.rules[k].end <= cal.rules[l].start || cal.rules[l].end <= cal.rules[k].start);
      var from, to := UntidyOverlap(cal, k, l);
    }
  }

  // ----- the calendar itself -----

  /** 1 January 1970 was a Thursday, and weekdays are counted from Sunday. */
  ghost predicate InRule(rule: Rule, day: int, ms: int) {
    0 <= rule.day <= 6 && (day - rule.day) % 7 == 3 && rule.start * 60_000 <= ms < rule.end * 60_000
  }

  lemma LocalTime(cal: Calendar, rule: Rule, t: int)
    ensures RuleOpens(cal, rule, t) <==> InRule(rule, (t + cal.offset) / 86_400_000, (t + cal.offset) % 86_400_000)
  {
    var day := (t + cal.offset) / 86_400_000;
    assert (t + cal.offset) % 86_400_000 == t - DayStart(cal, day);
    assert Weekday(day) == rule.day <==> 0 <= rule.day <= 6 && (day - rule.day) % 7 == 3;
  }

  /**
   In terms of the clock: the business is open if and only if it has no rules, or the local day,
   counted from 1 January 1970, is no holiday and some rule for its weekday holds at the local time.
   */
  lemma OpenExact(cal: Calendar, t: int)
    ensures var day, ms := (t + cal.offset) / 86_400_000, (t + cal.offset) % 86_400_000;
      IsOpenAt(cal, t) <==>
        cal.rules == [] || (day !in cal.holidays && exists i :: 0 <= i < |cal.rules| && InRule(cal.rules[i], day, ms))
  {
    forall i | 0 <= i < |cal.rules|
      ensures RuleOpens(cal, cal.rules[i], t) <==> InRule(cal.rules[i], (t + cal.offset) / 86_400_000, (t + cal.offset) % 86_400_000)
    {
      LocalTime(cal, cal.rules[i], t);
    }
  }

  /** A rule for a whole weekday opens the business on exactly every seventh day. */
  lemma WholeDayOpens(offset: int, weekday: int, t: int)
    requires 0 <= weekday <= 6
    ensures IsOpenAt(Calendar(offset, [Rule(weekday, 0, 1_440)], {}), t) <==> ((t + offset) / 86_400_000 - weekday) % 7 == 3
  {
    var cal := Calendar(offset, [Rule(weekday, 0, 1_440)], {});
    OpenExact(cal, t);
    assert InRule(cal.rules[0], (t + offset) / 86_400_000, (t + offset) % 86_400_000) <==> ((t + offset) / 86_400_000 - weekday) % 7 == 3;
  }

  /** Every weekday from midnight to midnight. */
  ghost function AllWeek(): seq<Rule> {
    seq(7, i requires 0 <= i < 7 => Rule(i, 0, 1_440))
  }

  lemma AllWeekOpen(cal: Calendar, t: int)
    requires cal.rules == AllWeek() && cal.holidays == {}
    ensures IsOpenAt(cal, t)
  {
    OpenExact(cal, t);
    var day := (t + cal.offset) / 86_400_000;
    assert InRule(cal.rules[(day + 4) % 7], day, (t + cal.offset) % 86_400_000);
  }

  /** Open all week: elapsed time is wall-clock time, up to the end of the 800th day from the start. */
  lemma AllWeekElapsed(offset: int, from: int, to: int)
    requires from <= to
    ensures Elapsed(Calendar(offset, AllWeek(), {}), from, to)
         == Min(to, ((from + offset) / 86_400_000 + 800) * 86_400_000 - offset) - from
  {
    var cal := Calendar(offset, AllWeek(), {});
    TidyElapsed(cal, from, to);
    forall t ensures IsOpenAt(cal, t) { AllWeekOpen(cal, t); }
    AlwaysOpenCount(cal, from, Reach(cal, from, to));
  }
}
