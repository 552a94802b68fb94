/**
 Working time is additive, and adding inverts measuring.

 `OrderedAdd`: with ordered rules inside the day, `addWorkingMinutes` lands on the least instant
 with the requested open time behind it, for every start and duration; `AddExact` in
 `AddingProofs` shows that nothing less will do.
 */
module WorkingTimeProofs {
  import opened Integers
  import opened BusinessHours
  import opened BusinessHoursProofs

  // ----- the measure is additive and monotone -----

  lemma {:induction false} OpenCountSplit(cal: Calendar, a: int, b: int, c: int)
    requires a <= b <= c
    ensures OpenCount(cal, a, c) == OpenCount(cal, a, b) + OpenCount(cal, b, c)
    decreases c - b
  {
    if b < c { OpenCountSplit(cal, a, b, c - 1); }
  }

  lemma OpenCountMonotone(cal: Calendar, a: int, b: int, c: int)
    requires b <= c
    ensures OpenCount(cal, a, b) <= OpenCount(cal, a, c)
  {
    if a <= b { OpenCountSplit(cal, a, b, c); }
  }

  lemma {:induction false} OpenRun(cal: Calendar, a: int, b: int)
    requires a <= b && forall t :: a <= t < b ==> IsOpenAt(cal, t)
    ensures OpenCount(cal, a, b) == b - a
    decreases b - a
  {
    if a < b { OpenRun(cal, a, b - 1); }
  }

  lemma HorizonMonotone(cal: Calendar, a: int, b: int)
    requires a <= b
    ensures Horizon(cal, a) <= Horizon(cal, b)
  {
  }

  lemma ElapsedWithin(cal: Calendar, origin: int, from: int, to: int)
    requires Tidy(cal.rules) && origin <= from && (cal.rules == [] || to <= Horizon(cal, origin))
    ensures Elapsed(cal, from, to) == OpenCount(cal, from, to)
  {
    TidyElapsed(cal, from, to);
    HorizonMonotone(cal, origin, from);
  }

  /** Working time is additive within the reach of the first scan. */
  lemma ElapsedAdditive(cal: Calendar, a: int, b: int, c: int)
    requires Tidy(cal.rules) && a <= b <= c && (cal.rules == [] || c <= Horizon(cal, a))
    ensures Elapsed(cal, a, b) + Elapsed(cal, b, c) == Elapsed(cal, a, c)
  {
    ElapsedWithin(cal, a, a, b);
    ElapsedWithin(cal, a, b, c);
    ElapsedWithin(cal, a, a, c);
    OpenCountSplit(cal, a, b, c);
  }

  // ----- adding over a window list -----

  lemma {:induction false} AddOnAppend(ws: seq<Window>, vs: seq<Window>, from: int, remaining: int)
    ensures AddOn(ws + vs, from, remaining) ==
      match AddOn(ws, from, remaining) case At(t) => At(t) case Remaining(r) => AddOn(vs, from, r)
  {
    if ws == [] {
      assert ws + vs == vs;
    } else {
      assert (ws + vs)[1..] == ws[1..] + vs;
      var begin := Max(ws[0].start, from);
      if begin >= ws[0].end {
        AddOnAppend(ws[1..], vs, from, remaining);
      } else {
        AddOnAppend(ws[1..], vs, from, remaining - (ws[0].end - begin));
      }
    }
  }

  lemma {:induction false} AddFlat(cal: Calendar, d: int, n: nat, from: int, remaining: int)
    ensures AddScan(cal, d, n, from, remaining) == AddOn(Flat(cal, d, n), from, remaining)
    decreases n
  {
    if n > 0 {
      AddOnAppend(WindowsOn(cal, d), Flat(cal, d + 1, n - 1), from, remaining);
      match AddOn(WindowsOn(cal, d), from, remaining) {
        case At(_) =>
        case Remaining(r) => AddFlat(cal, d + 1, n - 1, from, r);
      }
    }
  }

  /** Adding stops where the measure first reaches the amount asked for, or reports what is missing. */
  ghost predicate Meaning(ws: seq<Window>, from: int, remaining: int, limit: int) {
    match AddOn(ws, from, remaining)
    case At(t) => from < t <= limit && Measure(ws, from, t) == remaining && Cover(ws, t - 1) >= 1
    case Remaining(r) => r > 0 && Measure(ws, from, limit) == remaining - r
  }

  lemma {:induction false} AddOnMeaning(ws: seq<Window>, from: int, remaining: int, limit: int)
    requires Chained(ws) && remaining > 0 && forall i :: 0 <= i < |ws| ==> ws[i].end <= limit
    ensures Meaning(ws, from, remaining, limit)
  {
    if ws != [] {
      var w, rest := ws[0], ws[1..];
      assert Chained(rest);
      var begin := Max(w.start, from);
      if begin >= w.end {
        AddOnMeaning(rest, from, remaining, limit);
      } else if w.end - begin >= remaining {
        MeasureEmpty(rest, from, begin + remaining);
      } else {
        AddOnMeaning(rest, from, remaining - (w.end - begin), limit);
        FirstUsedUp(ws, from, remaining, limit);
      }
    }
  }

  /** A first window that does not suffice contributes all it has. */
  lemma FirstUsedUp(ws: seq<Window>, from: int, remaining: int, limit: int)
    requires Chained(ws) && ws != [] && ws[0].end <= limit
    requires var open := ws[0].end - Max(ws[0].start, from); 0 < open < remaining && Meaning(ws[1..], from, remaining - open, limit)
    ensures Meaning(ws, from, remaining, limit)
  {
    match AddOn(ws, from, remaining) {
      case At(t) =>
        var i := CoverSome(ws[1..], t - 1);
        assert ws[1..][i] == ws[i + 1];
      case Remaining(_) =>
    }
  }

  lemma OrderedDay(cal: Calendar, d: int)
    requires InDay(cal.rules) && Ordered(cal.rules)
    ensures Chained(WindowsOn(cal, d))
    ensures forall i :: 0 <= i < |WindowsOn(cal, d)| ==>
      DayStart(cal, d) <= WindowsOn(cal, d)[i].start && WindowsOn(cal, d)[i].end <= DayStart(cal, d + 1)
  {
    var ws := WindowsOn(cal, d);
    forall i | 0 <= i < |ws|
      ensures DayStart(cal, d) <= ws[i].start < ws[i].end <= DayStart(cal, d + 1)
    {
      var k := WindowRule(cal, cal.rules, d, i);
    }
    forall i, j | 0 <= i < j < |ws| ensures ws[i].end <= ws[j].start {
      var k, l := WindowRules(cal, cal.rules, d, i, j);
    }
  }

  lemma ChainAppend(ws: seq<Window>, vs: seq<Window>, a: int, b: int, c: int)
    requires Chained(ws) && Chained(vs) && a <= b <= c
    requires forall i :: 0 <= i < |ws| ==> a <= ws[i].start && ws[i].end <= b
    requires forall i :: 0 <= i < |vs| ==> b <= vs[i].start && vs[i].end <= c
    ensures Chained(ws + vs)
    ensures forall i :: 0 <= i < |ws + vs| ==> a <= (ws + vs)[i].start && (ws + vs)[i].end <= c
  {
  }

  lemma {:induction false} OrderedFlat(cal: Calendar, d: int, n: nat)
    requires InDay(cal.rules) && Ordered(cal.rules)
    ensures Chained(Flat(cal, d, n))
    ensures forall i :: 0 <= i < |Flat(cal, d, n)| ==>
      DayStart(cal, d) <= Flat(cal, d, n)[i].start && Flat(cal, d, n)[i].end <= DayStart(cal, d + n)
    decreases n
  {
    if n > 0 {
      OrderedDay(cal, d);
      OrderedFlat(cal, d + 1, n - 1);
      ChainAppend(WindowsOn(cal, d), Flat(cal, d + 1, n - 1), DayStart(cal, d), DayStart(cal, d + 1), DayStart(cal, d + n));
    }
  }

  // ----- what adding promises -----

  /** Whether the scan from `from` contains `need` milliseconds of open time. */
  ghost predicate Available(cal: Calendar, from: int, need: int) {
    cal.rules == [] || OpenCount(cal, from, Horizon(cal, from)) >= need
  }

  /** `due` is the least instant with `need` milliseconds of open time since `from`. */
  ghost predicate IsDue(cal: Calendar, from: int, need: int, due: int) {
    OpenCount(cal, from, due) == need && forall t :: t < due ==> OpenCount(cal, from, t) < need
  }

  /** The least such instant when there is one in the scan, wall-clock time when there is none. */
  ghost predicate AddMeets(cal: Calendar, from: int, minutes: int) {
    var need := minutes * MINUTE_MS;
    if Available(cal, from, need) then IsDue(cal, from, need, Add(cal, from, minutes))
    else Add(cal, from, minutes) == from + need
  }

  ghost predicate AddAlwaysMeets(cal: Calendar) {
    forall from, minutes :: minutes > 0 ==> AddMeets(cal, from, minutes)
  }

  lemma LastOpenIsDue(cal: Calendar, from: int, need: int, due: int)
    requires from < due && OpenCount(cal, from, due) == need && IsOpenAt(cal, due - 1)
    ensures IsDue(cal, from, need, due)
  {
    forall t | t < due ensures OpenCount(cal, from, t) < need {
      OpenCountMonotone(cal, from, t, due - 1);
    }
  }

  lemma OrderedAdd(cal: Calendar, from: int, minutes: int)
    requires InDay(cal.rules) && Ordered(cal.rules) && minutes > 0
    ensures AddMeets(cal, from, minutes)
  {
    var need := minutes * MINUTE_MS;
    if cal.rules == [] {
      AlwaysOpenCount(cal, from, from + need);
      LastOpenIsDue(cal, from, need, from + need);
    } else {
      AddOverOrdered(cal, from, need, Day(cal, from), SCAN_DAYS, Horizon(cal, from));
    }
  }

  lemma AddOverOrdered(cal: Calendar, from: int, need: int, d: int, n: nat, horizon: int)
    requires cal.rules != [] && InDay(cal.rules) && Ordered(cal.rules) && need > 0
    requires d == Day(cal, from) && horizon == DayStart(cal, d + n)
    ensures match AddScan(cal, d, n, from, need)
      case At(t) => IsDue(cal, from, need, t) && OpenCount(cal, from, horizon) >= need
      case Remaining(_) => OpenCount(cal, from, horizon) < need
  {
    var ws := Flat(cal, d, n);
    AddFlat(cal, d, n, from, need);
    OrderedFlat(cal, d, n);
    AddOnMeaning(ws, from, need, horizon);
    forall t | from <= t ensures Cover(ws, t) == OpenBit(cal, horizon, t) { TidyFlat(cal, d, n, t); }
    match AddOn(ws, from, need) {
      case At(t) =>
        MeasureVersusOpen(cal, ws, from, t, horizon);
        OpenCountMonotone(cal, from, t, horizon);
        LastOpenIsDue(cal, from, need, t);
      case Remaining(_) =>
        MeasureVersusOpen(cal, ws, from, horizon, horizon);
    }
  }

  /** Measuring the time that was added gives it back. */
  lemma AddThenElapsed(cal: Calendar, from: int, minutes: int)
    requires InDay(cal.rules) && Ordered(cal.rules) && minutes > 0
    requires Available(cal, from, minutes * MINUTE_MS)
    ensures Elapsed(cal, from, Add(cal, from, minutes)) == minutes * MINUTE_MS
  {
    var need, due := minutes * MINUTE_MS, Add(cal, from, minutes);
    OrderedAdd(cal, from, minutes);
    TidyElapsed(cal, from, due);
    if cal.rules != [] && due > Horizon(cal, from) {
      OpenCountMonotone(cal, from, Horizon(cal, from), due);
    }
  }

  lemma AddIsDue(cal: Calendar, from: int, minutes: int)
    requires InDay(cal.rules) && Ordered(cal.rules) && minutes > 0
    requires Available(cal, from, minutes * MINUTE_MS)
    ensures IsDue(cal, from, minutes * MINUTE_MS, Add(cal, from, minutes))
  {
    OrderedAdd(cal, from, minutes);
  }

  lemma DueOrder(cal: Calendar, from: int, need1: int, need2: int, x: int, y: int)
    requires IsDue(cal, from, need1, x) && IsDue(cal, from, need2, y)
    ensures need1 < need2 ==> x < y
    ensures need1 == need2 ==> x == y
  {
    assert x < y ==> OpenCount(cal, from, x) < need2;
    assert y < x ==> OpenCount(cal, from, y) < need1;
  }

  lemma DueChain(cal: Calendar, from: int, need1: int, mid: int, need2: int, end: int)
    requires need1 > 0 && need2 > 0 && IsDue(cal, from, need1, mid) && IsDue(cal, mid, need2, end)
    ensures IsDue(cal, from, need1 + need2, end)
  {
    OpenCountSplit(cal, from, mid, end);
    forall t | t < end ensures OpenCount(cal, from, t) < need1 + need2 {
      if t < mid {
        OpenCountMonotone(cal, from, t, mid);
      } else {
        OpenCountSplit(cal, from, mid, t);
      }
    }
  }

  /** What is left of the open time is still in the scan that starts where the first one ended. */
  lemma StillAvailable(cal: Calendar, from: int, need1: int, mid: int, need2: int)
    requires cal.rules != [] && need1 > 0 && IsDue(cal, from, need1, mid)
    requires need2 > 0 && Available(cal, from, need1 + need2)
    ensures Available(cal, mid, need2)
  {
    var horizon := Horizon(cal, from);
    assert horizon < mid ==> OpenCount(cal, from, horizon) < need1;
    OpenCountSplit(cal, from, mid, horizon);
    HorizonMonotone(cal, from, mid);
    OpenCountMonotone(cal, mid, horizon, Horizon(cal, mid));
  }

  /** Adding m minutes and then n minutes is adding m + n minutes. */
  lemma AddComposes(cal: Calendar, from: int, m: nat, n: nat)
    requires InDay(cal.rules) && Ordered(cal.rules) && Available(cal, from, (m + n) * MINUTE_MS)
    ensures Add(cal, Add(cal, from, m), n) == Add(cal, from, m + n)
  {
    if m > 0 && n > 0 && cal.rules != [] {
      var mid := Add(cal, from, m);
      AddIsDue(cal, from, m);
      StillAvailable(cal, from, m * MINUTE_MS, mid, n * MINUTE_MS);
      AddIsDue(cal, mid, n);
      DueChain(cal, from, m * MINUTE_MS, mid, n * MINUTE_MS, Add(cal, mid, n));
      AddIsDue(cal, from, m + n);
      DueOrder(cal, from, (m + n) * MINUTE_MS, (m + n) * MINUTE_MS, Add(cal, mid, n), Add(cal, from, m + n));
    }
  }
}
