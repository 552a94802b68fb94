/**
 `AddExact`: `addWorkingMinutes` lands where it should, for every start and every duration, if
 and only if no rule runs past midnight and the rules of each weekday are listed in order.

 The proof of necessity asks for one minute after another from the start of a day beyond all
 holidays. If every answer is right, the windows of the days that follow, in the order the scan
 visits them, must lie one behind the other and be open throughout.
 */
module AddingProofs {
  import opened BusinessHours
  import opened BusinessHoursProofs
  import opened WorkingTimeProofs

  /** The latest time of day that fits the format of two digits, a colon and two digits. */
  const LAST_MINUTE := 99 * 60 + 99

  /** Rules as they can be written in that format. */
  ghost predicate Written(rules: seq<Rule>) {
    forall i :: 0 <= i < |rules| ==> rules[i].start <= LAST_MINUTE && rules[i].end <= LAST_MINUTE
  }

  ghost predicate BeyondHolidays(cal: Calendar, d: int) {
    cal.rules != [] && forall h :: h in cal.holidays ==> h < d
  }

  // ----- the windows of a few days -----

  ghost function Total(ws: seq<Window>): int {
    if ws == [] then 0 else ws[0].end - ws[0].start + Total(ws[1..])
  }

  ghost predicate OnGrid(t: int, origin: int) {
    (t - origin) % MINUTE_MS == 0
  }

  /** Windows of whole minutes from `from` on, over before `limit`. */
  ghost predicate Within(ws: seq<Window>, from: int, limit: int) {
    forall i :: 0 <= i < |ws| ==>
      && from <= ws[i].start && ws[i].start + MINUTE_MS <= ws[i].end <= limit
      && OnGrid(ws[i].start, from) && OnGrid(ws[i].end, from)
  }

  lemma WindowBounds(cal: Calendar, d: int, k: int, j: nat)
    requires Written(cal.rules) && d <= k && j < |WindowsOn(cal, k)|
    ensures var w := WindowsOn(cal, k)[j];
      && DayStart(cal, k) <= w.start && w.start + MINUTE_MS <= w.end <= DayStart(cal, k + 5)
      && OnGrid(w.start, DayStart(cal, d)) && OnGrid(w.end, DayStart(cal, d))
  {
    var r := WindowRule(cal, cal.rules, k, j);
    GridAt(k - d, cal.rules[r].start);
    GridAt(k - d, cal.rules[r].end);
  }

  lemma GridAt(days: int, minutes: int)
    ensures (days * DAY_MS + minutes * MINUTE_MS) % MINUTE_MS == 0
  {
    assert days * DAY_MS + minutes * MINUTE_MS == (days * DAY_MINUTES + minutes) * MINUTE_MS;
  }

  lemma FlatWithin(cal: Calendar, d: int, n: nat)
    requires Written(cal.rules)
    ensures Within(Flat(cal, d, n), DayStart(cal, d), DayStart(cal, d + n + 4))
  {
    var ws := Flat(cal, d, n);
    forall i | 0 <= i < |ws|
      ensures DayStart(cal, d) <= ws[i].start && ws[i].start + MINUTE_MS <= ws[i].end <= DayStart(cal, d + n + 4)
      ensures OnGrid(ws[i].start, DayStart(cal, d)) && OnGrid(ws[i].end, DayStart(cal, d))
    {
      var k := FlatWindow(cal, d, n, i);
      var j :| 0 <= j < |WindowsOn(cal, k)| && WindowsOn(cal, k)[j] == ws[i];
      WindowBounds(cal, d, k, j);
    }
  }

  lemma Regroup(a: seq<Window>, b: seq<Window>, c: seq<Window>)
    ensures a + (b + c) == (a + b) + c
  {
  }

  lemma {:induction false} FlatSplit(cal: Calendar, d: int, n: nat, more: nat)
    ensures Flat(cal, d, n + more) == Flat(cal, d, n) + Flat(cal, d + n, more)
    decreases n
  {
    if n == 0 {
      assert Flat(cal, d, 0) == [];
    } else {
      FlatSplit(cal, d + 1, n - 1, more);
      Regroup(WindowsOn(cal, d), Flat(cal, d + 1, n - 1), Flat(cal, d + n, more));
    }
  }

  /** Asking for what the first windows hold and then some of the next one ends there. */
  lemma {:induction false} AddInto(ws: seq<Window>, k: nat, from: int, limit: int, more: int)
    requires k < |ws| && Within(ws, from, limit) && 0 < more <= ws[k].end - ws[k].start
    ensures AddOn(ws, from, Total(ws[..k]) + more) == At(ws[k].start + more)
    ensures Total(ws[..k]) >= 0
  {
    if k > 0 {
      assert ws[..k][1..] == ws[1..][..k - 1];
      AddInto(ws[1..], k - 1, from, limit, more);
    }
  }

  lemma {:induction false} TotalStep(ws: seq<Window>, k: nat)
    requires k < |ws|
    ensures Total(ws[..k + 1]) == Total(ws[..k]) + (ws[k].end - ws[k].start)
  {
    if k > 0 {
      assert ws[..k][1..] == ws[1..][..k - 1] && ws[..k + 1][1..] == ws[1..][..k];
      TotalStep(ws[1..], k - 1);
    } else {
      assert ws[..1][1..] == [];
    }
  }

  /** What the scan answers, for time that the windows of the first `n` days can supply. */
  lemma AddFromDay(cal: Calendar, d: int, n: nat, minutes: int, due: int)
    requires cal.rules != [] && n <= SCAN_DAYS && minutes > 0
    requires AddOn(Flat(cal, d, n), DayStart(cal, d), minutes * MINUTE_MS) == At(due)
    ensures Add(cal, DayStart(cal, d), minutes) == due
  {
    DayOfStart(cal, d);
    AddFlat(cal, d, SCAN_DAYS, DayStart(cal, d), minutes * MINUTE_MS);
    FlatSplit(cal, d, n, SCAN_DAYS - n);
    AddOnAppend(Flat(cal, d, n), Flat(cal, d + n, SCAN_DAYS - n), DayStart(cal, d), minutes * MINUTE_MS);
  }

  // ----- open time comes back every week -----

  const FOUR_WEEKS_MS := 28 * DAY_MS

  lemma WeeksLater(cal: Calendar, d: int, t: int)
    requires BeyondHolidays(cal, d) && DayStart(cal, d) <= t && IsOpenAt(cal, t)
    ensures IsOpenAt(cal, t + FOUR_WEEKS_MS)
  {
    var i :| 0 <= i < |cal.rules| && RuleOpens(cal, cal.rules[i], t);
    var later := t + FOUR_WEEKS_MS;
    assert Day(cal, later) == Day(cal, t) + 28;
    assert Weekday(Day(cal, later)) == Weekday(Day(cal, t));
    assert RuleOpens(cal, cal.rules[i], later);
  }

  /** An open instant lies in an open minute of its day. */
  lemma OpenMinute(cal: Calendar, t: int) returns (m: int)
    requires cal.rules != [] && IsOpenAt(cal, t)
    ensures DayStart(cal, Day(cal, t)) <= m <= t < m + MINUTE_MS
    ensures forall u :: m <= u < m + MINUTE_MS ==> IsOpenAt(cal, u)
  {
    var i :| 0 <= i < |cal.rules| && RuleOpens(cal, cal.rules[i], t);
    var day := Day(cal, t);
    var past := (t - DayStart(cal, day)) / MINUTE_MS;
    m := DayStart(cal, day) + past * MINUTE_MS;
    forall u | m <= u < m + MINUTE_MS ensures IsOpenAt(cal, u) {
      assert 0 <= past < DAY_MINUTES && cal.rules[i].start <= past < cal.rules[i].end;
      assert Day(cal, u) == day;
      assert RuleOpens(cal, cal.rules[i], u);
    }
  }

  lemma {:induction false} SomeOpen(cal: Calendar, a: int, b: int) returns (t: int)
    requires OpenCount(cal, a, b) > 0
    ensures a <= t < b && IsOpenAt(cal, t)
    decreases b - a
  {
    if IsOpenAt(cal, b - 1) {
      t := b - 1;
    } else {
      t := SomeOpen(cal, a, b - 1);
    }
  }

  /** Something open within three weeks comes back after them. */
  lemma MinuteAfter(cal: Calendar, d: int, x: int) returns (later: int)
    requires BeyondHolidays(cal, d) && x <= DayStart(cal, d + 21) && OpenCount(cal, DayStart(cal, d), x) > 0
    ensures x <= later && later + MINUTE_MS <= DayStart(cal, d + SCAN_DAYS)
    ensures forall u :: later <= u < later + MINUTE_MS ==> IsOpenAt(cal, u)
  {
    var t := SomeOpen(cal, DayStart(cal, d), x);
    var m := OpenMinute(cal, t);
    MinuteNotBefore(cal, d, t, m);
    later := m + FOUR_WEEKS_MS;
    forall u | later <= u < later + MINUTE_MS ensures IsOpenAt(cal, u) { WeeksLater(cal, d, u - FOUR_WEEKS_MS); }
  }

  lemma MinuteNotBefore(cal: Calendar, d: int, t: int, m: int)
    requires DayStart(cal, d) <= t && DayStart(cal, Day(cal, t)) <= m
    ensures DayStart(cal, d) <= m
  {
    assert d <= Day(cal, t);
  }

  /** Whatever is open within three weeks, the scan holds a minute more. */
  lemma MinuteMore(cal: Calendar, d: int, x: int)
    requires BeyondHolidays(cal, d) && x <= DayStart(cal, d + 21) && OpenCount(cal, DayStart(cal, d), x) > 0
    ensures Available(cal, DayStart(cal, d), OpenCount(cal, DayStart(cal, d), x) + MINUTE_MS)
  {
    var from := DayStart(cal, d);
    var later := MinuteAfter(cal, d, x);
    OpenRun(cal, later, later + MINUTE_MS);
    DayOfStart(cal, d);
    OpenCountMonotone(cal, from, x, later);
    OpenCountSplit(cal, from, later, later + MINUTE_MS);
    OpenCountMonotone(cal, from, later + MINUTE_MS, Horizon(cal, from));
  }

  // ----- one minute after another -----

  /** The first `k` windows lie one behind the other, and hold all the open time up to their end. */
  ghost predicate Filled(cal: Calendar, d: int, ws: seq<Window>, k: nat) {
    && k <= |ws| && Chained(ws[..k])
    && (k > 0 ==> OpenCount(cal, DayStart(cal, d), ws[k - 1].end) == Total(ws[..k]))
  }

  ghost predicate Setting(cal: Calendar, d: int, n: nat) {
    AddAlwaysMeets(cal) && Written(cal.rules) && BeyondHolidays(cal, d) && n <= 9
  }

  lemma {:induction false} TotalOnGrid(ws: seq<Window>, from: int, limit: int)
    requires Within(ws, from, limit)
    ensures Total(ws) >= 0 && Total(ws) % MINUTE_MS == 0
    ensures ws != [] ==> Total(ws) > 0
  {
    if ws != [] { TotalOnGrid(ws[1..], from, limit); }
  }

  lemma WholeMinutes(total: int) returns (minutes: int)
    requires total % MINUTE_MS == 0
    ensures minutes * MINUTE_MS == total
  {
    minutes := total / MINUTE_MS;
  }

  /** The answer to a request that ends inside the k-th window, if it can be met. */
  lemma DueInside(cal: Calendar, d: int, n: nat, k: nat, i: int)
    requires Setting(cal, d, n) && k < |Flat(cal, d, n)|
    requires var w := Flat(cal, d, n)[k]; 0 < i * MINUTE_MS <= w.end - w.start
    requires Available(cal, DayStart(cal, d), Total(Flat(cal, d, n)[..k]) + i * MINUTE_MS)
    ensures IsDue(cal, DayStart(cal, d), Total(Flat(cal, d, n)[..k]) + i * MINUTE_MS, Flat(cal, d, n)[k].start + i * MINUTE_MS)
  {
    var ws, from := Flat(cal, d, n), DayStart(cal, d);
    FlatWithin(cal, d, n);
    assert Within(ws[..k], from, DayStart(cal, d + n + 4));
    TotalOnGrid(ws[..k], from, DayStart(cal, d + n + 4));
    var before := WholeMinutes(Total(ws[..k]));
    AddInto(ws, k, from, DayStart(cal, d + n + 4), i * MINUTE_MS);
    var minutes := before + i;
    assert minutes * MINUTE_MS == Total(ws[..k]) + i * MINUTE_MS;
    AddFromDay(cal, d, n, minutes, ws[k].start + i * MINUTE_MS);
    assert AddMeets(cal, from, minutes);
  }

  /** The first minute of a window can be met: some open minute follows what came before it. */
  lemma FirstMinute(cal: Calendar, d: int, n: nat, k: nat)
    requires Setting(cal, d, n) && k < |Flat(cal, d, n)| && Filled(cal, d, Flat(cal, d, n), k)
    ensures Available(cal, DayStart(cal, d), Total(Flat(cal, d, n)[..k]) + MINUTE_MS)
  {
    if k == 0 {
      VeryFirstMinute(cal, d, n);
    } else {
      var ws, from := Flat(cal, d, n), DayStart(cal, d);
      FlatWithin(cal, d, n);
      assert Within(ws[..k], from, DayStart(cal, d + n + 4));
      TotalOnGrid(ws[..k], from, DayStart(cal, d + n + 4));
      MinuteMore(cal, d, ws[k - 1].end);
    }
  }

  /** For the first window of all: if nothing could be met, it would have to start with the day, and be open. */
  lemma VeryFirstMinute(cal: Calendar, d: int, n: nat)
    requires Setting(cal, d, n) && Flat(cal, d, n) != []
    ensures Available(cal, DayStart(cal, d), MINUTE_MS)
  {
    var ws, from := Flat(cal, d, n), DayStart(cal, d);
    if !Available(cal, from, MINUTE_MS) {
      FlatWithin(cal, d, n);
      AddInto(ws, 0, from, DayStart(cal, d + n + 4), MINUTE_MS);
      AddFromDay(cal, d, n, 1, ws[0].start + MINUTE_MS);
      assert AddMeets(cal, from, 1);
      StartsOpen(cal, d, n);
      OpenRun(cal, from, from + MINUTE_MS);
      DayOfStart(cal, d);
      OpenCountMonotone(cal, from, from + MINUTE_MS, Horizon(cal, from));
    }
  }

  /** A window that starts with the day is open. */
  lemma StartsOpen(cal: Calendar, d: int, n: nat)
    requires Written(cal.rules) && BeyondHolidays(cal, d) && Flat(cal, d, n) != [] && Flat(cal, d, n)[0].start == DayStart(cal, d)
    ensures forall t :: DayStart(cal, d) <= t < DayStart(cal, d) + MINUTE_MS ==> IsOpenAt(cal, t)
  {
    var k := FlatWindow(cal, d, n, 0);
    var j :| 0 <= j < |WindowsOn(cal, k)| && WindowsOn(cal, k)[j] == Flat(cal, d, n)[0];
    WindowBounds(cal, d, k, j);
    var r := WindowRule(cal, cal.rules, k, j);
    forall t | DayStart(cal, d) <= t < DayStart(cal, d) + MINUTE_MS ensures IsOpenAt(cal, t) {
      assert Day(cal, t) == d && k == d;
      assert RuleOpens(cal, cal.rules[r], t);
    }
  }

  /** And so can every further minute. */
  lemma {:induction false} EachMinute(cal: Calendar, d: int, n: nat, k: nat, i: nat)
    requires Setting(cal, d, n) && k < |Flat(cal, d, n)| && Filled(cal, d, Flat(cal, d, n), k)
    requires var w := Flat(cal, d, n)[k]; 0 < i * MINUTE_MS <= w.end - w.start
    ensures IsDue(cal, DayStart(cal, d), Total(Flat(cal, d, n)[..k]) + i * MINUTE_MS, Flat(cal, d, n)[k].start + i * MINUTE_MS)
    decreases i
  {
    var ws, from := Flat(cal, d, n), DayStart(cal, d);
    if i == 1 {
      FirstMinute(cal, d, n, k);
    } else {
      EachMinute(cal, d, n, k, i - 1);
      FlatWithin(cal, d, n);
      assert Within(ws[..k], from, DayStart(cal, d + n + 4));
      TotalOnGrid(ws[..k], from, DayStart(cal, d + n + 4));
      MinuteMore(cal, d, ws[k].start + (i - 1) * MINUTE_MS);
    }
    DueInside(cal, d, n, k, i);
  }

  /** So the whole window is due where it ends. */
  lemma WindowDue(cal: Calendar, d: int, n: nat, k: nat)
    requires Setting(cal, d, n) && k < |Flat(cal, d, n)| && Filled(cal, d, Flat(cal, d, n), k)
    ensures IsDue(cal, DayStart(cal, d), Total(Flat(cal, d, n)[..k + 1]), Flat(cal, d, n)[k].end)
  {
    FlatWithin(cal, d, n);
    var i := WindowMinutes(Flat(cal, d, n)[k], DayStart(cal, d));
    EachMinute(cal, d, n, k, i);
    TotalStep(Flat(cal, d, n), k);
  }

  /** And it starts behind the one before. */
  lemma WindowBehind(cal: Calendar, d: int, n: nat, k: nat)
    requires Setting(cal, d, n) && 0 < k < |Flat(cal, d, n)| && Filled(cal, d, Flat(cal, d, n), k)
    ensures Flat(cal, d, n)[k - 1].end <= Flat(cal, d, n)[k].start
  {
    var ws, from := Flat(cal, d, n), DayStart(cal, d);
    FlatWithin(cal, d, n);
    EachMinute(cal, d, n, k, 1);
    if ws[k].start + MINUTE_MS <= ws[k - 1].end {
      OpenCountMonotone(cal, from, ws[k].start + MINUTE_MS, ws[k - 1].end);
    }
    GridOrder(ws[k - 1].end, ws[k].start, from);
  }

  lemma WindowMinutes(w: Window, from: int) returns (minutes: nat)
    requires w.start + MINUTE_MS <= w.end && OnGrid(w.start, from) && OnGrid(w.end, from)
    ensures minutes > 0 && minutes * MINUTE_MS == w.end - w.start
  {
    minutes := (w.end - w.start) / MINUTE_MS;
  }

  lemma GridOrder(x: int, y: int, origin: int)
    requires OnGrid(x, origin) && OnGrid(y, origin) && x < y + MINUTE_MS
    ensures x <= y
  {
    var a, b := (x - origin) / MINUTE_MS, (y - origin) / MINUTE_MS;
    assert x - origin == a * MINUTE_MS && y - origin == b * MINUTE_MS;
  }

  lemma NextChained(ws: seq<Window>, k: nat)
    requires k < |ws| && Chained(ws[..k]) && ws[k].start < ws[k].end && (k > 0 ==> ws[k - 1].end <= ws[k].start)
    ensures Chained(ws[..k + 1])
  {
    forall i, j | 0 <= i < j < k + 1 ensures ws[i].end <= ws[j].start {
      if j < k {
        assert ws[i] == ws[..k][i] && ws[j] == ws[..k][j];
      } else if i < k - 1 {
        assert ws[i] == ws[..k][i] && ws[k - 1] == ws[..k][k - 1];
      }
    }
    forall i | 0 <= i < k ensures ws[i].start < ws[i].end { assert ws[i] == ws[..k][i]; }
  }

  lemma NextFilled(cal: Calendar, d: int, n: nat, k: nat)
    requires Setting(cal, d, n) && k < |Flat(cal, d, n)| && Filled(cal, d, Flat(cal, d, n), k)
    ensures Filled(cal, d, Flat(cal, d, n), k + 1)
  {
    FlatWithin(cal, d, n);
    WindowDue(cal, d, n, k);
    if k > 0 { WindowBehind(cal, d, n, k); }
    NextChained(Flat(cal, d, n), k);
  }

  lemma {:induction false} AllFilled(cal: Calendar, d: int, n: nat, k: nat)
    requires Setting(cal, d, n) && k <= |Flat(cal, d, n)|
    ensures Filled(cal, d, Flat(cal, d, n), k)
  {
    if k > 0 {
      AllFilled(cal, d, n, k - 1);
      NextFilled(cal, d, n, k - 1);
    }
  }

  // ----- what that says about the rules -----

  lemma ListChained(cal: Calendar, d: int, n: nat)
    requires Setting(cal, d, n)
    ensures Chained(Flat(cal, d, n))
  {
    AllFilled(cal, d, n, |Flat(cal, d, n)|);
    assert Flat(cal, d, n)[..|Flat(cal, d, n)|] == Flat(cal, d, n);
  }

  /** A window that is due where it ends cannot end on a later day: a window of that day would lie across it. */
  lemma EndsInDay(cal: Calendar, d: int, i: nat)
    requires Setting(cal, d, 6) && i < |WindowsOn(cal, d)|
    ensures WindowsOn(cal, d)[i].end <= DayStart(cal, d + 1)
  {
    var ws, today := Flat(cal, d, 6), WindowsOn(cal, d);
    assert ws[i] == today[i];
    AllFilled(cal, d, 6, i);
    WindowDue(cal, d, 6, i);
    WindowBounds(cal, d, d, i);
    var t := ws[i].end - 1;
    if ws[i].end > DayStart(cal, d + 1) {
      LastInstantOpen(cal, DayStart(cal, d), Total(ws[..i + 1]), ws[i].end);
      var j := CoveringWindow(cal, d, t);
      ListChained(cal, d, 6);
    }
  }

  lemma LastInstantOpen(cal: Calendar, from: int, need: int, due: int)
    requires from < due && IsDue(cal, from, need, due)
    ensures IsOpenAt(cal, due - 1)
  {
    assert OpenCount(cal, from, due - 1) < need;
  }

  /** An open instant of one of the next days is covered by a window listed after today's. */
  lemma CoveringWindow(cal: Calendar, d: int, t: int) returns (j: nat)
    requires BeyondHolidays(cal, d) && DayStart(cal, d + 1) <= t < DayStart(cal, d + 6) && IsOpenAt(cal, t)
    ensures |WindowsOn(cal, d)| <= j < |Flat(cal, d, 6)| && Covers(Flat(cal, d, 6)[j], t)
  {
    var r :| 0 <= r < |cal.rules| && RuleOpens(cal, cal.rules[r], t);
    var i := RuleWindow(cal, cal.rules, Day(cal, t), r);
    var k := FlatIndex(cal, d + 1, 5, Day(cal, t), i);
    j := |WindowsOn(cal, d)| + k;
  }

  lemma AddForcesInDay(cal: Calendar)
    requires AddAlwaysMeets(cal) && Written(cal.rules)
    ensures InDay(cal.rules)
  {
    forall r | 0 <= r < |cal.rules| && Effective(cal.rules[r]) ensures cal.rules[r].end <= DAY_MINUTES {
      var d := WorkingDay(cal.holidays, cal.rules[r].day);
      var i := RuleWindow(cal, cal.rules, d, r);
      EndsInDay(cal, d, i);
    }
  }

  lemma AddForcesOrder(cal: Calendar)
    requires AddAlwaysMeets(cal) && Written(cal.rules)
    ensures Ordered(cal.rules)
  {
    forall k, l | 0 <= k < l < |cal.rules| && SameDay(cal.rules[k], cal.rules[l]) ensures cal.rules[k].end <= cal.rules[l].start {
      var d := WorkingDay(cal.holidays, cal.rules[k].day);
      var i, j := RuleWindows(cal, cal.rules, d, k, l);
      var ws := Flat(cal, d, 1);
      assert Flat(cal, d + 1, 0) == [] && ws == WindowsOn(cal, d);
      ListChained(cal, d, 1);
      assert ws[i].end <= ws[j].start;
    }
  }

  /**
   Adding meets its promise for every start and every positive duration if and only if no rule
   runs past midnight and the rules of each weekday are listed in order, none overlapping.
   */
  lemma AddExact(cal: Calendar)
    requires Written(cal.rules)
    ensures AddAlwaysMeets(cal) <==> InDay(cal.rules) && Ordered(cal.rules)
  {
    if AddAlwaysMeets(cal) {
      AddForcesInDay(cal);
      AddForcesOrder(cal);
    } else if InDay(cal.rules) && Ordered(cal.rules) {
      forall from, minutes | minutes > 0 ensures AddMeets(cal, from, minutes) { OrderedAdd(cal, from, minutes); }
    }
  }
}
