/**
 What `nextOpening` finds. It takes the first listed window that starts at or after its input;
 `NextOpeningExact` says when that is the earliest open instant, and `NextOpeningByDay` what it
 means for the order in which rules are listed.
 */
module OpeningProofs {
  import opened BusinessHours
  import opened BusinessHoursProofs

  ghost predicate OpensBefore(cal: Calendar, from: int, limit: int) {
    exists t :: from <= t < limit && IsOpenAt(cal, t)
  }

  ghost predicate EarliestOpening(cal: Calendar, from: int, opening: int) {
    from <= opening && IsOpenAt(cal, opening) && forall t :: from <= t < opening ==> !IsOpenAt(cal, t)
  }

  /** The earliest open instant, or the input if it is open or nothing opens in the scan. */
  ghost predicate OpeningMeets(cal: Calendar, from: int) {
    if OpensBefore(cal, from, Horizon(cal, from)) then EarliestOpening(cal, from, NextOpeningAt(cal, from))
    else NextOpeningAt(cal, from) == from
  }

  // ----- the scan over the flat list -----

  lemma {:induction false} FirstStartAppend(ws: seq<Window>, vs: seq<Window>, from: int)
    ensures FirstStart(ws + vs, from) == if FirstStart(ws, from).Opens? then FirstStart(ws, from) else FirstStart(vs, from)
  {
    if ws == [] {
      assert ws + vs == vs;
    } else {
      assert (ws + vs)[1..] == ws[1..] + vs;
      FirstStartAppend(ws[1..], vs, from);
    }
  }

  lemma {:induction false} OpeningFlat(cal: Calendar, d: int, n: nat, from: int)
    ensures OpeningScan(cal, d, n, from) == FirstStart(Flat(cal, d, n), from)
    decreases n
  {
    if n > 0 {
      FirstStartAppend(WindowsOn(cal, d), Flat(cal, d + 1, n - 1), from);
      OpeningFlat(cal, d + 1, n - 1, from);
    }
  }

  lemma {:induction false} FirstStartNone(ws: seq<Window>, from: int)
    requires forall i :: 0 <= i < |ws| ==> ws[i].start < from
    ensures FirstStart(ws, from) == NeverOpens
  {
    if ws != [] { FirstStartNone(ws[1..], from); }
  }

  lemma {:induction false} FirstListed(ws: seq<Window>, j: nat, from: int) returns (i: nat)
    requires j < |ws| && ws[j].start >= from
    ensures i <= j && ws[i].start >= from && FirstStart(ws, from) == Opens(ws[i].start)
    ensures forall h :: 0 <= h < i ==> ws[h].start < from
  {
    if ws[0].start >= from {
      i := 0;
    } else {
      var k := FirstListed(ws[1..], j - 1, from);
      i := k + 1;
    }
  }

  /** The first open instant after closed time is where a window of its day starts. */
  lemma EarliestIsStart(cal: Calendar, t: int) returns (j: nat)
    requires cal.rules != [] && IsOpenAt(cal, t) && !IsOpenAt(cal, t - 1)
    ensures j < |WindowsOn(cal, Day(cal, t))| && WindowsOn(cal, Day(cal, t))[j].start == t
  {
    var r :| 0 <= r < |cal.rules| && RuleOpens(cal, cal.rules[r], t);
    j := RuleWindow(cal, cal.rules, Day(cal, t), r);
    assert WindowsOn(cal, Day(cal, t))[j] == WindowFor(cal, Day(cal, t), cal.rules[r]);
    assert WindowsOn(cal, Day(cal, t))[j].start < t ==> RuleOpens(cal, cal.rules[r], t - 1);
  }

  lemma {:induction false} LeastOpening(cal: Calendar, from: int, t: int) returns (first: int)
    requires from <= t && IsOpenAt(cal, t)
    ensures first <= t && EarliestOpening(cal, from, first)
    decreases t - from
  {
    if u :| from <= u < t && IsOpenAt(cal, u) {
      first := LeastOpening(cal, from, u);
    } else {
      first := t;
    }
  }

  // ----- when it finds the earliest opening -----

  /** The windows of the scan, in the order it visits them. */
  ghost function Listed(cal: Calendar, from: int): seq<Window> {
    Flat(cal, Day(cal, from), SCAN_DAYS)
  }

  /** The first window listed that starts at or after `from`. */
  ghost predicate IsFirstFrom(ws: seq<Window>, i: nat, from: int) {
    i < |ws| && ws[i].start >= from && forall h :: 0 <= h < i ==> ws[h].start < from
  }

  /** The i-th window listed opens the business during the scan. */
  ghost predicate OpensAt(cal: Calendar, from: int, i: nat) {
    i < |Listed(cal, from)| && from <= Listed(cal, from)[i].start < Horizon(cal, from) && IsOpenAt(cal, Listed(cal, from)[i].start)
  }

  /**
   The first window listed from `from` on opens the business, and no other one listed does so
   earlier; or none of them does, and `from` itself is where the first one starts, if there is one.
   */
  ghost predicate FirstOpensEarliest(cal: Calendar, from: int) {
    forall i: nat :: IsFirstFrom(Listed(cal, from), i, from) ==>
      if exists j: nat :: OpensAt(cal, from, j)
      then OpensAt(cal, from, i) && forall j: nat :: OpensAt(cal, from, j) ==> Listed(cal, from)[i].start <= Listed(cal, from)[j].start
      else Listed(cal, from)[i].start == from
  }

  /** The next open instant in the scan is where a listed window starts. */
  lemma EarliestListed(cal: Calendar, from: int, t: int) returns (j: nat)
    requires cal.rules != [] && !IsOpenAt(cal, from) && from <= t < Horizon(cal, from) && IsOpenAt(cal, t)
    ensures OpensAt(cal, from, j) && EarliestOpening(cal, from, Listed(cal, from)[j].start)
  {
    var first := LeastOpening(cal, from, t);
    var i := EarliestIsStart(cal, first);
    j := FlatIndex(cal, Day(cal, from), SCAN_DAYS, Day(cal, first), i);
  }

  lemma FoundIsFirst(cal: Calendar, from: int, i: nat)
    requires !IsOpenAt(cal, from) && IsFirstFrom(Listed(cal, from), i, from)
    ensures NextOpeningAt(cal, from) == Listed(cal, from)[i].start
  {
    OpeningFlat(cal, Day(cal, from), SCAN_DAYS, from);
    var k := FirstListed(Listed(cal, from), i, from);
  }

  /**
   For all rules, holidays and instants: `nextOpening` gives the earliest open instant at or after
   its input, or the input when nothing opens in the scan, if and only if it is open there or the
   first window listed opens the business earliest.
   */
  lemma NextOpeningExact(cal: Calendar, from: int)
    ensures OpeningMeets(cal, from) <==> IsOpenAt(cal, from) || FirstOpensEarliest(cal, from)
  {
    if !IsOpenAt(cal, from) {
      if i: nat :| IsFirstFrom(Listed(cal, from), i, from) {
        FoundIsFirst(cal, from, i);
        FirstDecides(cal, from, i);
      } else {
        NoneListed(cal, from);
      }
    }
  }

  lemma FirstDecides(cal: Calendar, from: int, i: nat)
    requires !IsOpenAt(cal, from) && IsFirstFrom(Listed(cal, from), i, from)
    requires NextOpeningAt(cal, from) == Listed(cal, from)[i].start
    ensures OpeningMeets(cal, from) <==> FirstOpensEarliest(cal, from)
  {
    assert forall k: nat :: IsFirstFrom(Listed(cal, from), k, from) ==> k == i;
    if t :| from <= t < Horizon(cal, from) && IsOpenAt(cal, t) {
      var j := EarliestListed(cal, from, t);
      assert forall k: nat :: OpensAt(cal, from, k) ==> Listed(cal, from)[j].start <= Listed(cal, from)[k].start;
    }
  }

  lemma NoneListed(cal: Calendar, from: int)
    requires !IsOpenAt(cal, from) && forall i: nat :: !IsFirstFrom(Listed(cal, from), i, from)
    ensures OpeningMeets(cal, from)
  {
    var ws := Listed(cal, from);
    if j: nat :| j < |ws| && ws[j].start >= from {
      var i := FirstListed(ws, j, from);
      assert IsFirstFrom(ws, i, from);
    } else {
      FirstStartNone(ws, from);
      OpeningFlat(cal, Day(cal, from), SCAN_DAYS, from);
      if t :| from <= t < Horizon(cal, from) && IsOpenAt(cal, t) { var j := EarliestListed(cal, from, t); }
    }
  }

  // ----- rules that open before midnight -----

  ghost predicate OpensBeforeMidnight(rules: seq<Rule>) {
    forall i :: 0 <= i < |rules| && Effective(rules[i]) ==> rules[i].start < DAY_MINUTES
  }

  /** Of the windows that start no earlier than the j-th, the first listed starts when the j-th does. */
  ghost predicate EarliestListedFirst(ws: seq<Window>, j: nat)
    requires j < |ws|
  {
    forall i :: 0 <= i < j && ws[i].start > ws[j].start ==> exists h :: 0 <= h < i && ws[h].start == ws[j].start
  }

  /** The window does not end a closed time, or the list puts it before all later ones. */
  ghost predicate PromptAt(cal: Calendar, d: int, j: nat)
    requires j < |WindowsOn(cal, d)|
  {
    IsOpenAt(cal, WindowsOn(cal, d)[j].start - 1) || EarliestListedFirst(WindowsOn(cal, d), j)
  }

  ghost predicate Prompt(cal: Calendar) {
    forall d, j: nat :: j < |WindowsOn(cal, d)| ==> PromptAt(cal, d, j)
  }

  lemma WindowStartIsOpen(cal: Calendar, d: int, j: nat)
    requires OpensBeforeMidnight(cal.rules) && j < |WindowsOn(cal, d)|
    ensures Day(cal, WindowsOn(cal, d)[j].start) == d && IsOpenAt(cal, WindowsOn(cal, d)[j].start)
  {
    var r := WindowRule(cal, cal.rules, d, j);
    var t := WindowsOn(cal, d)[j].start;
    assert Day(cal, t) == d;
    assert RuleOpens(cal, cal.rules[r], t);
  }

  lemma {:induction false} FirstStartSame(ws: seq<Window>, from: int, later: int)
    requires from <= later && forall i :: 0 <= i < |ws| ==> ws[i].start < from || later <= ws[i].start
    ensures FirstStart(ws, from) == FirstStart(ws, later)
  {
    if ws != [] { FirstStartSame(ws[1..], from, later); }
  }

  /** Days that open nothing from `from` on are passed over. */
  lemma {:induction false} ScanSkips(cal: Calendar, d: int, n: nat, from: int, day: int)
    requires d <= day < d + n
    requires forall k, i :: d <= k < day && 0 <= i < |WindowsOn(cal, k)| ==> WindowsOn(cal, k)[i].start < from
    requires FirstStart(WindowsOn(cal, day), from).Opens?
    ensures OpeningScan(cal, d, n, from) == FirstStart(WindowsOn(cal, day), from)
    decreases n
  {
    if d < day {
      FirstStartNone(WindowsOn(cal, d), from);
      ScanSkips(cal, d + 1, n - 1, from, day);
    }
  }

  lemma {:induction false} ScanFindsNothing(cal: Calendar, d: int, n: nat, from: int)
    requires forall k, i :: d <= k < d + n && 0 <= i < |WindowsOn(cal, k)| ==> WindowsOn(cal, k)[i].start < from
    ensures OpeningScan(cal, d, n, from) == NeverOpens
    decreases n
  {
    if n > 0 {
      FirstStartNone(WindowsOn(cal, d), from);
      ScanFindsNothing(cal, d + 1, n - 1, from);
    }
  }

  /** From a closed instant whose next open one is `t`, the scan looks no further than the windows of t's day. */
  lemma ScanReaches(cal: Calendar, from: int, t: int, n: nat)
    requires cal.rules != [] && OpensBeforeMidnight(cal.rules) && !IsOpenAt(cal, from) && EarliestOpening(cal, from, t)
    requires t < DayStart(cal, Day(cal, from) + n)
    ensures OpeningScan(cal, Day(cal, from), n, from) == FirstStart(WindowsOn(cal, Day(cal, t)), t)
  {
    var day := Day(cal, t);
    forall k, i | Day(cal, from) <= k <= day && 0 <= i < |WindowsOn(cal, k)|
      ensures WindowsOn(cal, k)[i].start < from || (k == day && t <= WindowsOn(cal, k)[i].start)
    {
      WindowStartIsOpen(cal, k, i);
    }
    FirstStartSame(WindowsOn(cal, day), from, t);
    var j := EarliestIsStart(cal, t);
    var i := FirstListed(WindowsOn(cal, day), j, t);
    ScanSkips(cal, Day(cal, from), n, from, day);
  }

  /** What the inner search finds, in terms of the order of the list. */
  lemma SearchFindsStart(ws: seq<Window>, j: nat)
    requires j < |ws|
    ensures FirstStart(ws, ws[j].start) == Opens(ws[j].start) <==> EarliestListedFirst(ws, j)
  {
    var i := FirstListed(ws, j, ws[j].start);
    if ws[i].start == ws[j].start {
      forall k | 0 <= k < j && ws[k].start > ws[j].start ensures exists h :: 0 <= h < k && ws[h].start == ws[j].start {
        assert i < k;
      }
    }
  }

  lemma NothingOpensMeets(cal: Calendar, from: int)
    requires cal.rules != [] && OpensBeforeMidnight(cal.rules) && !IsOpenAt(cal, from) && !OpensBefore(cal, from, Horizon(cal, from))
    ensures OpeningMeets(cal, from)
  {
    forall k, i | Day(cal, from) <= k < Day(cal, from) + SCAN_DAYS && 0 <= i < |WindowsOn(cal, k)|
      ensures WindowsOn(cal, k)[i].start < from
    {
      WindowStartIsOpen(cal, k, i);
    }
    ScanFindsNothing(cal, Day(cal, from), SCAN_DAYS, from);
  }

  lemma PromptMeets(cal: Calendar, from: int, t: int)
    requires cal.rules != [] && OpensBeforeMidnight(cal.rules) && Prompt(cal) && !IsOpenAt(cal, from)
    requires from <= t < Horizon(cal, from) && IsOpenAt(cal, t)
    ensures OpeningMeets(cal, from)
  {
    var first := LeastOpening(cal, from, t);
    ScanReaches(cal, from, first, SCAN_DAYS);
    var j := EarliestIsStart(cal, first);
    assert PromptAt(cal, Day(cal, first), j);
    SearchFindsStart(WindowsOn(cal, Day(cal, first)), j);
  }

  lemma MeetsIsPrompt(cal: Calendar, d: int, j: nat)
    requires cal.rules != [] && OpensBeforeMidnight(cal.rules) && j < |WindowsOn(cal, d)|
    requires OpeningMeets(cal, WindowsOn(cal, d)[j].start - 1)
    ensures PromptAt(cal, d, j)
  {
    var t := WindowsOn(cal, d)[j].start;
    WindowStartIsOpen(cal, d, j);
    if !IsOpenAt(cal, t - 1) {
      assert EarliestOpening(cal, t - 1, t) && t < Horizon(cal, t - 1);
      ScanReaches(cal, t - 1, t, SCAN_DAYS);
      assert NextOpeningAt(cal, t - 1) == t;
      SearchFindsStart(WindowsOn(cal, d), j);
    }
  }

  lemma PromptAlwaysMeets(cal: Calendar, from: int)
    requires OpensBeforeMidnight(cal.rules) && (cal.rules == [] || Prompt(cal))
    ensures OpeningMeets(cal, from)
  {
    if cal.rules != [] && !IsOpenAt(cal, from) {
      if t :| from <= t < Horizon(cal, from) && IsOpenAt(cal, t) { PromptMeets(cal, from, t); } else { NothingOpensMeets(cal, from); }
    }
  }

  lemma AlwaysMeetsIsPrompt(cal: Calendar)
    requires cal.rules != [] && OpensBeforeMidnight(cal.rules) && forall from :: OpeningMeets(cal, from)
    ensures Prompt(cal)
  {
    forall d, j: nat | j < |WindowsOn(cal, d)| ensures PromptAt(cal, d, j) { MeetsIsPrompt(cal, d, j); }
  }

  /**
   For rules that open before midnight, and whatever the holidays: `nextOpening` is right for
   every instant if and only if, of the windows of a day that start no earlier than one which
   ends a closed time, the first listed starts earliest.
   */
  lemma NextOpeningByDay(cal: Calendar)
    requires OpensBeforeMidnight(cal.rules)
    ensures (forall from :: OpeningMeets(cal, from)) <==> cal.rules == [] || Prompt(cal)
  {
    if cal.rules == [] || Prompt(cal) {
      forall from ensures OpeningMeets(cal, from) { PromptAlwaysMeets(cal, from); }
    } else if forall from :: OpeningMeets(cal, from) {
      AlwaysMeetsIsPrompt(cal);
    }
  }

  /** Rules of one weekday are listed by opening time, and each opens before midnight. */
  ghost predicate ByOpening(rules: seq<Rule>) {
    && (forall i :: 0 <= i < |rules| && Effective(rules[i]) ==> rules[i].start < DAY_MINUTES)
    && (forall i, j :: 0 <= i < j < |rules| && SameDay(rules[i], rules[j]) ==> rules[i].start <= rules[j].start)
  }

  /** With the rules of each weekday listed by opening time, `nextOpening` is the earliest open instant at or after its input. */
  lemma NextOpeningEarliest(cal: Calendar, from: int)
    requires ByOpening(cal.rules)
    ensures OpensBefore(cal, from, Horizon(cal, from)) ==> EarliestOpening(cal, from, NextOpeningAt(cal, from))
    ensures NextOpeningAt(cal, from) == from <==> IsOpenAt(cal, from) || !OpensBefore(cal, from, Horizon(cal, from))
  {
    forall d, j: nat | j < |WindowsOn(cal, d)| ensures PromptAt(cal, d, j) {
      var ws := WindowsOn(cal, d);
      forall i, k | 0 <= i < k < |ws| ensures ws[i].start <= ws[k].start {
        var r, q := WindowRules(cal, cal.rules, d, i, k);
      }
      assert EarliestListedFirst(ws, j);
    }
    PromptAlwaysMeets(cal, from);
  }

  /** Listed out of order, the afternoon rule hides the morning one: Monday opens at 08:00, not 13:00. */
  lemma NextOpeningOutOfOrder()
    ensures var cal := Calendar(0, [Rule(1, 780, 1020), Rule(1, 480, 720)], {});
      !ByOpening(cal.rules) && !EarliestOpening(cal, DayStart(cal, 4), NextOpeningAt(cal, DayStart(cal, 4)))
  {
    var cal := Calendar(0, [Rule(1, 780, 1020), Rule(1, 480, 720)], {});
    var from, eight := DayStart(cal, 4), DayStart(cal, 4) + 480 * MINUTE_MS;
    assert SameDay(cal.rules[0], cal.rules[1]);
    assert RuleOpens(cal, cal.rules[1], eight);
    var afternoon := WindowFor(cal, 4, cal.rules[0]);
    assert WindowsOn(cal, 4)[0] == afternoon;
    assert FirstStart(WindowsOn(cal, 4), from) == Opens(afternoon.start);
    assert OpeningScan(cal, 4, SCAN_DAYS, from) == Opens(afternoon.start);
    assert !IsOpenAt(cal, from) && IsOpenAt(cal, eight);
    assert NextOpeningAt(cal, from) == afternoon.start;
  }

  /** A rule that starts at 24:00 or later opens nothing, yet from the start of its day its window is what is found. */
  lemma LateRuleMisleads(offset: int, rule: Rule, d: int)
    requires DAY_MINUTES <= rule.start < rule.end && rule.day == Weekday(d)
    ensures var cal := Calendar(offset, [rule], {});
      !OpeningMeets(cal, DayStart(cal, d)) && forall t :: !IsOpenAt(cal, t)
  {
    var cal := Calendar(offset, [rule], {});
    var from, w := DayStart(cal, d), WindowFor(cal, d, rule);
    forall t ensures !IsOpenAt(cal, t) { assert t < DayStart(cal, Day(cal, t) + 1); }
    assert Day(cal, from) == d;
    assert WindowsOn(cal, d)[0] == w && w.start > from;
    assert FirstStart(WindowsOn(cal, d), from) == Opens(w.start);
    assert OpeningScan(cal, d, SCAN_DAYS, from) == Opens(w.start);
  }
}
