/**
 `OutboxSafety` for every interleaving, `StepProgress` for when a step uses up an attempt, and
 `DrainsFinish` for the relay working undisturbed.
 */
module OutboxProofs {
  import opened Options
  import opened Outbox

  // ----- what every run keeps -----

  /** Only committed rows were emitted. */
  ghost predicate EmittedCommitted(s: State) {
    forall i :: 0 <= i < |s.emitted| ==> s.emitted[i] < |s.rows| && s.rows[s.emitted[i]].fate == Committed
  }

  /** A published row was emitted, and a pending one has attempts left. */
  ghost predicate Accounted(s: State) {
    forall id :: 0 <= id < |s.rows| ==>
      && (s.rows[id].status == Published ==> id in s.emitted)
      && (s.rows[id].status == Pending ==> s.rows[id].attempts < MAX_ATTEMPTS)
  }

  ghost predicate Creates(s: State, t: nat, id: nat) {
    t in s.transactions && id in s.transactions[t]
  }

  /** An open transaction's rows are its own, and not decided. */
  ghost predicate Transacts(s: State) {
    && (forall t: nat, id: nat :: Creates(s, t, id) ==> id < |s.rows| && s.rows[id].fate == Open)
    && (forall t: nat, u: nat, id: nat :: Creates(s, t, id) && Creates(s, u, id) ==> t == u)
  }

  /** What the processes still remember agrees with the table. */
  ghost predicate Remembers(s: State) {
    && (forall p :: p in s.publishers ==> PublisherRemembers(s, s.publishers[p]))
    && (forall d :: d in s.drains ==> DrainRemembers(s, s.drains[d]))
  }

  ghost predicate PublisherRemembers(s: State, p: Publisher) {
    p.id < |s.rows| && s.rows[p.id].fate == Committed && (p.emitted ==> p.id in s.emitted)
  }

  ghost predicate DrainRemembers(s: State, d: Drain) {
    && (forall i :: 0 <= i < |d.batch| ==>
          d.batch[i].0 < |s.rows| && s.rows[d.batch[i].0].fate == Committed && d.batch[i].1 < MAX_ATTEMPTS)
    && (d.position < |d.batch| && d.progress != ToEmit ==> d.batch[d.position].0 in s.emitted)
  }

  /** The row a drain is at. */
  ghost function At(s: State, d: nat): (nat, nat)
    requires d in s.drains && s.drains[d].position < |s.drains[d].batch|
  {
    s.drains[d].batch[s.drains[d].position]
  }

  ghost predicate Inv(s: State) {
    EmittedCommitted(s) && Accounted(s) && Transacts(s) && Remembers(s)
  }

  /** Tables only grow, and a decided row stays decided. */
  ghost predicate Grows(s: State, t: State) {
    && |s.rows| <= |t.rows| && s.emitted <= t.emitted
    && forall id :: 0 <= id < |s.rows| && s.rows[id].fate != Open ==> t.rows[id].fate == s.rows[id].fate
  }

  lemma StartedOpen(s: State, t: nat)
    requires Transacts(s)
    ensures forall id :: id in Started(s, t) ==> id < |s.rows| && s.rows[id].fate == Open
  {
    forall id | id in Started(s, t) ensures id < |s.rows| && s.rows[id].fate == Open { assert Creates(s, t, id); }
  }

  lemma StepGrows(s: State, e: Event)
    requires Transacts(s) && Remembers(s)
    ensures Grows(s, Next(s, e))
  {
    if e.Commit? || e.Rollback? { StartedOpen(s, e.t); }
  }

  /** So what was remembered stays right. */
  lemma StillRemembered(s: State, t: State)
    requires Grows(s, t)
    ensures forall p :: PublisherRemembers(s, p) ==> PublisherRemembers(t, p)
    ensures forall d :: DrainRemembers(s, d) ==> DrainRemembers(t, d)
  {
    assert forall id :: id in s.emitted ==> id in t.emitted;
  }

  /** All publishers but one are as before, and that one is told apart. */
  lemma OnePublisherRemembers(s: State, t: State, p: nat)
    requires Remembers(s) && Grows(s, t) && t.drains == s.drains
    requires forall o :: o in t.publishers && o != p ==> o in s.publishers && t.publishers[o] == s.publishers[o]
    requires p in t.publishers ==> PublisherRemembers(t, t.publishers[p])
    ensures Remembers(t)
  {
    StillRemembered(s, t);
  }

  lemma EmitOwnRemembers(s: State, p: nat)
    requires Inv(s)
    ensures Remembers(Next(s, EmitOwn(p)))
  {
    var t := Next(s, EmitOwn(p));
    StepGrows(s, EmitOwn(p));
    if p in s.publishers { assert PublisherRemembers(s, s.publishers[p]); }
    if t != s { assert t.emitted[|s.emitted|] == s.publishers[p].id; }
    OnePublisherRemembers(s, t, p);
  }

  /** Ends of transactions, and what leaves publishers as they are or takes one away. */
  lemma PublisherStepRemembers(s: State, e: Event)
    requires Inv(s) && (e.Commit? || e.Rollback? || e.MarkOwn? || e.PublisherDies?)
    ensures Remembers(Next(s, e))
  {
    var t := Next(s, e);
    StepGrows(s, e);
    StillRemembered(s, t);
    assert t.drains == s.drains && forall p :: p in t.publishers ==> p in s.publishers && t.publishers[p] == s.publishers[p];
  }

  lemma PublishRemembers(s: State, p: nat, tx: Option<nat>)
    requires Inv(s)
    ensures Remembers(Next(s, Publish(p, tx)))
  {
    var t := Next(s, Publish(p, tx));
    StepGrows(s, Publish(p, tx));
    if p in s.publishers { assert PublisherRemembers(s, s.publishers[p]); }
    OnePublisherRemembers(s, t, p);
  }

  /** All drains but one are as before, and that one is told apart. */
  lemma OneDrainRemembers(s: State, t: State, d: nat)
    requires Remembers(s) && Grows(s, t) && t.publishers == s.publishers
    requires forall o :: o in t.drains && o != d ==> o in s.drains && t.drains[o] == s.drains[o]
    requires d in t.drains ==> DrainRemembers(t, t.drains[d])
    ensures Remembers(t)
  {
    StillRemembered(s, t);
  }

  lemma EmitRemembers(s: State, d: nat)
    requires Inv(s)
    ensures Remembers(Next(s, EmitNext(d)))
  {
    var t := Next(s, EmitNext(d));
    StepGrows(s, EmitNext(d));
    if t != s {
      assert DrainRemembers(s, s.drains[d]);
      assert t.emitted[|s.emitted|] == At(s, d).0;
      assert DrainRemembers(t, t.drains[d]);
    }
    OneDrainRemembers(s, t, d);
  }

  /** A drain that goes on keeps what it read, and knows of no new emission. */
  ghost predicate GoesOn(was: Drain, now: Drain) {
    now.batch == was.batch && (now.progress == ToEmit || (now.position == was.position && was.progress != ToEmit))
  }

  lemma GoingOnRemembers(s: State, t: State, d: nat)
    requires Remembers(s) && Grows(s, t) && t.publishers == s.publishers
    requires t.drains == s.drains - {d} || (d in s.drains && d in t.drains && t.drains == s.drains[d := t.drains[d]])
    requires d in s.drains && d in t.drains ==> GoesOn(s.drains[d], t.drains[d])
    ensures Remembers(t)
  {
    if d in t.drains {
      StillRemembered(s, t);
      assert DrainRemembers(s, s.drains[d]);
      assert DrainRemembers(t, s.drains[d]);
    }
    OneDrainRemembers(s, t, d);
  }

  lemma MarkRemembers(s: State, d: nat, ok: bool)
    requires Inv(s)
    ensures Remembers(Next(s, MarkNext(d, ok)))
  {
    StepGrows(s, MarkNext(d, ok));
    if Next(s, MarkNext(d, ok)) != s { GoingOnRemembers(s, Next(s, MarkNext(d, ok)), d); }
  }

  lemma RecordRemembers(s: State, d: nat, ok: bool)
    requires Inv(s)
    ensures Remembers(Next(s, RecordNext(d, ok)))
  {
    StepGrows(s, RecordNext(d, ok));
    if Next(s, RecordNext(d, ok)) != s { GoingOnRemembers(s, Next(s, RecordNext(d, ok)), d); }
  }

  lemma BeginRemembers(s: State, d: nat)
    requires Inv(s)
    ensures Remembers(Next(s, Begin(d)))
  {
    PendingBounds(s.rows, 0);
  }

  lemma StepRemembers(s: State, e: Event)
    requires Inv(s)
    ensures Remembers(Next(s, e))
  {
    if e.Begin? {
      BeginRemembers(s, e.d);
    } else if e.EmitNext? {
      EmitRemembers(s, e.d);
    } else if e.MarkNext? {
      MarkRemembers(s, e.d, e.ok);
    } else if e.RecordNext? {
      RecordRemembers(s, e.d, e.ok);
    } else if e.DrainDies? {
      GoingOnRemembers(s, Next(s, e), e.d);
    } else if e.EmitOwn? {
      EmitOwnRemembers(s, e.p);
    } else if e.Publish? {
      PublishRemembers(s, e.p, e.tx);
    } else {
      PublisherStepRemembers(s, e);
    }
  }

  lemma StepEmits(s: State, e: Event)
    requires Inv(s)
    ensures EmittedCommitted(Next(s, e))
  {
    var t := Next(s, e);
    StepGrows(s, e);
    assert forall i :: 0 <= i < |s.emitted| ==> t.emitted[i] == s.emitted[i];
    if e.EmitNext? && t != s {
      assert DrainRemembers(s, s.drains[e.d]);
    } else if e.EmitOwn? && t != s {
      assert PublisherRemembers(s, s.publishers[e.p]);
    }
  }

  lemma StepAccounts(s: State, e: Event)
    requires Inv(s)
    ensures Accounted(Next(s, e))
  {
    assert forall id :: id in s.emitted ==> id in Next(s, e).emitted;
    if e.MarkOwn? && e.p in s.publishers { assert PublisherRemembers(s, s.publishers[e.p]); }
    if (e.MarkNext? || e.RecordNext?) && e.d in s.drains { assert DrainRemembers(s, s.drains[e.d]); }
  }

  lemma StepTransacts(s: State, e: Event)
    requires Inv(s)
    ensures Transacts(Next(s, e))
  {
    var v := Next(s, e);
    if e.Commit? || e.Rollback? {
      forall t: nat, id: nat | Creates(v, t, id) ensures Creates(s, t, id) && id !in Started(s, e.t) {
        assert Creates(s, t, id) && t != e.t;
        assert id in Started(s, e.t) ==> Creates(s, e.t, id);
      }
    } else if e.Publish? {
      assert forall t: nat, id: nat :: Creates(v, t, id) ==> Creates(s, t, id) || (id == |s.rows| && e.tx == Some(t));
    } else {
      StepGrowsOpen(s, e);
      assert forall t: nat, id: nat :: Creates(v, t, id) ==> Creates(s, t, id);
    }
  }

  /** Marks and records do not touch the fate of a row. */
  lemma StepGrowsOpen(s: State, e: Event)
    requires !e.Commit? && !e.Rollback? && !e.Publish?
    ensures |Next(s, e).rows| == |s.rows| && forall id :: 0 <= id < |s.rows| ==> Next(s, e).rows[id].fate == s.rows[id].fate
  {
  }

  lemma StepKeeps(s: State, e: Event)
    requires Inv(s)
    ensures Inv(Next(s, e))
  {
    StepEmits(s, e);
    StepAccounts(s, e);
    StepTransacts(s, e);
    StepRemembers(s, e);
  }

  lemma {:induction false} RunKeeps(events: seq<Event>)
    ensures Inv(Run(events))
  {
    if events != [] {
      RunKeeps(events[..|events| - 1]);
      StepKeeps(Run(events[..|events| - 1]), events[|events| - 1]);
    }
  }

  /**
   In every interleaving, with deaths, failed writes and transactions that roll back: only
   committed rows are emitted, a published row was emitted, and a committed pending row still has
   attempts left, so a drain finds it.
   */
  lemma OutboxSafety(events: seq<Event>, id: nat)
    requires id < |Run(events).rows|
    ensures var s := Run(events);
      && (id in s.emitted ==> s.rows[id].fate == Committed)
      && (s.rows[id].status == Published ==> id in s.emitted)
      && (s.rows[id].fate == Committed && s.rows[id].status == Pending ==> id in PendingFrom(s.rows, 0))
  {
    RunKeeps(events);
    if Due(Run(events).rows[id]) { PendingFound(Run(events).rows, 0, id); }
  }

  ghost predicate Decided(s: State, id: nat, fate: Fate) {
    id < |s.rows| && s.rows[id].fate == fate && fate != Open
  }

  lemma DecidedStep(events: seq<Event>, id: nat, fate: Fate)
    requires events != [] && Decided(Run(events[..|events| - 1]), id, fate)
    ensures Decided(Run(events), id, fate)
  {
    RunKeeps(events[..|events| - 1]);
    StepGrows(Run(events[..|events| - 1]), events[|events| - 1]);
  }

  /** What has been decided stays. */
  lemma {:induction false} DecidedForGood(events: seq<Event>, more: seq<Event>, id: nat, fate: Fate)
    requires Decided(Run(events), id, fate)
    ensures Decided(Run(events + more), id, fate)
    decreases |more|
  {
    if more == [] {
      assert events + more == events;
    } else {
      var n := |more| - 1;
      assert (events + more)[..|events + more| - 1] == events + more[..n];
      DecidedForGood(events, more[..n], id, fate);
      DecidedStep(events + more, id, fate);
    }
  }

  /** So a row that was rolled back has not been emitted, and never will be. */
  lemma RolledBackNeverEmitted(events: seq<Event>, more: seq<Event>, id: nat)
    requires Decided(Run(events), id, RolledBack)
    ensures id !in Run(events + more).emitted
  {
    DecidedForGood(events, more, id, RolledBack);
    RunKeeps(events + more);
  }

  lemma {:induction false} PendingFound(rows: seq<Row>, i: nat, id: nat)
    requires i <= id < |rows| && Due(rows[id])
    ensures id in PendingFrom(rows, i)
    decreases id - i
  {
    if i < id {
      PendingFound(rows, i + 1, id);
      var rest := PendingFrom(rows, i + 1);
      var first := if Due(rows[i]) then [i] else [];
      assert PendingFrom(rows, i) == first + rest;
    }
  }

  // ----- progress -----

  ghost function Left(row: Row): int {
    if row.fate == Committed && row.status == Pending then MAX_ATTEMPTS - row.attempts else 0
  }

  /** Attempts left over all pending rows. */
  ghost function Work(rows: seq<Row>): int {
    if rows == [] then 0 else Work(rows[..|rows| - 1]) + Left(rows[|rows| - 1])
  }

  lemma {:induction false} WorkUpdate(rows: seq<Row>, id: nat, row: Row)
    requires id < |rows|
    ensures Work(rows[id := row]) == Work(rows) - Left(rows[id]) + Left(row)
  {
    var n := |rows| - 1;
    if id < n {
      assert rows[id := row][..n] == rows[..n][id := row];
      WorkUpdate(rows[..n], id, row);
    } else {
      assert rows[id := row][..n] == rows[..n];
    }
  }

  /**
   Marking a pending row is progress. Recording a failure is progress if and only if the row is
   still pending and has not gained attempts since the batch was read; otherwise the write
   brings back a row that another process has already dealt with.
   */
  lemma RecordingProgress(rows: seq<Row>, id: nat, read: nat)
    requires id < |rows| && rows[id].fate == Committed && read < MAX_ATTEMPTS
    ensures Due(rows[id]) ==> Work(Marked(rows, id)) < Work(rows)
    ensures Work(Recorded(rows, id, read)) < Work(rows) <==> rows[id].status == Pending && rows[id].attempts <= read
  {
    WorkUpdate(rows, id, Marked(rows, id)[id]);
    WorkUpdate(rows, id, Recorded(rows, id, read)[id]);
  }

  /** The steps that use up an attempt of a pending row. */
  ghost predicate UsesAttempt(s: State, e: Event) {
    match e
    case MarkOwn(p, ok) =>
      ok && p in s.publishers && s.publishers[p].emitted && s.publishers[p].id < |s.rows| && Due(s.rows[s.publishers[p].id])
    case MarkNext(d, ok) => ok && Busy(s, d, ToMark) && Due(s.rows[At(s, d).0])
    case RecordNext(d, ok) =>
      ok && Busy(s, d, ToRecord) && Due(s.rows[At(s, d).0]) && s.rows[At(s, d).0].attempts <= At(s, d).1
    case _ => false
  }

  lemma {:induction false} WorkAppend(rows: seq<Row>, row: Row)
    ensures Work(rows + [row]) == Work(rows) + Left(row)
  {
    assert (rows + [row])[..|rows + [row]| - 1] == rows;
  }

  /** Ending a transaction brings work in, or leaves it. */
  lemma {:induction false} WorkSettled(rows: seq<Row>, ids: set<nat>, fate: Fate)
    requires forall id :: id in ids && id < |rows| ==> rows[id].fate == Open
    requires forall id :: 0 <= id < |rows| && rows[id].status == Pending ==> rows[id].attempts < MAX_ATTEMPTS
    ensures Work(Settled(rows, ids, fate)) >= Work(rows)
  {
    if rows != [] {
      var n := |rows| - 1;
      assert Settled(rows, ids, fate)[..n] == Settled(rows[..n], ids, fate);
      WorkSettled(rows[..n], ids, fate);
    }
  }

  /** In every state of every run, the steps that bring the relay nearer to its end are exactly those. */
  lemma StepProgress(s: State, e: Event)
    requires Inv(s)
    ensures Work(Next(s, e).rows) < Work(s.rows) <==> UsesAttempt(s, e)
  {
    match e
    case Publish(p, tx) => WorkAppend(s.rows, Row(if tx.Some? then Open else Committed, Pending, 0));
    case Commit(t) => StartedOpen(s, t); WorkSettled(s.rows, Started(s, t), Committed);
    case Rollback(t) => StartedOpen(s, t); WorkSettled(s.rows, Started(s, t), RolledBack);
    case MarkOwn(p, ok) => if ok && p in s.publishers { OwnProgress(s, p); }
    case MarkNext(d, ok) => if ok && Busy(s, d, ToMark) { MarkProgress(s, d); }
    case RecordNext(d, ok) => if ok && Busy(s, d, ToRecord) { RecordProgress(s, d); }
    case _ =>
  }

  lemma OwnProgress(s: State, p: nat)
    requires Inv(s) && p in s.publishers
    ensures Work(Next(s, MarkOwn(p, true)).rows) < Work(s.rows) <==> UsesAttempt(s, MarkOwn(p, true))
  {
    assert PublisherRemembers(s, s.publishers[p]);
    var id := s.publishers[p].id;
    WorkUpdate(s.rows, id, s.rows[id].(status := Published, attempts := 1));
  }

  lemma MarkProgress(s: State, d: nat)
    requires Inv(s) && Busy(s, d, ToMark)
    ensures Work(Next(s, MarkNext(d, true)).rows) < Work(s.rows) <==> UsesAttempt(s, MarkNext(d, true))
  {
    var id := At(s, d).0;
    assert DrainRemembers(s, s.drains[d]);
    WorkUpdate(s.rows, id, Marked(s.rows, id)[id]);
  }

  lemma RecordProgress(s: State, d: nat)
    requires Inv(s) && Busy(s, d, ToRecord)
    ensures Work(Next(s, RecordNext(d, true)).rows) < Work(s.rows) <==> UsesAttempt(s, RecordNext(d, true))
  {
    assert DrainRemembers(s, s.drains[d]);
    RecordingProgress(s.rows, At(s, d).0, At(s, d).1);
  }

  // ----- published is not final -----

  ghost function OneRow(row: Row, emitted: seq<nat>, publishers: map<nat, Publisher>, drains: map<nat, Drain>): State {
    State([row], emitted, map[], publishers, drains)
  }

  lemma OneBatch(row: Row)
    requires Due(row)
    ensures PendingFrom([row], 0) == [0] && Batch([row]) == [0]
  {
    assert PendingFrom([row], 1) == [];
  }

  lemma DrainReads(row: Row, publishers: map<nat, Publisher>)
    requires Due(row)
    ensures Next(OneRow(row, [], publishers, map[]), Begin(0)) == OneRow(row, [], publishers, map[0 := Drain([(0, row.attempts)], 0, ToEmit)])
  {
    OneBatch(row);
    PendingBounds([row], 0);
    assert Snapshot([row], [0]) == [(0, row.attempts)];
  }

  /** A drain reads the row before its publisher has marked it. */
  lemma PublishedByOwner()
    ensures Run([Publish(0, None), Begin(0), EmitOwn(0), MarkOwn(0, true)])
         == OneRow(Row(Committed, Published, 1), [0], map[], map[0 := Drain([(0, 0)], 0, ToEmit)])
  {
    var es := [Publish(0, None), Begin(0), EmitOwn(0), MarkOwn(0, true)];
    assert es[..3] == [Publish(0, None), Begin(0), EmitOwn(0)] && es[..3][..2] == [Publish(0, None), Begin(0)];
    assert es[..3][..2][..1] == [Publish(0, None)] && [Publish(0, None)][..0] == [];
    var row, drain := Row(Committed, Pending, 0), Drain([(0, 0)], 0, ToEmit);
    assert Run([Publish(0, None)]) == OneRow(row, [], map[0 := Publisher(0, false)], map[]);
    DrainReads(row, map[0 := Publisher(0, false)]);
    assert Run(es[..2]) == Next(Run([Publish(0, None)]), Begin(0));
    assert Run(es[..3]) == Next(Run(es[..2]), EmitOwn(0));
    OwnerFinishes(row, drain);
  }

  lemma OwnerFinishes(row: Row, drain: Drain)
    ensures Next(Next(OneRow(row, [], map[0 := Publisher(0, false)], map[0 := drain]), EmitOwn(0)), MarkOwn(0, true))
         == OneRow(row.(status := Published, attempts := 1), [0], map[], map[0 := drain])
  {
    assert Next(OneRow(row, [], map[0 := Publisher(0, false)], map[0 := drain]), EmitOwn(0))
        == OneRow(row, [0], map[0 := Publisher(0, true)], map[0 := drain]);
  }

  lemma DrainBringsBack(row: Row)
    requires row.fate == Committed
    ensures var s := OneRow(row, [0], map[], map[0 := Drain([(0, 0)], 0, ToEmit)]);
      Next(Next(Next(s, EmitNext(0)), MarkNext(0, false)), RecordNext(0, true)).rows == [Row(Committed, Pending, 1)]
  {
    var s := OneRow(row, [0], map[], map[0 := Drain([(0, 0)], 0, ToEmit)]);
    assert Next(s, EmitNext(0)) == OneRow(row, [0] + [0], map[], map[0 := Drain([(0, 0)], 0, ToMark)]);
    assert Next(Next(s, EmitNext(0)), MarkNext(0, false)) == OneRow(row, [0] + [0], map[], map[0 := Drain([(0, 0)], 0, ToRecord)]);
  }

  /** A published row that a drain's failed mark makes pending again: its listeners will be called once more. */
  lemma PublishedIsNotFinal()
    ensures var before := Run([Publish(0, None), Begin(0), EmitOwn(0), MarkOwn(0, true)]);
      var after := Next(Next(Next(before, EmitNext(0)), MarkNext(0, false)), RecordNext(0, true));
      && before.rows == [Row(Committed, Published, 1)] && after.rows == [Row(Committed, Pending, 1)]
      && PendingFrom(after.rows, 0) == [0] && Work(after.rows) > Work(before.rows)
  {
    PublishedByOwner();
    DrainBringsBack(Row(Committed, Published, 1));
    OneBatch(Row(Committed, Pending, 1));
    assert [Row(Committed, Published, 1)][..0] == [] && [Row(Committed, Pending, 1)][..0] == [];
  }

  // ----- the relay, undisturbed -----

  ghost predicate Settles(outcomes: seq<Outcome>) {
    forall i :: 0 <= i < |outcomes| ==> !outcomes[i].Ends?
  }

  ghost predicate Drainable(rows: seq<Row>, batch: seq<nat>) {
    && (forall i :: 0 <= i < |batch| ==> batch[i] < |rows| && Due(rows[batch[i]]))
    && (forall i, j :: 0 <= i < j < |batch| ==> batch[i] != batch[j])
  }

  ghost predicate Healthy(rows: seq<Row>) {
    forall i :: 0 <= i < |rows| && rows[i].status == Pending ==> rows[i].attempts < MAX_ATTEMPTS
  }

  lemma FirstProgress(s: Drained, batch: seq<nat>, outcome: Outcome)
    requires batch != [] && Drainable(s.rows, batch) && !outcome.Ends?
    ensures var next := Handled(s, batch[0], s.rows[batch[0]].attempts, outcome).rows;
      && |next| == |s.rows| && Work(next) < Work(s.rows) && Drainable(next, batch[1..])
      && (Healthy(s.rows) ==> Healthy(next))
  {
    RecordingProgress(s.rows, batch[0], s.rows[batch[0]].attempts);
    assert batch[0] !in batch[1..];
  }

  /** An undisturbed drain uses up at least one attempt for every row whose outcome it records. */
  lemma {:induction false} DrainProgress(s: Drained, batch: seq<nat>, outcomes: seq<Outcome>)
    requires |outcomes| == |batch| && Drainable(s.rows, batch) && Settles(outcomes)
    ensures var after := DrainFrom(s, batch, outcomes).rows;
      && Work(after) <= Work(s.rows) - |batch| && |after| == |s.rows|
      && (Healthy(s.rows) ==> Healthy(after))
    decreases |batch|
  {
    if batch != [] {
      FirstProgress(s, batch, outcomes[0]);
      DrainProgress(Handled(s, batch[0], s.rows[batch[0]].attempts, outcomes[0]), batch[1..], outcomes[1..]);
    }
  }

  lemma DrainableRest(rows: seq<Row>, batch: seq<nat>)
    requires batch != [] && Drainable(rows, batch)
    ensures Drainable(Marked(rows, batch[0]), batch[1..]) && batch[0] !in batch[1..]
  {
  }

  /** The batch was emitted in order, and exactly its rows are published, with one more attempt. */
  ghost predicate Delivered(s: Drained, batch: seq<nat>, t: Drained) {
    && t.emitted == s.emitted + batch && t.delivered == s.delivered + |batch| && |t.rows| == |s.rows|
    && forall id :: 0 <= id < |s.rows| ==>
         t.rows[id] == if id in batch then s.rows[id].(status := Published, attempts := s.rows[id].attempts + 1) else s.rows[id]
  }

  lemma OneMore(s: Drained, batch: seq<nat>, t: Drained)
    requires batch != [] && batch[0] < |s.rows| && batch[0] !in batch[1..]
    requires Delivered(Drained(Marked(s.rows, batch[0]), s.emitted + [batch[0]], s.delivered + 1), batch[1..], t)
    ensures Delivered(s, batch, t)
  {
    assert s.emitted + batch == s.emitted + [batch[0]] + batch[1..];
    assert forall id :: id in batch <==> id == batch[0] || id in batch[1..];
  }

  /** When every mark succeeds, a drain emits its batch in order and publishes exactly those rows. */
  lemma {:induction false} DrainDelivers(s: Drained, batch: seq<nat>, outcomes: seq<Outcome>)
    requires |outcomes| == |batch| && Drainable(s.rows, batch)
    requires forall i :: 0 <= i < |outcomes| ==> outcomes[i] == Delivers
    ensures Delivered(s, batch, DrainFrom(s, batch, outcomes))
    decreases |batch|
  {
    if batch != [] {
      var next := Drained(Marked(s.rows, batch[0]), s.emitted + [batch[0]], s.delivered + 1);
      DrainableRest(s.rows, batch);
      DrainDelivers(next, batch[1..], outcomes[1..]);
      OneMore(s, batch, DrainFrom(next, batch[1..], outcomes[1..]));
    }
  }

  /** One drain after another, `oracle(k)` deciding how the k-th row of a batch goes. */
  ghost function Drains(rows: seq<Row>, oracles: seq<nat -> bool>): seq<Row>
    decreases |oracles|
  {
    if oracles == [] then rows
    else
      PendingBounds(rows, 0);
      var batch := Batch(rows);
      Drains(DrainFrom(Drained(rows, [], 0), batch, Outcomes(|batch|, oracles[0])).rows, oracles[1..])
  }

  ghost function Outcomes(n: nat, delivers: nat -> bool): seq<Outcome> {
    seq(n, i requires 0 <= i < n => if delivers(i) then Delivers else FailsToMark)
  }

  lemma {:induction false} WorkNotNegative(rows: seq<Row>)
    requires Healthy(rows)
    ensures Work(rows) >= 0
  {
    if rows != [] { WorkNotNegative(rows[..|rows| - 1]); }
  }

  lemma {:induction false} NoWorkLeft(rows: seq<Row>, i: nat)
    requires Healthy(rows) && Work(rows) == 0 && i < |rows|
    ensures !Due(rows[i])
  {
    var init := rows[..|rows| - 1];
    WorkNotNegative(init);
    if i < |init| { NoWorkLeft(init, i); }
  }

  lemma WorkBounds(rows: seq<Row>)
    requires Healthy(rows)
    ensures Work(rows) >= 0
    ensures Work(rows) == 0 ==> PendingFrom(rows, 0) == []
  {
    WorkNotNegative(rows);
    PendingBounds(rows, 0);
    var pending := PendingFrom(rows, 0);
    if pending != [] {
      assert Due(rows[pending[0]]);
      if Work(rows) == 0 { NoWorkLeft(rows, pending[0]); }
    }
  }

  /**
   No row gets stuck: whatever deliveries fail, after as many recorded drains as there are
   attempts left no row is pending any more.
   */
  lemma {:induction false} DrainsFinish(rows: seq<Row>, oracles: seq<nat -> bool>)
    requires Healthy(rows) && |oracles| >= Work(rows)
    ensures PendingFrom(Drains(rows, oracles), 0) == []
    decreases |oracles|
  {
    WorkBounds(rows);
    PendingBounds(rows, 0);
    var batch := Batch(rows);
    if oracles != [] {
      DrainProgress(Drained(rows, [], 0), batch, Outcomes(|batch|, oracles[0]));
      var after := DrainFrom(Drained(rows, [], 0), batch, Outcomes(|batch|, oracles[0])).rows;
      if batch == [] { assert Work(rows) == 0 by { NoPendingNoWork(rows); } }
      DrainsFinish(after, oracles[1..]);
    }
  }

  lemma {:induction false} NoPendingNoWork(rows: seq<Row>)
    requires Healthy(rows) && PendingFrom(rows, 0) == []
    ensures Work(rows) == 0
  {
    if rows != [] {
      var n := |rows| - 1;
      if Due(rows[n]) { PendingFound(rows, 0, n); }
      PendingBounds(rows[..n], 0);
      if PendingFrom(rows[..n], 0) != [] { PendingFound(rows, 0, PendingFrom(rows[..n], 0)[0]); }
      NoPendingNoWork(rows[..n]);
    }
  }

  // ----- what one drain does to each row -----

  /** The batch of a drain: the committed pending rows with fewer than ten attempts, in order, and a hundred of them at most. */
  lemma BatchExact(rows: seq<Row>)
    ensures var batch := Batch(rows);
      && (forall j :: 0 <= j < |batch| ==> batch[j] < |rows|)
      && (forall j, k :: 0 <= j < k < |batch| ==> batch[j] < batch[k])
      && |batch| <= 100
      && forall id: nat :: id < |rows| ==>
           (id in batch ==> rows[id].fate == Committed && rows[id].status == Pending && rows[id].attempts < 10)
           && (rows[id].fate == Committed && rows[id].status == Pending && rows[id].attempts < 10 && id !in batch ==>
                 |batch| == 100 && batch[99] < id)
  {
    var pending := PendingFrom(rows, 0);
    PendingBounds(rows, 0);
    assert forall i :: 0 <= i < |Batch(rows)| ==> Batch(rows)[i] == pending[i];
    forall id: nat | id < |rows| && Due(rows[id]) && id !in Batch(rows) ensures |Batch(rows)| == 100 && Batch(rows)[99] < id {
      PendingFound(rows, 0, id);
      var j :| 0 <= j < |pending| && pending[j] == id;
    }
  }

  /** How many rows of the batch are handled: the drain ends at the first write that fails altogether. */
  ghost function Reached(outcomes: seq<Outcome>): nat {
    if outcomes == [] || outcomes[0].Ends? then 0 else 1 + Reached(outcomes[1..])
  }

  /** What becomes of a row whose delivery went that way. */
  ghost predicate HandledTo(was: Row, outcome: Outcome, now: Row) {
    match outcome
    case Delivers => now == Row(was.fate, Published, was.attempts + 1)
    case FailsToMark => now == Row(was.fate, if was.attempts >= 9 then DeadLettered else Pending, was.attempts + 1)
    case Ends(_) => now == was
  }

  ghost predicate RowsHandled(rows: seq<Row>, batch: seq<nat>, outcomes: seq<Outcome>, now: seq<Row>)
    requires |outcomes| == |batch| && forall i :: 0 <= i < |batch| ==> batch[i] < |rows|
  {
    && |now| == |rows|
    && (forall i :: 0 <= i < |batch| && i < Reached(outcomes) ==> HandledTo(rows[batch[i]], outcomes[i], now[batch[i]]))
    && (forall id: nat :: id < |rows| && NotHandled(batch, Reached(outcomes), id) ==> now[id] == rows[id])
  }

  ghost predicate NotHandled(batch: seq<nat>, n: nat, id: nat) {
    forall i :: 0 <= i < |batch| && i < n ==> batch[i] != id
  }

  /** The rows emitted: those handled, and perhaps the one at which the drain ends. */
  ghost function Emits(batch: seq<nat>, outcomes: seq<Outcome>): seq<nat>
    requires |outcomes| == |batch|
  {
    if batch == [] || outcomes[0] == Ends(false) then []
    else if outcomes[0].Ends? then [batch[0]]
    else [batch[0]] + Emits(batch[1..], outcomes[1..])
  }

  /**
   Row by row: the rows of the batch are delivered or recorded as failed, up to the one where the
   drain ends, a row dead with its tenth failure; every other row is left as it is.
   */
  lemma {:induction false} DrainExact(s: Drained, batch: seq<nat>, outcomes: seq<Outcome>)
    requires |outcomes| == |batch| && Listed(s, batch)
    ensures RowsHandled(s.rows, batch, outcomes, DrainFrom(s, batch, outcomes).rows)
    ensures DrainFrom(s, batch, outcomes).emitted == s.emitted + Emits(batch, outcomes)
    decreases |batch|
  {
    if batch != [] && !outcomes[0].Ends? {
      var next := Handled(s, batch[0], s.rows[batch[0]].attempts, outcomes[0]);
      assert forall i :: 0 <= i < |batch[1..]| ==> batch[1..][i] == batch[i + 1];
      DrainExact(next, batch[1..], outcomes[1..]);
      LaterRows(s, batch, outcomes, next.rows, DrainFrom(s, batch, outcomes).rows);
      assert s.emitted + [batch[0]] + Emits(batch[1..], outcomes[1..]) == s.emitted + ([batch[0]] + Emits(batch[1..], outcomes[1..]));
    }
  }

  ghost predicate Listed(s: Drained, batch: seq<nat>) {
    && (forall i :: 0 <= i < |batch| ==> batch[i] < |s.rows|)
    && forall i, j :: 0 <= i < j < |batch| ==> batch[i] != batch[j]
  }

  lemma LaterRows(s: Drained, batch: seq<nat>, outcomes: seq<Outcome>, next: seq<Row>, now: seq<Row>)
    requires |outcomes| == |batch| && batch != [] && Listed(s, batch) && !outcomes[0].Ends?
    requires next == Handled(s, batch[0], s.rows[batch[0]].attempts, outcomes[0]).rows
    requires (forall i :: 0 <= i < |batch[1..]| ==> batch[1..][i] < |next|) && RowsHandled(next, batch[1..], outcomes[1..], now)
    ensures RowsHandled(s.rows, batch, outcomes, now)
  {
    var rest, n := batch[1..], Reached(outcomes);
    assert NotHandled(rest, n - 1, batch[0]);
    forall i | 0 < i < |batch| && i < n ensures HandledTo(s.rows[batch[i]], outcomes[i], now[batch[i]]) {
      assert rest[i - 1] == batch[i] && outcomes[1..][i - 1] == outcomes[i] && next[batch[i]] == s.rows[batch[i]];
    }
    forall id: nat | id < |s.rows| && NotHandled(batch, n, id) ensures now[id] == s.rows[id] {
      assert NotHandled(rest, n - 1, id) by { assert forall i :: 0 <= i < |rest| ==> rest[i] == batch[i + 1]; }
      assert batch[0] != id;
    }
  }

  // ----- transactions, and the drain as a run -----

  /** The end of a transaction decides exactly the rows it created: committed they are due, rolled back they never are. */
  lemma TransactionExact(events: seq<Event>, t: nat, ends: Event)
    requires ends == Commit(t) || ends == Rollback(t)
    ensures var s, now := Run(events), Next(Run(events), ends);
      && now.emitted == s.emitted && |now.rows| == |s.rows| && t !in now.transactions
      && forall id: nat :: id < |s.rows| ==>
           if t in s.transactions && id in s.transactions[t]
           then s.rows[id].fate == Open && now.rows[id] == s.rows[id].(fate := if ends.Commit? then Committed else RolledBack)
                && (Due(now.rows[id]) <==> ends.Commit? && s.rows[id].status == Pending)
           else now.rows[id] == s.rows[id]
  {
    RunKeeps(events);
    StartedOpen(Run(events), t);
  }

  /** An event published inside a transaction is one of its rows, for nobody to see yet; outside it is committed and due at once. */
  lemma PublishExact(events: seq<Event>, p: nat, tx: Option<nat>)
    requires p !in Run(events).publishers
    ensures var s, now, id := Run(events), Next(Run(events), Publish(p, tx)), |Run(events).rows|;
      && |now.rows| == id + 1 && now.rows[..id] == s.rows && now.emitted == s.emitted
      && (tx.Some? ==>
            && now.rows[id] == Row(Open, Pending, 0) && !Due(now.rows[id]) && now.publishers == s.publishers
            && tx.value in now.transactions
            && now.transactions[tx.value] == {id} + (if tx.value in s.transactions then s.transactions[tx.value] else {}))
      && (tx.None? ==>
            && now.rows[id] == Row(Committed, Pending, 0) && Due(now.rows[id]) && now.transactions == s.transactions
            && now.publishers == s.publishers[p := Publisher(id, false)])
  {
  }

  ghost function Play(s: State, events: seq<Event>): State
    decreases |events|
  {
    if events == [] then s else Play(Next(s, events[0]), events[1..])
  }

  /** The steps of a drain whose deliveries go that way. */
  ghost function Moves(d: nat, outcomes: seq<Outcome>): seq<Event> {
    if outcomes == [] then []
    else
      match outcomes[0]
      case Delivers => [EmitNext(d), MarkNext(d, true)] + Moves(d, outcomes[1..])
      case FailsToMark => [EmitNext(d), MarkNext(d, false), RecordNext(d, true)] + Moves(d, outcomes[1..])
      case Ends(true) => [EmitNext(d), DrainDies(d)]
      case Ends(false) => [DrainDies(d)]
  }

  lemma {:induction false} PlayAppend(s: State, es: seq<Event>, fs: seq<Event>)
    ensures Play(s, es + fs) == Play(Play(s, es), fs)
    decreases |es|
  {
    if es == [] {
      assert es + fs == fs;
    } else {
      assert (es + fs)[1..] == es[1..] + fs;
      PlayAppend(Next(s, es[0]), es[1..], fs);
    }
  }

  /** The drain is at a row of its batch, and has read the rest as it still is. */
  ghost predicate InStep(s: State, d: nat, batch: seq<nat>, position: nat) {
    && position <= |batch| && d in s.drains && |s.drains[d].batch| == |batch|
    && s.drains[d].position == position && s.drains[d].progress == ToEmit
    && (forall i, j :: 0 <= i < j < |batch| ==> batch[i] != batch[j])
    && forall i :: 0 <= i < |batch| ==>
         s.drains[d].batch[i].0 == batch[i] < |s.rows| && (i >= position ==> s.drains[d].batch[i].1 == s.rows[batch[i]].attempts)
  }

  lemma OneDelivery(s: State, d: nat, batch: seq<nat>, position: nat, outcome: Outcome)
    requires InStep(s, d, batch, position) && position < |batch| && !outcome.Ends?
    ensures var id := batch[position];
      var t := Play(s, if outcome.Delivers? then [EmitNext(d), MarkNext(d, true)] else [EmitNext(d), MarkNext(d, false), RecordNext(d, true)]);
      && t.rows == (if outcome.Delivers? then Marked(s.rows, id) else Recorded(s.rows, id, s.rows[id].attempts))
      && t.emitted == s.emitted + [id] && InStep(t, d, batch, position + 1)
  {
    var emitted := Next(s, EmitNext(d));
    assert Busy(s, d, ToEmit) && Busy(emitted, d, ToMark);
    if outcome.Delivers? {
      PlayTwo(s, EmitNext(d), MarkNext(d, true));
    } else {
      PlayThree(s, EmitNext(d), MarkNext(d, false), RecordNext(d, true));
      assert Busy(Next(emitted, MarkNext(d, false)), d, ToRecord);
    }
  }

  lemma PlayTwo(s: State, a: Event, b: Event)
    ensures Play(s, [a, b]) == Next(Next(s, a), b)
  {
    assert [a, b][1..] == [b] && [b][1..] == [];
    assert Play(Next(s, a), [b]) == Play(Next(Next(s, a), b), []);
  }

  lemma PlayThree(s: State, a: Event, b: Event, c: Event)
    ensures Play(s, [a, b, c]) == Next(Next(Next(s, a), b), c)
  {
    assert [a, b, c][1..] == [b, c];
    PlayTwo(Next(s, a), b, c);
  }

  lemma {:induction false} DrainGoesOn(s: State, d: nat, batch: seq<nat>, position: nat, outcomes: seq<Outcome>, delivered: nat)
    requires InStep(s, d, batch, position) && |outcomes| == |batch| - position
    ensures var t, u := Play(s, Moves(d, outcomes)), DrainFrom(Drained(s.rows, s.emitted, delivered), batch[position..], outcomes);
      t.rows == u.rows && t.emitted == u.emitted
    decreases |outcomes|
  {
    if outcomes != [] {
      var id, rest := batch[position], batch[position..];
      assert rest[0] == id && rest[1..] == batch[position + 1..];
      if outcomes[0].Ends? {
        LastDelivery(s, d, batch, position, outcomes[0].emitted);
      } else {
        var steps := if outcomes[0].Delivers? then [EmitNext(d), MarkNext(d, true)] else [EmitNext(d), MarkNext(d, false), RecordNext(d, true)];
        OneDelivery(s, d, batch, position, outcomes[0]);
        PlayAppend(s, steps, Moves(d, outcomes[1..]));
        DrainGoesOn(Play(s, steps), d, batch, position + 1, outcomes[1..], if outcomes[0].Delivers? then delivered + 1 else delivered);
      }
    }
  }

  lemma LastDelivery(s: State, d: nat, batch: seq<nat>, position: nat, emitted: bool)
    requires InStep(s, d, batch, position) && position < |batch|
    ensures var t := Play(s, Moves(d, [Ends(emitted)]));
      t.rows == s.rows && t.emitted == if emitted then s.emitted + [batch[position]] else s.emitted
  {
    assert Busy(s, d, ToEmit);
    if emitted { PlayTwo(s, EmitNext(d), DrainDies(d)); } else { assert Play(Next(s, DrainDies(d)), []) == Next(s, DrainDies(d)); }
  }

  /** A drain that nothing interrupts is its steps one after another. */
  lemma DrainIsRun(s: State, d: nat, outcomes: seq<Outcome>)
    requires d !in s.drains && |outcomes| == |Batch(s.rows)|
    ensures Listed(Drained(s.rows, s.emitted, 0), Batch(s.rows))
    ensures var t, u := Play(Next(s, Begin(d)), Moves(d, outcomes)), DrainFrom(Drained(s.rows, s.emitted, 0), Batch(s.rows), outcomes);
      t.rows == u.rows && t.emitted == u.emitted
  {
    PendingBounds(s.rows, 0);
    BatchExact(s.rows);
    var batch := Batch(s.rows);
    assert batch[0..] == batch;
    DrainGoesOn(Next(s, Begin(d)), d, batch, 0, outcomes, 0);
  }
}
