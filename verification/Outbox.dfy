/**
 The transactional outbox: events are rows first, and are emitted by their publisher or by the
 relay. Rows are numbered in the order they occurred, and a row created inside a transaction is
 there for nobody else until that transaction commits. Any process can die between two database
 calls, a write can fail, and several drains may overlap once a slow one has lost its lock.
 */
module Outbox {
  import opened Options
  import opened Integers

  const BATCH_SIZE := 100
  const MAX_ATTEMPTS := 10

  datatype Status = Pending | Published | DeadLettered

  /** What became of the transaction that created a row. */
  datatype Fate = Open | Committed | RolledBack

  datatype Row = Row(fate: Fate, status: Status, attempts: nat)

  /** A row a drain would pick up: others see it, it is pending, and it has attempts left. */
  predicate Due(row: Row) {
    row.fate == Committed && row.status == Pending && row.attempts < MAX_ATTEMPTS
  }

  /** Rows a drain would pick up, oldest first, counting from `i`. */
  function PendingFrom(rows: seq<Row>, i: nat): seq<nat>
    decreases |rows| - i
  {
    if i >= |rows| then []
    else (if Due(rows[i]) then [i] else []) + PendingFrom(rows, i + 1)
  }

  function Batch(rows: seq<Row>): seq<nat> {
    var pending := PendingFrom(rows, 0);
    pending[..Min(BATCH_SIZE, |pending|)]
  }

  /** The relay's note that a row was delivered: an increment of whatever is stored. */
  function Marked(rows: seq<Row>, id: nat): seq<Row>
    requires id < |rows|
  {
    rows[id := rows[id].(status := Published, attempts := rows[id].attempts + 1)]
  }

  /** The relay's note that delivery failed, computed from the attempts it read with the batch. */
  function Recorded(rows: seq<Row>, id: nat, read: nat): seq<Row>
    requires id < |rows|
  {
    rows[id := rows[id].(status := if read + 1 >= MAX_ATTEMPTS then DeadLettered else Pending, attempts := read + 1)]
  }

  // ----- one drain, undisturbed -----

  /** How the delivery of one row goes: marked, recorded as a failure, or the drain ends there. */
  datatype Outcome = Delivers | FailsToMark | Ends(emitted: bool)

  datatype Drained = Drained(rows: seq<Row>, emitted: seq<nat>, delivered: nat)

  /** One row of the batch, read with `read` attempts. */
  function Handled(s: Drained, id: nat, read: nat, outcome: Outcome): Drained
    requires id < |s.rows|
  {
    match outcome
    case Delivers => Drained(Marked(s.rows, id), s.emitted + [id], s.delivered + 1)
    case FailsToMark => Drained(Recorded(s.rows, id, read), s.emitted + [id], s.delivered)
    case Ends(emitted) => if emitted then s.(emitted := s.emitted + [id]) else s
  }

  function DrainFrom(s: Drained, batch: seq<nat>, outcomes: seq<Outcome>): Drained
    requires |outcomes| == |batch| && forall i :: 0 <= i < |batch| ==> batch[i] < |s.rows|
    decreases |batch|
  {
    if batch == [] then s
    else
      var next := Handled(s, batch[0], s.rows[batch[0]].attempts, outcomes[0]);
      if outcomes[0].Ends? then next else DrainFrom(next, batch[1..], outcomes[1..])
  }

  lemma {:induction false} PendingBounds(rows: seq<Row>, i: nat)
    ensures forall j :: 0 <= j < |PendingFrom(rows, i)| ==>
      i <= PendingFrom(rows, i)[j] < |rows| && Due(rows[PendingFrom(rows, i)[j]])
    ensures forall j, k :: 0 <= j < k < |PendingFrom(rows, i)| ==> PendingFrom(rows, i)[j] < PendingFrom(rows, i)[k]
    decreases |rows| - i
  {
    if i < |rows| { PendingBounds(rows, i + 1); }
  }

  class Relay {
    var rows: seq<Row>
    ghost var emitted: seq<nat>

    method FindPending() returns (batch: seq<nat>)
      ensures batch == Batch(rows)
    {
      batch := [];
      var i := 0;
      while i < |rows| && |batch| < BATCH_SIZE
        invariant i <= |rows| && |batch| <= BATCH_SIZE
        invariant batch + PendingFrom(rows, i) == PendingFrom(rows, 0)
      {
        if rows[i].fate == Committed && rows[i].status == Pending && rows[i].attempts < MAX_ATTEMPTS {
          batch := batch + [i];
        }
        i := i + 1;
      }
    }

    /** The delivery of one row, with the note of its outcome; `read` are its attempts when the batch was read. */
    method Deliver(id: nat, read: nat, outcome: Outcome, delivered: nat) returns (now: nat)
      requires id < |rows|
      modifies this
      ensures Drained(rows, emitted, now) == Handled(Drained(old(rows), old(emitted), delivered), id, read, outcome)
    {
      now := delivered;
      if outcome == Ends(false) { return; }
      emitted := emitted + [id];
      match outcome {
        case Ends(_) =>
        case Delivers =>
          rows := Marked(rows, id);
          now := now + 1;
        case FailsToMark =>
          var attempts := read + 1;
          rows := rows[id := rows[id].(status := if attempts >= MAX_ATTEMPTS then DeadLettered else Pending, attempts := attempts)];
      }
    }

    /** `outcomes[i]` says how delivering the i-th row of the batch goes. */
    method Drain(outcomes: seq<Outcome>) returns (delivered: nat)
      requires |outcomes| == |Batch(rows)|
      modifies this
      ensures Drained(rows, emitted, delivered)
           == (PendingBounds(old(rows), 0);
               DrainFrom(Drained(old(rows), old(emitted), 0), Batch(old(rows)), outcomes))
    {
      var pending := FindPending();
      PendingBounds(rows, 0);
      var snapshot := rows;
      ghost var result := DrainFrom(Drained(rows, emitted, 0), pending, outcomes);
      delivered := 0;
      for i := 0 to |pending|
        invariant |rows| == |snapshot| && forall j :: i <= j < |pending| ==> rows[pending[j]] == snapshot[pending[j]]
        invariant DrainFrom(Drained(rows, emitted, delivered), pending[i..], outcomes[i..]) == result
      {
        assert pending[i..][1..] == pending[i + 1..] && outcomes[i..][1..] == outcomes[i + 1..];
        delivered := Deliver(pending[i], snapshot[pending[i]].attempts, outcomes[i], delivered);
        if outcomes[i].Ends? { return; }
      }
    }
  }

  // ----- everything interleaved -----

  /** A publisher outside a transaction: its row is committed, and then emitted. */
  datatype Publisher = Publisher(id: nat, emitted: bool)

  /** A drain: what it read, how far it is, and whether the current row was emitted or its mark failed. */
  datatype Progress = ToEmit | ToMark | ToRecord

  datatype Drain = Drain(batch: seq<(nat, nat)>, position: nat, progress: Progress)

  /** `transactions` are the open ones, each with the rows it has created. */
  datatype State = State(
    rows: seq<Row>, emitted: seq<nat>, transactions: map<nat, set<nat>>, publishers: map<nat, Publisher>, drains: map<nat, Drain>)

  datatype Event =
    | Publish(p: nat, tx: Option<nat>)
    | Commit(t: nat)
    | Rollback(t: nat)
    | EmitOwn(p: nat)
    | MarkOwn(p: nat, ok: bool)
    | Begin(d: nat)
    | EmitNext(d: nat)
    | MarkNext(d: nat, ok: bool)
    | RecordNext(d: nat, ok: bool)
    | PublisherDies(p: nat)
    | DrainDies(d: nat)

  function Started(s: State, t: nat): set<nat> {
    if t in s.transactions then s.transactions[t] else {}
  }

  /** The end of a transaction decides the rows it created. */
  function Settled(rows: seq<Row>, ids: set<nat>, fate: Fate): seq<Row> {
    seq(|rows|, i requires 0 <= i < |rows| => if i in ids then rows[i].(fate := fate) else rows[i])
  }

  /** The first part of `publish`: inside a transaction it is all of it. */
  function Recording(s: State, p: nat, tx: Option<nat>): State {
    match tx
    case Some(t) =>
      s.(rows := s.rows + [Row(Open, Pending, 0)], transactions := s.transactions[t := Started(s, t) + {|s.rows|}])
    case None =>
      s.(rows := s.rows + [Row(Committed, Pending, 0)], publishers := s.publishers[p := Publisher(|s.rows|, false)])
  }

  function Snapshot(rows: seq<Row>, ids: seq<nat>): seq<(nat, nat)>
    requires forall i :: 0 <= i < |ids| ==> ids[i] < |rows|
  {
    seq(|ids|, i requires 0 <= i < |ids| => (ids[i], rows[ids[i]].attempts))
  }

  predicate Busy(s: State, d: nat, progress: Progress) {
    d in s.drains && s.drains[d].progress == progress && s.drains[d].position < |s.drains[d].batch|
    && s.drains[d].batch[s.drains[d].position].0 < |s.rows|
  }

  function Next(s: State, e: Event): State {
    match e
    case Publish(p, tx) => if p in s.publishers then s else Recording(s, p, tx)
    case Commit(t) => s.(rows := Settled(s.rows, Started(s, t), Committed), transactions := s.transactions - {t})
    case Rollback(t) => s.(rows := Settled(s.rows, Started(s, t), RolledBack), transactions := s.transactions - {t})
    case EmitOwn(p) =>
      if p in s.publishers && !s.publishers[p].emitted then
        s.(emitted := s.emitted + [s.publishers[p].id], publishers := s.publishers[p := s.publishers[p].(emitted := true)])
      else s
    case MarkOwn(p, ok) =>
      if p in s.publishers && s.publishers[p].emitted && s.publishers[p].id < |s.rows| then
        var id := s.publishers[p].id;
        s.(rows := if ok then s.rows[id := s.rows[id].(status := Published, attempts := 1)] else s.rows,
           publishers := s.publishers - {p})
      else s
    case Begin(d) =>
      if d in s.drains then s
      else
        PendingBounds(s.rows, 0);
        s.(drains := s.drains[d := Drain(Snapshot(s.rows, Batch(s.rows)), 0, ToEmit)])
    case EmitNext(d) =>
      if Busy(s, d, ToEmit) then
        s.(emitted := s.emitted + [s.drains[d].batch[s.drains[d].position].0],
           drains := s.drains[d := s.drains[d].(progress := ToMark)])
      else s
    case MarkNext(d, ok) =>
      if Busy(s, d, ToMark) then
        if ok then
          s.(rows := Marked(s.rows, s.drains[d].batch[s.drains[d].position].0),
             drains := s.drains[d := s.drains[d].(position := s.drains[d].position + 1, progress := ToEmit)])
        else s.(drains := s.drains[d := s.drains[d].(progress := ToRecord)])
      else s
    case RecordNext(d, ok) =>
      if Busy(s, d, ToRecord) then
        if ok then
          var (id, read) := s.drains[d].batch[s.drains[d].position];
          s.(rows := Recorded(s.rows, id, read),
             drains := s.drains[d := s.drains[d].(position := s.drains[d].position + 1, progress := ToEmit)])
        else s.(drains := s.drains - {d})
      else s
    case PublisherDies(p) => s.(publishers := s.publishers - {p})
    case DrainDies(d) => s.(drains := s.drains - {d})
  }

  ghost function Run(events: seq<Event>): State {
    if events == [] then State([], [], map[], map[], map[]) else Next(Run(events[..|events| - 1]), events[|events| - 1])
  }

  class EventBus {
    var rows: seq<Row>
    var transactions: map<nat, set<nat>>
    ghost var emitted: seq<nat>
    ghost var publishers: map<nat, Publisher>
    ghost var drains: map<nat, Drain>

    ghost function View(): State
      reads this
    {
      State(rows, emitted, transactions, publishers, drains)
    }

    /** `publish` when nothing interrupts it; `marks` says whether the last update succeeds. */
    method PublishEvent(p: nat, tx: Option<nat>, marks: bool) returns (id: nat)
      requires p !in publishers
      modifies this
      ensures tx.Some? ==> View() == Next(old(View()), Publish(p, tx))
      ensures tx.None? ==> View() == Next(Next(Next(old(View()), Publish(p, tx)), EmitOwn(p)), MarkOwn(p, marks))
      ensures id == |old(rows)|
    {
      id := |rows|;
      rows := rows + [Row(if tx.Some? then Open else Committed, Pending, 0)];
      if tx.Some? {
        var mine := if tx.value in transactions then transactions[tx.value] else {};
        transactions := transactions[tx.value := mine + {id}];
        return;
      }
      emitted := emitted + [id];
      if marks {
        rows := rows[id := rows[id].(status := Published, attempts := 1)];
      }
      publishers := publishers - {p};
    }
  }
}
