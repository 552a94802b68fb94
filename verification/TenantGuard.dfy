/**
 The tenant guard: every query on a tenant-owned model is narrowed to the organization of the
 request, and every row it creates is stamped with it.
 */
module TenantGuard {
  import opened Options

  datatype Operation =
    | FindUnique | FindUniqueOrThrow | FindFirst | FindFirstOrThrow | FindMany
    | Update | UpdateMany | Delete | DeleteMany | Upsert | Count | Aggregate | GroupBy
    | Create | CreateMany

  const WHERE_OPERATIONS := {FindUnique, FindUniqueOrThrow, FindFirst, FindFirstOrThrow, FindMany,
                             Update, UpdateMany, Delete, DeleteMany, Upsert, Count, Aggregate, GroupBy}
  const CREATE_OPERATIONS := {Create, CreateMany, Upsert}

  const GLOBAL_MODELS := {"User", "Session", "VerificationToken", "TeamMember", "TicketCounter", "RoundRobinCursor", "ApiRequestLog"}

  type Fields = map<string, int>

  datatype RowId = RowId(model: string, id: nat)

  datatype Row = Row(organization: nat, fields: Fields)

  type Store = map<RowId, Row>

  /** A `where` clause: at most one condition on the organization, any condition on the rest of the row. */
  datatype Where = Where(organization: Option<nat>, rest: (nat, Fields) -> bool)

  /** Columns to write; the organization may be among them. */
  datatype Payload = Payload(organization: Option<nat>, fields: Fields)

  datatype NewRow = NewRow(id: nat, payload: Payload)

  /** `data` is what updates write; `creates` what creates insert, one row except for `createMany`. */
  datatype Args = Args(where: Where, data: Payload, creates: seq<NewRow>)

  datatype Context = Context(organization: Option<nat>, systemBypass: bool)

  datatype Guarded = Run(args: Args) | MissingOrganization

  /** `withOrganization` are the models whose schema has an organization column. */
  predicate IsTenantModel(model: string, withOrganization: set<string>) {
    model in withOrganization && model !in GLOBAL_MODELS
  }

  function Stamped(rows: seq<NewRow>, organization: nat): seq<NewRow> {
    seq(|rows|, i requires 0 <= i < |rows| => rows[i].(payload := rows[i].payload.(organization := Some(organization))))
  }

  function Guard(context: Context, model: string, withOrganization: set<string>, operation: Operation, args: Args): Guarded {
    if !IsTenantModel(model, withOrganization) || context.systemBypass then Run(args)
    else if context.organization.None? then MissingOrganization
    else
      var organization := context.organization.value;
      Run(Args(if operation in WHERE_OPERATIONS then args.where.(organization := Some(organization)) else args.where,
               args.data,
               if operation in CREATE_OPERATIONS then Stamped(args.creates, organization) else args.creates))
  }

  method StampRows(rows: seq<NewRow>, organization: nat) returns (stamped: seq<NewRow>)
    ensures stamped == Stamped(rows, organization)
  {
    stamped := [];
    for i := 0 to |rows|
      invariant |stamped| == i
      invariant forall j :: 0 <= j < i ==> stamped[j] == rows[j].(payload := rows[j].payload.(organization := Some(organization)))
    {
      stamped := stamped + [rows[i].(payload := rows[i].payload.(organization := Some(organization)))];
    }
  }

  method Intercept(context: Context, model: string, withOrganization: set<string>, operation: Operation, args: Args)
    returns (result: Guarded)
    ensures result == Guard(context, model, withOrganization, operation, args)
  {
    if !(model in withOrganization && model !in GLOBAL_MODELS) { return Run(args); }
    if context.systemBypass { return Run(args); }
    if context.organization.None? { return MissingOrganization; }
    var organization, next := context.organization.value, args;
    if operation in WHERE_OPERATIONS {
      next := next.(where := next.where.(organization := Some(organization)));
    }
    if operation in CREATE_OPERATIONS {
      var stamped := StampRows(next.creates, organization);
      next := next.(creates := stamped);
    }
    result := Run(next);
  }

  // ----- what the store does with a query -----

  predicate Matches(where: Where, model: string, k: RowId, row: Row) {
    k.model == model && (where.organization.Some? ==> row.organization == where.organization.value)
    && where.rest(k.id, row.fields)
  }

  ghost function Matched(db: Store, model: string, where: Where): map<nat, Fields> {
    map k | k in db && Matches(where, model, k, db[k]) :: k.id := db[k].fields
  }

  function Written(row: Row, data: Payload): Row {
    Row(if data.organization.Some? then data.organization.value else row.organization, row.fields + data.fields)
  }

  datatype Result =
    | Answer(value: seq<int>)
    | Changed(rows: map<nat, Fields>)
    | NotFound
    | UniqueViolation
    | Refused

  ghost function UpdateMatched(db: Store, model: string, args: Args): Store {
    map k | k in db :: if Matches(args.where, model, k, db[k]) then Written(db[k], args.data) else db[k]
  }

  ghost function DeleteMatched(db: Store, model: string, args: Args): Store {
    map k | k in db && !Matches(args.where, model, k, db[k]) :: db[k]
  }

  ghost predicate CanInsert(db: Store, model: string, rows: seq<NewRow>) {
    && (forall i :: 0 <= i < |rows| ==> RowId(model, rows[i].id) !in db && rows[i].payload.organization.Some?)
    && (forall i, j :: 0 <= i < j < |rows| ==> rows[i].id != rows[j].id)
  }

  ghost function Inserted(db: Store, model: string, rows: seq<NewRow>): Store
    requires forall i :: 0 <= i < |rows| ==> rows[i].payload.organization.Some?
    decreases |rows|
  {
    if rows == [] then db
    else Inserted(db[RowId(model, rows[0].id) := Row(rows[0].payload.organization.value, rows[0].payload.fields)], model, rows[1..])
  }

  ghost function Insert(db: Store, model: string, rows: seq<NewRow>): (Store, Result) {
    if CanInsert(db, model, rows) then (Inserted(db, model, rows), Changed(map[])) else (db, UniqueViolation)
  }

  /** `read` is whatever a reading operation computes from the rows it sees: order, page, count or aggregate. */
  ghost function Execute(db: Store, model: string, operation: Operation, args: Args, read: map<nat, Fields> -> seq<int>): (Store, Result) {
    var matched := Matched(db, model, args.where);
    match operation
    case Create => Insert(db, model, args.creates)
    case CreateMany => Insert(db, model, args.creates)
    case Update => if matched == map[] then (db, NotFound) else (UpdateMatched(db, model, args), Changed(matched))
    case UpdateMany => (UpdateMatched(db, model, args), Changed(matched))
    case Delete => if matched == map[] then (db, NotFound) else (DeleteMatched(db, model, args), Changed(matched))
    case DeleteMany => (DeleteMatched(db, model, args), Changed(matched))
    case Upsert =>
      if matched == map[] then Insert(db, model, args.creates) else (UpdateMatched(db, model, args), Changed(matched))
    case _ => (db, Answer(read(matched)))
  }

  /** One guarded query by an organization on a tenant model. */
  datatype Action = Action(organization: nat, model: string, operation: Operation, args: Args, read: map<nat, Fields> -> seq<int>)

  ghost function Perform(db: Store, a: Action, withOrganization: set<string>): (Store, Result) {
    match Guard(Context(Some(a.organization), false), a.model, withOrganization, a.operation, a.args)
    case Run(args) => Execute(db, a.model, a.operation, args, a.read)
    case MissingOrganization => (db, Refused)
  }
}

/**
 `Confined`: a guarded query leaves the rows of other organizations alone if and only if the
 update it carries out does not reassign rows. `Noninterference`: in any run of guarded queries
 an organization gets the answers it would get if it were alone.
 */
module TenantGuardProofs {
  import opened Options
  import opened TenantGuard

  /** The rows of one organization. */
  ghost function View(db: Store, organization: nat): Store {
    map k | k in db && db[k].organization == organization :: db[k]
  }

  /** Ids are globally unique: every id, present or future, belongs to one organization. */
  ghost predicate Owned(db: Store, owner: RowId -> nat) {
    forall k :: k in db ==> db[k].organization == owner(k)
  }

  ghost predicate FreshIds(a: Action, owner: RowId -> nat) {
    forall i :: 0 <= i < |a.args.creates| ==> owner(RowId(a.model, a.args.creates[i].id)) == a.organization
  }

  ghost predicate Updates(operation: Operation) {
    operation in {Update, UpdateMany, Upsert}
  }

  /** The update payload does not carry the organization. */
  ghost predicate KeepsOrganization(a: Action) {
    Updates(a.operation) ==> a.args.data.organization.None?
  }

  ghost predicate Admissible(a: Action, withOrganization: set<string>, owner: RowId -> nat) {
    IsTenantModel(a.model, withOrganization) && KeepsOrganization(a) && FreshIds(a, owner)
  }

  /** A guarded query without a context organization is refused before it reaches the store. */
  lemma NoContextNoQuery(model: string, withOrganization: set<string>, operation: Operation, args: Args)
    ensures Guard(Context(None, false), model, withOrganization, operation, args) == MissingOrganization
      <==> IsTenantModel(model, withOrganization)
  {
  }

  /** Insertions of stamped rows add the same rows to any two stores. */
  lemma {:induction false} InsertedSame(db1: Store, db2: Store, model: string, rows: seq<NewRow>, organization: nat)
    requires forall i :: 0 <= i < |rows| ==> rows[i].payload.organization == Some(organization)
    requires View(db1, organization) == View(db2, organization)
    ensures View(Inserted(db1, model, rows), organization) == View(Inserted(db2, model, rows), organization)
    decreases |rows|
  {
    if rows != [] {
      var k, row := RowId(model, rows[0].id), Row(organization, rows[0].payload.fields);
      assert View(db1[k := row], organization) == View(db1, organization)[k := row];
      assert View(db2[k := row], organization) == View(db2, organization)[k := row];
      InsertedSame(db1[k := row], db2[k := row], model, rows[1..], organization);
    }
  }

  lemma {:induction false} InsertedOthers(db: Store, model: string, rows: seq<NewRow>, organization: nat, other: nat, owner: RowId -> nat)
    requires forall i :: 0 <= i < |rows| ==> rows[i].payload.organization == Some(organization)
    requires forall i :: 0 <= i < |rows| ==> owner(RowId(model, rows[i].id)) == organization
    requires Owned(db, owner) && other != organization
    ensures View(Inserted(db, model, rows), other) == View(db, other)
    ensures Owned(Inserted(db, model, rows), owner)
    decreases |rows|
  {
    if rows != [] {
      var k, row := RowId(model, rows[0].id), Row(organization, rows[0].payload.fields);
      assert View(db[k := row], other) == View(db, other);
      InsertedOthers(db[k := row], model, rows[1..], organization, other, owner);
    }
  }

  lemma MatchedSame(db1: Store, db2: Store, model: string, where: Where, organization: nat)
    requires where.organization == Some(organization) && View(db1, organization) == View(db2, organization)
    ensures Matched(db1, model, where) == Matched(db2, model, where)
  {
    var v := View(db1, organization);
    assert forall k :: k in db1 && Matches(where, model, k, db1[k]) <==> k in v && Matches(where, model, k, v[k]);
    assert forall k :: k in db2 && Matches(where, model, k, db2[k]) <==> k in v && Matches(where, model, k, v[k]);
    var m1, m2 := Matched(db1, model, where), Matched(db2, model, where);
    forall id ensures id in m1 <==> id in m2 {
      var k := RowId(model, id);
      assert id in m1 ==> k in v && Matches(where, model, k, v[k]);
      assert id in m2 ==> k in v && Matches(where, model, k, v[k]);
    }
    forall id | id in m1 ensures m1[id] == m2[id] {
      var k := RowId(model, id);
      assert m1[id] == db1[k].fields && m2[id] == db2[k].fields && v[k] == db1[k] && v[k] == db2[k];
    }
  }

  lemma ViewSame(db1: Store, db2: Store, organization: nat, k: RowId)
    requires View(db1, organization) == View(db2, organization)
    ensures k in db1 && db1[k].organization == organization <==> k in db2 && db2[k].organization == organization
    ensures k in db1 && db1[k].organization == organization ==> db1[k] == db2[k]
  {
    assert k in View(db1, organization) <==> k in View(db2, organization);
    assert k in View(db1, organization) ==> View(db1, organization)[k] == View(db2, organization)[k];
  }

  lemma UpdateSame(db1: Store, db2: Store, model: string, args: Args, organization: nat)
    requires args.where.organization == Some(organization) && args.data.organization.None?
    requires View(db1, organization) == View(db2, organization)
    ensures View(UpdateMatched(db1, model, args), organization) == View(UpdateMatched(db2, model, args), organization)
  {
    forall k ensures k in db1 && db1[k].organization == organization <==> k in db2 && db2[k].organization == organization {
      ViewSame(db1, db2, organization, k);
    }
    forall k | k in db1 && db1[k].organization == organization ensures db1[k] == db2[k] { ViewSame(db1, db2, organization, k); }
  }

  lemma DeleteSame(db1: Store, db2: Store, model: string, args: Args, organization: nat)
    requires args.where.organization == Some(organization) && View(db1, organization) == View(db2, organization)
    ensures View(DeleteMatched(db1, model, args), organization) == View(DeleteMatched(db2, model, args), organization)
  {
    forall k ensures k in db1 && db1[k].organization == organization <==> k in db2 && db2[k].organization == organization {
      ViewSame(db1, db2, organization, k);
    }
    forall k | k in db1 && db1[k].organization == organization ensures db1[k] == db2[k] { ViewSame(db1, db2, organization, k); }
  }

  lemma ChangeOthers(db: Store, model: string, args: Args, organization: nat, other: nat)
    requires args.where.organization == Some(organization) && other != organization
    ensures args.data.organization.None? ==> View(UpdateMatched(db, model, args), other) == View(db, other)
    ensures View(DeleteMatched(db, model, args), other) == View(db, other)
  {
  }

  ghost function Rewritten(a: Action, withOrganization: set<string>): Args
    requires IsTenantModel(a.model, withOrganization)
  {
    Guard(Context(Some(a.organization), false), a.model, withOrganization, a.operation, a.args).args
  }

  /** Two outcomes an organization cannot tell apart. */
  ghost predicate Agree(p: (Store, Result), q: (Store, Result), organization: nat) {
    p.1 == q.1 && View(p.0, organization) == View(q.0, organization)
  }

  /** Rows stamped with the organization, under ids that are its own. */
  ghost predicate Stamps(rows: seq<NewRow>, model: string, organization: nat, owner: RowId -> nat) {
    forall i :: 0 <= i < |rows| ==>
      rows[i].payload.organization == Some(organization) && owner(RowId(model, rows[i].id)) == organization
  }

  lemma InsertSame(db1: Store, db2: Store, model: string, rows: seq<NewRow>, organization: nat, owner: RowId -> nat)
    requires Stamps(rows, model, organization, owner)
    requires Owned(db1, owner) && Owned(db2, owner) && View(db1, organization) == View(db2, organization)
    ensures Agree(Insert(db1, model, rows), Insert(db2, model, rows), organization)
  {
    forall i | 0 <= i < |rows| ensures RowId(model, rows[i].id) in db1 <==> RowId(model, rows[i].id) in db2 {
      var k := RowId(model, rows[i].id);
      assert k in db1 ==> k in View(db1, organization);
      assert k in db2 ==> k in View(db2, organization);
    }
    InsertedSame(db1, db2, model, rows, organization);
  }

  lemma UpdatesSame(
      db1: Store, db2: Store, model: string, operation: Operation, args: Args, read: map<nat, Fields> -> seq<int>, organization: nat)
    requires operation in {Update, UpdateMany} && args.where.organization == Some(organization) && args.data.organization.None?
    requires View(db1, organization) == View(db2, organization)
    ensures Agree(Execute(db1, model, operation, args, read), Execute(db2, model, operation, args, read), organization)
  {
    MatchedSame(db1, db2, model, args.where, organization);
    UpdateSame(db1, db2, model, args, organization);
  }

  lemma DeletesSame(
      db1: Store, db2: Store, model: string, operation: Operation, args: Args, read: map<nat, Fields> -> seq<int>, organization: nat)
    requires operation in {Delete, DeleteMany} && args.where.organization == Some(organization)
    requires View(db1, organization) == View(db2, organization)
    ensures Agree(Execute(db1, model, operation, args, read), Execute(db2, model, operation, args, read), organization)
  {
    MatchedSame(db1, db2, model, args.where, organization);
    DeleteSame(db1, db2, model, args, organization);
  }

  lemma UpsertSame(
      db1: Store, db2: Store, model: string, args: Args, read: map<nat, Fields> -> seq<int>, organization: nat, owner: RowId -> nat)
    requires args.where.organization == Some(organization) && args.data.organization.None?
    requires Stamps(args.creates, model, organization, owner)
    requires Owned(db1, owner) && Owned(db2, owner) && View(db1, organization) == View(db2, organization)
    ensures Agree(Execute(db1, model, Upsert, args, read), Execute(db2, model, Upsert, args, read), organization)
  {
    MatchedSame(db1, db2, model, args.where, organization);
    if Matched(db1, model, args.where) == map[] {
      InsertSame(db1, db2, model, args.creates, organization, owner);
    } else {
      UpdateSame(db1, db2, model, args, organization);
    }
  }

  lemma ReadsSame(
      db1: Store, db2: Store, model: string, operation: Operation, args: Args, read: map<nat, Fields> -> seq<int>, organization: nat)
    requires !Updates(operation) && operation !in {Delete, DeleteMany, Create, CreateMany}
    requires args.where.organization == Some(organization) && View(db1, organization) == View(db2, organization)
    ensures Agree(Execute(db1, model, operation, args, read), Execute(db2, model, operation, args, read), organization)
  {
    MatchedSame(db1, db2, model, args.where, organization);
  }

  lemma ExecuteSame(db1: Store, db2: Store, a: Action, args: Args, owner: RowId -> nat)
    requires a.operation in WHERE_OPERATIONS ==> args.where.organization == Some(a.organization)
    requires a.operation in CREATE_OPERATIONS ==> Stamps(args.creates, a.model, a.organization, owner)
    requires Updates(a.operation) ==> args.data.organization.None?
    requires Owned(db1, owner) && Owned(db2, owner) && View(db1, a.organization) == View(db2, a.organization)
    ensures Agree(Execute(db1, a.model, a.operation, args, a.read), Execute(db2, a.model, a.operation, args, a.read), a.organization)
  {
    if a.operation in {Create, CreateMany} {
      InsertSame(db1, db2, a.model, args.creates, a.organization, owner);
    } else if a.operation == Upsert {
      UpsertSame(db1, db2, a.model, args, a.read, a.organization, owner);
    } else if Updates(a.operation) {
      UpdatesSame(db1, db2, a.model, a.operation, args, a.read, a.organization);
    } else if a.operation in {Delete, DeleteMany} {
      DeletesSame(db1, db2, a.model, a.operation, args, a.read, a.organization);
    } else {
      ReadsSame(db1, db2, a.model, a.operation, args, a.read, a.organization);
    }
  }

  /** What a guarded query answers, and what it does to the organization's rows, depends on those rows only. */
  lemma PerformSame(db1: Store, db2: Store, a: Action, withOrganization: set<string>, owner: RowId -> nat)
    requires Admissible(a, withOrganization, owner) && Owned(db1, owner) && Owned(db2, owner)
    requires View(db1, a.organization) == View(db2, a.organization)
    ensures Agree(Perform(db1, a, withOrganization), Perform(db2, a, withOrganization), a.organization)
  {
    ExecuteSame(db1, db2, a, Rewritten(a, withOrganization), owner);
  }

  /** What holds of a store that another organization has just changed. */
  ghost predicate Untouched(before: Store, after: Store, owner: RowId -> nat, other: nat) {
    View(after, other) == View(before, other) && Owned(after, owner)
  }

  lemma InsertOthers(db: Store, model: string, rows: seq<NewRow>, organization: nat, owner: RowId -> nat, other: nat)
    requires Stamps(rows, model, organization, owner) && Owned(db, owner) && other != organization
    ensures Untouched(db, Insert(db, model, rows).0, owner, other)
  {
    if CanInsert(db, model, rows) { InsertedOthers(db, model, rows, organization, other, owner); }
  }

  lemma UpdateOthers(db: Store, model: string, args: Args, organization: nat, owner: RowId -> nat, other: nat)
    requires args.where.organization == Some(organization) && args.data.organization.None?
    requires Owned(db, owner) && other != organization
    ensures Untouched(db, UpdateMatched(db, model, args), owner, other)
  {
    ChangeOthers(db, model, args, organization, other);
  }

  lemma DeleteOthers(db: Store, model: string, args: Args, organization: nat, owner: RowId -> nat, other: nat)
    requires args.where.organization == Some(organization) && Owned(db, owner) && other != organization
    ensures Untouched(db, DeleteMatched(db, model, args), owner, other)
  {
    ChangeOthers(db, model, args, organization, other);
  }

  /** A guarded query changes no row of another organization. */
  lemma PerformOthers(db: Store, a: Action, withOrganization: set<string>, owner: RowId -> nat, other: nat)
    requires Admissible(a, withOrganization, owner) && Owned(db, owner) && other != a.organization
    ensures View(Perform(db, a, withOrganization).0, other) == View(db, other)
    ensures Owned(Perform(db, a, withOrganization).0, owner)
  {
    var args := Rewritten(a, withOrganization);
    if a.operation in CREATE_OPERATIONS { InsertOthers(db, a.model, args.creates, a.organization, owner, other); }
    if Updates(a.operation) { UpdateOthers(db, a.model, args, a.organization, owner, other); }
    if a.operation in {Delete, DeleteMany} { DeleteOthers(db, a.model, args, a.organization, owner, other); }
  }

  lemma UpdateConfined(db: Store, model: string, args: Args, organization: nat)
    requires args.where.organization == Some(organization) && Matched(db, model, args.where) != map[]
    ensures (forall other :: other != organization ==> View(UpdateMatched(db, model, args), other) == View(db, other))
      <==> args.data.organization in {None, Some(organization)}
  {
    var matched := Matched(db, model, args.where);
    if args.data.organization in {None, Some(organization)} {
      forall other | other != organization ensures View(UpdateMatched(db, model, args), other) == View(db, other) {}
    } else {
      var other := args.data.organization.value;
      var id :| id in matched;
      var k := RowId(model, id);
      assert k in View(UpdateMatched(db, model, args), other) && k !in View(db, other);
    }
  }

  /** Creating rows stamped with the organization under unused ids touches nobody else's. */
  lemma {:induction false} InsertedConfined(db: Store, model: string, rows: seq<NewRow>, organization: nat, other: nat)
    requires forall i :: 0 <= i < |rows| ==> rows[i].payload.organization == Some(organization) && RowId(model, rows[i].id) !in db
    requires forall i, j :: 0 <= i < j < |rows| ==> rows[i].id != rows[j].id
    requires other != organization
    ensures View(Inserted(db, model, rows), other) == View(db, other)
    decreases |rows|
  {
    if rows != [] {
      var k, row := RowId(model, rows[0].id), Row(organization, rows[0].payload.fields);
      assert View(db[k := row], other) == View(db, other);
      InsertedConfined(db[k := row], model, rows[1..], organization, other);
    }
  }

  /**
   An update, also that of an upsert, leaves every other organization's rows as they are if and
   only if its payload does not name another organization, or it matches no row.
   */
  lemma Confined(db: Store, a: Action, withOrganization: set<string>)
    requires IsTenantModel(a.model, withOrganization) && Updates(a.operation)
    ensures (forall other :: other != a.organization ==> View(Perform(db, a, withOrganization).0, other) == View(db, other))
      <==> a.args.data.organization in {None, Some(a.organization)}
           || Matched(db, a.model, Rewritten(a, withOrganization).where) == map[]
  {
    var args := Rewritten(a, withOrganization);
    var matched := Matched(db, a.model, args.where);
    if matched != map[] {
      UpdateConfined(db, a.model, args, a.organization);
    } else if a.operation == Upsert {
      forall other | other != a.organization ensures View(Insert(db, a.model, args.creates).0, other) == View(db, other) {
        if CanInsert(db, a.model, args.creates) { InsertedConfined(db, a.model, args.creates, a.organization, other); }
      }
    } else {
      assert forall k :: k in db && Matches(args.where, a.model, k, db[k]) ==> k.id in matched;
      assert UpdateMatched(db, a.model, args) == db;
    }
  }

  // ----- what a guarded query still does -----

  /** The query is about the organization's own rows: its clause names no other one, and the rows to create carry it. */
  ghost predicate AboutOwn(a: Action) {
    && a.args.where.organization in {None, Some(a.organization)}
    && forall i :: 0 <= i < |a.args.creates| ==> a.args.creates[i].payload.organization == Some(a.organization)
  }

  /** Two clauses that pick the same rows of a store. */
  ghost predicate SamePick(db: Store, model: string, a: Where, b: Where) {
    forall k :: k in db ==> (Matches(a, model, k, db[k]) <==> Matches(b, model, k, db[k]))
  }

  lemma PicksSame(db: Store, model: string, operation: Operation, args: Args, other: Args, read: map<nat, Fields> -> seq<int>)
    requires SamePick(db, model, args.where, other.where) && args.data == other.data && args.creates == other.creates
    ensures Execute(db, model, operation, args, read) == Execute(db, model, operation, other, read)
  {
    var m, n := Matched(db, model, args.where), Matched(db, model, other.where);
    forall id ensures id in m <==> id in n {
      var k := RowId(model, id);
      assert id in m ==> k in db && Matches(args.where, model, k, db[k]);
      assert id in n ==> k in db && Matches(other.where, model, k, db[k]);
    }
    forall id | id in m ensures m[id] == n[id] { assert m[id] == db[RowId(model, id)].fields == n[id]; }
    assert m == n;
    assert UpdateMatched(db, model, args) == UpdateMatched(db, model, other);
    assert DeleteMatched(db, model, args) == DeleteMatched(db, model, other);
  }

  /** Of the organization's own rows the guard picks those the caller asked for, and it leaves the rest of the query as it is. */
  lemma GuardAsAsked(db: Store, a: Action, withOrganization: set<string>)
    requires IsTenantModel(a.model, withOrganization) && AboutOwn(a)
    requires forall k :: k in db ==> db[k].organization == a.organization
    ensures Perform(db, a, withOrganization) == Execute(db, a.model, a.operation, a.args, a.read)
  {
    var args := Rewritten(a, withOrganization);
    assert args.creates == a.args.creates;
    PicksSame(db, a.model, a.operation, args, a.args, a.read);
  }

  /**
   A guarded query on the organization's own rows does what was asked: it answers, and changes
   those rows, as the query itself would on a store that holds nothing else.
   */
  lemma AsIfAlone(db: Store, a: Action, withOrganization: set<string>, owner: RowId -> nat)
    requires Admissible(a, withOrganization, owner) && AboutOwn(a) && Owned(db, owner)
    ensures var alone := Execute(View(db, a.organization), a.model, a.operation, a.args, a.read);
      && Perform(db, a, withOrganization).1 == alone.1
      && View(Perform(db, a, withOrganization).0, a.organization) == View(alone.0, a.organization)
  {
    var own := View(db, a.organization);
    assert View(own, a.organization) == own;
    PerformSame(db, own, a, withOrganization, owner);
    GuardAsAsked(own, a, withOrganization);
  }

  /** Rows to create keep their number, their order, their ids and their fields, and get the organization. */
  lemma CreatesKept(a: Action, withOrganization: set<string>)
    requires IsTenantModel(a.model, withOrganization) && a.operation in {Create, CreateMany, Upsert}
    ensures var rows := Guard(Context(Some(a.organization), false), a.model, withOrganization, a.operation, a.args).args.creates;
      && |rows| == |a.args.creates|
      && forall i :: 0 <= i < |rows| ==>
           rows[i] == NewRow(a.args.creates[i].id, Payload(Some(a.organization), a.args.creates[i].payload.fields))
  {
  }

  /** A system bypass, a model without the column and the seven global models pass unchanged; everything else needs an organization. */
  lemma ExemptExact(context: Context, model: string, withOrganization: set<string>, operation: Operation, args: Args)
    ensures var exempt := context.systemBypass || model !in withOrganization
        || model in {"User", "Session", "VerificationToken", "TeamMember", "TicketCounter", "RoundRobinCursor", "ApiRequestLog"};
      && (exempt ==> Guard(context, model, withOrganization, operation, args) == Run(args))
      && (Guard(context, model, withOrganization, operation, args) == MissingOrganization <==> !exempt && context.organization.None?)
  {
  }

  // ----- runs -----

  ghost function Final(db: Store, actions: seq<Action>, withOrganization: set<string>): Store
    decreases |actions|
  {
    if actions == [] then db
    else Final(Perform(db, actions[0], withOrganization).0, actions[1..], withOrganization)
  }

  /** What one organization is told during a run. */
  ghost function Answers(db: Store, actions: seq<Action>, organization: nat, withOrganization: set<string>): seq<Result>
    decreases |actions|
  {
    if actions == [] then []
    else
      var (next, result) := Perform(db, actions[0], withOrganization);
      (if actions[0].organization == organization then [result] else [])
      + Answers(next, actions[1..], organization, withOrganization)
  }

  ghost function Only(actions: seq<Action>, organization: nat): seq<Action> {
    if actions == [] then []
    else (if actions[0].organization == organization then [actions[0]] else []) + Only(actions[1..], organization)
  }

  /**
   In any run of guarded queries of many organizations, each of them gets exactly the answers,
   and ends with exactly the rows, that its own queries alone would give on a store that agrees
   with the first one on its rows.
   */
  lemma {:induction false} Noninterference(
      db: Store, alone: Store, actions: seq<Action>, organization: nat, withOrganization: set<string>, owner: RowId -> nat)
    requires forall i :: 0 <= i < |actions| ==> Admissible(actions[i], withOrganization, owner)
    requires Owned(db, owner) && Owned(alone, owner) && View(db, organization) == View(alone, organization)
    ensures Answers(db, actions, organization, withOrganization)
         == Answers(alone, Only(actions, organization), organization, withOrganization)
    ensures View(Final(db, actions, withOrganization), organization)
         == View(Final(alone, Only(actions, organization), withOrganization), organization)
    decreases |actions|
  {
    if actions != [] {
      var a, rest := actions[0], actions[1..];
      PerformOwned(db, a, withOrganization, owner);
      if a.organization == organization {
        PerformSame(db, alone, a, withOrganization, owner);
        PerformOwned(alone, a, withOrganization, owner);
        assert Only(actions, organization)[1..] == Only(rest, organization);
        Noninterference(Perform(db, a, withOrganization).0, Perform(alone, a, withOrganization).0,
                        rest, organization, withOrganization, owner);
      } else {
        PerformOthers(db, a, withOrganization, owner, organization);
        assert Only(actions, organization) == Only(rest, organization);
        Noninterference(Perform(db, a, withOrganization).0, alone, rest, organization, withOrganization, owner);
      }
    }
  }

  lemma PerformOwned(db: Store, a: Action, withOrganization: set<string>, owner: RowId -> nat)
    requires Admissible(a, withOrganization, owner) && Owned(db, owner)
    ensures Owned(Perform(db, a, withOrganization).0, owner)
  {
    PerformOthers(db, a, withOrganization, owner, a.organization + 1);
  }

  /** In particular a run of other organizations' queries leaves an organization's rows unchanged. */
  lemma OthersChangeNothing(db: Store, actions: seq<Action>, organization: nat, withOrganization: set<string>, owner: RowId -> nat)
    requires forall i :: 0 <= i < |actions| ==>
      Admissible(actions[i], withOrganization, owner) && actions[i].organization != organization
    requires Owned(db, owner)
    ensures View(Final(db, actions, withOrganization), organization) == View(db, organization)
  {
    Noninterference(db, db, actions, organization, withOrganization, owner);
    OnlyNone(actions, organization);
  }

  lemma {:induction false} OnlyNone(actions: seq<Action>, organization: nat)
    requires forall i :: 0 <= i < |actions| ==> actions[i].organization != organization
    ensures Only(actions, organization) == []
  {
    if actions != [] { OnlyNone(actions[1..], organization); }
  }
}
