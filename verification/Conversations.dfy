/**
 The life of one conversation row: status changes, assignment, transfer and messages.

 Every operation of the service reads the row first and writes it later, so a write is given both
 the row it changes and the snapshot its decisions were made on.
 */
module Conversations {
  import opened Options

  datatype Status = New | Queued | Assigned | Active | Waiting | Resolved | Closed
  datatype AssigneeType = Nobody | User | AiAgent
  datatype Direction = Inbound | Outbound | Internal
  datatype Author = ByUser | ByAiAgent | BySystem | ByCustomer

  datatype Message = Message(externalId: Option<string>, direction: Direction, author: Author, at: int)

  datatype Row = Row(
    status: Status,
    assigneeType: AssigneeType,
    assigneeId: Option<nat>,
    aiAgentId: Option<nat>,
    aiHandled: bool,
    queueId: Option<nat>,
    teamId: Option<nat>,
    queuedAt: Option<int>,
    assignedAt: Option<int>,
    waitingSince: Option<int>,
    resolvedAt: Option<int>,
    closedAt: Option<int>,
    firstResponseAt: Option<int>,
    messageCount: nat,
    messages: seq<Message>)

  /** `member` says whether the user asked for belongs to the organization. */
  datatype Op =
    | SetStatus(to: Status)
    | AssignUser(userId: nat, member: bool, queue: Option<nat>)
    | AssignAi(agentId: nat, queue: Option<nat>)
    | Unassign(queue: Option<nat>)
    | TransferToUser(user: nat, isMember: bool)
    | TransferToQueue(team: Option<nat>, toQueue: Option<nat>)
    | AddMessage(externalId: Option<string>, direction: Direction, author: Author)

  datatype Reply = Updated | Unchanged | IllegalTransition | NotMember | DuplicateMessage

  function NewRow(queue: Option<nat>): Row {
    Row(New, Nobody, None, None, false, queue, None, None, None, None, None, None, None, 0, [])
  }

  /** The table of legal transitions. */
  function Transitions(from: Status): seq<Status> {
    match from
    case New => [Queued, Assigned, Active, Closed]
    case Queued => [Assigned, Active, Resolved, Closed]
    case Assigned => [Active, Queued, Waiting, Resolved, Closed]
    case Active => [Waiting, Queued, Assigned, Resolved, Closed]
    case Waiting => [Active, Assigned, Queued, Resolved, Closed]
    case Resolved => [Active, Closed]
    case Closed => [Active]
  }

  predicate CanTransition(from: Status, to: Status) {
    from == to || to in Transitions(from)
  }

  function OrElse<T>(first: Option<T>, second: Option<T>): Option<T> {
    if first.Some? then first else second
  }

  predicate IsDuplicate(messages: seq<Message>, externalId: Option<string>) {
    externalId.Some? && externalId.value != "" && exists k :: 0 <= k < |messages| && messages[k].externalId == externalId
  }

  predicate IsAgentReply(direction: Direction, author: Author) {
    direction.Outbound? && (author.ByUser? || author.ByAiAgent?)
  }

  /** What the operation answers, decided on the snapshot alone. */
  function Answer(snap: Row, op: Op): Reply {
    match op
    case SetStatus(to) => if !CanTransition(snap.status, to) then IllegalTransition else if snap.status == to then Unchanged else Updated
    case AssignUser(_, member, _) => if member then Updated else NotMember
    case TransferToUser(_, member) => if member then Updated else NotMember
    case AddMessage(externalId, _, _) => if IsDuplicate(snap.messages, externalId) then DuplicateMessage else Updated
    case _ => Updated
  }

  function WriteStatus(row: Row, snap: Row, to: Status, at: int): Row {
    row.(status := to,
         queuedAt := if to.Queued? then Some(at) else row.queuedAt,
         waitingSince := if to.Waiting? then Some(at) else if to.Active? then None else row.waitingSince,
         resolvedAt := if to.Resolved? then Some(at) else if to.Closed? then OrElse(snap.resolvedAt, Some(at)) else row.resolvedAt,
         closedAt := if to.Closed? then Some(at) else row.closedAt)
  }

  function WriteAssignee(row: Row, snap: Row, kind: AssigneeType, id: Option<nat>, queue: Option<nat>, at: int): Row {
    row.(assigneeType := kind,
         assigneeId := id,
         aiAgentId := if kind.AiAgent? then id else snap.aiAgentId,
         aiHandled := kind.AiAgent? || snap.aiHandled,
         assignedAt := if kind.Nobody? then None else Some(at),
         status := if kind.Nobody? then Queued else Assigned,
         queueId := OrElse(queue, row.queueId),
         queuedAt := if kind.Nobody? then Some(at) else row.queuedAt)
  }

  function WriteMessage(row: Row, snap: Row, message: Message): Row {
    var inbound := message.direction.Inbound?;
    row.(messages := row.messages + [message],
         messageCount := row.messageCount + 1,
         firstResponseAt :=
           if IsAgentReply(message.direction, message.author) && snap.firstResponseAt.None? then Some(message.at) else row.firstResponseAt,
         status := if inbound && snap.status.Waiting? then Active else if inbound && snap.status.New? then Queued else row.status,
         waitingSince := if inbound && snap.status.Waiting? then None else row.waitingSince,
         queuedAt := if inbound && snap.status.New? then Some(message.at) else row.queuedAt)
  }

  function Write(row: Row, snap: Row, op: Op, at: int): Row {
    if !Answer(snap, op).Updated? then row
    else
      match op
      case SetStatus(to) => WriteStatus(row, snap, to, at)
      case AssignUser(userId, _, queue) => WriteAssignee(row, snap, User, Some(userId), queue, at)
      case AssignAi(agentId, queue) => WriteAssignee(row, snap, AiAgent, Some(agentId), queue, at)
      case Unassign(queue) => WriteAssignee(row, snap, Nobody, None, queue, at)
      case TransferToUser(userId, _) => WriteAssignee(row, snap, User, Some(userId), None, at)
      case TransferToQueue(team, queue) =>
        row.(assigneeType := Nobody, assigneeId := None, teamId := OrElse(team, snap.teamId), queueId := OrElse(queue, snap.queueId),
             status := Queued, queuedAt := Some(at))
      case AddMessage(externalId, direction, author) => WriteMessage(row, snap, Message(externalId, direction, author, at))
  }

  /** An operation that nothing interrupts. */
  function Exec(row: Row, op: Op, at: int): Row {
    Write(row, row, op, at)
  }

  class Conversation {
    var row: Row

    constructor (queue: Option<nat>)
      ensures row == NewRow(queue)
    {
      row := NewRow(queue);
    }

    method ChangeStatus(to: Status, now: int) returns (reply: Reply)
      modifies this
      ensures row == Exec(old(row), SetStatus(to), now) && reply == Answer(old(row), SetStatus(to))
    {
      var from := row.status;
      if !CanTransition(from, to) { return IllegalTransition; }
      if from == to { return Unchanged; }
      row := row.(status := to);
      if to == Queued { row := row.(queuedAt := Some(now)); }
      if to == Waiting { row := row.(waitingSince := Some(now)); }
      if to == Active { row := row.(waitingSince := None); }
      if to == Resolved { row := row.(resolvedAt := Some(now)); }
      if to == Closed {
        row := row.(closedAt := Some(now));
        if row.resolvedAt.None? { row := row.(resolvedAt := Some(now)); }
      }
      return Updated;
    }

    /** `kind` Nobody stands for a null assignee. */
    method Assign(kind: AssigneeType, id: nat, member: bool, queue: Option<nat>, now: int) returns (reply: Reply)
      modifies this
      ensures var op := match kind
          case User => AssignUser(id, member, queue) case AiAgent => AssignAi(id, queue) case Nobody => Unassign(queue);
        row == Exec(old(row), op, now) && reply == Answer(old(row), op)
    {
      if kind == User && !member { return NotMember; }
      if kind == Nobody {
        row := row.(assigneeType := Nobody, assigneeId := None, assignedAt := None, status := Queued, queuedAt := Some(now));
      } else {
        row := row.(assigneeType := kind, assigneeId := Some(id), assignedAt := Some(now), status := Assigned);
        if kind == AiAgent { row := row.(aiAgentId := Some(id), aiHandled := true); }
      }
      if queue.Some? { row := row.(queueId := queue); }
      return Updated;
    }

    method Transfer(user: Option<nat>, member: bool, team: Option<nat>, queue: Option<nat>, now: int) returns (reply: Reply)
      modifies this
      ensures var op := if user.Some? then TransferToUser(user.value, member) else TransferToQueue(team, queue);
        row == Exec(old(row), op, now) && reply == Answer(old(row), op)
    {
      if user.Some? {
        reply := Assign(User, user.value, member, None, now);
      } else {
        row := row.(assigneeType := Nobody, assigneeId := None, status := Queued, queuedAt := Some(now));
        if team.Some? { row := row.(teamId := team); }
        if queue.Some? { row := row.(queueId := queue); }
        reply := Updated;
      }
    }

    method Receive(externalId: Option<string>, direction: Direction, author: Author, now: int) returns (reply: Reply)
      modifies this
      ensures row == Exec(old(row), AddMessage(externalId, direction, author), now)
      ensures reply == Answer(old(row), AddMessage(externalId, direction, author))
    {
      if IsDuplicate(row.messages, externalId) { return DuplicateMessage; }
      var isFirstAgentReply := direction == Outbound && row.firstResponseAt.None? && (author == ByUser || author == ByAiAgent);
      row := row.(messages := row.messages + [Message(externalId, direction, author, now)], messageCount := row.messageCount + 1);
      if isFirstAgentReply { row := row.(firstResponseAt := Some(now)); }
      if direction == Inbound {
        if row.status == Waiting {
          row := row.(status := Active, waitingSince := None);
        } else if row.status == New {
          row := row.(status := Queued, queuedAt := Some(now));
        }
      }
      return Updated;
    }
  }
}

/** What holds of every conversation, however its operations overlap, and what only holds when they do not. */
module ConversationProofs {
  import opened Options
  import opened Conversations

  /** An operation that has read the row at time `at` and not yet written it. */
  datatype Pending = Pending(op: Op, snap: Row, at: int)

  datatype System = System(row: Row, pending: seq<Pending>, clock: int)

  datatype Event = Begin(op: Op, at: int) | Commit(k: nat)

  /** Time does not go back; an operation writes once. */
  function Step(s: System, e: Event): System {
    match e
    case Begin(op, at) => if at < s.clock then s else System(s.row, s.pending + [Pending(op, s.row, at)], at)
    case Commit(k) =>
      if k >= |s.pending| then s
      else
        var p := s.pending[k];
        System(Write(s.row, p.snap, p.op, p.at), s.pending[..k] + s.pending[k + 1..], s.clock)
  }

  function Run(s: System, events: seq<Event>): System
    decreases events
  {
    if events == [] then s else Run(Step(s, events[0]), events[1..])
  }

  function Start(queue: Option<nat>, clock: int): System {
    System(NewRow(queue), [], clock)
  }

  ghost predicate Before(time: Option<int>, limit: int) {
    time.Some? ==> time.value <= limit
  }

  /** The marks a status implies. */
  ghost predicate Marked(row: Row) {
    && (row.status.Queued? ==> row.queuedAt.Some?)
    && (row.status.Waiting? ==> row.waitingSince.Some?)
    && (row.status.Active? ==> row.waitingSince.None?)
    && (row.status.Resolved? || row.status.Closed? ==> row.resolvedAt.Some?)
    && (row.status.Closed? ==> row.closedAt.Some? && row.closedAt.value >= row.resolvedAt.value)
    && (row.status.New? ==> row.assigneeType.Nobody? && row.queuedAt.None? && row.waitingSince.None? && row.resolvedAt.None?)
  }

  ghost predicate Assigns(row: Row) {
    && (row.assigneeId.None? <==> row.assigneeType.Nobody?)
    && (row.assigneeType.AiAgent? ==> row.aiHandled && row.aiAgentId == row.assigneeId)
    && (!row.assigneeType.Nobody? ==> row.assignedAt.Some?)
  }

  ghost predicate IsReplyAt(m: Message, at: int) {
    IsAgentReply(m.direction, m.author) && m.at == at
  }

  /** The counter counts, and the first response is timed exactly when an agent's reply is stored, by such a reply. */
  ghost predicate Counted(row: Row) {
    && row.messageCount == |row.messages|
    && (row.firstResponseAt.Some? ==> exists m :: m in row.messages && IsReplyAt(m, row.firstResponseAt.value))
    && (forall m :: m in row.messages && IsAgentReply(m.direction, m.author) ==> row.firstResponseAt.Some?)
  }

  ghost predicate Sound(row: Row) {
    Marked(row) && Assigns(row) && Counted(row)
  }

  ghost predicate Consistent(s: System, p: Pending) {
    && Before(p.snap.resolvedAt, p.at)
    && p.at <= s.clock
    && (p.snap.firstResponseAt.Some? ==> s.row.firstResponseAt.Some?)
  }

  ghost predicate Inv(s: System) {
    && Sound(s.row)
    && Before(s.row.resolvedAt, s.clock)
    && forall k :: 0 <= k < |s.pending| ==> Consistent(s, s.pending[k])
  }

  /** What one write needs of its snapshot. */
  ghost predicate Fits(row: Row, snap: Row, at: int) {
    Before(snap.resolvedAt, at) && (snap.firstResponseAt.Some? ==> row.firstResponseAt.Some?)
  }

  lemma WriteKeepsMarked(row: Row, snap: Row, op: Op, at: int)
    requires Marked(row) && Fits(row, snap, at)
    ensures Marked(Write(row, snap, op, at))
    ensures Before(Write(row, snap, op, at).resolvedAt, at) || Write(row, snap, op, at).resolvedAt == row.resolvedAt
  {
  }

  lemma WriteKeepsAssigns(row: Row, snap: Row, op: Op, at: int)
    requires Assigns(row)
    ensures Assigns(Write(row, snap, op, at))
  {
  }

  lemma WriteKeepsCounted(row: Row, snap: Row, op: Op, at: int)
    requires Counted(row) && Fits(row, snap, at)
    ensures Counted(Write(row, snap, op, at))
    ensures row.firstResponseAt.Some? ==> Write(row, snap, op, at).firstResponseAt.Some?
  {
    var after := Write(row, snap, op, at);
    if op.AddMessage? && after != row {
      var message := Message(op.externalId, op.direction, op.author, at);
      assert after.messages == row.messages + [message];
      if after.firstResponseAt == row.firstResponseAt && row.firstResponseAt.Some? {
        var m :| m in row.messages && IsReplyAt(m, row.firstResponseAt.value);
        assert m in after.messages;
      } else if after.firstResponseAt.Some? {
        assert message in after.messages && IsReplyAt(message, at);
      }
    }
  }

  lemma StepKeeps(s: System, e: Event)
    requires Inv(s)
    ensures Inv(Step(s, e))
  {
    match e
    case Begin(op, at) =>
    case Commit(k) =>
      if k < |s.pending| {
        var p := s.pending[k];
        assert Consistent(s, p);
        WriteKeepsMarked(s.row, p.snap, p.op, p.at);
        WriteKeepsAssigns(s.row, p.snap, p.op, p.at);
        WriteKeepsCounted(s.row, p.snap, p.op, p.at);
        var t := Step(s, e);
        forall j | 0 <= j < |t.pending| ensures Consistent(t, t.pending[j]) {
          assert t.pending[j] == s.pending[if j < k then j else j + 1];
        }
      }
  }

  lemma {:induction false} RunKeeps(s: System, events: seq<Event>)
    requires Inv(s)
    ensures Inv(Run(s, events))
    decreases events
  {
    if events != [] {
      StepKeeps(s, events[0]);
      RunKeeps(Step(s, events[0]), events[1..]);
    }
  }

  /** Every conversation reached from creation is sound, however its operations overlap. */
  lemma EveryConversationIsSound(queue: Option<nat>, clock: int, events: seq<Event>)
    ensures Sound(Run(Start(queue, clock), events).row)
  {
    assert Inv(Start(queue, clock));
    RunKeeps(Start(queue, clock), events);
  }

  /** `new` is left for good. */
  lemma {:induction false} NewIsNeverReentered(s: System, events: seq<Event>)
    requires !s.row.status.New?
    ensures !Run(s, events).row.status.New?
    decreases events
  {
    if events != [] {
      assert forall snap: Row :: Answer(snap, SetStatus(New)).Updated? ==> New in Transitions(snap.status);
      NewIsNeverReentered(Step(s, events[0]), events[1..]);
    }
  }

  // ---- What operations write ----

  /** Who the operation hands the conversation to, if it takes effect: a user, an AI agent or nobody. */
  ghost function HandsTo(snap: Row, op: Op): Option<(AssigneeType, Option<nat>)> {
    match op
    case AssignUser(user, true, _) => Some((User, Some(user)))
    case TransferToUser(user, true) => Some((User, Some(user)))
    case AssignAi(agent, _) => Some((AiAgent, Some(agent)))
    case Unassign(_) => Some((Nobody, None))
    case TransferToQueue(_, _) => Some((Nobody, None))
    case _ => None
  }

  /** The last write of a run that hands the conversation to somebody, or to nobody. */
  ghost function Holder(s: System, events: seq<Event>, before: (AssigneeType, Option<nat>)): (AssigneeType, Option<nat>)
    decreases events
  {
    if events == [] then before
    else
      var e := events[0];
      var now := if e.Commit? && e.k < |s.pending| then HandsTo(s.pending[e.k].snap, s.pending[e.k].op) else None;
      Holder(Step(s, e), events[1..], if now.Some? then now.value else before)
  }

  /** In every interleaving the assignee is the one that the last such write names. */
  lemma {:induction false} HolderExact(s: System, events: seq<Event>)
    ensures var row := Run(s, events).row;
      (row.assigneeType, row.assigneeId) == Holder(s, events, (s.row.assigneeType, s.row.assigneeId))
    decreases events
  {
    if events != [] { HolderExact(Step(s, events[0]), events[1..]); }
  }

  /** The messages that the writes of a run store: those not known by their provider id when they were read. */
  ghost function Stored(s: System, events: seq<Event>): seq<Message>
    decreases events
  {
    if events == [] then []
    else
      var e, rest := events[0], Stored(Step(s, events[0]), events[1..]);
      if !(e.Commit? && e.k < |s.pending| && s.pending[e.k].op.AddMessage?) then rest
      else
        var p := s.pending[e.k];
        var known := p.op.externalId.Some? && p.op.externalId.value != ""
                     && exists m :: m in p.snap.messages && m.externalId == p.op.externalId;
        if known then rest else [Message(p.op.externalId, p.op.direction, p.op.author, p.at)] + rest
  }

  /** In every interleaving exactly these are stored, in the order of the writes. */
  lemma {:induction false} StoredExact(s: System, events: seq<Event>)
    ensures Run(s, events).row.messages == s.row.messages + Stored(s, events)
    decreases events
  {
    if events != [] {
      var e, t := events[0], Step(s, events[0]);
      StoredExact(t, events[1..]);
      if e.Commit? && e.k < |s.pending| && s.pending[e.k].op.AddMessage? {
        var p := s.pending[e.k];
        KnownMeaning(p.snap.messages, p.op.externalId);
        var message := Message(p.op.externalId, p.op.direction, p.op.author, p.at);
        assert t.row.messages == s.row.messages || t.row.messages == s.row.messages + [message];
        assert s.row.messages + [message] + Stored(t, events[1..]) == s.row.messages + ([message] + Stored(t, events[1..]));
      }
    }
  }

  lemma KnownMeaning(messages: seq<Message>, externalId: Option<string>)
    ensures IsDuplicate(messages, externalId) <==>
      externalId.Some? && externalId.value != "" && exists m :: m in messages && m.externalId == externalId
  {
    if m :| m in messages && m.externalId == externalId {
      var k :| 0 <= k < |messages| && messages[k] == m;
      assert messages[k].externalId == externalId;
    }
  }

  /** What a status change writes. */
  ghost predicate StatusWritten(row: Row, snap: Row, to: Status, at: int, after: Row) {
    && after.status == to
    && after.queuedAt == (if to == Queued then Some(at) else row.queuedAt)
    && after.waitingSince == (if to == Waiting then Some(at) else if to == Active then None else row.waitingSince)
    && after.closedAt == (if to == Closed then Some(at) else row.closedAt)
    && (to == Resolved ==> after.resolvedAt == Some(at))
    && (to == Closed ==> after.resolvedAt == if snap.resolvedAt.Some? then snap.resolvedAt else Some(at))
    && (to != Resolved && to != Closed ==> after.resolvedAt == row.resolvedAt)
  }

  /** What handing a conversation to a user or an AI agent, or back to its queue, writes. */
  ghost predicate HandedOver(row: Row, snap: Row, agent: Option<nat>, given: bool, queue: Option<nat>, at: int, after: Row) {
    && after.status == (if given then Assigned else Queued)
    && after.assignedAt == (if given then Some(at) else None)
    && after.queuedAt == (if given then row.queuedAt else Some(at))
    && after.queueId == (if queue.Some? then queue else row.queueId)
    && after.aiHandled == (agent.Some? || snap.aiHandled)
    && after.aiAgentId == (if agent.Some? then agent else snap.aiAgentId)
  }

  ghost predicate ReturnedToQueue(row: Row, snap: Row, team: Option<nat>, queue: Option<nat>, at: int, after: Row) {
    && after.status == Queued && after.queuedAt == Some(at) && after.assignedAt == row.assignedAt
    && after.teamId == (if team.Some? then team else snap.teamId)
    && after.queueId == (if queue.Some? then queue else snap.queueId)
  }

  /** A customer's message wakes a waiting conversation and queues a new one. */
  ghost predicate Woken(row: Row, snap: Row, direction: Direction, at: int, after: Row) {
    if direction == Inbound && snap.status == Waiting then after.status == Active && after.waitingSince == None && after.queuedAt == row.queuedAt
    else if direction == Inbound && snap.status == New then
      after.status == Queued && after.queuedAt == Some(at) && after.waitingSince == row.waitingSince
    else after.status == row.status && after.queuedAt == row.queuedAt && after.waitingSince == row.waitingSince
  }

  /** What an operation answers, decided on what it read. */
  lemma AnswerExact(snap: Row, op: Op)
    ensures var reply := Answer(snap, op);
      match op
      case SetStatus(to) => reply == if to == snap.status then Unchanged else if CanTransition(snap.status, to) then Updated else IllegalTransition
      case AssignUser(_, member, _) => reply == if member then Updated else NotMember
      case TransferToUser(_, member) => reply == if member then Updated else NotMember
      case AddMessage(id, _, _) =>
        reply == if id.Some? && id.value != "" && exists m :: m in snap.messages && m.externalId == id then DuplicateMessage else Updated
      case _ => reply == Updated
  {
    if op.AddMessage? { KnownMeaning(snap.messages, op.externalId); }
  }

  /** The first response is that of a user or an AI agent who writes to the customer. */
  lemma ReplyExact(row: Row, op: Op, at: int)
    requires op.AddMessage? && Answer(row, op).Updated?
    ensures Exec(row, op, at).firstResponseAt ==
      if row.firstResponseAt.None? && op.direction == Outbound && op.author in {ByUser, ByAiAgent} then Some(at) else row.firstResponseAt
  {
  }

  /** A conversation starts new, in the queue given, with nobody and nothing in it. */
  lemma StartExact(queue: Option<nat>, clock: int)
    ensures var row := Start(queue, clock).row;
      && row.status == New && row.queueId == queue && row.assigneeType == Nobody && row.assigneeId == None && row.teamId == None
      && row.messages == [] && row.messageCount == 0 && row.firstResponseAt == None && !row.aiHandled && row.aiAgentId == None
      && row.queuedAt == None && row.assignedAt == None && row.waitingSince == None && row.resolvedAt == None && row.closedAt == None
  {
  }

  /** The status a write leaves, and the marks, queue, team and AI agent it sets. */
  lemma WriteExact(row: Row, snap: Row, op: Op, at: int)
    ensures var after := Write(row, snap, op, at);
      match op
      case SetStatus(to) =>
        if to == snap.status || !CanTransition(snap.status, to) then after == row else StatusWritten(row, snap, to, at, after)
      case AssignUser(_, member, queue) => if !member then after == row else HandedOver(row, snap, None, true, queue, at, after)
      case TransferToUser(_, member) => if !member then after == row else HandedOver(row, snap, None, true, None, at, after)
      case AssignAi(agent, queue) => HandedOver(row, snap, Some(agent), true, queue, at, after)
      case Unassign(queue) => HandedOver(row, snap, None, false, queue, at, after)
      case TransferToQueue(team, queue) => ReturnedToQueue(row, snap, team, queue, at, after)
      case AddMessage(id, direction, _) =>
        if IsDuplicate(snap.messages, id) then after == row else Woken(row, snap, direction, at, after)
  {
  }

  /** And what no operation of its kind touches. */
  lemma WriteLeaves(row: Row, snap: Row, op: Op, at: int)
    ensures var after := Write(row, snap, op, at);
      && (!op.AddMessage? ==>
            after.messages == row.messages && after.messageCount == row.messageCount && after.firstResponseAt == row.firstResponseAt)
      && (op.SetStatus? || op.AddMessage? ==>
            && after.assigneeType == row.assigneeType && after.assigneeId == row.assigneeId && after.assignedAt == row.assignedAt
            && after.aiAgentId == row.aiAgentId && after.aiHandled == row.aiHandled && after.queueId == row.queueId)
      && (!op.SetStatus? ==> after.resolvedAt == row.resolvedAt && after.closedAt == row.closedAt)
      && (!op.SetStatus? && !op.AddMessage? ==> after.waitingSince == row.waitingSince)
      && (!op.TransferToQueue? ==> after.teamId == row.teamId)
  {
  }

  // ---- The transition table ----

  /** Nothing leads back to `new`; closed is only reopened; resolved is reopened or closed; nothing is resolved or put on hold before it was taken up. */
  lemma TableExact(from: Status, to: Status)
    ensures CanTransition(from, to) <==>
      from == to ||
      (to != New &&
       match from
       case New => to != Waiting && to != Resolved
       case Queued => to != Waiting
       case Resolved => to == Active || to == Closed
       case Closed => to == Active
       case _ => true)
  {
    assert to.New? || to.Queued? || to.Assigned? || to.Active? || to.Waiting? || to.Resolved? || to.Closed?;
  }

  /** An operation keeps to the table exactly when it does not assign or transfer a resolved or closed conversation. */
  lemma TableRespected(row: Row, op: Op, at: int)
    ensures CanTransition(row.status, Exec(row, op, at).status) <==>
            (op.SetStatus? || op.AddMessage? || !Answer(row, op).Updated? || row.status !in {Resolved, Closed})
  {
    assert row.status.New? || row.status.Queued? || row.status.Assigned? || row.status.Active?
        || row.status.Waiting? || row.status.Resolved? || row.status.Closed?;
  }

  /** What the row must be like when a write lands that was decided on another state of it. */
  predicate LandsLegally(row: Row, snap: Row, op: Op) {
    Answer(snap, op).Updated? ==>
      match op
      case SetStatus(to) => CanTransition(row.status, to)
      case AddMessage(_, direction, _) => !(direction.Inbound? && snap.status.New?) || row.status !in {Resolved, Closed}
      case _ => row.status !in {Resolved, Closed}
  }

  /** With stale reads too: exactly when a write keeps to the table. */
  lemma WriteRespectsTable(row: Row, snap: Row, op: Op, at: int)
    ensures CanTransition(row.status, Write(row, snap, op, at).status) <==> LandsLegally(row, snap, op)
  {
    forall to ensures CanTransition(row.status, to) <==> to == row.status || to in Transitions(row.status) {}
    assert row.status.New? || row.status.Queued? || row.status.Assigned? || row.status.Active?
        || row.status.Waiting? || row.status.Resolved? || row.status.Closed?;
  }

  // ---- Operations that do not overlap ----

  datatype Timed = Timed(op: Op, at: int)

  function Play(row: Row, steps: seq<Timed>): Row
    decreases steps
  {
    if steps == [] then row else Play(Exec(row, steps[0].op, steps[0].at), steps[1..])
  }

  /** An operation that nothing interrupts is a read followed at once by its write. */
  lemma ExecIsRun(row: Row, clock: int, op: Op, at: int)
    requires clock <= at
    ensures Run(System(row, [], clock), [Begin(op, at), Commit(0)]) == System(Exec(row, op, at), [], at)
  {
    var s := System(row, [], clock);
    var t := Step(s, Begin(op, at));
    assert t.pending == [Pending(op, row, at)];
    assert Step(t, Commit(0)) == System(Exec(row, op, at), [], at);
    assert [Begin(op, at), Commit(0)][1..] == [Commit(0)];
    assert [Commit(0)][1..] == [];
    assert Run(t, [Commit(0)]) == Run(Step(t, Commit(0)), []);
  }

  function FirstReply(messages: seq<Message>): Option<int> {
    if messages == [] then None
    else if IsAgentReply(messages[0].direction, messages[0].author) then Some(messages[0].at)
    else FirstReply(messages[1..])
  }

  lemma {:induction false} FirstReplyAppend(messages: seq<Message>, last: Message)
    ensures FirstReply(messages + [last]) ==
            if FirstReply(messages).Some? then FirstReply(messages)
            else if IsAgentReply(last.direction, last.author) then Some(last.at) else None
  {
    if messages == [] {
      assert [] + [last] == [last];
    } else {
      assert (messages + [last])[1..] == messages[1..] + [last];
      FirstReplyAppend(messages[1..], last);
    }
  }

  /** No provider id is stored twice. */
  ghost predicate NoRepeats(messages: seq<Message>) {
    forall i, j :: 0 <= i < j < |messages| && messages[i].externalId == messages[j].externalId ==>
      messages[i].externalId.None? || messages[i].externalId.value == ""
  }

  ghost predicate InOrder(row: Row) {
    row.firstResponseAt == FirstReply(row.messages) && NoRepeats(row.messages)
  }

  lemma ExecKeepsOrder(row: Row, op: Op, at: int)
    requires InOrder(row)
    ensures InOrder(Exec(row, op, at))
  {
    if op.AddMessage? {
      FirstReplyAppend(row.messages, Message(op.externalId, op.direction, op.author, at));
    }
  }

  /**
   What the row must be like when a message lands: the message is not there yet, and a reply taken
   for the first one finds no other.
   */
  ghost predicate LandsInOrder(row: Row, snap: Row, op: Op, at: int) {
    op.AddMessage? && Answer(snap, op).Updated? ==>
      && !IsDuplicate(row.messages, op.externalId)
      && (IsAgentReply(op.direction, op.author) && snap.firstResponseAt.None? ==> row.firstResponseAt in {None, Some(at)})
  }

  lemma NoRepeatsAppend(messages: seq<Message>, last: Message)
    requires NoRepeats(messages)
    ensures NoRepeats(messages + [last]) <==> !IsDuplicate(messages, last.externalId)
  {
    var all, n := messages + [last], |messages|;
    if IsDuplicate(messages, last.externalId) {
      var k :| 0 <= k < n && messages[k].externalId == last.externalId;
      assert all[k].externalId == all[n].externalId;
    }
  }

  /** Exactly when a write, its read stale or not, keeps the first response first and the messages apart. */
  lemma WriteKeepsOrder(row: Row, snap: Row, op: Op, at: int)
    requires InOrder(row) && (snap.firstResponseAt.Some? ==> row.firstResponseAt.Some?)
    ensures InOrder(Write(row, snap, op, at)) <==> LandsInOrder(row, snap, op, at)
  {
    if op.AddMessage? && Answer(snap, op).Updated? {
      var message := Message(op.externalId, op.direction, op.author, at);
      FirstReplyAppend(row.messages, message);
      NoRepeatsAppend(row.messages, message);
      assert Write(row, snap, op, at).messages == row.messages + [message];
    }
  }

  ghost predicate StepLands(s: System, e: Event) {
    e.Commit? && e.k < |s.pending| ==>
      var p := s.pending[e.k];
      LandsInOrder(s.row, p.snap, p.op, p.at)
  }

  ghost predicate AllLand(s: System, events: seq<Event>)
    decreases events
  {
    events != [] ==> StepLands(s, events[0]) && AllLand(Step(s, events[0]), events[1..])
  }

  ghost predicate AlwaysInOrder(s: System, events: seq<Event>)
    decreases events
  {
    InOrder(s.row) && (events != [] ==> AlwaysInOrder(Step(s, events[0]), events[1..]))
  }

  /**
   In every interleaving: the first response is the first agent reply, and no provider id is
   stored twice, all along the run if and only if every write lands on a row it still fits.
   */
  lemma {:induction false} OrderExact(s: System, events: seq<Event>)
    requires Inv(s) && InOrder(s.row)
    ensures AlwaysInOrder(s, events) <==> AllLand(s, events)
    decreases events
  {
    if events != [] {
      var e := events[0];
      StepKeeps(s, e);
      StepInOrder(s, e);
      if InOrder(Step(s, e).row) { OrderExact(Step(s, e), events[1..]); }
    }
  }

  lemma StepInOrder(s: System, e: Event)
    requires Inv(s) && InOrder(s.row)
    ensures InOrder(Step(s, e).row) <==> StepLands(s, e)
  {
    if e.Commit? && e.k < |s.pending| {
      var p := s.pending[e.k];
      assert Consistent(s, p);
      WriteKeepsOrder(s.row, p.snap, p.op, p.at);
    }
  }

  /** While operations do not overlap, the first response is the first agent reply, and redelivery stores nothing twice. */
  lemma {:induction false} SerialIsExact(row: Row, steps: seq<Timed>)
    requires InOrder(row)
    ensures InOrder(Play(row, steps))
    decreases steps
  {
    if steps != [] {
      ExecKeepsOrder(row, steps[0].op, steps[0].at);
      SerialIsExact(Exec(row, steps[0].op, steps[0].at), steps[1..]);
    }
  }

  lemma RunFour(s: System, a: Event, b: Event, c: Event, d: Event)
    ensures Run(s, [a, b, c, d]) == Step(Step(Step(Step(s, a), b), c), d)
  {
    assert [a, b, c, d][1..] == [b, c, d];
    assert [b, c, d][1..] == [c, d];
    assert [c, d][1..] == [d];
    assert [d][1..] == [];
    assert Run(Step(s, a), [b, c, d]) == Run(Step(Step(s, a), b), [c, d]);
    assert Run(Step(Step(s, a), b), [c, d]) == Run(Step(Step(Step(s, a), b), c), [d]);
  }

  /** Two replies, or two deliveries, that overlap: the later reply's time is kept, and the message is stored twice. */
  lemma OverlapBreaksOrder(id: string)
    requires id != ""
    ensures var reply := AddMessage(Some(id), Outbound, ByUser);
      var row := Run(Start(None, 0), [Begin(reply, 1), Begin(reply, 2), Commit(0), Commit(0)]).row;
      && row.firstResponseAt == Some(2) && FirstReply(row.messages) == Some(1)
      && !NoRepeats(row.messages)
  {
    var reply := AddMessage(Some(id), Outbound, ByUser);
    var s := Start(None, 0);
    RunFour(s, Begin(reply, 1), Begin(reply, 2), Commit(0), Commit(0));
    var both := Step(Step(s, Begin(reply, 1)), Begin(reply, 2));
    assert both.pending == [Pending(reply, s.row, 1), Pending(reply, s.row, 2)];
    var one := Step(both, Commit(0));
    assert one.pending == [Pending(reply, s.row, 2)];
    assert one.row.messages == [Message(Some(id), Outbound, ByUser, 1)];
    var two := Step(one, Commit(0));
    assert two.row.messages == [Message(Some(id), Outbound, ByUser, 1), Message(Some(id), Outbound, ByUser, 2)];
    assert two.row.messages[0].externalId == two.row.messages[1].externalId;
  }

  /** An overlapping status change writes over one its check never saw. */
  lemma OverlapBypassesTable()
    ensures var s := Run(Start(None, 0), [Begin(SetStatus(Closed), 1), Begin(SetStatus(Queued), 2), Commit(0)]);
      s.row.status == Closed && Step(s, Commit(0)).row.status == Queued && !CanTransition(Closed, Queued)
  {
    var a, b := Begin(SetStatus(Closed), 1), Begin(SetStatus(Queued), 2);
    var s := Start(None, 0);
    assert [a, b, Commit(0)][1..] == [b, Commit(0)];
    assert [b, Commit(0)][1..] == [Commit(0)];
    assert [Commit(0)][1..] == [];
    var both := Step(Step(s, a), b);
    assert both.pending == [Pending(SetStatus(Closed), s.row, 1), Pending(SetStatus(Queued), s.row, 2)];
    var one := Step(both, Commit(0));
    assert one.pending == [Pending(SetStatus(Queued), s.row, 2)];
    assert Run(s, [a, b, Commit(0)]) == Run(Step(s, a), [b, Commit(0)]);
    assert Run(Step(s, a), [b, Commit(0)]) == Run(both, [Commit(0)]);
    assert Run(both, [Commit(0)]) == Run(one, []);
  }
}
