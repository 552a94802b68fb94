/**
 Versions of an AI agent: one draft being edited, one active version serving traffic.

 A version's id is its place in the list, which is ordered by version number as the query orders it.
 */
module Agents {
  import opened Options

  /** `get` loads no more versions than this, the newest ones. */
  const LOADED: nat := 20

  /** Field by field; a null field is absent. */
  type Content = map<string, string>

  const DEFAULTS: Content := map[
    "instructions" := "", "modelRole" := "chat", "temperature" := "0.3", "maxTokens" := "1024", "knowledgeBaseIds" := "[]",
    "toolIds" := "[]", "memoryPolicy" := "{}", "handoffRules" := "{}", "locales" := "[en]"]

  datatype Version = Version(number: nat, content: Content, published: bool)

  datatype Agent = Agent(versions: seq<Version>, active: Option<nat>, draft: Option<nat>)

  datatype Reply =
    | Edited(id: nat) | Forked(id: nat) | Published(id: nat) | RolledBack(id: nat)
    | NoDraft | Blocked | NotFound | NotPublished | NumberTaken

  function Create(content: Content): Agent {
    Agent([Version(1, content, false)], None, Some(0))
  }

  /** A version `get` resolves: one of the newest twenty. */
  function Loaded(a: Agent, id: Option<nat>): Option<nat> {
    if id.Some? && id.value < |a.versions| <= id.value + LOADED then id else None
  }

  function Newest(versions: seq<Version>): seq<Version> {
    if |versions| <= LOADED then versions else versions[|versions| - LOADED..]
  }

  /** `Math.max(0, ...numbers)` */
  function MaxNumber(versions: seq<Version>): (max: nat)
    ensures forall k :: 0 <= k < |versions| ==> versions[k].number <= max
    ensures max == 0 || exists k :: 0 <= k < |versions| && versions[k].number == max
  {
    if versions == [] then 0
    else
      var last := |versions| - 1;
      var max := MaxNumber(versions[..last]);
      if versions[last].number > max then versions[last].number else max
  }

  function BaseContent(a: Agent): Content {
    var active := Loaded(a, a.active);
    if active.Some? then a.versions[active.value].content
    else if a.versions != [] then a.versions[|a.versions| - 1].content
    else DEFAULTS
  }

  /** The draft that an edit of the agent, read as `snap`, patches in place. */
  function Editable(snap: Agent): Option<nat> {
    var draft := Loaded(snap, snap.draft);
    if draft.Some? && !snap.versions[draft.value].published then draft else None
  }

  /** The version that an edit creates otherwise. */
  function NewVersion(snap: Agent, patch: Content): Version {
    Version(MaxNumber(Newest(snap.versions)) + 1, BaseContent(snap) + patch, false)
  }

  predicate HasNumber(versions: seq<Version>, number: nat) {
    exists k :: 0 <= k < |versions| && versions[k].number == number
  }

  /** The first write of an edit, on `a`, after the agent was read as `snap`; version numbers are unique. */
  function FirstWrite(a: Agent, snap: Agent, patch: Content): (Agent, Reply) {
    var draft := Editable(snap);
    if draft.Some? && draft.value < |a.versions| then
      var version := a.versions[draft.value];
      (a.(versions := a.versions[draft.value := version.(content := version.content + patch)]), Edited(draft.value))
    else if HasNumber(a.versions, NewVersion(snap, patch).number) then (a, NumberTaken)
    else (a.(versions := a.versions + [NewVersion(snap, patch)]), Forked(|a.versions|))
  }

  /** The second write: a new version becomes the draft. */
  function SecondWrite(a: Agent, reply: Reply): Agent {
    if reply.Forked? then a.(draft := Some(reply.id)) else a
  }

  function WriteDraft(a: Agent, snap: Agent, patch: Content): (Agent, Reply) {
    var (b, reply) := FirstWrite(a, snap, patch);
    (SecondWrite(b, reply), reply)
  }

  /** An edit that nothing interrupts. */
  function UpdateDraft(a: Agent, patch: Content): (Agent, Reply) {
    WriteDraft(a, a, patch)
  }

  /** `blocked`: the workflow is invalid, a gate evaluation fails, or a second person must approve. */
  function Publish(a: Agent, blocked: bool): (Agent, Reply) {
    var draft := Loaded(a, a.draft);
    if draft.None? then (a, NoDraft)
    else if blocked then (a, Blocked)
    else
      var version := a.versions[draft.value];
      (Agent(a.versions[draft.value := version.(published := true)], draft, None), Published(draft.value))
  }

  function Find(versions: seq<Version>, number: nat): (id: Option<nat>)
    ensures id.Some? ==> id.value < |versions| && versions[id.value].number == number
    ensures id.None? ==> forall k :: 0 <= k < |versions| ==> versions[k].number != number
  {
    if versions == [] then None
    else
      var last := |versions| - 1;
      if versions[last].number == number then Some(last) else Find(versions[..last], number)
  }

  function Rollback(a: Agent, number: nat): (Agent, Reply) {
    var id := Find(a.versions, number);
    if id.None? then (a, NotFound)
    else if !a.versions[id.value].published then (a, NotPublished)
    else (a.(active := id), RolledBack(id.value))
  }

  class AgentsService {
    var versions: seq<Version>
    var activeVersionId: Option<nat>
    var draftVersionId: Option<nat>

    ghost function State(): Agent
      reads this
    {
      Agent(versions, activeVersionId, draftVersionId)
    }

    constructor (content: Content)
      ensures State() == Create(content)
    {
      versions := [Version(1, content, false)];
      activeVersionId := None;
      draftVersionId := Some(0);
    }

    method NextNumber() returns (number: nat)
      ensures number == MaxNumber(Newest(versions)) + 1
    {
      var newest := Newest(versions);
      var max: nat := 0;
      var i := 0;
      while i < |newest|
        invariant i <= |newest|
        invariant max == MaxNumber(newest[..i])
      {
        assert newest[..i + 1][..i] == newest[..i];
        if newest[i].number > max { max := newest[i].number; }
        i := i + 1;
      }
      assert newest[..i] == newest;
      return max + 1;
    }

    /** The version an edit forks, unless its number is taken. */
    method CreateVersion(patch: Content) returns (reply: Reply)
      modifies this`versions
      ensures var number := MaxNumber(Newest(old(versions))) + 1;
        if HasNumber(old(versions), number) then versions == old(versions) && reply == NumberTaken
        else versions == old(versions) + [NewVersion(old(State()), patch)] && reply == Forked(|old(versions)|)
    {
      var number := NextNumber();
      if HasNumber(versions, number) { return NumberTaken; }
      var base := BaseContent(Agent(versions, activeVersionId, draftVersionId));
      reply := Forked(|versions|);
      versions := versions + [Version(number, base + patch, false)];
    }

    /** Up to the first write. */
    method WriteVersion(patch: Content) returns (reply: Reply)
      modifies this`versions
      ensures (State(), reply) == FirstWrite(old(State()), old(State()), patch)
    {
      var loadedDraft := Loaded(Agent(versions, activeVersionId, draftVersionId), draftVersionId);
      if loadedDraft.Some? && !versions[loadedDraft.value].published {
        var id := loadedDraft.value;
        versions := versions[id := versions[id].(content := versions[id].content + patch)];
        reply := Edited(id);
      } else {
        reply := CreateVersion(patch);
      }
    }

    method EditDraft(patch: Content) returns (reply: Reply)
      modifies this
      ensures (State(), reply) == UpdateDraft(old(State()), patch)
    {
      reply := WriteVersion(patch);
      if reply.Forked? { draftVersionId := Some(reply.id); }
    }

    method PublishDraft(blocked: bool) returns (reply: Reply)
      modifies this
      ensures (State(), reply) == Publish(old(State()), blocked)
    {
      var loadedDraft := Loaded(Agent(versions, activeVersionId, draftVersionId), draftVersionId);
      if loadedDraft.None? { return NoDraft; }
      if blocked { return Blocked; }
      var id := loadedDraft.value;
      versions := versions[id := versions[id].(published := true)];
      activeVersionId := Some(id);
      draftVersionId := None;
      return Published(id);
    }

    method RollbackTo(number: nat) returns (reply: Reply)
      modifies this`activeVersionId
      ensures (State(), reply) == Rollback(old(State()), number)
    {
      var target := Find(versions, number);
      if target.None? { return NotFound; }
      if !versions[target.value].published { return NotPublished; }
      activeVersionId := target;
      return RolledBack(target.value);
    }
  }
}

/**
 What runs of edits, publications and rollbacks keep, when their reads and writes interleave.

 `RunKeeps` holds of every run. `ImmutableExact` says when published versions stay as they are,
 `TidyExact` when the draft is the newest version and the only unpublished one.
 */
module AgentProofs {
  import opened Options
  import opened Agents

  /**
   An operation after its read: an edit before its first write, a fork before its second, a
   publication that was let through, a rollback whose target was found published.
   */
  datatype Task = Editing(snap: Agent, patch: Content) | Pointing(id: nat) | Publishing(id: nat) | Reverting(id: nat)

  datatype System = System(agent: Agent, tasks: map<nat, Task>)

  datatype Event =
    | ReadForEdit(call: nat, patch: Content)
    | ReadForPublish(call: nat, blocked: bool)
    | ReadForRollback(call: nat, number: nat)
    | Write(call: nat)
    | Die(call: nat)

  /** What the read of a publication or a rollback leads to. */
  function ToPublish(a: Agent, blocked: bool): Option<Task> {
    if Publish(a, blocked).1.Published? then Some(Publishing(Publish(a, blocked).1.id)) else None
  }

  function ToRollBack(a: Agent, number: nat): Option<Task> {
    if Rollback(a, number).1.RolledBack? then Some(Reverting(Rollback(a, number).1.id)) else None
  }

  function Begin(s: System, call: nat, task: Option<Task>): System {
    if call in s.tasks || task.None? then s else s.(tasks := s.tasks[call := task.value])
  }

  function Promoted(a: Agent, id: nat): Agent
    requires id < |a.versions|
  {
    Agent(a.versions[id := a.versions[id].(published := true)], Some(id), None)
  }

  /** The write a task comes to next. */
  function Effect(a: Agent, task: Task): Agent {
    match task
    case Editing(snap, patch) => FirstWrite(a, snap, patch).0
    case Pointing(id) => a.(draft := Some(id))
    case Publishing(id) => if id < |a.versions| then Promoted(a, id) else a
    case Reverting(id) => a.(active := Some(id))
  }

  /** What is left to do after it. */
  function Rest(a: Agent, task: Task): Option<Task> {
    if task.Editing? && FirstWrite(a, task.snap, task.patch).1.Forked? then Some(Pointing(|a.versions|)) else None
  }

  function Written(s: System, call: nat): System
    requires call in s.tasks
  {
    var task := s.tasks[call];
    System(Effect(s.agent, task),
           match Rest(s.agent, task)
           case Some(more) => s.tasks[call := more]
           case None => s.tasks - {call})
  }

  function Next(s: System, e: Event): System {
    match e
    case ReadForEdit(call, patch) => Begin(s, call, Some(Editing(s.agent, patch)))
    case ReadForPublish(call, blocked) => Begin(s, call, ToPublish(s.agent, blocked))
    case ReadForRollback(call, number) => Begin(s, call, ToRollBack(s.agent, number))
    case Write(call) => if call in s.tasks then Written(s, call) else s
    case Die(call) => s.(tasks := s.tasks - {call})
  }

  function Run(s: System, events: seq<Event>): System
    decreases events
  {
    if events == [] then s else Run(Next(s, events[0]), events[1..])
  }

  // ----- operations that nothing interrupts -----

  lemma RunTwo(s: System, a: Event, b: Event)
    ensures Run(s, [a, b]) == Next(Next(s, a), b)
  {
    assert [a, b][1..] == [b] && [b][1..] == [];
    assert Run(Next(s, a), [b]) == Run(Next(Next(s, a), b), []);
  }

  lemma RunThree(s: System, a: Event, b: Event, c: Event)
    ensures Run(s, [a, b, c]) == Next(Next(Next(s, a), b), c)
  {
    assert [a, b, c][1..] == [b, c];
    RunTwo(Next(s, a), b, c);
  }

  lemma WritesFollow(s: System, call: nat, task: Task)
    requires call !in s.tasks
    ensures var t := s.(tasks := s.tasks[call := task]);
      var b, rest := Effect(s.agent, task), Rest(s.agent, task);
      Next(Next(t, Write(call)), Write(call)) == System(if rest.Some? then Effect(b, rest.value) else b, s.tasks)
  {
    var t := s.(tasks := s.tasks[call := task]);
    var b, rest := Effect(s.agent, task), Rest(s.agent, task);
    assert t.tasks - {call} == s.tasks;
    var first := Next(t, Write(call));
    if rest.Some? {
      assert first == System(b, s.tasks[call := rest.value]);
      assert Rest(b, rest.value).None? && first.tasks - {call} == s.tasks;
    } else {
      assert first == System(b, s.tasks) && Next(first, Write(call)) == first;
    }
  }

  lemma EditIsRun(s: System, call: nat, patch: Content)
    requires call !in s.tasks
    ensures Run(s, [ReadForEdit(call, patch), Write(call), Write(call)]) == s.(agent := UpdateDraft(s.agent, patch).0)
  {
    RunThree(s, ReadForEdit(call, patch), Write(call), Write(call));
    WritesFollow(s, call, Editing(s.agent, patch));
  }

  lemma PublishIsRun(s: System, call: nat, blocked: bool)
    requires call !in s.tasks
    ensures Run(s, [ReadForPublish(call, blocked), Write(call)]) == s.(agent := Publish(s.agent, blocked).0)
  {
    RunTwo(s, ReadForPublish(call, blocked), Write(call));
    var read := Next(s, ReadForPublish(call, blocked));
    assert call in read.tasks ==> read.tasks - {call} == s.tasks;
  }

  lemma RollbackIsRun(s: System, call: nat, number: nat)
    requires call !in s.tasks
    ensures Run(s, [ReadForRollback(call, number), Write(call)]) == s.(agent := Rollback(s.agent, number).0)
  {
    RunTwo(s, ReadForRollback(call, number), Write(call));
    var read := Next(s, ReadForRollback(call, number));
    assert call in read.tasks ==> read.tasks - {call} == s.tasks;
  }

  // ----- publications and rollbacks -----

  /** A publication takes effect exactly if it is not blocked and there is a draft among the newest twenty; the draft goes live as it is. */
  lemma PublishExact(a: Agent, blocked: bool)
    ensures var (b, reply) := Publish(a, blocked);
      if !blocked && a.draft.Some? && a.draft.value < |a.versions| <= a.draft.value + 20 then
        var id := a.draft.value;
        && reply == Reply.Published(id) && b.active == Some(id) && b.draft == None
        && |b.versions| == |a.versions| && b.versions[id] == a.versions[id].(published := true)
        && forall k :: 0 <= k < |a.versions| && k != id ==> b.versions[k] == a.versions[k]
      else b == a && reply == if a.draft.Some? && a.draft.value < |a.versions| <= a.draft.value + 20 then Blocked else NoDraft
  {
  }

  /** An agent starts with version 1, a draft of the content given, and nothing live; published, that content is live. */
  lemma CreatedGoesLive(content: Content)
    ensures var a, b := Create(content), Publish(Create(content), false).0;
      && |a.versions| == 1 && a.versions[0].number == 1 && a.active == None
      && b.active == Some(0) && b.versions[0] == Version(1, content, true)
  {
  }

  /** A rollback takes effect exactly if some published version has the number, if numbers are unique; it changes nothing but what is active. */
  lemma RollbackExact(a: Agent, number: nat)
    requires forall i, j :: 0 <= i < j < |a.versions| ==> a.versions[i].number != a.versions[j].number
    ensures var b := Rollback(a, number).0;
      && b.versions == a.versions && b.draft == a.draft
      && forall id: nat :: id < |a.versions| && a.versions[id].number == number ==>
           if a.versions[id].published then b.active == Some(id) && Rollback(a, number).1 == RolledBack(id)
           else b.active == a.active && Rollback(a, number).1 == NotPublished
    ensures (forall id :: 0 <= id < |a.versions| ==> a.versions[id].number != number) ==> Rollback(a, number) == (a, NotFound)
  {
  }

  /** The version that the last publication or rollback of a run makes active. */
  ghost function LastActivated(s: System, events: seq<Event>, before: Option<nat>): Option<nat>
    decreases events
  {
    if events == [] then before
    else
      var e := events[0];
      var now :=
        if !(e.Write? && e.call in s.tasks) then before
        else
          match s.tasks[e.call]
          case Publishing(id) => if id < |s.agent.versions| then Some(id) else before
          case Reverting(id) => Some(id)
          case _ => before;
      LastActivated(Next(s, e), events[1..], now)
  }

  /** In every interleaving what is active is what was published or rolled back to last. */
  lemma {:induction false} ActiveExact(s: System, events: seq<Event>)
    ensures Run(s, events).agent.active == LastActivated(s, events, s.agent.active)
    decreases events
  {
    if events != [] { ActiveExact(Next(s, events[0]), events[1..]); }
  }

  // ----- what every run keeps -----

  /** Numbers 1..n, and what is active is published. */
  ghost predicate Sound(a: Agent) {
    && a.versions != []
    && (forall k :: 0 <= k < |a.versions| ==> a.versions[k].number == k + 1)
    && (a.draft.Some? ==> a.draft.value < |a.versions|)
    && (a.active.Some? ==> a.active.value < |a.versions| && a.versions[a.active.value].published)
  }

  /** Versions are not deleted, and stay published. */
  ghost predicate Grows(a: Agent, b: Agent) {
    && |a.versions| <= |b.versions|
    && forall k :: 0 <= k < |a.versions| && a.versions[k].published ==> b.versions[k].published
  }

  ghost predicate TaskSound(a: Agent, task: Task) {
    match task
    case Editing(snap, _) => Sound(snap) && |snap.versions| <= |a.versions|
    case Pointing(id) => id < |a.versions| && a.draft != Some(id)
    case Publishing(id) => id < |a.versions|
    case Reverting(id) => id < |a.versions| && a.versions[id].published
  }

  /** Each fork under way has a version of its own, which is not the draft yet. */
  ghost predicate SystemSound(s: System) {
    && Sound(s.agent)
    && (forall c :: c in s.tasks ==> TaskSound(s.agent, s.tasks[c]))
    && (forall c, d :: c in s.tasks && d in s.tasks && c != d && s.tasks[c].Pointing? ==> s.tasks[c] != s.tasks[d])
  }

  /** The number given to a fork is one above all, though only the newest twenty are looked at. */
  lemma NextNumberIsFree(a: Agent)
    requires Sound(a)
    ensures MaxNumber(Newest(a.versions)) == |a.versions|
    ensures !HasNumber(a.versions, |a.versions| + 1)
  {
    var newest, n := Newest(a.versions), |a.versions|;
    forall k | 0 <= k < |newest| ensures newest[k].number == n - |newest| + k + 1 {
      assert newest[k] == a.versions[n - |newest| + k];
    }
    MaxIsLast(newest, n);
  }

  lemma MaxIsLast(versions: seq<Version>, n: nat)
    requires versions != [] && versions[|versions| - 1].number == n
    requires forall k :: 0 <= k < |versions| ==> versions[k].number <= n
    ensures MaxNumber(versions) == n
  {
    assert versions[|versions| - 1].number <= MaxNumber(versions);
  }

  /** A stale fork asks for a number that is taken. */
  lemma NumberTakenExact(a: Agent, snap: Agent, patch: Content)
    requires Sound(a) && Sound(snap) && |snap.versions| <= |a.versions|
    ensures NewVersion(snap, patch) == Version(|snap.versions| + 1, BaseContent(snap) + patch, false)
    ensures HasNumber(a.versions, |snap.versions| + 1) <==> |snap.versions| < |a.versions|
  {
    NextNumberIsFree(snap);
    if |snap.versions| < |a.versions| { assert a.versions[|snap.versions|].number == |snap.versions| + 1; }
  }

  function Patched(a: Agent, id: nat, patch: Content): Agent
    requires id < |a.versions|
  {
    a.(versions := a.versions[id := a.versions[id].(content := a.versions[id].content + patch)])
  }

  /** The first write patches the draft it read, or adds a version exactly if none came since the read. */
  lemma FirstWriteMeaning(a: Agent, snap: Agent, patch: Content)
    requires Sound(a) && Sound(snap) && |snap.versions| <= |a.versions|
    ensures var n := |a.versions|;
      FirstWrite(a, snap, patch) ==
        if Editable(snap).Some? then (Patched(a, Editable(snap).value, patch), Edited(Editable(snap).value))
        else if |snap.versions| < n then (a, NumberTaken)
        else (a.(versions := a.versions + [Version(n + 1, BaseContent(snap) + patch, false)]), Forked(n))
  {
    NumberTakenExact(a, snap, patch);
  }

  lemma EffectKeeps(a: Agent, task: Task)
    requires Sound(a) && TaskSound(a, task)
    ensures Sound(Effect(a, task)) && Grows(a, Effect(a, task))
    ensures Rest(a, task).Some? ==> |Effect(a, task).versions| == |a.versions| + 1 && Effect(a, task).draft == a.draft
    ensures task.Pointing? || Effect(a, task).draft in {a.draft, None}
  {
    if task.Editing? { FirstWriteMeaning(a, task.snap, task.patch); }
  }

  lemma TaskKept(a: Agent, b: Agent, task: Task)
    requires TaskSound(a, task) && Grows(a, b) && (task.Pointing? ==> b.draft != Some(task.id))
    ensures TaskSound(b, task)
  {
  }

  lemma WriteKeeps(s: System, call: nat)
    requires SystemSound(s) && call in s.tasks
    ensures SystemSound(Written(s, call)) && Grows(s.agent, Written(s, call).agent)
  {
    var t, task := Written(s, call), s.tasks[call];
    EffectKeeps(s.agent, task);
    forall c | c in t.tasks && c != call ensures TaskSound(t.agent, t.tasks[c]) { TaskKept(s.agent, t.agent, s.tasks[c]); }
  }

  lemma BeginKeeps(s: System, call: nat, task: Task)
    requires SystemSound(s) && TaskSound(s.agent, task) && !task.Pointing?
    ensures SystemSound(Begin(s, call, Some(task)))
  {
  }

  lemma StepKeeps(s: System, e: Event)
    requires SystemSound(s)
    ensures SystemSound(Next(s, e)) && Grows(s.agent, Next(s, e).agent)
  {
    match e
    case ReadForEdit(call, patch) => BeginKeeps(s, call, Editing(s.agent, patch));
    case ReadForPublish(call, blocked) =>
      var task := ToPublish(s.agent, blocked);
      if task.Some? { BeginKeeps(s, call, task.value); }
    case ReadForRollback(call, number) =>
      var task := ToRollBack(s.agent, number);
      if task.Some? { BeginKeeps(s, call, task.value); }
    case Write(call) => if call in s.tasks { WriteKeeps(s, call); }
    case Die(_) =>
  }

  /** In every run, however operations overlap and die: numbers are 1..n, what is active is published, and versions stay published. */
  lemma {:induction false} RunKeeps(s: System, events: seq<Event>)
    requires SystemSound(s)
    ensures SystemSound(Run(s, events)) && Grows(s.agent, Run(s, events).agent)
    decreases events
  {
    if events != [] {
      StepKeeps(s, events[0]);
      RunKeeps(Next(s, events[0]), events[1..]);
    }
  }

  // ----- published versions -----

  /** A published version stays, with its content. */
  ghost predicate Immutable(a: Agent, b: Agent) {
    && |a.versions| <= |b.versions|
    && forall k :: 0 <= k < |a.versions| && a.versions[k].published ==> b.versions[k] == a.versions[k]
  }

  /** The draft that an edit read is still unpublished, or its patch changes nothing. */
  ghost predicate OnDraft(a: Agent, snap: Agent, patch: Content) {
    Editable(snap).Some? && Editable(snap).value < |a.versions| ==>
      var version := a.versions[Editable(snap).value]; !version.published || version.content + patch == version.content
  }

  /** An edit leaves published versions alone exactly when it does not land on one. */
  lemma EditAfterPublish(a: Agent, snap: Agent, patch: Content)
    requires Sound(a) && Sound(snap) && |snap.versions| <= |a.versions|
    ensures Immutable(a, FirstWrite(a, snap, patch).0) <==> OnDraft(a, snap, patch)
  {
    FirstWriteMeaning(a, snap, patch);
    if Editable(snap).Some? {
      var id := Editable(snap).value;
      var b := FirstWrite(a, snap, patch).0;
      assert b.versions[id].content == a.versions[id].content + patch;
    }
  }

  ghost predicate WritesDraft(s: System, e: Event) {
    e.Write? && e.call in s.tasks && s.tasks[e.call].Editing? ==>
      OnDraft(s.agent, s.tasks[e.call].snap, s.tasks[e.call].patch)
  }

  ghost predicate AllWriteDrafts(s: System, events: seq<Event>)
    decreases events
  {
    events != [] ==> WritesDraft(s, events[0]) && AllWriteDrafts(Next(s, events[0]), events[1..])
  }

  ghost predicate ImmutableThroughout(s: System, events: seq<Event>)
    decreases events
  {
    events != [] ==> Immutable(s.agent, Next(s, events[0]).agent) && ImmutableThroughout(Next(s, events[0]), events[1..])
  }

  lemma StepImmutable(s: System, e: Event)
    requires SystemSound(s)
    ensures Immutable(s.agent, Next(s, e).agent) <==> WritesDraft(s, e)
  {
    if e.Write? && e.call in s.tasks {
      var task := s.tasks[e.call];
      assert TaskSound(s.agent, task);
      if task.Editing? { EditAfterPublish(s.agent, task.snap, task.patch); }
    }
  }

  /** In every interleaving no step changes a published version if and only if no edit lands on a draft published meanwhile. */
  lemma {:induction false} ImmutableExact(s: System, events: seq<Event>)
    requires SystemSound(s)
    ensures ImmutableThroughout(s, events) <==> AllWriteDrafts(s, events)
    ensures AllWriteDrafts(s, events) ==> Immutable(s.agent, Run(s, events).agent)
    decreases events
  {
    if events != [] {
      StepKeeps(s, events[0]);
      StepImmutable(s, events[0]);
      ImmutableExact(Next(s, events[0]), events[1..]);
    }
  }

  /** Right after creation. */
  function Created(content: Content): System {
    System(Create(content), map[])
  }

  lemma {:induction false} RunInParts(s: System, first: seq<Event>, rest: seq<Event>)
    ensures Run(s, first + rest) == Run(Run(s, first), rest)
    decreases first
  {
    if first == [] {
      assert first + rest == rest;
    } else {
      assert (first + rest)[0] == first[0] && (first + rest)[1..] == first[1..] + rest;
      RunInParts(Next(s, first[0]), first[1..], rest);
    }
  }

  /**
   From creation, whatever came before: a version published by some write has, ever after, the
   content it had then, as long as no later edit lands on a draft published meanwhile.
   */
  lemma PublishedNeverChanges(content: Content, before: seq<Event>, call: nat, after: seq<Event>)
    requires var s := Run(Created(content), before);
      call in s.tasks && s.tasks[call].Publishing? && AllWriteDrafts(Next(s, Write(call)), after)
    ensures var s := Run(Created(content), before);
      var id, b := s.tasks[call].id, Run(Created(content), before + [Write(call)] + after).agent;
      && id < |s.agent.versions| && id < |b.versions|
      && b.versions[id] == s.agent.versions[id].(published := true)
  {
    var s := Run(Created(content), before);
    RunKeeps(Created(content), before);
    assert TaskSound(s.agent, s.tasks[call]);
    StepKeeps(s, Write(call));
    ImmutableExact(Next(s, Write(call)), after);
    RunInParts(Created(content), before + [Write(call)], after);
    RunInParts(Created(content), before, [Write(call)]);
    assert [Write(call)][1..] == [];
    assert Run(s, [Write(call)]) == Run(Next(s, Write(call)), []);
  }

  // ----- the draft -----

  /** The draft, if any, is the newest version and unpublished. */
  ghost predicate DraftIsNewest(a: Agent) {
    a.draft.Some? ==> a.draft.value == |a.versions| - 1 && !a.versions[|a.versions| - 1].published
  }

  ghost predicate Awaited(s: System, id: nat) {
    exists c :: c in s.tasks && s.tasks[c] == Pointing(id)
  }

  /** And no other version is unpublished, but for forks that have their second write to come. */
  ghost predicate Tidy(s: System) {
    && s.agent.versions != []
    && DraftIsNewest(s.agent)
    && forall k: nat :: k < |s.agent.versions| && !s.agent.versions[k].published ==> s.agent.draft == Some(k) || Awaited(s, k)
  }

  /**
   A fork appears while there is no draft; it becomes the draft while it is the newest version; a
   publication takes effect while its version is the draft or there is none; no fork dies half-way.
   */
  ghost predicate LandsTidily(s: System, e: Event) {
    match e
    case Write(call) =>
      (call in s.tasks ==>
         match s.tasks[call]
         case Editing(snap, patch) =>
           Editable(snap).None? && |snap.versions| == |s.agent.versions| ==> s.agent.draft.None?
         case Pointing(id) => id == |s.agent.versions| - 1 && !s.agent.versions[id].published
         case Publishing(id) => s.agent.draft in {None, Some(id)}
         case Reverting(_) => true)
    case Die(call) =>
      call in s.tasks && s.tasks[call].Pointing? && s.tasks[call].id < |s.agent.versions| ==>
        s.agent.versions[s.tasks[call].id].published
    case _ => true
  }

  ghost predicate AllLandTidily(s: System, events: seq<Event>)
    decreases events
  {
    events != [] ==> LandsTidily(s, events[0]) && AllLandTidily(Next(s, events[0]), events[1..])
  }

  ghost predicate TidyThroughout(s: System, events: seq<Event>)
    decreases events
  {
    events != [] ==> Tidy(Next(s, events[0])) && TidyThroughout(Next(s, events[0]), events[1..])
  }

  /** Nothing but forks under way is awaited, and a fork by no other call. */
  lemma OthersAwaited(s: System, call: nat, t: System)
    requires SystemSound(s) && call in s.tasks && forall c :: c != call ==> (c in s.tasks <==> c in t.tasks)
    requires forall c :: c in s.tasks && c != call ==> t.tasks[c] == s.tasks[c]
    ensures forall id: nat :: Awaited(s, id) && s.tasks[call] != Pointing(id) ==> Awaited(t, id)
    ensures s.tasks[call].Pointing? && call !in t.tasks ==> !Awaited(t, s.tasks[call].id)
    ensures forall id: nat :: Awaited(t, id) ==> Awaited(s, id) || (call in t.tasks && t.tasks[call] == Pointing(id))
  {
    forall id: nat | Awaited(s, id) && s.tasks[call] != Pointing(id) ensures Awaited(t, id) {
      var c :| c in s.tasks && s.tasks[c] == Pointing(id);
      assert c in t.tasks;
    }
    assert call !in t.tasks ==> forall c :: c in t.tasks ==> c != call && t.tasks[c] == s.tasks[c];
  }

  lemma TidyEdit(s: System, call: nat)
    requires SystemSound(s) && Tidy(s) && call in s.tasks && s.tasks[call].Editing?
    ensures Tidy(Written(s, call)) <==> LandsTidily(s, Write(call))
  {
    var t, task, n := Written(s, call), s.tasks[call], |s.agent.versions|;
    assert TaskSound(s.agent, task);
    FirstWriteMeaning(s.agent, task.snap, task.patch);
    OthersAwaited(s, call, t);
    if Rest(s.agent, task).Some? { assert Awaited(t, n) by { assert t.tasks[call] == Pointing(n); } }
  }

  lemma TidyPointing(s: System, call: nat)
    requires SystemSound(s) && Tidy(s) && call in s.tasks && s.tasks[call].Pointing?
    ensures Tidy(Written(s, call)) <==> LandsTidily(s, Write(call))
  {
    assert TaskSound(s.agent, s.tasks[call]);
    OthersAwaited(s, call, Written(s, call));
  }

  lemma DraftIsNotAwaited(s: System)
    requires SystemSound(s) && s.agent.draft.Some?
    ensures !Awaited(s, s.agent.draft.value)
  {
    assert forall c :: c in s.tasks && s.tasks[c].Pointing? ==> s.agent.draft != Some(s.tasks[c].id);
  }

  lemma TidyPublishing(s: System, call: nat)
    requires SystemSound(s) && Tidy(s) && call in s.tasks && s.tasks[call].Publishing?
    ensures Tidy(Written(s, call)) <==> LandsTidily(s, Write(call))
  {
    var t := Written(s, call);
    assert TaskSound(s.agent, s.tasks[call]);
    OthersAwaited(s, call, t);
    if s.agent.draft.Some? {
      DraftIsNotAwaited(s);
      assert s.agent.draft != Some(s.tasks[call].id) ==> !t.agent.versions[s.agent.draft.value].published;
    }
  }

  lemma TidyReverting(s: System, call: nat)
    requires SystemSound(s) && Tidy(s) && call in s.tasks && s.tasks[call].Reverting?
    ensures Tidy(Written(s, call))
  {
    OthersAwaited(s, call, Written(s, call));
  }

  lemma TidyDie(s: System, call: nat)
    requires SystemSound(s) && Tidy(s)
    ensures Tidy(Next(s, Die(call))) <==> LandsTidily(s, Die(call))
  {
    var t := Next(s, Die(call));
    if call in s.tasks {
      assert TaskSound(s.agent, s.tasks[call]);
      OthersAwaited(s, call, t);
    } else {
      assert t.tasks == s.tasks;
    }
  }

  lemma TidyBegin(s: System, call: nat, task: Option<Task>)
    requires Tidy(s)
    ensures Tidy(Begin(s, call, task))
  {
    var t := Begin(s, call, task);
    forall id: nat | Awaited(s, id) ensures Awaited(t, id) {
      var c :| c in s.tasks && s.tasks[c] == Pointing(id);
      assert c in t.tasks && t.tasks[c] == Pointing(id);
    }
  }

  lemma StepTidy(s: System, e: Event)
    requires SystemSound(s) && Tidy(s)
    ensures Tidy(Next(s, e)) <==> LandsTidily(s, e)
  {
    match e
    case ReadForEdit(call, patch) => TidyBegin(s, call, Some(Editing(s.agent, patch)));
    case ReadForPublish(call, blocked) => TidyBegin(s, call, ToPublish(s.agent, blocked));
    case ReadForRollback(call, number) => TidyBegin(s, call, ToRollBack(s.agent, number));
    case Write(call) =>
      if call in s.tasks {
        match s.tasks[call] {
          case Editing(_, _) => TidyEdit(s, call);
          case Pointing(_) => TidyPointing(s, call);
          case Publishing(_) => TidyPublishing(s, call);
          case Reverting(_) => TidyReverting(s, call);
        }
      }
    case Die(call) => TidyDie(s, call);
  }

  /**
   In every interleaving the draft stays the newest version, and the only unpublished one but for
   forks half-way, if and only if every write and every death lands tidily.
   */
  lemma {:induction false} TidyExact(s: System, events: seq<Event>)
    requires SystemSound(s) && Tidy(s)
    ensures TidyThroughout(s, events) <==> AllLandTidily(s, events)
    ensures AllLandTidily(s, events) ==> Tidy(Run(s, events))
    decreases events
  {
    if events != [] {
      StepKeeps(s, events[0]);
      StepTidy(s, events[0]);
      if LandsTidily(s, events[0]) { TidyExact(Next(s, events[0]), events[1..]); }
    }
  }

  /** No version but the draft, the newest, is unpublished. */
  ghost predicate Inv(a: Agent) {
    Sound(a) && DraftIsNewest(a) && forall k: nat :: k < |a.versions| && !a.versions[k].published ==> a.draft == Some(k)
  }

  ghost predicate NoForkUnderWay(s: System) {
    forall c :: c in s.tasks ==> !s.tasks[c].Pointing?
  }

  /** From creation, whenever no fork is half-way: at most one version is unpublished, the draft, the newest of all. */
  lemma OneUnpublished(content: Content, events: seq<Event>)
    requires AllLandTidily(Created(content), events) && NoForkUnderWay(Run(Created(content), events))
    ensures Inv(Run(Created(content), events).agent)
  {
    var s := Run(Created(content), events);
    RunKeeps(Created(content), events);
    TidyExact(Created(content), events);
    forall id: nat ensures !Awaited(s, id) {}
  }

  /** Operations that nothing interrupts land tidily, and on drafts. */
  lemma SerialEditLands(s: System, call: nat, patch: Content)
    requires Inv(s.agent) && call !in s.tasks
    ensures var events := [ReadForEdit(call, patch), Write(call), Write(call)];
      AllLandTidily(s, events) && AllWriteDrafts(s, events)
  {
    var read := Next(s, ReadForEdit(call, patch));
    var first := Next(read, Write(call));
    FirstWriteMeaning(s.agent, s.agent, patch);
    assert [ReadForEdit(call, patch), Write(call), Write(call)][1..] == [Write(call), Write(call)];
    assert [Write(call), Write(call)][1..] == [Write(call)] && [Write(call)][1..] == [];
    assert LandsTidily(read, Write(call)) && LandsTidily(first, Write(call));
    assert AllLandTidily(first, [Write(call)]) && AllWriteDrafts(first, [Write(call)]);
    assert AllLandTidily(read, [Write(call), Write(call)]) && AllWriteDrafts(read, [Write(call), Write(call)]);
  }

  lemma SerialPublishLands(s: System, call: nat, blocked: bool)
    requires Inv(s.agent) && call !in s.tasks
    ensures var events := [ReadForPublish(call, blocked), Write(call)]; AllLandTidily(s, events) && AllWriteDrafts(s, events)
  {
    var read := Next(s, ReadForPublish(call, blocked));
    assert [ReadForPublish(call, blocked), Write(call)][1..] == [Write(call)] && [Write(call)][1..] == [];
    assert AllLandTidily(read, [Write(call)]) && AllWriteDrafts(read, [Write(call)]);
  }

  /** A death between the two writes leaves a second unpublished version exactly when the edit forks. */
  lemma DyingEditExact(a: Agent, patch: Content)
    requires Inv(a)
    ensures Inv(FirstWrite(a, a, patch).0) <==> a.draft.Some?
  {
    FirstWriteMeaning(a, a, patch);
    var b := FirstWrite(a, a, patch).0;
    if a.draft.None? { assert !b.versions[|a.versions|].published; }
  }

  lemma ForkThenRead(s: System, c: nat, d: nat, patch: Content)
    requires Inv(s.agent) && s.agent.draft.None? && c !in s.tasks && d !in s.tasks && c != d
    ensures var n := |s.agent.versions|;
      var forked := s.agent.(versions := s.agent.versions + [Version(n + 1, BaseContent(s.agent) + patch, false)]);
      && Run(s, [ReadForEdit(c, patch), Write(c), ReadForEdit(d, patch)])
         == System(forked, s.tasks[c := Pointing(n)][d := Editing(forked, patch)])
      && Sound(forked)
  {
    RunThree(s, ReadForEdit(c, patch), Write(c), ReadForEdit(d, patch));
    FirstWriteMeaning(s.agent, s.agent, patch);
    var read := Next(s, ReadForEdit(c, patch));
    assert read == s.(tasks := s.tasks[c := Editing(s.agent, patch)]);
    var first := Next(read, Write(c));
    assert first.tasks == s.tasks[c := Pointing(|s.agent.versions|)];
  }

  lemma ForkOverFork(s: System, c: nat, d: nat, patch: Content, id: nat)
    requires Sound(s.agent) && s.agent.draft.None? && c in s.tasks && d in s.tasks && c != d
    requires s.tasks[c] == Pointing(id) && s.tasks[d] == Editing(s.agent, patch)
    ensures var n := |s.agent.versions|;
      var t := Run(s, [Write(d), Write(d), Write(c)]);
      && t.tasks == s.tasks - {c, d} && t.agent.draft == Some(id)
      && t.agent.versions == s.agent.versions + [Version(n + 1, BaseContent(s.agent) + patch, false)]
  {
    var n := |s.agent.versions|;
    RunThree(s, Write(d), Write(d), Write(c));
    FirstWriteMeaning(s.agent, s.agent, patch);
    var first := Next(s, Write(d));
    assert first.tasks == s.tasks[d := Pointing(n)];
    var second := Next(first, Write(d));
    assert second.tasks == s.tasks - {d} && second.agent == first.agent.(draft := Some(n));
    assert Next(second, Write(c)).tasks == s.tasks - {c, d};
  }

  /** Without a draft, two edits that overlap so: one forks, the other forks and points the draft at its version, then the first points it back. */
  lemma OverlappingForks(s: System, c: nat, d: nat, patch: Content)
    requires Inv(s.agent) && s.agent.draft.None? && c !in s.tasks && d !in s.tasks && c != d
    ensures var n := |s.agent.versions|;
      var t := Run(s, [ReadForEdit(c, patch), Write(c), ReadForEdit(d, patch)] + [Write(d), Write(d), Write(c)]);
      && t.tasks == s.tasks && |t.agent.versions| == n + 2 && t.agent.draft == Some(n)
      && !t.agent.versions[n].published && !t.agent.versions[n + 1].published
  {
    ForkThenRead(s, c, d, patch);
    RunInParts(s, [ReadForEdit(c, patch), Write(c), ReadForEdit(d, patch)], [Write(d), Write(d), Write(c)]);
    var half := Run(s, [ReadForEdit(c, patch), Write(c), ReadForEdit(d, patch)]);
    ForkOverFork(half, c, d, patch, |s.agent.versions|);
    assert half.tasks - {c, d} == s.tasks;
  }

  /** A fork starts from what is live exactly when that is among the newest twenty, or the newest version gives the same. */
  lemma ForkOfLive(a: Agent, patch: Content)
    requires Sound(a) && a.draft.None? && a.active.Some?
    ensures var (b, reply) := UpdateDraft(a, patch);
      var live := a.versions[a.active.value].content;
      var newest := a.versions[|a.versions| - 1].content;
      && reply == Forked(|a.versions|)
      && (b.versions[|a.versions|].content == live + patch <==>
            |a.versions| - a.active.value <= 20 || newest + patch == live + patch)
  {
    FirstWriteMeaning(a, a, patch);
  }

  /** Twenty-one published versions, rolled back to the first. */
  function LongHistory(): Agent {
    Agent(seq(21, i requires 0 <= i => Version(i + 1, map["greeting" := if i == 0 then "hello" else "goodbye"], true)), Some(0), None)
  }

  lemma LongHistoryIsSound()
    ensures Inv(LongHistory())
  {
    assert |LongHistory().versions| == 21;
  }

  /** With the first of twenty-one versions live, editing forks the last one. */
  lemma OldLiveIsNotForked()
    ensures Inv(LongHistory()) && LongHistory().versions[0].content == map["greeting" := "hello"]
    ensures var (b, reply) := UpdateDraft(LongHistory(), map[]);
      reply == Forked(21) && b.versions[21].content == map["greeting" := "goodbye"]
  {
    var a := LongHistory();
    LongHistoryIsSound();
    FirstWriteMeaning(a, a, map[]);
    var goodbye: Content := map["greeting" := "goodbye"];
    assert a.versions[20].content == goodbye && BaseContent(a) == goodbye;
    assert goodbye + map[] == goodbye;
  }
}
