/** What merging does to the chain of tombstones, to contact keys, and to who owns what. */
module CustomerProofs {
  import opened Options
  import opened Customers

  // ---- Chains of merge pointers ----

  /** `to` is `hops` merge pointers away from `id`. */
  ghost predicate Path(m: Merges, id: nat, hops: nat, to: nat)
    decreases hops, id
  {
    && id in m
    && if hops == 0 then id == to else m[id].Some? && Path(m, m[id].value, hops - 1, to)
  }

  ghost predicate Live(m: Merges, id: nat) {
    id in m && m[id].None?
  }

  ghost predicate Points(m: Merges, id: nat, to: nat) {
    id in m && m[id] == Some(to)
  }

  /** The chain from `id` ends at the live customer `survivor`. */
  ghost predicate Ends(m: Merges, id: nat, hops: nat, survivor: nat) {
    Path(m, id, hops, survivor) && Live(m, survivor)
  }

  ghost predicate HasEnd(m: Merges, id: nat) {
    exists hops: nat, survivor: nat :: Ends(m, id, hops, survivor)
  }

  /** Every customer's chain ends: the pointers are a forest rooted in the live customers. */
  ghost predicate Forest(m: Merges) {
    forall id: nat :: id in m ==> HasEnd(m, id)
  }

  ghost predicate On(m: Merges, id: nat, x: nat) {
    exists hops: nat :: Path(m, id, hops, x)
  }

  /** `get` returns the survivor exactly for chains of at most nine hops. */
  lemma {:induction false} WalkFinds(m: Merges, id: nat, limit: nat, survivor: nat)
    ensures Walk(m, id, limit) == Found(survivor) <==> exists hops: nat :: hops < limit && Ends(m, id, hops, survivor)
    decreases limit, id
  {
    if limit > 0 && id in m {
      if m[id].Some? {
        WalkFinds(m, m[id].value, limit - 1, survivor);
        if hops: nat :| hops < limit - 1 && Ends(m, m[id].value, hops, survivor) {
          assert Ends(m, id, hops + 1, survivor);
        }
        if hops: nat :| hops < limit && Ends(m, id, hops, survivor) {
          assert hops > 0 && Ends(m, m[id].value, hops - 1, survivor);
        }
      } else {
        assert Ends(m, id, 0, id);
        forall hops: nat, other: nat | Ends(m, id, hops, other) ensures other == id { assert hops == 0; }
      }
    }
  }

  lemma GetFindsSurvivor(m: Merges, id: nat, survivor: nat)
    ensures Walk(m, id, MAX_HOPS) == Found(survivor) <==> exists hops: nat :: hops <= 9 && Ends(m, id, hops, survivor)
  {
    WalkFinds(m, id, MAX_HOPS, survivor);
  }

  lemma {:induction false} PathSplit(m: Merges, id: nat, first: nat, mid: nat, hops: nat, to: nat)
    requires Path(m, id, first, mid) && Path(m, id, hops, to) && first <= hops
    ensures Path(m, mid, hops - first, to)
    decreases first
  {
    if first > 0 { PathSplit(m, m[id].value, first - 1, mid, hops - 1, to); }
  }

  lemma {:induction false} PathJoin(m: Merges, id: nat, first: nat, mid: nat, more: nat, to: nat)
    requires Path(m, id, first, mid) && Path(m, mid, more, to)
    ensures Path(m, id, first + more, to)
    decreases first
  {
    if first > 0 { PathJoin(m, m[id].value, first - 1, mid, more, to); }
  }

  /** A chain has one end. */
  lemma EndIsUnique(m: Merges, id: nat, a: nat, x: nat, b: nat, y: nat)
    requires Ends(m, id, a, x) && Ends(m, id, b, y)
    ensures a == b && x == y
  {
    if a <= b { PathSplit(m, id, a, x, b, y); } else { PathSplit(m, id, b, y, a, x); }
  }

  // ---- Redirecting one pointer ----

  /** A path that does not pass `source` before its last row survives the redirection of `source`. */
  lemma {:induction false} PathKept(m: Merges, source: nat, target: nat, id: nat, hops: nat, to: nat)
    requires Path(m, id, hops, to) && forall k: nat :: k < hops ==> !Path(m, id, k, source)
    ensures Path(m[source := Some(target)], id, hops, to)
    decreases hops
  {
    if hops > 0 {
      assert !Path(m, id, 0, source);
      forall k: nat | k < hops - 1 ensures !Path(m, m[id].value, k, source) {
        if Path(m, m[id].value, k, source) { assert Path(m, id, k + 1, source); }
      }
      PathKept(m, source, target, m[id].value, hops - 1, to);
    }
  }

  /** The first time a chain meets `source`. */
  lemma {:induction false} FirstMeeting(m: Merges, id: nat, source: nat, bound: nat) returns (hops: nat)
    requires Path(m, id, bound, source)
    ensures hops <= bound && Path(m, id, hops, source) && forall k: nat :: k < hops ==> !Path(m, id, k, source)
    decreases bound
  {
    if k: nat :| k < bound && Path(m, id, k, source) {
      hops := FirstMeeting(m, id, source, k);
    } else {
      hops := bound;
    }
  }

  /** A row on a cycle has no survivor. */
  lemma {:induction false} CycleHasNoEnd(m: Merges, id: nat, period: nat, hops: nat, survivor: nat)
    requires period > 0 && Path(m, id, period, id)
    ensures !Ends(m, id, hops, survivor)
    decreases hops
  {
    if Ends(m, id, hops, survivor) {
      if hops < period {
        PathSplit(m, id, hops, survivor, period, id);
      } else {
        PathSplit(m, id, period, id, hops, survivor);
        CycleHasNoEnd(m, id, period, hops - period, survivor);
      }
    }
  }

  /** Chains that meet `source` go on to the target's survivor; the others are as before. */
  lemma RedirectedEnd(m: Merges, source: nat, target: nat, id: nat, hops: nat, survivor: nat, more: nat, last: nat)
    requires source in m && Ends(m, id, hops, survivor)
    requires Ends(m[source := Some(target)], target, more, last)
    ensures HasEnd(m[source := Some(target)], id)
  {
    var m' := m[source := Some(target)];
    if k: nat :| Path(m, id, k, source) {
      var first := FirstMeeting(m, id, source, k);
      PathKept(m, source, target, id, first, source);
      assert Path(m', source, 1 + more, last);
      PathJoin(m', id, first, source, 1 + more, last);
      assert Ends(m', id, first + (1 + more), last);
    } else {
      PathKept(m, source, target, id, hops, survivor);
      assert Ends(m', id, hops, survivor);
    }
  }

  /** Pointing `source` at `target` keeps the forest exactly when the target's own chain does not pass `source`. */
  lemma RedirectKeepsForest(m: Merges, source: nat, target: nat)
    requires Forest(m) && source in m && target in m
    ensures Forest(m[source := Some(target)]) <==> !On(m, target, source)
  {
    var m' := m[source := Some(target)];
    if bound: nat :| Path(m, target, bound, source) {
      var first := FirstMeeting(m, target, source, bound);
      PathKept(m, source, target, target, first, source);
      assert Path(m', source, 1, target) by { assert Path(m', target, 0, target); }
      PathJoin(m', target, first, source, 1, target);
      forall hops: nat, survivor: nat ensures !Ends(m', target, hops, survivor) {
        CycleHasNoEnd(m', target, first + 1, hops, survivor);
      }
      assert !HasEnd(m', target);
    } else {
      assert HasEnd(m, target);
      var more: nat, last: nat :| Ends(m, target, more, last);
      PathKept(m, source, target, target, more, last);
      assert Ends(m', target, more, last) by { assert Path(m, target, more, last); }
      forall id: nat | id in m' ensures HasEnd(m', id) {
        if id == source { assert Ends(m', source, more + 1, last); } else {
          assert HasEnd(m, id);
          var hops: nat, survivor: nat :| Ends(m, id, hops, survivor);
          RedirectedEnd(m, source, target, id, hops, survivor, more, last);
        }
      }
    }
  }

  /** Merging one live customer into another lengthens by one hop exactly the chains that ended at it. */
  lemma LiveMergeEnds(m: Merges, source: nat, target: nat, id: nat, hops: nat, survivor: nat)
    requires Live(m, source) && Live(m, target) && source != target && Ends(m, id, hops, survivor)
    ensures survivor != source ==> Ends(m[source := Some(target)], id, hops, survivor)
    ensures survivor == source ==> Ends(m[source := Some(target)], id, hops + 1, target)
  {
    var m' := m[source := Some(target)];
    forall k: nat | Path(m, id, k, source) ensures k == hops && survivor == source {
      EndIsUnique(m, id, k, source, hops, survivor);
    }
    PathKept(m, source, target, id, hops, survivor);
    if survivor == source {
      assert Path(m', target, 0, target);
      assert Path(m', source, 1, target);
      PathJoin(m', id, hops, source, 1, target);
    }
  }

  // ---- Contact keys ----

  ghost function AllKeys(contacts: map<nat, Contact>): set<Key> {
    set id | id in contacts :: contacts[id].key
  }

  /** A merge loses contact keys exactly when both ids resolve to one customer and it has contacts. */
  lemma MergeKeepsKeys(s: Store, source: nat, target: nat, from: nat, into: nat)
    requires Unique(s.contacts)
    ensures var after := Merged(s, source, target, from, into).contacts;
      AllKeys(after) == AllKeys(s.contacts) <==> (from != into || KeysOf(s.contacts, from) == {})
  {
    var after := Merged(s, source, target, from, into).contacts;
    var keys := KeysOf(s.contacts, into);
    assert forall id :: id in s.contacts && s.contacts[id].customer == into ==> s.contacts[id].key in keys;
    if from != into {
      assert forall id :: id in s.contacts && s.contacts[id].customer == from ==> s.contacts[id].key !in keys;
      SameKeys(s.contacts, after);
    } else if keys == {} {
      SameKeys(s.contacts, after);
    } else {
      var key :| key in keys;
      assert key in AllKeys(s.contacts) && key !in AllKeys(after);
    }
  }

  lemma SameKeys(a: map<nat, Contact>, b: map<nat, Contact>)
    requires a.Keys == b.Keys && forall id :: id in a ==> a[id].key == b[id].key
    ensures AllKeys(a) == AllKeys(b)
  {
    forall key | key in AllKeys(a) ensures key in AllKeys(b) { var id :| id in a && a[id].key == key; assert id in b; }
    forall key | key in AllKeys(b) ensures key in AllKeys(a) { var id :| id in b && b[id].key == key; assert id in a; }
  }

  // ---- Creating and adding ----

  /** A customer is created exactly if its keys are unused and distinct: live, with these contacts and no others, the first primary unless told otherwise. */
  lemma CreateExact(s: Store, inputs: seq<ContactInput>)
    requires forall id :: id in s.contacts ==> id < s.next
    ensures var (t, reply) := Create(s, inputs);
      if SomeInUse(s, inputs) || Repeated(inputs) then t == s && reply == Conflict
      else
        && reply == Done(s.next) && t.merges == s.merges[s.next := None]
        && (forall id :: id in t.contacts <==> id in s.contacts || s.next + 1 <= id <= s.next + |inputs|)
        && (forall id :: id in s.contacts ==> t.contacts[id] == s.contacts[id])
        && forall i: nat :: i < |inputs| ==> IsContact(t.contacts, s.next + 1 + i, s.next, inputs[i], i == 0)
  {
    InUseMeaning(s, inputs);
    if !SomeInUse(s, inputs) && !Repeated(inputs) { CreatedExact(s, inputs); }
  }

  lemma CreatedExact(s: Store, inputs: seq<ContactInput>)
    requires forall id :: id in s.contacts ==> id < s.next
    ensures var t := Created(s, inputs);
      && (forall id :: id in t.contacts <==> id in s.contacts || s.next + 1 <= id <= s.next + |inputs|)
      && (forall id :: id in s.contacts ==> t.contacts[id] == s.contacts[id])
      && forall i: nat :: i < |inputs| ==> IsContact(t.contacts, s.next + 1 + i, s.next, inputs[i], i == 0)
  {
    var t := Created(s, inputs);
    forall i: nat | i < |inputs| ensures IsContact(t.contacts, s.next + 1 + i, s.next, inputs[i], i == 0) {
      InsertedAt(s.contacts, s.next, inputs, s.next + 1, i);
    }
  }

  ghost predicate InUse(s: Store, key: Key) {
    exists id :: id in s.contacts && s.contacts[id].key == key
  }

  ghost predicate SomeInUse(s: Store, inputs: seq<ContactInput>) {
    exists i :: 0 <= i < |inputs| && InUse(s, inputs[i].key)
  }

  ghost predicate Repeated(inputs: seq<ContactInput>) {
    exists i, j :: 0 <= i < j < |inputs| && inputs[i].key == inputs[j].key
  }

  lemma InUseMeaning(s: Store, inputs: seq<ContactInput>)
    ensures AnyTaken(s.contacts, inputs) <==> SomeInUse(s, inputs)
    ensures RepeatsKey(inputs) <==> Repeated(inputs)
  {
    forall key ensures Taken(s.contacts, key) <==> InUse(s, key) {}
  }

  /** The contact has this id, owner, key, and mark. */
  ghost predicate IsContact(contacts: map<nat, Contact>, id: nat, customer: nat, input: ContactInput, first: bool) {
    id in contacts && contacts[id] == Contact(customer, input.key, if input.isPrimary.Some? then input.isPrimary.value else first)
  }

  lemma InsertLast(contacts: map<nat, Contact>, customer: nat, inputs: seq<ContactInput>, first: nat)
    requires inputs != []
    ensures var last := |inputs| - 1;
      Insert(contacts, customer, inputs, first) ==
        Insert(contacts, customer, inputs[..last], first)[first + last :=
          Contact(customer, inputs[last].key, if inputs[last].isPrimary.Some? then inputs[last].isPrimary.value else last == 0)]
  {
  }

  lemma {:induction false} InsertedAt(contacts: map<nat, Contact>, customer: nat, inputs: seq<ContactInput>, first: nat, i: nat)
    requires i < |inputs|
    ensures IsContact(Insert(contacts, customer, inputs, first), first + i, customer, inputs[i], i == 0)
  {
    var last := |inputs| - 1;
    InsertLast(contacts, customer, inputs, first);
    if i < last { InsertedAt(contacts, customer, inputs[..last], first, i); }
  }

  /** A contact is added exactly if nobody has its key and the customer exists; a primary one is then the only primary of its kind. */
  lemma AddExact(s: Store, customer: nat, input: ContactInput)
    requires forall id :: id in s.contacts ==> id < s.next
    ensures var (t, reply) := AddContact(s, customer, input);
      && (reply == Conflict <==> exists id :: id in s.contacts && s.contacts[id].key == input.key && s.contacts[id].customer != customer)
      && (if customer in s.merges && forall id :: id in s.contacts ==> s.contacts[id].key != input.key then
            && t.contacts.Keys == s.contacts.Keys + {s.next}
            && t.contacts[s.next] == Contact(customer, input.key, input.isPrimary == Some(true))
            && (forall id :: id in s.contacts ==> t.contacts[id] == s.contacts[id] || t.contacts[id] == s.contacts[id].(isPrimary := false))
            && (forall id :: id in s.contacts && t.contacts[id] != s.contacts[id] ==>
                  input.isPrimary == Some(true) && s.contacts[id].customer == customer && s.contacts[id].key.kind == input.key.kind)
            && (input.isPrimary == Some(true) ==> OnlyPrimary(t, s.next))
          else t == s)
  {
    assert Taken(s.contacts, input.key) <==> !(forall id :: id in s.contacts ==> s.contacts[id].key != input.key);
  }

  ghost predicate OnlyPrimary(s: Store, id: nat) {
    id in s.contacts && s.contacts[id].isPrimary
    && forall other :: other in s.contacts && other != id && s.contacts[other].isPrimary ==>
         s.contacts[other].customer != s.contacts[id].customer || s.contacts[other].key.kind != s.contacts[id].key.kind
  }

  /** A record is stored, under the id given, exactly if that leads to a live customer in nine hops at most. */
  lemma AddRecordStored(s: Store, kind: Kind, customer: nat)
    ensures var t := AddRecord(s, kind, customer).0;
      if exists hops: nat, survivor: nat :: hops <= 9 && Ends(s.merges, customer, hops, survivor)
      then t == s.(records := s.records[s.next := Record(kind, customer)], next := s.next + 1)
      else t == s
  {
    var found := Walk(s.merges, customer, MAX_HOPS);
    if found.Found? { GetFindsSurvivor(s.merges, customer, found.id); }
    if hops: nat, survivor: nat :| hops <= 9 && Ends(s.merges, customer, hops, survivor) { GetFindsSurvivor(s.merges, customer, survivor); }
  }

  // ---- Runs ----

  /** A merge between its reads and its transaction. */
  datatype Pending = Pending(rows: set<nat>, keys: set<Key>, source: nat, target: nat)

  datatype System = System(store: Store, pending: map<nat, Pending>)

  datatype Event =
    | CreateCustomer(inputs: seq<ContactInput>)
    | AddContactMethod(customer: nat, input: ContactInput)
    | AddTo(kind: Kind, customer: nat)
    | BeginMerge(call: nat, source: nat, target: nat)
    | CommitMerge(call: nat)

  function Begun(s: System, call: nat, source: nat, target: nat): System {
    var from, into := Walk(s.store.merges, source, MAX_HOPS), Walk(s.store.merges, target, MAX_HOPS);
    if source == target || !from.Found? || !into.Found? || call in s.pending then s
    else
      var p := Pending(RowsOf(s.store.contacts, from.id), KeysOf(s.store.contacts, into.id), source, target);
      s.(pending := s.pending[call := p])
  }

  function Write(s: Store, p: Pending): Store {
    MergeWrite(s, p.rows, p.keys, p.source, p.target)
  }

  function Next(s: System, e: Event): System {
    match e
    case CreateCustomer(inputs) => s.(store := Create(s.store, inputs).0)
    case AddContactMethod(customer, input) => s.(store := AddContact(s.store, customer, input).0)
    case AddTo(kind, customer) => s.(store := AddRecord(s.store, kind, customer).0)
    case BeginMerge(call, source, target) => Begun(s, call, source, target)
    case CommitMerge(call) =>
      if call in s.pending then System(Write(s.store, s.pending[call]), s.pending - {call}) else s
  }

  function Run(s: System, events: seq<Event>): System
    decreases events
  {
    if events == [] then s else Run(Next(s, events[0]), events[1..])
  }

  /** A merge that nothing interrupts is its reads followed at once by its transaction. */
  lemma MergeIsRun(s: System, call: nat, source: nat, target: nat)
    requires call !in s.pending
    ensures Run(s, [BeginMerge(call, source, target), CommitMerge(call)]) == s.(store := Merge(s.store, source, target).0)
  {
    var t := Next(s, BeginMerge(call, source, target));
    assert [BeginMerge(call, source, target), CommitMerge(call)][1..] == [CommitMerge(call)];
    assert Run(t, [CommitMerge(call)]) == Next(t, CommitMerge(call));
    assert call in t.pending ==> t.pending - {call} == s.pending;
  }

  /** Ids come from a counter. */
  ghost predicate Fresh(s: Store) {
    && (forall id :: id in s.merges ==> id < s.next)
    && (forall id :: id in s.contacts ==> id < s.next)
    && (forall id :: id in s.records ==> id < s.next)
  }

  ghost predicate Numbered(s: Store) {
    Fresh(s) && Unique(s.contacts)
  }

  /** Merges under way have resolved two different ids. */
  ghost predicate Resolved(s: System) {
    forall c :: c in s.pending ==>
      s.pending[c].source in s.store.merges && s.pending[c].target in s.store.merges && s.pending[c].source != s.pending[c].target
  }

  lemma StepResolved(s: System, e: Event)
    requires Resolved(s)
    ensures Resolved(Next(s, e))
  {
    assert forall id :: id in s.store.merges ==> id in Next(s, e).store.merges;
  }

  lemma WriteKeepsUnique(s: Store, p: Pending)
    requires Numbered(s) && p.source in s.merges
    ensures Numbered(Write(s, p))
  {
  }

  lemma StepKeepsUnique(s: System, e: Event)
    requires Numbered(s.store) && Resolved(s)
    ensures Numbered(Next(s, e).store)
  {
    match e
    case CreateCustomer(inputs) =>
      if Create(s.store, inputs).1.Done? { CreateKeepsUnique(s.store, inputs); }
    case AddContactMethod(customer, input) =>
    case AddTo(kind, customer) =>
    case BeginMerge(_, _, _) =>
    case CommitMerge(call) =>
      if call in s.pending { WriteKeepsUnique(s.store, s.pending[call]); }
  }

  lemma CreateKeepsUnique(s: Store, inputs: seq<ContactInput>)
    requires Numbered(s) && !AnyTaken(s.contacts, inputs) && !RepeatsKey(inputs)
    ensures Numbered(Created(s, inputs))
  {
    assert forall i :: 0 <= i < |inputs| ==> !Taken(s.contacts, inputs[i].key);
    assert forall i, j :: 0 <= i < j < |inputs| ==> inputs[i].key != inputs[j].key;
    var first := s.next + 1;
    var all := Created(s, inputs).contacts;
    forall a, b | a in all && b in all && a < b ensures all[a].key != all[b].key {
      if a < first <= b {
        assert all[a] == s.contacts[a] && all[b].key == inputs[b - first].key;
      }
    }
  }

  /** (kind, normalized) stays unique across customers in every run, whatever ids are merged and however merges overlap. */
  lemma {:induction false} RunKeepsUnique(s: System, events: seq<Event>)
    requires Numbered(s.store) && Resolved(s)
    ensures Numbered(Run(s, events).store) && Resolved(Run(s, events))
    decreases events
  {
    if events != [] {
      StepKeepsUnique(s, events[0]);
      StepResolved(s, events[0]);
      RunKeepsUnique(Next(s, events[0]), events[1..]);
    }
  }

  // ---- What a step should keep ----

  /** Everything belongs to a live customer. */
  ghost predicate Housed(s: Store) {
    && (forall id :: id in s.contacts ==> Live(s.merges, s.contacts[id].customer))
    && (forall id :: id in s.records ==> Live(s.merges, s.records[id].customer))
  }

  ghost predicate Inv(s: Store) {
    Numbered(s) && Forest(s.merges) && Housed(s)
  }

  /** The merge that takes effect in this step, if any. */
  function Effect(s: System, e: Event): Option<Pending> {
    if e.CommitMerge? && e.call in s.pending && s.pending[e.call].rows <= s.store.contacts.Keys then Some(s.pending[e.call])
    else None
  }

  /** Who should have, after the step, what `customer` had before it. */
  function Heir(merge: Option<Pending>, customer: nat): nat {
    if merge.Some? && merge.value.source == customer then merge.value.target else customer
  }

  function Heirs(s: System, events: seq<Event>, customer: nat): nat
    decreases events
  {
    if events == [] then customer else Heirs(Next(s, events[0]), events[1..], Heir(Effect(s, events[0]), customer))
  }

  /** Every row is still there, moved to its owner's heir and otherwise unchanged. */
  ghost predicate Conserved(s: Store, merge: Option<Pending>, t: Store) {
    && (forall id :: id in s.records ==> id in t.records && t.records[id] == s.records[id].(customer := Heir(merge, s.records[id].customer)))
    && (forall id :: id in s.contacts ==>
          id in t.contacts && t.contacts[id].key == s.contacts[id].key && t.contacts[id].customer == Heir(merge, s.contacts[id].customer))
  }

  /** The chain from `id` ends at `survivor` after no more than the given number of hops. */
  ghost predicate EndsWithin(m: Merges, id: nat, limit: nat, survivor: nat) {
    exists hops: nat :: hops <= limit && Ends(m, id, hops, survivor)
  }

  ghost predicate ChainFollows(m: Merges, merge: Option<Pending>, n: Merges, id: nat, hops: nat, survivor: nat) {
    Ends(m, id, hops, survivor) ==> EndsWithin(n, id, hops + 1, Heir(merge, survivor))
  }

  /** Chains end at the heir, at most one hop longer. */
  ghost predicate ChainsFollow(m: Merges, merge: Option<Pending>, n: Merges) {
    forall id: nat, hops: nat, survivor: nat :: ChainFollows(m, merge, n, id, hops, survivor)
  }

  ghost predicate Inherits(s: Store, merge: Option<Pending>, t: Store) {
    Inv(t) && Conserved(s, merge, t) && ChainsFollow(s.merges, merge, t.merges)
  }

  // ---- Committing a merge ----

  /** The rows read are still those of the source, but for some the target has by now, and none of their keys was read as the target's. */
  ghost predicate ReadsFit(s: Store, p: Pending) {
    && RowsOf(s.contacts, p.source) <= p.rows <= RowsOf(s.contacts, p.source) + RowsOf(s.contacts, p.target)
    && forall id :: id in p.rows && id in s.contacts ==> s.contacts[id].key !in p.keys
  }

  /** The source is live, or its chain leads to the target anyway. */
  ghost predicate LeadsTo(m: Merges, source: nat, target: nat) {
    Live(m, source) || exists hops: nat :: Ends(m, source, hops, target)
  }

  lemma CommitConserves(s: Store, p: Pending)
    requires Fresh(s) && p.source != p.target && p.rows <= s.contacts.Keys
    ensures Conserved(s, Some(p), Write(s, p)) <==> ReadsFit(s, p)
  {
    var t := Write(s, p);
    if Conserved(s, Some(p), t) {
      forall id | id in p.rows ensures s.contacts[id].key !in p.keys { assert id in t.contacts; }
      forall id | id in RowsOf(s.contacts, p.source) ensures id in p.rows { assert t.contacts[id].customer == p.target; }
      forall id | id in p.rows ensures id in RowsOf(s.contacts, p.source) + RowsOf(s.contacts, p.target) {
        assert t.contacts[id].customer == p.target;
      }
    } else if ReadsFit(s, p) {
      forall id | id in s.contacts
        ensures id in t.contacts && t.contacts[id].key == s.contacts[id].key
        ensures t.contacts[id].customer == Heir(Some(p), s.contacts[id].customer)
      {
        assert id in p.rows || id !in RowsOf(s.contacts, p.source);
      }
    }
  }

  lemma CommitHoused(s: Store, p: Pending)
    requires Fresh(s) && Housed(s) && p.source != p.target && p.rows <= s.contacts.Keys
    requires Conserved(s, Some(p), Write(s, p))
    ensures Housed(Write(s, p)) <==> Live(s.merges, p.target)
  {
    var t := Write(s, p);
    assert t.records[s.next] == Record(Activity, p.target);
    assert forall id :: id != p.source ==> (Live(t.merges, id) <==> Live(s.merges, id));
    assert forall id :: id in t.contacts ==> id in s.contacts;
    assert forall id :: id in t.records ==> id == s.next || id in s.records;
  }

  lemma TombstoneChain(m: Merges, source: nat, target: nat, more: nat, id: nat, hops: nat, survivor: nat)
    requires source != target && Live(m, target) && m[target := None] == m && Ends(m, source, more, target)
    requires !Live(m, source) && Ends(m, id, hops, survivor)
    ensures EndsWithin(m[source := Some(target)], id, hops + 1, survivor)
  {
    var n := m[source := Some(target)];
    if k: nat :| k <= hops && Path(m, id, k, source) {
      var first := FirstMeeting(m, id, source, k);
      PathSplit(m, id, first, source, hops, survivor);
      EndIsUnique(m, source, hops - first, survivor, more, target);
      PathKept(m, source, target, id, first, source);
      assert Path(n, target, 0, target) && Path(n, source, 1, target);
      PathJoin(n, id, first, source, 1, target);
      assert Ends(n, id, first + 1, target);
    } else {
      PathKept(m, source, target, id, hops, survivor);
      assert Ends(n, id, hops, survivor);
    }
  }

  lemma CommitChains(m: Merges, p: Pending)
    requires Forest(m) && p.source in m && Live(m, p.target) && p.source != p.target
    ensures ChainsFollow(m, Some(p), m[p.source := Some(p.target)]) <==> LeadsTo(m, p.source, p.target)
  {
    var n := m[p.source := Some(p.target)];
    if LeadsTo(m, p.source, p.target) {
      forall id: nat, hops: nat, survivor: nat ensures ChainFollows(m, Some(p), n, id, hops, survivor) {
        if !Ends(m, id, hops, survivor) {
        } else if Live(m, p.source) {
          LiveMergeEnds(m, p.source, p.target, id, hops, survivor);
        } else {
          var more: nat :| Ends(m, p.source, more, p.target);
          TombstoneChain(m, p.source, p.target, more, id, hops, survivor);
        }
      }
    } else {
      assert HasEnd(m, p.source);
      var hops: nat, survivor: nat :| Ends(m, p.source, hops, survivor);
      assert Path(n, p.target, 0, p.target) && Ends(n, p.source, 1, p.target);
      forall now: nat ensures !Ends(n, p.source, now, survivor) {
        if Ends(n, p.source, now, survivor) { EndIsUnique(n, p.source, 1, p.target, now, survivor); }
      }
      assert !ChainFollows(m, Some(p), n, p.source, hops, survivor);
    }
  }

  /** A merge lands right: it rolls back, or its target is live, its source is live or leads there, and its reads still fit. */
  ghost predicate LandsRight(s: Store, p: Pending) {
    p.rows <= s.contacts.Keys ==> Live(s.merges, p.target) && LeadsTo(s.merges, p.source, p.target) && ReadsFit(s, p)
  }

  lemma CommitExact(s: Store, p: Pending)
    requires Inv(s) && p.source in s.merges && p.target in s.merges && p.source != p.target && p.rows <= s.contacts.Keys
    ensures Inherits(s, Some(p), Write(s, p)) <==> LandsRight(s, p)
  {
    CommitConserves(s, p);
    WriteKeepsUnique(s, p);
    if ReadsFit(s, p) {
      CommitHoused(s, p);
      if Live(s.merges, p.target) {
        forall hops: nat ensures !Path(s.merges, p.target, hops, p.source) {}
        RedirectKeepsForest(s.merges, p.source, p.target);
        CommitChains(s.merges, p);
      }
    }
  }

  // ---- Runs that lose nothing ----

  /** An operation lands right: it changes nothing, or it is made on a live customer, or it is a merge that does. */
  ghost predicate Right(s: System, e: Event) {
    match e
    case AddContactMethod(customer, input) => AddContact(s.store, customer, input).0 == s.store || Live(s.store.merges, customer)
    case AddTo(kind, customer) => AddRecord(s.store, kind, customer).0 == s.store || Live(s.store.merges, customer)
    case CommitMerge(call) => call in s.pending ==> LandsRight(s.store, s.pending[call])
    case _ => true
  }

  ghost predicate AllRight(s: System, events: seq<Event>)
    decreases events
  {
    events != [] ==> Right(s, events[0]) && AllRight(Next(s, events[0]), events[1..])
  }

  ghost predicate StepInherits(s: System, e: Event) {
    Inherits(s.store, Effect(s, e), Next(s, e).store)
  }

  ghost predicate InheritsThroughout(s: System, events: seq<Event>)
    decreases events
  {
    events != [] ==> StepInherits(s, events[0]) && InheritsThroughout(Next(s, events[0]), events[1..])
  }

  lemma ChainsStay(m: Merges)
    ensures ChainsFollow(m, None, m)
  {
    forall id: nat, hops: nat, survivor: nat ensures ChainFollows(m, None, m, id, hops, survivor) {}
  }

  lemma NothingChanges(s: Store)
    requires Inv(s)
    ensures Inherits(s, None, s)
  {
    ChainsStay(s.merges);
  }

  /** A new customer does not disturb existing chains. */
  lemma {:induction false} EndKept(m: Merges, added: nat, id: nat, hops: nat, survivor: nat)
    requires added !in m && Ends(m, id, hops, survivor)
    ensures Ends(m[added := None], id, hops, survivor)
    decreases hops
  {
    if hops > 0 { EndKept(m, added, m[id].value, hops - 1, survivor); }
  }

  lemma CreateForest(m: Merges, added: nat)
    requires Forest(m) && added !in m
    ensures Forest(m[added := None]) && ChainsFollow(m, None, m[added := None])
  {
    var n := m[added := None];
    forall id: nat, hops: nat, survivor: nat ensures ChainFollows(m, None, n, id, hops, survivor) {
      if Ends(m, id, hops, survivor) { EndKept(m, added, id, hops, survivor); }
    }
    assert Ends(n, added, 0, added);
    forall id: nat | id in n ensures HasEnd(n, id) {
      if id != added {
        assert HasEnd(m, id);
        var hops: nat, survivor: nat :| Ends(m, id, hops, survivor);
        EndKept(m, added, id, hops, survivor);
      }
    }
  }

  lemma CreateConserves(s: Store, inputs: seq<ContactInput>)
    requires Fresh(s)
    ensures Conserved(s, None, Created(s, inputs))
  {
  }

  lemma CreateKeepsHoused(s: Store, inputs: seq<ContactInput>)
    requires Fresh(s) && Housed(s)
    ensures Housed(Created(s, inputs))
  {
    assert forall id :: Live(s.merges, id) ==> Live(Created(s, inputs).merges, id);
  }

  lemma CreateInherits(s: Store, inputs: seq<ContactInput>)
    requires Inv(s) && !AnyTaken(s.contacts, inputs) && !RepeatsKey(inputs)
    ensures Inherits(s, None, Created(s, inputs))
  {
    CreateKeepsUnique(s, inputs);
    CreateKeepsHoused(s, inputs);
    CreateConserves(s, inputs);
    CreateForest(s.merges, s.next);
  }

  lemma AddContactConserves(s: Store, customer: nat, input: ContactInput)
    requires Numbered(s)
    ensures var t := AddContact(s, customer, input).0; Conserved(s, None, t) && Numbered(t)
  {
  }

  lemma AddContactHoused(s: Store, customer: nat, input: ContactInput)
    requires Fresh(s) && Housed(s)
    ensures var t := AddContact(s, customer, input).0; Housed(t) <==> t == s || Live(s.merges, customer)
  {
    var t := AddContact(s, customer, input).0;
    if t != s { assert t.contacts[s.next].customer == customer; }
  }

  lemma AddContactExact(s: Store, customer: nat, input: ContactInput)
    requires Inv(s)
    ensures var t := AddContact(s, customer, input).0; Inherits(s, None, t) <==> t == s || Live(s.merges, customer)
  {
    AddContactConserves(s, customer, input);
    AddContactHoused(s, customer, input);
    ChainsStay(s.merges);
  }

  lemma AddRecordHoused(s: Store, kind: Kind, customer: nat)
    requires Fresh(s) && Housed(s)
    ensures var t := AddRecord(s, kind, customer).0; Housed(t) <==> t == s || Live(s.merges, customer)
  {
    var t := AddRecord(s, kind, customer).0;
    if t != s { assert t.records[s.next].customer == customer; }
  }

  lemma AddRecordExact(s: Store, kind: Kind, customer: nat)
    requires Inv(s)
    ensures var t := AddRecord(s, kind, customer).0; Inherits(s, None, t) <==> t == s || Live(s.merges, customer)
  {
    AddRecordHoused(s, kind, customer);
    ChainsStay(s.merges);
  }

  lemma StepExact(s: System, e: Event)
    requires Inv(s.store) && Resolved(s)
    ensures StepInherits(s, e) <==> Right(s, e)
  {
    NothingChanges(s.store);
    match e
    case CreateCustomer(inputs) =>
      if Create(s.store, inputs).1.Done? { CreateInherits(s.store, inputs); }
    case AddContactMethod(customer, input) => AddContactExact(s.store, customer, input);
    case AddTo(kind, customer) => AddRecordExact(s.store, kind, customer);
    case BeginMerge(_, _, _) =>
    case CommitMerge(call) =>
      if Effect(s, e).Some? { CommitExact(s.store, s.pending[call]); }
  }

  /**
   In every run, however merges overlap with each other and with additions: nothing is lost or
   stranded at any step, and every chain goes on to the heir, if and only if every step lands right.
   */
  lemma {:induction false} InheritanceExact(s: System, events: seq<Event>)
    requires Inv(s.store) && Resolved(s)
    ensures InheritsThroughout(s, events) <==> AllRight(s, events)
    decreases events
  {
    if events != [] {
      StepExact(s, events[0]);
      StepResolved(s, events[0]);
      if Right(s, events[0]) { InheritanceExact(Next(s, events[0]), events[1..]); }
    }
  }

  /** A merge of two live customers that nothing interrupts lands right. */
  lemma SerialIsRight(s: System, call: nat, source: nat, target: nat)
    requires Inv(s.store) && Live(s.store.merges, source) && Live(s.store.merges, target) && source != target && call !in s.pending
    ensures AllRight(s, [BeginMerge(call, source, target), CommitMerge(call)])
  {
    assert Ends(s.store.merges, source, 0, source) && Ends(s.store.merges, target, 0, target);
    GetFindsSurvivor(s.store.merges, source, source);
    GetFindsSurvivor(s.store.merges, target, target);
    var events := [BeginMerge(call, source, target), CommitMerge(call)];
    var t := Next(s, events[0]);
    SerialReadsFit(s.store, source, target);
    assert events[1..] == [CommitMerge(call)] && [CommitMerge(call)][1..] == [];
    assert Right(t, CommitMerge(call)) && AllRight(Next(t, CommitMerge(call)), []);
    assert AllRight(t, events[1..]);
  }

  lemma SerialReadsFit(s: Store, source: nat, target: nat)
    requires Inv(s) && source != target
    ensures ReadsFit(s, Pending(RowsOf(s.contacts, source), KeysOf(s.contacts, target), source, target))
  {
    assert forall id :: id in RowsOf(s.contacts, source) ==> s.contacts[id].key !in KeysOf(s.contacts, target);
  }

  /** Where every step lands right, chains end at the heir, one hop longer at most for each step. */
  lemma {:induction false} RunEnds(s: System, events: seq<Event>, id: nat, hops: nat, survivor: nat)
    requires Inv(s.store) && Resolved(s) && AllRight(s, events) && Ends(s.store.merges, id, hops, survivor)
    ensures Inv(Run(s, events).store)
    ensures EndsWithin(Run(s, events).store.merges, id, hops + |events|, Heirs(s, events, survivor))
    decreases events
  {
    if events != [] {
      StepExact(s, events[0]);
      StepResolved(s, events[0]);
      var t, heir := Next(s, events[0]), Heir(Effect(s, events[0]), survivor);
      assert ChainFollows(s.store.merges, Effect(s, events[0]), t.store.merges, id, hops, survivor);
      var now: nat :| now <= hops + 1 && Ends(t.store.merges, id, now, heir);
      RunEnds(t, events[1..], id, now, heir);
      Longer(Run(s, events).store.merges, id, now + |events[1..]|, hops + |events|, Heirs(s, events, survivor));
    }
  }

  lemma Longer(m: Merges, id: nat, limit: nat, higher: nat, survivor: nat)
    requires EndsWithin(m, id, limit, survivor) && limit <= higher
    ensures EndsWithin(m, id, higher, survivor)
  {
    var hops: nat :| hops <= limit && Ends(m, id, hops, survivor);
  }

  lemma {:induction false} RunConserves(s: System, events: seq<Event>, id: nat)
    requires Inv(s.store) && Resolved(s) && AllRight(s, events)
    ensures var was, now := s.store, Run(s, events).store;
      && (id in was.records ==>
            id in now.records && now.records[id] == was.records[id].(customer := Heirs(s, events, was.records[id].customer)))
      && (id in was.contacts ==>
            id in now.contacts && now.contacts[id].key == was.contacts[id].key
            && now.contacts[id].customer == Heirs(s, events, was.contacts[id].customer))
    decreases events
  {
    if events != [] {
      StepExact(s, events[0]);
      StepResolved(s, events[0]);
      RunConserves(Next(s, events[0]), events[1..], id);
    }
  }

  /** `survivor` is at the end of the chain from `customer`, which `get` follows exactly if it has nine hops or fewer. */
  ghost predicate Survives(m: Merges, customer: nat, survivor: nat, hops: nat) {
    Ends(m, customer, hops, survivor) && (Walk(m, customer, MAX_HOPS) == Found(survivor) <==> hops <= 9)
  }

  lemma EndSurvives(m: Merges, customer: nat, survivor: nat, limit: nat)
    requires EndsWithin(m, customer, limit, survivor)
    ensures exists hops: nat :: hops <= limit && Survives(m, customer, survivor, hops)
  {
    var hops: nat :| hops <= limit && Ends(m, customer, hops, survivor);
    GetFindsSurvivor(m, customer, survivor);
    if other: nat :| other <= 9 && Ends(m, customer, other, survivor) {
      EndIsUnique(m, customer, other, survivor, hops, survivor);
    }
    assert Survives(m, customer, survivor, hops);
  }

  /**
   Where every step lands right no conversation, ticket, note, activity or memory is lost, and
   each ends up with the survivor of the customer who had it, whom `get` finds exactly if the
   chain of merges in between has nine hops or fewer.
   */
  lemma SurvivorsInherit(s: System, events: seq<Event>, id: nat)
    requires Inv(s.store) && Resolved(s) && AllRight(s, events) && id in s.store.records
    ensures var was, now := s.store, Run(s, events).store;
      && id in now.records && now.records[id].kind == was.records[id].kind
      && exists hops: nat :: hops <= |events| && Survives(now.merges, was.records[id].customer, now.records[id].customer, hops)
  {
    var owner := s.store.records[id].customer;
    assert Ends(s.store.merges, owner, 0, owner);
    RunConserves(s, events, id);
    RunEnds(s, events, owner, 0, owner);
    EndSurvives(Run(s, events).store.merges, owner, Heirs(s, events, owner), |events|);
  }

  lemma SurvivorsInheritContacts(s: System, events: seq<Event>, id: nat)
    requires Inv(s.store) && Resolved(s) && AllRight(s, events) && id in s.store.contacts
    ensures var was, now := s.store, Run(s, events).store;
      && id in now.contacts && now.contacts[id].key == was.contacts[id].key
      && exists hops: nat :: hops <= |events| && Survives(now.merges, was.contacts[id].customer, now.contacts[id].customer, hops)
  {
    var owner := s.store.contacts[id].customer;
    assert Ends(s.store.merges, owner, 0, owner);
    RunConserves(s, events, id);
    RunEnds(s, events, owner, 0, owner);
    EndSurvives(Run(s, events).store.merges, owner, Heirs(s, events, owner), |events|);
  }

  /** The union of the two customers' keys is what the survivor has after a merge of live customers. */
  lemma MergeUnitesKeys(s: Store, source: nat, target: nat)
    requires Inv(s) && Live(s.merges, source) && Live(s.merges, target) && source != target
    ensures var t := Merged(s, source, target, source, target);
      && KeysOf(t.contacts, target) == KeysOf(s.contacts, source) + KeysOf(s.contacts, target)
      && KeysOf(t.contacts, source) == {}
      && forall id :: id in s.contacts ==>
           id in t.contacts
           && t.contacts[id] == if s.contacts[id].customer == source then Contact(target, s.contacts[id].key, false) else s.contacts[id]
  {
    var t := Merged(s, source, target, source, target);
    SerialReadsFit(s, source, target);
    CommitConserves(s, Pending(RowsOf(s.contacts, source), KeysOf(s.contacts, target), source, target));
    forall key | key in KeysOf(s.contacts, source) + KeysOf(s.contacts, target) ensures key in KeysOf(t.contacts, target) {
      var id :| id in s.contacts && s.contacts[id].customer in {source, target} && s.contacts[id].key == key;
      assert id in t.contacts && t.contacts[id].customer == target && t.contacts[id].key == key;
    }
    forall key | key in KeysOf(t.contacts, target) ensures key in KeysOf(s.contacts, source) + KeysOf(s.contacts, target) {
      var id :| id in t.contacts && t.contacts[id].customer == target && t.contacts[id].key == key;
      assert id in s.contacts && s.contacts[id].customer in {source, target} && s.contacts[id].key == key;
    }
  }

  /** `get` leads from the id to a live customer. */
  ghost predicate Resolves(m: Merges, id: nat) {
    exists survivor: nat :: EndsWithin(m, id, 9, survivor)
  }

  lemma ResolvesMeaning(m: Merges, id: nat)
    ensures Walk(m, id, MAX_HOPS).Found? <==> Resolves(m, id)
  {
    var found := Walk(m, id, MAX_HOPS);
    if found.Found? {
      GetFindsSurvivor(m, id, found.id);
      assert EndsWithin(m, id, 9, found.id);
    }
    if survivor: nat :| EndsWithin(m, id, 9, survivor) { GetFindsSurvivor(m, id, survivor); }
  }

  /** A merge is refused, and changes nothing, exactly if the ids are equal or one of them does not resolve; of live customers the target survives. */
  lemma MergeReplies(s: Store, source: nat, target: nat)
    ensures var (t, reply) := Merge(s, source, target);
      && (reply == SameCustomer <==> source == target)
      && (source == target || !Resolves(s.merges, source) || !Resolves(s.merges, target) ==> t == s && !reply.Done?)
      && (source != target && source !in s.merges ==> reply == Missing(source))
      && (source != target && Resolves(s.merges, source) && target !in s.merges ==> reply == Missing(target))
      && (source != target && Live(s.merges, source) && Live(s.merges, target) && Numbered(s) ==>
            reply == Done(target) && Points(t.merges, source, target))
  {
    ResolvesMeaning(s.merges, source);
    ResolvesMeaning(s.merges, target);
    if source != target && Live(s.merges, source) && Live(s.merges, target) {
      assert Ends(s.merges, source, 0, source) && Ends(s.merges, target, 0, target);
      GetFindsSurvivor(s.merges, source, source);
      GetFindsSurvivor(s.merges, target, target);
      var t := Merge(s, source, target).0;
      assert Ends(t.merges, target, 0, target);
      GetFindsSurvivor(t.merges, target, target);
    }
  }

  // ---- Merges that overlap ----

  /** Whatever it has read, a merge keeps the pointers a forest exactly as `RedirectKeepsForest` says of the state it commits on. */
  lemma StaleMergeForest(s: Store, p: Pending)
    requires Forest(s.merges) && p.source in s.merges && p.target in s.merges
    ensures Forest(Write(s, p).merges) <==> !(p.rows <= s.contacts.Keys) || !On(s.merges, p.target, p.source)
  {
    if p.rows <= s.contacts.Keys { RedirectKeepsForest(s.merges, p.source, p.target); }
  }

  lemma BeginLive(s: System, call: nat, source: nat, target: nat)
    requires Live(s.store.merges, source) && Live(s.store.merges, target) && source != target && call !in s.pending
    ensures var p := Pending(RowsOf(s.store.contacts, source), KeysOf(s.store.contacts, target), source, target);
      Next(s, BeginMerge(call, source, target)) == s.(pending := s.pending[call := p])
  {
    assert Ends(s.store.merges, source, 0, source) && Ends(s.store.merges, target, 0, target);
    GetFindsSurvivor(s.store.merges, source, source);
    GetFindsSurvivor(s.store.merges, target, target);
  }

  lemma RunThree(s: System, a: Event, b: Event, c: Event)
    ensures Run(s, [a, b, c]) == Next(Next(Next(s, a), b), c)
  {
    assert [a, b, c][1..] == [b, c] && [b, c][1..] == [c] && [c][1..] == [];
    assert Run(Next(Next(s, a), b), [c]) == Next(Next(Next(s, a), b), c);
    assert Run(Next(s, a), [b, c]) == Run(Next(Next(s, a), b), [c]);
  }

  /** Two live customers merged into each other at once: both commit, and they form a cycle. */
  lemma OverlappingMergesCycle(s: System, c: nat, d: nat, a: nat, b: nat)
    requires Inv(s.store) && Live(s.store.merges, a) && Live(s.store.merges, b) && a != b
    requires c !in s.pending && d !in s.pending && c != d
    ensures var t := Run(s, [BeginMerge(c, a, b), BeginMerge(d, b, a), CommitMerge(c), CommitMerge(d)]).store;
      Points(t.merges, a, b) && Points(t.merges, b, a) && !Forest(t.merges)
  {
    var first := Next(s, BeginMerge(c, a, b));
    BeginLive(s, c, a, b);
    BeginLive(first, d, b, a);
    var events := [BeginMerge(c, a, b), BeginMerge(d, b, a), CommitMerge(c), CommitMerge(d)];
    assert events[1..] == [BeginMerge(d, b, a), CommitMerge(c), CommitMerge(d)];
    RunThree(first, BeginMerge(d, b, a), CommitMerge(c), CommitMerge(d));
    SerialReadsFit(s.store, a, b);
    BothCommit(s.store, a, b);
  }

  lemma BothCommit(s: Store, a: nat, b: nat)
    requires Inv(s) && Live(s.merges, a) && Live(s.merges, b) && a != b
    ensures var p := Pending(RowsOf(s.contacts, a), KeysOf(s.contacts, b), a, b);
      var q := Pending(RowsOf(s.contacts, b), KeysOf(s.contacts, a), b, a);
      var t := Write(Write(s, p), q);
      Points(t.merges, a, b) && Points(t.merges, b, a) && !Forest(t.merges)
  {
    var p := Pending(RowsOf(s.contacts, a), KeysOf(s.contacts, b), a, b);
    var q := Pending(RowsOf(s.contacts, b), KeysOf(s.contacts, a), b, a);
    SerialReadsFit(s, a, b);
    CommitExact(s, p);
    var first := Write(s, p);
    assert q.rows <= first.contacts.Keys;
    assert Path(first.merges, b, 0, b) && Path(first.merges, a, 1, b);
    StaleMergeForest(first, q);
  }

  /** For a merge of live customers that commits, everything is left with live ones exactly if no contact of the source was missed. */
  lemma LateContactExact(s: Store, p: Pending)
    requires Inv(s) && Live(s.merges, p.source) && Live(s.merges, p.target) && p.source != p.target && p.rows <= s.contacts.Keys
    ensures Housed(Write(s, p)) <==> RowsOf(s.contacts, p.source) <= p.rows
  {
    var t := Write(s, p);
    if id :| id in RowsOf(s.contacts, p.source) && id !in p.rows {
      assert t.contacts[id] == s.contacts[id] && !Live(t.merges, p.source);
    } else {
      assert forall id :: id != p.source && Live(s.merges, id) ==> Live(t.merges, id);
      assert forall id :: id in t.contacts ==> id in s.contacts && (id in p.rows || id !in RowsOf(s.contacts, p.source));
    }
  }

  /** From every state: a contact added between a merge's reads and its transaction stays on the tombstone. */
  lemma LateContactStranded(s: System, call: nat, source: nat, target: nat, input: ContactInput)
    requires Inv(s.store) && Live(s.store.merges, source) && Live(s.store.merges, target) && source != target
    requires call !in s.pending && !Taken(s.store.contacts, input.key)
    ensures var t := Run(s, [BeginMerge(call, source, target), AddContactMethod(source, input), CommitMerge(call)]).store;
      var id := s.store.next;
      id in t.contacts && t.contacts[id].key == input.key && t.contacts[id].customer == source && Points(t.merges, source, target)
  {
    BeginLive(s, call, source, target);
    RunThree(s, BeginMerge(call, source, target), AddContactMethod(source, input), CommitMerge(call));
  }

  // ---- Ids already merged away ----

  /** With the source live, a merge leaves everything with live customers exactly when the target is live. */
  lemma TombstoneTarget(s: Store, source: nat, target: nat, into: nat)
    requires Inv(s) && Live(s.merges, source) && target in s.merges && source != target
    ensures Housed(Merged(s, source, target, source, into)) <==> Live(s.merges, target)
  {
    var t := Merged(s, source, target, source, into);
    assert t.records[s.next] == Record(Activity, target);
    assert Live(t.merges, target) <==> Live(s.merges, target);
  }

  /** Merging the survivor back into a tombstone of its own makes a cycle, and deletes the survivor's contacts. */
  lemma MergeBackMakesCycle(s: Store, tombstone: nat, survivor: nat)
    requires Inv(s) && Live(s.merges, survivor) && tombstone in s.merges && s.merges[tombstone] == Some(survivor)
    ensures var t := Merge(s, survivor, tombstone).0;
      && !Forest(t.merges)
      && forall id :: id in s.contacts && s.contacts[id].customer == survivor ==> id !in t.contacts
  {
    assert Ends(s.merges, survivor, 0, survivor);
    assert Path(s.merges, survivor, 0, survivor);
    assert Ends(s.merges, tombstone, 1, survivor);
    GetFindsSurvivor(s.merges, survivor, survivor);
    GetFindsSurvivor(s.merges, tombstone, survivor);
    RedirectKeepsForest(s.merges, survivor, tombstone);
    assert Merge(s, survivor, tombstone).0 == Merged(s, survivor, tombstone, survivor, survivor);
    assert forall id :: id in RowsOf(s.contacts, survivor) ==> s.contacts[id].key in KeysOf(s.contacts, survivor);
  }
}
