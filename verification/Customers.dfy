/**
 Customer records: contact-key uniqueness, merging, and the chain of tombstones merging leaves.
 */
module Customers {
  import opened Options

  const MAX_HOPS: nat := 10

  /** Every customer row, with the row it was folded into, if any. */
  type Merges = map<nat, Option<nat>>

  datatype Key = Key(kind: string, normalized: string)
  datatype Contact = Contact(customer: nat, key: Key, isPrimary: bool)
  datatype ContactInput = ContactInput(key: Key, isPrimary: Option<bool>)

  datatype Kind = Conversation | Ticket | Note | Activity | Memory
  datatype Record = Record(kind: Kind, customer: nat)

  /** `next` is above every id handed out so far. */
  datatype Store = Store(merges: Merges, contacts: map<nat, Contact>, records: map<nat, Record>, next: nat)

  datatype Lookup = Found(id: nat) | NotFound(id: nat) | CyclicChain
  datatype Reply = Done(id: nat) | Missing(id: nat) | Cyclic | Conflict | SameCustomer

  function AsReply(lookup: Lookup): Reply {
    match lookup
    case Found(id) => Done(id)
    case NotFound(id) => Missing(id)
    case CyclicChain => Cyclic
  }

  /** Follow the merge pointers, looking at no more than `hops` rows. */
  function Walk(merges: Merges, id: nat, hops: nat): Lookup
    decreases hops, id
  {
    if hops == 0 then CyclicChain
    else if id !in merges then NotFound(id)
    else if merges[id].None? then Found(id)
    else Walk(merges, merges[id].value, hops - 1)
  }

  predicate Taken(contacts: map<nat, Contact>, key: Key) {
    exists id :: id in contacts && contacts[id].key == key
  }

  function KeysOf(contacts: map<nat, Contact>, customer: nat): set<Key> {
    set id | id in contacts && contacts[id].customer == customer :: contacts[id].key
  }

  function RowsOf(contacts: map<nat, Contact>, customer: nat): set<nat> {
    set id | id in contacts && contacts[id].customer == customer
  }

  /** The listed contacts go to `to`, except those whose key is already among `keys`: they are deleted. */
  function MoveContacts(contacts: map<nat, Contact>, rows: set<nat>, keys: set<Key>, to: nat): map<nat, Contact> {
    map id | id in contacts && !(id in rows && contacts[id].key in keys)
      :: if id in rows then contacts[id].(customer := to, isPrimary := false) else contacts[id]
  }

  function MoveRecords(records: map<nat, Record>, from: nat, to: nat): map<nat, Record> {
    map id | id in records :: if records[id].customer == from then records[id].(customer := to) else records[id]
  }

  /** `updateMany` on one table. */
  function UpdateMany(records: map<nat, Record>, kind: Kind, from: nat, to: nat): map<nat, Record> {
    map id | id in records
      :: if records[id].kind == kind && records[id].customer == from then records[id].(customer := to) else records[id]
  }

  /** `createMany`: the i-th contact gets id `first + i`, and the first is primary unless told otherwise. */
  function Insert(contacts: map<nat, Contact>, customer: nat, inputs: seq<ContactInput>, first: nat): (all: map<nat, Contact>)
    ensures forall id :: id in all <==> id in contacts || first <= id < first + |inputs|
    ensures forall id: nat :: first <= id < first + |inputs| ==>
      all[id].customer == customer && all[id].key == inputs[id - first].key
    ensures forall id :: id in contacts && !(first <= id < first + |inputs|) ==> all[id] == contacts[id]
  {
    if inputs == [] then contacts
    else
      var last := |inputs| - 1;
      var isPrimary := if inputs[last].isPrimary.Some? then inputs[last].isPrimary.value else last == 0;
      Insert(contacts, customer, inputs[..last], first)[first + last := Contact(customer, inputs[last].key, isPrimary)]
  }

  predicate RepeatsKey(inputs: seq<ContactInput>) {
    exists i, j :: 0 <= i < j < |inputs| && inputs[i].key == inputs[j].key
  }

  predicate AnyTaken(contacts: map<nat, Contact>, inputs: seq<ContactInput>) {
    exists i :: 0 <= i < |inputs| && Taken(contacts, inputs[i].key)
  }

  function Created(s: Store, inputs: seq<ContactInput>): Store {
    Store(s.merges[s.next := None], Insert(s.contacts, s.next, inputs, s.next + 1),
          s.records[s.next + 1 + |inputs| := Record(Activity, s.next)], s.next + 2 + |inputs|)
  }

  /** Refused if a key is in use; a key repeated in the input breaks the unique constraint and rolls back. */
  function Create(s: Store, inputs: seq<ContactInput>): (Store, Reply) {
    if AnyTaken(s.contacts, inputs) || RepeatsKey(inputs) then (s, Conflict)
    else (Created(s, inputs), Done(s.next))
  }

  /** A new primary contact demotes the customer's others of the same kind. */
  function Demote(contacts: map<nat, Contact>, customer: nat, kind: string): map<nat, Contact> {
    map id | id in contacts
      :: if contacts[id].customer == customer && contacts[id].key.kind == kind then contacts[id].(isPrimary := false) else contacts[id]
  }

  predicate TakenByOther(contacts: map<nat, Contact>, key: Key, customer: nat) {
    exists id :: id in contacts && contacts[id].key == key && contacts[id].customer != customer
  }

  /** Adding a key the customer already has changes nothing. */
  function AddContact(s: Store, customer: nat, input: ContactInput): (Store, Reply) {
    if TakenByOther(s.contacts, input.key, customer) then (s, Conflict)
    else if Taken(s.contacts, input.key) then (s, Done(customer))
    else if customer !in s.merges then (s, Missing(customer))
    else
      var primary := input.isPrimary == Some(true);
      var others := if primary then Demote(s.contacts, customer, input.key.kind) else s.contacts;
      (s.(contacts := others[s.next := Contact(customer, input.key, primary)], next := s.next + 1), Done(customer))
  }

  /** A note, ticket or the like is stored under the id given, once that id resolves. */
  function AddRecord(s: Store, kind: Kind, customer: nat): (Store, Reply) {
    var found := Walk(s.merges, customer, MAX_HOPS);
    if !found.Found? then (s, AsReply(found))
    else (s.(records := s.records[s.next := Record(kind, customer)], next := s.next + 1), Done(customer))
  }

  /**
   The transaction: `rows` are the contacts of the source and `keys` the contact keys of the target
   as they were read before it. A listed contact that is gone rolls it back.
   */
  function MergeWrite(s: Store, rows: set<nat>, keys: set<Key>, source: nat, target: nat): Store {
    if !(rows <= s.contacts.Keys) then s
    else
      Store(s.merges[source := Some(target)],
            MoveContacts(s.contacts, rows, keys, target),
            MoveRecords(s.records, source, target)[s.next := Record(Activity, target)],
            s.next + 1)
  }

  /** With nothing between: `from` and `into` are the survivors the two ids resolve to. */
  function Merged(s: Store, source: nat, target: nat, from: nat, into: nat): Store {
    MergeWrite(s, RowsOf(s.contacts, from), KeysOf(s.contacts, into), source, target)
  }

  function Merge(s: Store, source: nat, target: nat): (Store, Reply) {
    if source == target then (s, SameCustomer)
    else
      var from := Walk(s.merges, source, MAX_HOPS);
      var into := Walk(s.merges, target, MAX_HOPS);
      if !from.Found? then (s, AsReply(from))
      else if !into.Found? then (s, AsReply(into))
      else
        var after := Merged(s, source, target, from.id, into.id);
        (after, AsReply(Walk(after.merges, target, MAX_HOPS)))
  }

  ghost predicate Unique(contacts: map<nat, Contact>) {
    forall a, b :: a in contacts && b in contacts && contacts[a].key == contacts[b].key ==> a == b
  }

  class CustomersService {
    var merges: Merges
    var contacts: map<nat, Contact>
    var records: map<nat, Record>
    var next: nat

    ghost function State(): Store
      reads this
    {
      Store(merges, contacts, records, next)
    }

    method Get(customerId: nat) returns (found: Lookup)
      ensures found == Walk(merges, customerId, MAX_HOPS)
    {
      var id := customerId;
      var hop: nat := 0;
      while hop < MAX_HOPS
        invariant hop <= MAX_HOPS
        invariant Walk(merges, customerId, MAX_HOPS) == Walk(merges, id, MAX_HOPS - hop)
      {
        if id !in merges { return NotFound(id); }
        if merges[id].None? { return Found(id); }
        id := merges[id].value;
        hop := hop + 1;
      }
      return CyclicChain;
    }

    /** The check made before a customer is created. */
    method FindClash(inputs: seq<ContactInput>) returns (clash: bool)
      ensures clash == AnyTaken(contacts, inputs)
    {
      var i := 0;
      while i < |inputs|
        invariant i <= |inputs|
        invariant forall j :: 0 <= j < i ==> !Taken(contacts, inputs[j].key)
      {
        if Taken(contacts, inputs[i].key) { return true; }
        i := i + 1;
      }
      return false;
    }

    method CreateCustomer(inputs: seq<ContactInput>) returns (reply: Reply)
      modifies this
      ensures (State(), reply) == Create(old(State()), inputs)
    {
      var clash := FindClash(inputs);
      if clash || RepeatsKey(inputs) { return Conflict; }
      var id := next;
      merges := merges[id := None];
      contacts := Insert(contacts, id, inputs, id + 1);
      records := records[id + 1 + |inputs| := Record(Activity, id)];
      next := id + 2 + |inputs|;
      return Done(id);
    }

    method AddContactMethod(customer: nat, input: ContactInput) returns (reply: Reply)
      requires Unique(contacts)
      modifies this
      ensures (State(), reply) == AddContact(old(State()), customer, input)
    {
      if Taken(contacts, input.key) {
        var clash :| clash in contacts && contacts[clash].key == input.key;
        if contacts[clash].customer != customer { return Conflict; }
        return Done(customer);
      }
      if customer !in merges { return Missing(customer); }
      if input.isPrimary == Some(true) {
        contacts := Demote(contacts, customer, input.key.kind);
      }
      contacts := contacts[next := Contact(customer, input.key, input.isPrimary == Some(true))];
      next := next + 1;
      return Done(customer);
    }

    method MoveContactMethods(rows: set<nat>, keys: set<Key>, target: nat)
      requires rows <= contacts.Keys
      modifies this`contacts
      ensures contacts == MoveContacts(old(contacts), rows, keys, target)
    {
      var todo := rows;
      ghost var moved := MoveContacts(contacts, rows, keys, target);
      while todo != {}
        invariant todo <= rows
        invariant forall id :: id in todo ==> id in contacts && contacts[id] == old(contacts)[id]
        invariant forall id :: id in moved && id !in todo ==> id in contacts
        invariant forall id :: id in contacts && id !in todo ==> id in moved && contacts[id] == moved[id]
        decreases |todo|
      {
        var id :| id in todo;
        if contacts[id].key in keys {
          contacts := contacts - {id};
        } else {
          contacts := contacts[id := contacts[id].(customer := target, isPrimary := false)];
        }
        todo := todo - {id};
      }
      assert contacts == moved;
    }

    /** The transaction of `merge`. */
    method WriteMerge(rows: set<nat>, keys: set<Key>, source: nat, target: nat)
      modifies this
      ensures State() == MergeWrite(old(State()), rows, keys, source, target)
    {
      if !(rows <= contacts.Keys) { return; }
      MoveContactMethods(rows, keys, target);
      records := UpdateMany(records, Conversation, source, target);
      records := UpdateMany(records, Ticket, source, target);
      records := UpdateMany(records, Note, source, target);
      records := UpdateMany(records, Activity, source, target);
      records := UpdateMany(records, Memory, source, target);
      FiveTables(old(records), source, target);
      merges := merges[source := Some(target)];
      records := records[next := Record(Activity, target)];
      next := next + 1;
    }

    method MergeCustomers(source: nat, target: nat) returns (reply: Reply)
      modifies this
      ensures (State(), reply) == Merge(old(State()), source, target)
    {
      if source == target { return SameCustomer; }
      var from := Get(source);
      var into := Get(target);
      if !from.Found? { return AsReply(from); }
      if !into.Found? { return AsReply(into); }
      WriteMerge(RowsOf(contacts, from.id), KeysOf(contacts, into.id), source, target);
      var survivor := Get(target);
      return AsReply(survivor);
    }
  }

  /** The records moved once the tables in `kinds` are done. */
  function MoveKinds(records: map<nat, Record>, kinds: set<Kind>, from: nat, to: nat): map<nat, Record> {
    map id | id in records
      :: if records[id].kind in kinds && records[id].customer == from then records[id].(customer := to) else records[id]
  }

  lemma OneTable(records: map<nat, Record>, kinds: set<Kind>, kind: Kind, from: nat, to: nat)
    ensures UpdateMany(MoveKinds(records, kinds, from, to), kind, from, to) == MoveKinds(records, kinds + {kind}, from, to)
  {
  }

  lemma EveryTable(records: map<nat, Record>, kinds: set<Kind>, from: nat, to: nat)
    requires Conversation in kinds && Ticket in kinds && Note in kinds && Activity in kinds && Memory in kinds
    ensures MoveKinds(records, kinds, from, to) == MoveRecords(records, from, to)
  {
    forall kind: Kind ensures kind in kinds {
      assert kind.Conversation? || kind.Ticket? || kind.Note? || kind.Activity? || kind.Memory?;
    }
  }

  lemma NoTable(records: map<nat, Record>, from: nat, to: nat)
    ensures MoveKinds(records, {}, from, to) == records
  {
  }

  /** The five `updateMany` calls move every record, whatever its kind. */
  lemma FiveTables(records: map<nat, Record>, from: nat, to: nat)
    ensures UpdateMany(UpdateMany(UpdateMany(UpdateMany(UpdateMany(records, Conversation, from, to),
              Ticket, from, to), Note, from, to), Activity, from, to), Memory, from, to)
            == MoveRecords(records, from, to)
  {
    NoTable(records, from, to);
    OneTable(records, {}, Conversation, from, to);
    OneTable(records, {} + {Conversation}, Ticket, from, to);
    OneTable(records, {} + {Conversation} + {Ticket}, Note, from, to);
    OneTable(records, {} + {Conversation} + {Ticket} + {Note}, Activity, from, to);
    OneTable(records, {} + {Conversation} + {Ticket} + {Note} + {Activity}, Memory, from, to);
    EveryTable(records, {} + {Conversation} + {Ticket} + {Note} + {Activity} + {Memory}, from, to);
  }
}
