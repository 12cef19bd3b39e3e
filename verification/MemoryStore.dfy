/** The versioned store a memory provider promises, on plain values. */
module MemoryStore {
  import opened Options
  import opened JsText
  import opened Decimals

  datatype ActorKind = Agent | Human | Service

  datatype Actor = Actor(kind: ActorKind, actorId: Text)

  /** `scope` and `metadata` are the contents of the JSON objects. */
  datatype Record = Record(
    id: Text, scope: Text, recordType: Text, content: Text, metadata: Text,
    createdAtMs: int, updatedAtMs: int, revision: Text)

  /** `updates` counts the effective updates of the record. */
  datatype Entry = Entry(record: Record, creator: Actor, key: Option<Text>, updates: nat)

  datatype Store = Store(entries: map<Text, Entry>, issued: nat)

  datatype Error = NotFound | AclDenied(actor: Actor, scope: Text) | RevisionConflict(id: Text, current: Text)

  datatype SaveInput = SaveInput(scope: Text, recordType: Text, content: Text, metadata: Option<Text>,
        key: Option<Text>)

  datatype UpdateInput = UpdateInput(id: Text, content: Option<Text>, metadata: Option<Text>, expected: Option<Text>)

  datatype Op =
    | Save(actor: Actor, input: SaveInput, now: int)
    | Update(actor: Actor, change: UpdateInput, now: int)
    | Delete(actor: Actor, id: Text)

  const EMPTY: Store := Store(map[], 0)

  /** "map_" */
  const ID_PREFIX: Text := [109, 97, 112, 95]

  /** "{}" */
  const NO_METADATA: Text := [123, 125]

  function IdOf(n: nat): Text {
    ID_PREFIX + Print(n)
  }

  predicate Matches(e: Entry, actor: Actor, key: Text) {
    e.key == Some(key) && e.creator == actor
  }

  /** A live record the actor saved under the key. */
  ghost predicate HasKey(s: Store, actor: Actor, key: Option<Text>) {
    key.Some? && exists id :: id in s.entries && Matches(s.entries[id], actor, key.value)
  }

  ghost function IdForKey(s: Store, actor: Actor, key: Option<Text>): (id: Text)
    requires HasKey(s, actor, key)
    ensures id in s.entries && Matches(s.entries[id], actor, key.value)
  {
    var id :| id in s.entries && Matches(s.entries[id], actor, key.value);
    id
  }

  function NewRecord(id: Text, input: SaveInput, now: int): Record {
    Record(id, input.scope, input.recordType, input.content,
           if input.metadata.Some? then input.metadata.value else NO_METADATA, now, now, [ZERO + 1])
  }

  ghost function SaveSpec(s: Store, actor: Actor, input: SaveInput, now: int): (Store, Record) {
    if HasKey(s, actor, input.key) then (s, s.entries[IdForKey(s, actor, input.key)].record)
    else
      var record := NewRecord(IdOf(s.issued + 1), input, now);
      (Store(s.entries[record.id := Entry(record, actor, input.key, 0)], s.issued + 1), record)
  }

  function Changed(r: Record, input: UpdateInput, now: int): Record {
    r.(content := if input.content.Some? then input.content.value else r.content,
       metadata := if input.metadata.Some? then input.metadata.value else r.metadata,
       updatedAtMs := now,
       revision := Print(Parse(r.revision) + 1))
  }

  /** Why the update is refused, if it is. */
  function UpdateError(s: Store, actor: Actor, input: UpdateInput): Option<Error> {
    if input.id !in s.entries then Some(NotFound)
    else
      var e := s.entries[input.id];
      if e.creator != actor then Some(AclDenied(actor, e.record.scope))
      else if input.expected.Some? && input.expected.value != e.record.revision
        then Some(RevisionConflict(e.record.id, e.record.revision))
      else None
  }

  /** It is accepted and changes something. */
  predicate Effective(s: Store, actor: Actor, input: UpdateInput) {
    UpdateError(s, actor, input) == None && (input.content.Some? || input.metadata.Some?)
  }

  function UpdateSpec(s: Store, actor: Actor, input: UpdateInput, now: int): (Store, Result<Record, Error>) {
    match UpdateError(s, actor, input)
    case Some(error) => (s, Err(error))
    case None =>
      var e := s.entries[input.id];
      if input.content == None && input.metadata == None then (s, Ok(e.record))
      else
        var next := Changed(e.record, input, now);
        (s.(entries := s.entries[input.id := e.(record := next, updates := e.updates + 1)]), Ok(next))
  }

  function DeleteSpec(s: Store, actor: Actor, id: Text): (Store, Option<Error>) {
    if id !in s.entries then (s, None)
    else if s.entries[id].creator != actor then (s, Some(AclDenied(actor, s.entries[id].record.scope)))
    else (s.(entries := s.entries - {id}), None)
  }

  ghost function Apply(s: Store, op: Op): Store {
    match op
    case Save(actor, input, now) => SaveSpec(s, actor, input, now).0
    case Update(actor, change, now) => UpdateSpec(s, actor, change, now).0
    case Delete(actor, id) => DeleteSpec(s, actor, id).0
  }

  ghost function Final(s: Store, ops: seq<Op>): Store
    decreases |ops|
  {
    if ops == [] then s else Final(Apply(s, ops[0]), ops[1..])
  }

  // ---- the invariant ----

  /** `id` was generated by one of the first `issued` saves. */
  ghost predicate Issued(id: Text, issued: nat) {
    exists n :: 1 <= n <= issued && id == IdOf(n)
  }

  ghost predicate EntryOk(id: Text, e: Entry, issued: nat) {
    e.record.id == id && Issued(id, issued) && e.record.revision == Print(1 + e.updates)
  }

  /** At most one live record per creator and idempotency key. */
  ghost predicate KeysUnique(entries: map<Text, Entry>) {
    forall a, b :: a in entries && b in entries && SameKey(entries[a], entries[b]) ==> a == b
  }

  predicate SameKey(a: Entry, b: Entry) {
    a.key.Some? && a.key == b.key && a.creator == b.creator
  }

  ghost predicate Inv(s: Store) {
    KeysUnique(s.entries) && forall id :: id in s.entries ==> EntryOk(id, s.entries[id], s.issued)
  }

  lemma IdInjective(m: nat, n: nat)
    requires IdOf(m) == IdOf(n)
    ensures m == n
  {
    assert IdOf(m)[|ID_PREFIX|..] == Print(m) && IdOf(n)[|ID_PREFIX|..] == Print(n);
    PrintInjective(m, n);
  }

  lemma NextIdIsNew(issued: nat)
    ensures !Issued(IdOf(issued + 1), issued)
  {
    forall n | 1 <= n <= issued ensures IdOf(n) != IdOf(issued + 1) {
      if IdOf(n) == IdOf(issued + 1) { IdInjective(n, issued + 1); }
    }
  }

  lemma SaveKeeps(s: Store, actor: Actor, input: SaveInput, now: int)
    requires Inv(s)
    ensures Inv(SaveSpec(s, actor, input, now).0)
  {
    hide IdOf;
    var s' := SaveSpec(s, actor, input, now).0;
    if !HasKey(s, actor, input.key) {
      var id := IdOf(s.issued + 1);
      NextIdIsNew(s.issued);
      forall a | a in s'.entries ensures EntryOk(a, s'.entries[a], s'.issued) {
        if a == id {
          assert Issued(id, s'.issued) && Print(1) == [ZERO + 1];
        } else {
          assert EntryOk(a, s.entries[a], s.issued);
          var n :| 1 <= n <= s.issued && a == IdOf(n);
        }
      }
      forall a | a in s.entries && input.key.Some? ensures !Matches(s.entries[a], actor, input.key.value) {
      }
    }
  }

  lemma UpdateKeeps(s: Store, actor: Actor, input: UpdateInput, now: int)
    requires Inv(s)
    ensures Inv(UpdateSpec(s, actor, input, now).0)
  {
    hide IdOf;
    if Effective(s, actor, input) {
      var e := s.entries[input.id];
      assert EntryOk(input.id, e, s.issued);
      ParsePrint(1 + e.updates);
      hide Print, Parse, Issued;
      var s' := UpdateSpec(s, actor, input, now).0;
      forall a | a in s'.entries ensures EntryOk(a, s'.entries[a], s'.issued) {
        assert EntryOk(a, s.entries[a], s.issued);
      }
    }
  }

  lemma StepKeepsInv(s: Store, op: Op)
    requires Inv(s)
    ensures Inv(Apply(s, op))
  {
    match op
    case Save(actor, input, now) => SaveKeeps(s, actor, input, now);
    case Update(actor, change, now) => UpdateKeeps(s, actor, change, now);
    case Delete(_, _) => hide Issued;
  }

  // ---- what follows for every sequence of operations ----

  /** An id that was issued and is gone stays gone; a surviving entry keeps its owner and its revision only grows. */
  ghost predicate Evolves(s: Store, t: Store) {
    && s.issued <= t.issued
    && (forall id :: Issued(id, s.issued) && id in t.entries ==>
         id in s.entries && t.entries[id].updates >= s.entries[id].updates
         && t.entries[id].creator == s.entries[id].creator && t.entries[id].key == s.entries[id].key)
  }

  lemma SaveEvolves(s: Store, actor: Actor, input: SaveInput, now: int)
    requires Inv(s)
    ensures Evolves(s, SaveSpec(s, actor, input, now).0)
  {
    hide IdOf, Inv;
    if !HasKey(s, actor, input.key) {
      NextIdIsNew(s.issued);
      hide Issued;
    }
  }

  lemma UpdateEvolves(s: Store, actor: Actor, input: UpdateInput, now: int)
    ensures Evolves(s, UpdateSpec(s, actor, input, now).0)
  {
    hide Issued, Changed, UpdateError;
    if UpdateError(s, actor, input) == None {
      UpdateTarget(s, actor, input);
    }
  }

  lemma UpdateTarget(s: Store, actor: Actor, input: UpdateInput)
    requires UpdateError(s, actor, input) == None
    ensures input.id in s.entries && s.entries[input.id].creator == actor
  {
  }

  lemma AcceptedUpdate(s: Store, actor: Actor, input: UpdateInput, now: int)
    requires UpdateError(s, actor, input) == None
    ensures input.id in s.entries
    ensures var e := s.entries[input.id]; var next := Changed(e.record, input, now);
      UpdateSpec(s, actor, input, now)
        == if input.content == None && input.metadata == None then (s, Ok(e.record))
           else (s.(entries := s.entries[input.id := e.(record := next, updates := e.updates + 1)]), Ok(next))
  {
  }

  lemma StepEvolves(s: Store, op: Op)
    requires Inv(s)
    ensures Evolves(s, Apply(s, op))
  {
    match op
    case Save(actor, input, now) => SaveEvolves(s, actor, input, now);
    case Update(actor, change, now) => UpdateEvolves(s, actor, change, now);
    case Delete(_, _) => hide Issued, Inv;
  }

  lemma IssuedMonotone(id: Text, m: nat, n: nat)
    requires Issued(id, m) && m <= n
    ensures Issued(id, n)
  {
    var k :| 1 <= k <= m && id == IdOf(k);
  }

  lemma EvolvesTransitive(s: Store, t: Store, u: Store)
    requires Evolves(s, t) && Evolves(t, u)
    ensures Evolves(s, u)
  {
    forall id | Issued(id, s.issued) && id in u.entries
      ensures id in s.entries && u.entries[id].updates >= s.entries[id].updates
      ensures u.entries[id].creator == s.entries[id].creator && u.entries[id].key == s.entries[id].key
    {
      IssuedMonotone(id, s.issued, t.issued);
    }
  }

  /** Ids are never reused, even after a delete, and revisions only grow, over every sequence of operations. */
  lemma {:induction false} StoreEvolves(s: Store, ops: seq<Op>)
    requires Inv(s)
    ensures Inv(Final(s, ops)) && Evolves(s, Final(s, ops))
    decreases |ops|
  {
    if ops != [] {
      hide Inv, Apply, Evolves;
      StepKeepsInv(s, ops[0]);
      StepEvolves(s, ops[0]);
      StoreEvolves(Apply(s, ops[0]), ops[1..]);
      EvolvesTransitive(s, Apply(s, ops[0]), Final(s, ops));
    } else {
      EvolvesSelf(s);
    }
  }

  lemma EvolvesSelf(s: Store)
    ensures Evolves(s, s)
  {
  }

  /** Every live record's revision prints 1 + the number of effective updates it has had. */
  lemma RevisionCountsUpdates(ops: seq<Op>, id: Text)
    requires id in Final(EMPTY, ops).entries
    ensures var e := Final(EMPTY, ops).entries[id];
      e.record.revision == Print(1 + e.updates) && Parse(e.record.revision) == 1 + e.updates
  {
    StoreEvolves(EMPTY, ops);
    var s := Final(EMPTY, ops);
    assert EntryOk(id, s.entries[id], s.issued);
    ParsePrint(1 + s.entries[id].updates);
  }

  /**
   * Two effective updates of one record never succeed on the same expected revision, whatever happens between
   * them: the second one is refused.
   */
  lemma NoLostUpdate(s: Store, first: Op, between: seq<Op>, second: Op)
    requires Inv(s) && first.Update? && second.Update?
    requires first.change.id == second.change.id && first.change.expected.Some?
      && second.change.expected == first.change.expected
    requires Effective(s, first.actor, first.change)
    ensures UpdateError(Final(Apply(s, first), between), second.actor, second.change).Some?
  {
    var id := first.change.id;
    var s1 := Apply(s, first);
    var s2 := Final(s1, between);
    assert EntryOk(id, s.entries[id], s.issued);
    StepKeepsInv(s, first);
    StoreEvolves(s1, between);
    hide Issued;
    if id in s2.entries {
      assert EntryOk(id, s1.entries[id], s1.issued);
      assert EntryOk(id, s2.entries[id], s2.issued);
      ParsePrint(1 + s.entries[id].updates);
      ParsePrint(1 + s2.entries[id].updates);
    }
  }

  /** Saving again under a live idempotency key returns the record as it now is and changes nothing. */
  lemma SaveIsIdempotent(s: Store, actor: Actor, input: SaveInput, now: int, between: seq<Op>, again: SaveInput,
        later: int)
    requires Inv(s) && input.key.Some? && again.key == input.key
    requires SaveSpec(s, actor, input, now).1.id in Final(SaveSpec(s, actor, input, now).0, between).entries
    ensures var (s1, record) := SaveSpec(s, actor, input, now); var s2 := Final(s1, between);
      SaveSpec(s2, actor, again, later) == (s2, s2.entries[record.id].record)
  {
    var (s1, record) := SaveSpec(s, actor, input, now);
    SaveKeeps(s, actor, input, now);
    var id := record.id;
    assert id in s1.entries && Matches(s1.entries[id], actor, input.key.value) by {
      if HasKey(s, actor, input.key) {
        var found := IdForKey(s, actor, input.key);
        assert EntryOk(found, s.entries[found], s.issued);
      }
    }
    StoreEvolves(s1, between);
    assert EntryOk(id, s1.entries[id], s1.issued);
    hide Issued, IdOf;
    var s2 := Final(s1, between);
    assert Matches(s2.entries[id], actor, again.key.value);
    var found := IdForKey(s2, actor, again.key);
    assert found == id;
  }

  /** Only the creator can change or remove a record. */
  lemma OthersChangeNothing(s: Store, op: Op, id: Text)
    requires Inv(s) && id in s.entries && s.entries[id].creator != op.actor
    ensures id in Apply(s, op).entries && Apply(s, op).entries[id] == s.entries[id]
  {
    if op.Save? { NextIdIsNew(s.issued); assert EntryOk(id, s.entries[id], s.issued); }
    hide Issued, IdOf;
  }
}
