/** The provider object: entries in a map, JSON objects cloned on the way in and on the way out. */
module MapBackedProvider {
  import opened Options
  import opened JsText
  import opened Decimals
  import opened MemoryStore

  /** A mutable JSON object that a caller may hold on to. */
  class JsonObject {
    var value: Text

    constructor (value: Text)
      ensures this.value == value
    {
      this.value := value;
    }
  }

  method StructuredClone(o: JsonObject) returns (c: JsonObject)
    ensures fresh(c) && c.value == o.value
  {
    c := new JsonObject(o.value);
  }

  datatype MemoryRecord = MemoryRecord(
    id: Text, scope: JsonObject, recordType: Text, content: Text, metadata: JsonObject,
    createdAtMs: int, updatedAtMs: int, revision: Text)
  {
    /** The record's present value. */
    function Value(): Record
      reads scope, metadata
    {
      Record(id, scope.value, recordType, content, metadata.value, createdAtMs, updatedAtMs, revision)
    }
  }

  datatype Stored = Stored(record: MemoryRecord, creator: Actor, key: Option<Text>)

  datatype ProviderError =
    | NoSuchRecord
    | AclError(actor: Actor, scope: JsonObject)
    | ConflictError(id: Text, current: Text)

  method CloneRecord(r: MemoryRecord) returns (c: MemoryRecord)
    ensures fresh(c.scope) && fresh(c.metadata) && c.Value() == r.Value()
  {
    var scope := StructuredClone(r.scope);
    var metadata := StructuredClone(r.metadata);
    c := r.(scope := scope, metadata := metadata);
  }

  /** Every object the entries hold is in `repr`. */
  ghost predicate Owned(entries: map<Text, Stored>, repr: set<JsonObject>) {
    forall id :: id in entries ==> entries[id].record.scope in repr && entries[id].record.metadata in repr
  }

  /** The entries' present values. */
  ghost function EntriesOf(entries: map<Text, Stored>, updates: map<Text, nat>, repr: set<JsonObject>): map<Text, Entry>
    reads repr
    requires updates.Keys == entries.Keys && Owned(entries, repr)
  {
    map id | id in entries :: Entry(entries[id].record.Value(), entries[id].creator, entries[id].key, updates[id])
  }

  lemma PutOwned(entries: map<Text, Stored>, repr: set<JsonObject>, id: Text, stored: Stored, owned: set<JsonObject>)
    requires Owned(entries, repr) && stored.record.scope in repr + owned && stored.record.metadata in repr + owned
    ensures Owned(entries[id := stored], repr + owned)
  {
  }

  lemma PutView(entries: map<Text, Stored>, updates: map<Text, nat>, repr: set<JsonObject>,
                id: Text, stored: Stored, count: nat, owned: set<JsonObject>)
    requires updates.Keys == entries.Keys && Owned(entries, repr) && Owned(entries[id := stored], repr + owned)
    ensures EntriesOf(entries[id := stored], updates[id := count], repr + owned)
      == EntriesOf(entries, updates, repr)[id := Entry(stored.record.Value(), stored.creator, stored.key, count)]
  {
    hide Owned;
  }

  lemma RemoveView(entries: map<Text, Stored>, updates: map<Text, nat>, repr: set<JsonObject>, id: Text)
    requires updates.Keys == entries.Keys && Owned(entries, repr)
    ensures Owned(entries - {id}, repr)
    ensures EntriesOf(entries - {id}, updates - {id}, repr) == EntriesOf(entries, updates, repr) - {id}
  {
  }

  class Provider {
    var entries: map<Text, Stored>
    var issued: nat
    /** The effective updates each record has had. */
    ghost var updates: map<Text, nat>
    /** The JSON objects the entries hold; no caller holds one of them. */
    ghost var Repr: set<JsonObject>

    ghost predicate Shape()
      reads this
    {
      updates.Keys == entries.Keys && Owned(entries, Repr)
    }

    ghost predicate Valid()
      reads this, Repr
    {
      Shape() && Inv(View())
    }

    /** The store this object represents. */
    ghost function View(): Store
      reads this, Repr
      requires Shape()
    {
      Store(EntriesOf(entries, updates, Repr), issued)
    }

    constructor ()
      ensures Valid() && View() == EMPTY && Repr == {}
    {
      entries, issued, updates, Repr := map[], 0, map[], {};
    }

    /** The entry saved under the key, if one was given, found by looking through the entries. */
    method FindByKey(actor: Actor, key: Option<Text>) returns (found: Option<Text>)
      requires Valid()
      ensures found.None? ==> !HasKey(View(), actor, key)
      ensures found.Some? ==> HasKey(View(), actor, key) && IdForKey(View(), actor, key) == found.value
    {
      if key == None {
        return None;
      }
      ghost var s := View();
      var left := entries.Keys;
      while left != {}
        invariant left <= entries.Keys
        invariant forall id :: id in entries && id !in left ==> !Matches(s.entries[id], actor, key.value)
        decreases left
      {
        var id :| id in left;
        if entries[id].key == key && entries[id].creator == actor {
          assert Matches(s.entries[id], actor, key.value);
          return Some(id);
        }
        left := left - {id};
      }
      found := None;
    }

    /** `entries.set(id, ...)` or `entry.record = ...`, taking ownership of the objects in `owned`. */
    method PutEntry(id: Text, stored: Stored, ghost count: nat, ghost owned: set<JsonObject>)
      requires Shape() && stored.record.scope in Repr + owned && stored.record.metadata in Repr + owned
      modifies `entries, `updates, `Repr
      ensures Shape() && Repr == old(Repr) + owned
      ensures View() == old(View()).(entries :=
        old(View()).entries[id := Entry(stored.record.Value(), stored.creator, stored.key, count)])
    {
      hide Inv, Owned, EntriesOf;
      PutOwned(entries, Repr, id, stored, owned);
      PutView(entries, updates, Repr, id, stored, count, owned);
      entries, updates, Repr := entries[id := stored], updates[id := count], Repr + owned;
    }

    /** `entries.delete(id)` */
    method RemoveEntry(id: Text)
      requires Shape() && id in entries
      modifies `entries, `updates
      ensures Shape()
      ensures View() == old(View()).(entries := old(View()).entries - {id})
    {
      hide Inv, Owned, EntriesOf;
      RemoveView(entries, updates, Repr, id);
      entries, updates := entries - {id}, updates - {id};
    }

    /** `map_${++this.seq}` */
    method NextId() returns (id: Text)
      requires Shape()
      modifies `issued
      ensures Shape() && View() == old(View()).(issued := old(issued) + 1) && id == IdOf(old(issued) + 1)
    {
      issued := issued + 1;
      id := IdOf(issued);
    }

    lemma ViewAt(id: Text)
      requires Shape()
      ensures View().issued == issued
      ensures id in entries <==> id in View().entries
      ensures id in entries ==> id in updates && entries[id].record.scope in Repr && entries[id].record.metadata in Repr
      ensures id in entries ==>
        View().entries[id] == Entry(entries[id].record.Value(), entries[id].creator, entries[id].key, updates[id])
    {
    }

    /** A new record made of clones of the caller's objects. */
    method CreateRecord(actor: Actor, scope: JsonObject, recordType: Text, content: Text,
                        metadata: Option<JsonObject>, key: Option<Text>, now: int)
      returns (own: MemoryRecord)
      requires Shape()
      modifies this
      ensures Shape() && Repr == old(Repr) + {own.scope, own.metadata} && fresh(own.scope) && fresh(own.metadata)
      ensures own.Value() == NewRecord(IdOf(old(View()).issued + 1),
        InputValue(scope, recordType, content, metadata, key), now)
      ensures View() == Store(old(View()).entries[own.id := Entry(own.Value(), actor, key, 0)], old(View()).issued + 1)
    {
      hide View, Shape, IdOf;
      var ownScope := StructuredClone(scope);
      var ownMetadata;
      if metadata.Some? {
        ownMetadata := StructuredClone(metadata.value);
      } else {
        ownMetadata := new JsonObject(NO_METADATA);
      }
      ViewAt([]);
      var id := NextId();
      own := MemoryRecord(id, ownScope, recordType, content, ownMetadata, now, now, [ZERO + 1]);
      PutEntry(id, Stored(own, actor, key), 0, {ownScope, ownMetadata});
    }

    /** The record kept for a save: the one already saved under the key, or a new one. */
    method FindOrCreate(actor: Actor, scope: JsonObject, recordType: Text, content: Text,
                        metadata: Option<JsonObject>, key: Option<Text>, now: int)
      returns (kept: MemoryRecord)
      requires Valid()
      modifies this
      ensures Valid() && fresh(Repr - old(Repr))
      ensures (View(), kept.Value()) == SaveSpec(old(View()), actor,
        old(InputValue(scope, recordType, content, metadata, key)), now)
    {
      hide Inv, IdOf, View, NewRecord, HasKey, IdForKey;
      SaveKeeps(View(), actor, InputValue(scope, recordType, content, metadata, key), now);
      var found := FindByKey(actor, key);
      if found.Some? {
        ViewAt(found.value);
        return entries[found.value].record;
      }
      kept := CreateRecord(actor, scope, recordType, content, metadata, key, now);
    }

    /** Returns fresh objects only, keeps none of the caller's, and does to the store what the specification says. */
    method SaveMemory(actor: Actor, scope: JsonObject, recordType: Text, content: Text,
                      metadata: Option<JsonObject>, key: Option<Text>, now: int)
      returns (record: MemoryRecord)
      requires Valid()
      modifies this
      ensures Valid() && fresh(Repr - old(Repr))
      ensures fresh(record.scope) && fresh(record.metadata) && record.scope !in Repr && record.metadata !in Repr
      ensures (View(), record.Value()) == SaveSpec(old(View()), actor,
        old(InputValue(scope, recordType, content, metadata, key)), now)
    {
      hide View, Shape, Inv, SaveSpec;
      var kept := FindOrCreate(actor, scope, recordType, content, metadata, key, now);
      record := CloneRecord(kept);
    }

    /** The checks before an update, in order. */
    method RefuseUpdate(actor: Actor, id: Text, expected: Option<Text>, ghost input: UpdateInput)
      returns (e: Option<ProviderError>)
      requires Valid() && input.id == id && input.expected == expected
      ensures e.Some? && e.value.AclError? ==> fresh(e.value.scope) && e.value.scope !in Repr
      ensures (if e.Some? then Some(ErrorValue(e.value)) else None) == UpdateError(View(), actor, input)
      ensures e.None? ==> id in entries && entries[id].creator == actor
    {
      hide Inv, View;
      ViewAt(id);
      if id !in entries {
        return Some(NoSuchRecord);
      }
      var entry := entries[id];
      if entry.creator != actor {
        var scope := StructuredClone(entry.record.scope);
        return Some(AclError(actor, scope));
      }
      if expected.Some? && expected.value != entry.record.revision {
        return Some(ConflictError(entry.record.id, entry.record.revision));
      }
      e := None;
    }

    /** `entry.record = next` for an update that changes something. */
    method ReplaceRecord(id: Text, content: Option<Text>, metadata: Option<JsonObject>, now: int,
          ghost input: UpdateInput)
      returns (next: MemoryRecord)
      requires Shape() && id in entries
      requires input.content == content
      requires input.metadata == (if metadata.Some? then Some(metadata.value.value) else None)
      modifies `entries, `updates, `Repr
      ensures Shape() && fresh(Repr - old(Repr)) && next.scope in Repr && next.metadata in Repr
      ensures id in old(View()).entries && next.Value() == Changed(old(View()).entries[id].record, input, now)
      ensures var e := old(View()).entries[id];
        View() == old(View()).(
          entries := old(View()).entries[id := e.(record := next.Value(), updates := e.updates + 1)])
    {
      hide View, Shape, Print, Parse;
      ViewAt(id);
      var entry := entries[id];
      var ownMetadata := entry.record.metadata;
      ghost var owned: set<JsonObject> := {};
      if metadata.Some? {
        ownMetadata := StructuredClone(metadata.value);
        owned := {ownMetadata};
      }
      next := entry.record.(
        content := if content.Some? then content.value else entry.record.content,
        metadata := ownMetadata,
        updatedAtMs := now,
        revision := Print(Parse(entry.record.revision) + 1));
      PutEntry(id, entry.(record := next), updates[id] + 1, owned);
    }

    /** After the checks: the record as it is for an empty update, else its replacement. */
    method ReadOrReplace(id: Text, content: Option<Text>, metadata: Option<JsonObject>, now: int,
                         ghost actor: Actor, ghost input: UpdateInput)
      returns (current: MemoryRecord)
      requires Valid() && UpdateError(View(), actor, input) == None && id == input.id
      requires input.content == content
      requires input.metadata == (if metadata.Some? then Some(metadata.value.value) else None)
      modifies `entries, `updates, `Repr
      ensures Valid() && fresh(Repr - old(Repr))
      ensures (View(), Ok(current.Value())) == UpdateSpec(old(View()), actor, input, now)
    {
      hide Inv, View, Changed, UpdateError, UpdateSpec;
      UpdateKeeps(View(), actor, input, now);
      AcceptedUpdate(View(), actor, input, now);
      ViewAt(id);
      hide Shape;
      if content == None && metadata == None {
        return entries[id].record;
      }
      current := ReplaceRecord(id, content, metadata, now, input);
    }

    method UpdateMemory(actor: Actor, id: Text, content: Option<Text>, metadata: Option<JsonObject>,
                        expected: Option<Text>, now: int)
      returns (r: Result<MemoryRecord, ProviderError>)
      requires Valid()
      modifies this
      ensures Valid() && fresh(Repr - old(Repr))
      ensures r.Ok? ==> fresh(r.value.scope) && fresh(r.value.metadata)
      ensures r.Ok? ==> r.value.scope !in Repr && r.value.metadata !in Repr
      ensures r.Err? && r.error.AclError? ==> fresh(r.error.scope) && r.error.scope !in Repr
      ensures (View(), ResultValue(r)) == UpdateSpec(old(View()), actor,
        old(ChangeValue(id, content, metadata, expected)), now)
    {
      hide Inv, View, Shape, UpdateError, Changed;
      ghost var input := ChangeValue(id, content, metadata, expected);
      var refused := RefuseUpdate(actor, id, expected, input);
      if refused.Some? {
        return Err(refused.value);
      }
      var current := ReadOrReplace(id, content, metadata, now, actor, input);
      var copy := CloneRecord(current);
      r := Ok(copy);
    }

    method DeleteMemory(actor: Actor, id: Text) returns (r: Option<ProviderError>)
      requires Valid()
      modifies this
      ensures Valid() && Repr == old(Repr)
      ensures r.Some? && r.value.AclError? ==> fresh(r.value.scope) && r.value.scope !in Repr
      ensures (View(), if r.Some? then Some(ErrorValue(r.value)) else None) == DeleteSpec(old(View()), actor, id)
    {
      hide Inv, View;
      StepKeepsInv(View(), Delete(actor, id));
      ViewAt(id);
      if id !in entries {
        return None;
      }
      var entry := entries[id];
      if entry.creator != actor {
        var scope := StructuredClone(entry.record.scope);
        return Some(AclError(actor, scope));
      }
      RemoveEntry(id);
      r := None;
    }
  }

  /** The value of a save request. */
  ghost function InputValue(scope: JsonObject, recordType: Text, content: Text, metadata: Option<JsonObject>,
        key: Option<Text>): SaveInput
    reads {scope} + if metadata.Some? then {metadata.value} else {}
  {
    SaveInput(scope.value, recordType, content, if metadata.Some? then Some(metadata.value.value) else None, key)
  }

  /** The value of an update request. */
  ghost function ChangeValue(id: Text, content: Option<Text>, metadata: Option<JsonObject>,
        expected: Option<Text>): UpdateInput
    reads if metadata.Some? then {metadata.value} else {}
  {
    UpdateInput(id, content, if metadata.Some? then Some(metadata.value.value) else None, expected)
  }

  ghost function ErrorValue(e: ProviderError): Error
    reads if e.AclError? then {e.scope} else {}
  {
    match e
    case NoSuchRecord => NotFound
    case AclError(actor, scope) => AclDenied(actor, scope.value)
    case ConflictError(id, current) => RevisionConflict(id, current)
  }

  ghost function ResultValue(r: Result<MemoryRecord, ProviderError>): Result<Record, Error>
    reads if r.Ok? then {r.value.scope, r.value.metadata} else if r.error.AclError? then {r.error.scope} else {}
  {
    match r
    case Ok(record) => Ok(record.Value())
    case Err(e) => Err(ErrorValue(e))
  }

  /** A caller that writes into an object it was given, or had passed in, does not change the store. */
  method CallerMutation(provider: Provider, o: JsonObject, value: Text)
    requires provider.Valid() && o !in provider.Repr
    modifies o
    ensures provider.Valid() && provider.View() == old(provider.View())
  {
    o.value := value;
  }
}
