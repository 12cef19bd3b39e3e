/**
 * What a record holds, told from its history alone: the save that made it and the updates accepted since.  The store
 * that overwrites records in place and the journal that only ever appends are shown to agree after every sequence of
 * operations, in what they hold and in what they answer.
 */
module MemoryJournal {
  import opened Options
  import opened JsText
  import opened Decimals
  import opened MemoryStore

  /** An accepted update that gave a content or a metadata, and its time. */
  datatype Change = Change(content: Option<Text>, metadata: Option<Text>, at: int)

  datatype Note = Note(owner: Actor, saved: SaveInput, at: int, changes: seq<Change>)

  datatype Journal = Journal(notes: map<Text, Note>, saves: nat)

  const BLANK: Journal := Journal(map[], 0)

  /** The last value given, or else the first one. */
  function LastGiven(given: seq<Option<Text>>, first: Text): Text {
    if given == [] then first
    else if given[|given| - 1].Some? then given[|given| - 1].value
    else LastGiven(given[..|given| - 1], first)
  }

  /** Position `i` of what was given, with nothing given after it. */
  ghost predicate GivenLast(given: seq<Option<Text>>, i: int) {
    0 <= i < |given| && given[i] != None && forall k :: i < k < |given| ==> given[k] == None
  }

  lemma {:induction false} LastGivenIsLast(given: seq<Option<Text>>, first: Text)
    ensures (forall i :: 0 <= i < |given| ==> given[i] == None) ==> LastGiven(given, first) == first
    ensures forall i :: GivenLast(given, i) ==> given[i] == Some(LastGiven(given, first))
  {
    if given == [] {
    } else if given[|given| - 1] == None {
      LastGivenIsLast(given[..|given| - 1], first);
      forall i | GivenLast(given, i) ensures given[i] == Some(LastGiven(given, first)) {
        assert i < |given| - 1 && GivenLast(given[..|given| - 1], i);
      }
    }
  }

  function Contents(changes: seq<Change>): seq<Option<Text>> {
    seq(|changes|, i requires 0 <= i < |changes| => changes[i].content)
  }

  function Metadatas(changes: seq<Change>): seq<Option<Text>> {
    seq(|changes|, i requires 0 <= i < |changes| => changes[i].metadata)
  }

  function Revision(n: Note): Text {
    Print(1 + |n.changes|)
  }

  /** The record a history amounts to. */
  function Told(id: Text, n: Note): Record {
    Record(id, n.saved.scope, n.saved.recordType,
           LastGiven(Contents(n.changes), n.saved.content),
           LastGiven(Metadatas(n.changes), if n.saved.metadata == None then NO_METADATA else n.saved.metadata.value),
           n.at, if n.changes == [] then n.at else n.changes[|n.changes| - 1].at, Revision(n))
  }

  /** The actor has a live record saved under the key. */
  ghost predicate Taken(j: Journal, actor: Actor, key: Option<Text>) {
    key != None && exists id :: id in j.notes && j.notes[id].owner == actor && j.notes[id].saved.key == key
  }

  predicate Accepts(j: Journal, actor: Actor, change: UpdateInput) {
    && change.id in j.notes && j.notes[change.id].owner == actor
    && (change.expected == None || change.expected.value == Revision(j.notes[change.id]))
  }

  ghost function Record1(j: Journal, op: Op): Journal {
    match op
    case Save(actor, input, now) =>
      if Taken(j, actor, input.key) then j
      else Journal(j.notes[IdOf(j.saves + 1) := Note(actor, input, now, [])], j.saves + 1)
    case Update(actor, change, now) =>
      if Accepts(j, actor, change) && (change.content != None || change.metadata != None) then
        var n := j.notes[change.id];
        var c := Change(change.content, change.metadata, now);
        j.(notes := j.notes[change.id := n.(changes := n.changes + [c])])
      else j
    case Delete(actor, id) =>
      if id in j.notes && j.notes[id].owner == actor then j.(notes := j.notes - {id}) else j
  }

  /** The journal of a sequence of operations. */
  ghost function Recorded(j: Journal, ops: seq<Op>): Journal
    decreases |ops|
  {
    if ops == [] then j else Recorded(Record1(j, ops[0]), ops[1..])
  }

  // ---- the store agrees with the journal ----

  ghost predicate EntryAgrees(id: Text, e: Entry, n: Note) {
    e == Entry(Told(id, n), n.owner, n.saved.key, |n.changes|)
  }

  ghost predicate Agrees(s: Store, j: Journal) {
    && s.issued == j.saves && s.entries.Keys == j.notes.Keys
    && forall id :: id in s.entries ==> EntryAgrees(id, s.entries[id], j.notes[id])
  }

  lemma TakenAgrees(s: Store, j: Journal, actor: Actor, key: Option<Text>)
    requires Agrees(s, j)
    ensures Taken(j, actor, key) <==> HasKey(s, actor, key)
  {
    hide Told;
    if Taken(j, actor, key) {
      var id :| id in j.notes && j.notes[id].owner == actor && j.notes[id].saved.key == key;
      assert EntryAgrees(id, s.entries[id], j.notes[id]) && Matches(s.entries[id], actor, key.value);
    }
    if HasKey(s, actor, key) {
      var id := IdForKey(s, actor, key);
      assert EntryAgrees(id, s.entries[id], j.notes[id]);
    }
  }

  lemma PutAgrees(s: Store, j: Journal, id: Text, e: Entry, n: Note, issued: nat)
    requires Agrees(s, j) && EntryAgrees(id, e, n)
    ensures Agrees(Store(s.entries[id := e], issued), Journal(j.notes[id := n], issued))
  {
    hide EntryAgrees;
  }

  lemma SaveAgrees(s: Store, j: Journal, actor: Actor, input: SaveInput, now: int)
    requires Agrees(s, j)
    ensures Agrees(SaveSpec(s, actor, input, now).0, Record1(j, Save(actor, input, now)))
    ensures !Taken(j, actor, input.key) ==>
      SaveSpec(s, actor, input, now).1 == Told(IdOf(j.saves + 1), Note(actor, input, now, []))
  {
    TakenAgrees(s, j, actor, input.key);
    hide HasKey, IdOf, Taken, Agrees;
    if !Taken(j, actor, input.key) {
      var id := IdOf(j.saves + 1);
      assert s.issued == j.saves by { SameCount(s, j); }
      NewNote(id, actor, input, now);
      hide Told, NewRecord, EntryAgrees;
      PutAgrees(s, j, id, Entry(NewRecord(id, input, now), actor, input.key, 0), Note(actor, input, now, []),
                j.saves + 1);
    } else {
      hide *;
    }
  }

  lemma SameCount(s: Store, j: Journal)
    requires Agrees(s, j)
    ensures s.issued == j.saves
  {
  }

  lemma NewNote(id: Text, actor: Actor, input: SaveInput, now: int)
    ensures NewRecord(id, input, now) == Told(id, Note(actor, input, now, []))
    ensures EntryAgrees(id, Entry(NewRecord(id, input, now), actor, input.key, 0), Note(actor, input, now, []))
  {
    assert Print(1) == [ZERO + 1];
  }

  lemma OneMoreChange(id: Text, n: Note, change: UpdateInput, now: int)
    ensures Changed(Told(id, n), change, now)
      == Told(id, n.(changes := n.changes + [Change(change.content, change.metadata, now)]))
  {
    var c := Change(change.content, change.metadata, now);
    var more := n.changes + [c];
    assert Contents(more)[..|n.changes|] == Contents(n.changes);
    assert Metadatas(more)[..|n.changes|] == Metadatas(n.changes);
    ParsePrint(1 + |n.changes|);
    hide Print, Parse;
  }

  lemma AcceptsAgrees(s: Store, j: Journal, actor: Actor, change: UpdateInput)
    requires Agrees(s, j)
    ensures Accepts(j, actor, change) <==> UpdateError(s, actor, change) == None
    ensures Accepts(j, actor, change) ==> EntryAgrees(change.id, s.entries[change.id], j.notes[change.id])
  {
    hide LastGiven, Print;
    if change.id in s.entries {
      assert EntryAgrees(change.id, s.entries[change.id], j.notes[change.id]);
    }
  }

  lemma UpdateAgrees(s: Store, j: Journal, actor: Actor, change: UpdateInput, now: int)
    requires Agrees(s, j)
    ensures Agrees(UpdateSpec(s, actor, change, now).0, Record1(j, Update(actor, change, now)))
    ensures Accepts(j, actor, change) ==>
      change.id in Record1(j, Update(actor, change, now)).notes
      && UpdateSpec(s, actor, change, now).1
           == Ok(Told(change.id, Record1(j, Update(actor, change, now)).notes[change.id]))
  {
    AcceptsAgrees(s, j, actor, change);
    if Accepts(j, actor, change) {
      var e, n := s.entries[change.id], j.notes[change.id];
      AcceptedUpdate(s, actor, change, now);
      if change.content != None || change.metadata != None {
        OneMoreChange(change.id, n, change, now);
        SameCount(s, j);
        var n' := n.(changes := n.changes + [Change(change.content, change.metadata, now)]);
        var e' := e.(record := Changed(e.record, change, now), updates := e.updates + 1);
        hide Told, Changed, UpdateError, Agrees, UpdateSpec;
        PutAgrees(s, j, change.id, e', n', s.issued);
      } else {
        hide Told, Changed, UpdateError, UpdateSpec, Agrees;
      }
    } else {
      hide Told, Changed, UpdateError, Agrees;
    }
  }

  lemma StepAgrees(s: Store, j: Journal, op: Op)
    requires Agrees(s, j)
    ensures Agrees(Apply(s, op), Record1(j, op))
  {
    match op
    case Save(actor, input, now) => SaveAgrees(s, j, actor, input, now);
    case Update(actor, change, now) => UpdateAgrees(s, j, actor, change, now);
    case Delete(_, _) => hide Told;
  }

  lemma {:induction false} RunAgrees(s: Store, j: Journal, ops: seq<Op>)
    requires Agrees(s, j)
    ensures Agrees(Final(s, ops), Recorded(j, ops))
    decreases |ops|
  {
    if ops == [] {
    } else {
      hide Agrees, Apply, Record1;
      StepAgrees(s, j, ops[0]);
      RunAgrees(Apply(s, ops[0]), Record1(j, ops[0]), ops[1..]);
    }
  }

  /**
   * After every sequence of operations exactly the records live in the journal are live, and each holds what its
   * history amounts to: content and metadata as last given, the time of the last accepted update, the rest as saved.
   */
  lemma StoreHoldsJournal(ops: seq<Op>)
    ensures var s, j := Final(EMPTY, ops), Recorded(BLANK, ops);
      && s.issued == j.saves && s.entries.Keys == j.notes.Keys
      && forall id :: id in s.entries ==>
           && s.entries[id].record == Told(id, j.notes[id])
           && s.entries[id].creator == j.notes[id].owner && s.entries[id].key == j.notes[id].saved.key
  {
    RunAgrees(EMPTY, BLANK, ops);
    hide Told;
    var s, j := Final(EMPTY, ops), Recorded(BLANK, ops);
    forall id | id in s.entries ensures EntryAgrees(id, s.entries[id], j.notes[id]) {
    }
  }

  /** An update is refused for the first reason that applies, or answered with the record its history now amounts to. */
  lemma UpdateAnswers(ops: seq<Op>, actor: Actor, change: UpdateInput, now: int)
    ensures var s, j := Final(EMPTY, ops), Recorded(BLANK, ops);
      var after := Recorded(BLANK, ops + [Update(actor, change, now)]);
      var answer := UpdateSpec(s, actor, change, now).1;
      && (change.id !in j.notes ==> answer == Err(NotFound))
      && (change.id in j.notes && !Accepts(j, actor, change) ==>
            var n := j.notes[change.id];
            answer == Err(if n.owner != actor then AclDenied(actor, n.saved.scope)
                          else RevisionConflict(change.id, Revision(n))))
      && (Accepts(j, actor, change) ==>
            change.id in after.notes && answer == Ok(Told(change.id, after.notes[change.id])))
  {
    var s, j := Final(EMPTY, ops), Recorded(BLANK, ops);
    RunAgrees(EMPTY, BLANK, ops);
    RecordedSnoc(BLANK, ops, Update(actor, change, now));
    UpdateAgrees(s, j, actor, change, now);
    AcceptsAgrees(s, j, actor, change);
    hide LastGiven, Print, Changed;
    if change.id in s.entries {
      assert EntryAgrees(change.id, s.entries[change.id], j.notes[change.id]);
    }
  }

  /** A save is answered with the record it made, or with what the one live under its key now amounts to. */
  lemma SaveAnswers(ops: seq<Op>, actor: Actor, input: SaveInput, now: int)
    ensures var j := Recorded(BLANK, ops);
      var record := SaveSpec(Final(EMPTY, ops), actor, input, now).1;
      var after := Recorded(BLANK, ops + [Save(actor, input, now)]);
      && record.id in after.notes && record == Told(record.id, after.notes[record.id])
      && (if Taken(j, actor, input.key)
          then after == j && after.notes[record.id].owner == actor && after.notes[record.id].saved.key == input.key
          else record.id !in j.notes && after.notes[record.id] == Note(actor, input, now, []))
  {
    var s, j := Final(EMPTY, ops), Recorded(BLANK, ops);
    RunAgrees(EMPTY, BLANK, ops);
    RecordedSnoc(BLANK, ops, Save(actor, input, now));
    SaveAgrees(s, j, actor, input, now);
    TakenAgrees(s, j, actor, input.key);
    StoreEvolves(EMPTY, ops);
    if Taken(j, actor, input.key) {
      var id := IdForKey(s, actor, input.key);
      assert EntryAgrees(id, s.entries[id], j.notes[id]);
    } else {
      NextIdIsNew(s.issued);
      hide IdOf, Issued;
      if IdOf(s.issued + 1) in s.entries {
        assert EntryOk(IdOf(s.issued + 1), s.entries[IdOf(s.issued + 1)], s.issued);
      }
    }
  }

  lemma {:induction false} RecordedSnoc(j: Journal, ops: seq<Op>, op: Op)
    ensures Recorded(j, ops + [op]) == Record1(Recorded(j, ops), op)
    decreases |ops|
  {
    hide Record1;
    if ops == [] {
      assert [op][1..] == [];
    } else {
      assert (ops + [op])[1..] == ops[1..] + [op];
      RecordedSnoc(Record1(j, ops[0]), ops[1..], op);
    }
  }

  /** A delete is refused exactly for a live record of someone else; otherwise the record is gone afterwards. */
  lemma DeleteAnswers(ops: seq<Op>, actor: Actor, id: Text)
    ensures var j := Recorded(BLANK, ops);
      var (s', error) := DeleteSpec(Final(EMPTY, ops), actor, id);
      && error == (if id in j.notes && j.notes[id].owner != actor then Some(AclDenied(actor, j.notes[id].saved.scope))
                   else None)
      && (error == None <==> id !in s'.entries)
  {
    RunAgrees(EMPTY, BLANK, ops);
    var s, j := Final(EMPTY, ops), Recorded(BLANK, ops);
    hide LastGiven, Print;
    if id in s.entries {
      assert EntryAgrees(id, s.entries[id], j.notes[id]);
    }
  }
}
