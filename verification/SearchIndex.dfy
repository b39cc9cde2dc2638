/**
 The full-text index over chat messages: a table kept in step by three triggers, and the migration that creates and
 backfills it.
 */
module SearchIndex {
  import opened Options

  type Id = nat   // a primary key; the index only compares them

  datatype Message = Message(session: Id, role: string, content: Option<string>)

  datatype Entry = Entry(content: string, messageId: Id, session: Id, role: string)

  /** What the index should say about a message; a NULL content is indexed as the empty string. */
  function EntryOf(id: Id, m: Message): Entry {
    Entry(if m.content.Some? then m.content.value else "", id, m.session, m.role)
  }

  /** An entry speaks the truth about an existing message. */
  predicate TrueEntry(messages: map<Id, Message>, e: Entry) {
    e.messageId in messages && e == EntryOf(e.messageId, messages[e.messageId])
  }

  predicate Indexed(index: seq<Entry>, id: Id) {
    exists i :: 0 <= i < |index| && index[i].messageId == id
  }

  /** Every entry is true, and no message has two. */
  predicate SoundIndex(messages: map<Id, Message>, index: seq<Entry>) {
    && (forall i :: 0 <= i < |index| ==> TrueEntry(messages, index[i]))
    && (forall i, j :: 0 <= i < j < |index| ==> index[i].messageId != index[j].messageId)
  }

  /** Exactly one entry per message, and it is true. */
  predicate Mirrors(messages: map<Id, Message>, index: seq<Entry>) {
    SoundIndex(messages, index) && forall id :: id in messages ==> Indexed(index, id)
  }

  /**
   What an index that mirrors the messages says, column by column: of each message one entry with its text, or the empty
   string for none, its session and its role; of anything else no entry.
   */
  lemma MirrorSays(messages: map<Id, Message>, index: seq<Entry>, id: Id)
    requires Mirrors(messages, index)
    ensures id in messages ==>
              exists i :: 0 <= i < |index| && index[i].messageId == id
                          && index[i].session == messages[id].session && index[i].role == messages[id].role
                          && (messages[id].content.Some? ==> index[i].content == messages[id].content.value)
                          && (messages[id].content.None? ==> index[i].content == "")
                          && forall j :: 0 <= j < |index| && j != i ==> index[j].messageId != id
    ensures id !in messages ==> forall i :: 0 <= i < |index| ==> index[i].messageId != id
  {
    if id in messages {
      assert Indexed(index, id);
      var i :| 0 <= i < |index| && index[i].messageId == id;
      assert TrueEntry(messages, index[i]);
      forall j | 0 <= j < |index| && j != i ensures index[j].messageId != id {
        assert index[if i < j then i else j].messageId != index[if i < j then j else i].messageId;
      }
    } else {
      forall i | 0 <= i < |index| ensures index[i].messageId != id {
        assert TrueEntry(messages, index[i]);
      }
    }
  }

  /** `DELETE FROM chat_messages_fts WHERE message_id = id` */
  function Without(index: seq<Entry>, id: Id): seq<Entry> {
    if index == [] then []
    else
      var rest, last := Without(index[..|index| - 1], id), index[|index| - 1];
      if last.messageId == id then rest else rest + [last]
  }

  lemma {:induction false} WithoutIs(messages: map<Id, Message>, index: seq<Entry>, id: Id)
    requires SoundIndex(messages, index)
    ensures SoundIndex(messages - {id}, Without(index, id))
    ensures forall k :: Indexed(Without(index, id), k) <==> Indexed(index, k) && k != id
  {
    if index != [] {
      var front, last := index[..|index| - 1], index[|index| - 1];
      assert forall i :: 0 <= i < |front| ==> front[i] == index[i];
      assert SoundIndex(messages, front);
      WithoutIs(messages, front, id);
      var rest := Without(front, id);
      forall k ensures Indexed(index, k) <==> Indexed(front, k) || k == last.messageId {
        if Indexed(front, k) {
          var i :| 0 <= i < |front| && front[i].messageId == k;
          assert index[i].messageId == k;
        }
        assert index[|index| - 1] == last;
      }
      forall i | 0 <= i < |rest| ensures rest[i].messageId != last.messageId {
        assert Indexed(rest, rest[i].messageId);
      }
      if last.messageId != id {
        AppendedIs(rest, last);
        assert TrueEntry(messages, last);
      }
    }
  }

  lemma AppendedIs(index: seq<Entry>, e: Entry)
    ensures forall k :: Indexed(index + [e], k) <==> Indexed(index, k) || k == e.messageId
  {
    forall k ensures Indexed(index + [e], k) <==> Indexed(index, k) || k == e.messageId {
      if Indexed(index, k) {
        var i :| 0 <= i < |index| && index[i].messageId == k;
        assert (index + [e])[i].messageId == k;
      }
      assert (index + [e])[|index|] == e;
    }
  }

  /** True entries for exactly the messages that had none leave an index that mirrors iff the old entries were sound. */
  lemma BackfillIff(messages: map<Id, Message>, before: seq<Entry>, after: seq<Entry>)
    requires before <= after
    requires forall id :: id in messages ==> Indexed(after, id)
    requires forall i :: |before| <= i < |after| ==> TrueEntry(messages, after[i])
    requires forall i, j :: |before| <= j < |after| && 0 <= i < j ==> after[i].messageId != after[j].messageId
    ensures Mirrors(messages, after) <==> SoundIndex(messages, before)
  {
    assert forall i :: 0 <= i < |before| ==> before[i] == after[i];
    if SoundIndex(messages, before) {
      forall i | 0 <= i < |after| ensures TrueEntry(messages, after[i]) {
        if i < |before| { assert TrueEntry(messages, before[i]); }
      }
      forall i, j | 0 <= i < j < |after| ensures after[i].messageId != after[j].messageId {
        if j < |before| { assert before[i].messageId != before[j].messageId; }
      }
    }
    if Mirrors(messages, after) {
      forall i | 0 <= i < |before| ensures TrueEntry(messages, before[i]) {
        assert TrueEntry(messages, after[i]);
      }
    }
  }

  /** `INSERT ... SELECT ... WHERE NOT EXISTS`: one true entry for every message that has none. */
  method Backfill(messages: map<Id, Message>, before: seq<Entry>) returns (after: seq<Entry>)
    ensures before <= after
    ensures forall id :: id in messages ==> Indexed(after, id)
    ensures forall i :: |before| <= i < |after| ==> TrueEntry(messages, after[i])
    ensures forall i, j :: |before| <= j < |after| && 0 <= i < j ==> after[i].messageId != after[j].messageId
    ensures (forall id :: id in messages ==> Indexed(before, id)) ==> after == before
  {
    after := before;
    var todo := set id | id in messages && !Indexed(before, id);
    while todo != {}
      invariant todo <= messages.Keys && before <= after
      invariant forall id :: id in messages ==> (id in todo <==> !Indexed(after, id))
      invariant forall i :: |before| <= i < |after| ==> TrueEntry(messages, after[i])
      invariant forall i, j :: |before| <= j < |after| && 0 <= i < j ==> after[i].messageId != after[j].messageId
      invariant (forall id :: id in messages ==> Indexed(before, id)) ==> todo == {} && after == before
      decreases |todo|
    {
      var id :| id in todo;
      var e := EntryOf(id, messages[id]);
      AppendedIs(after, e);
      after := after + [e];
      todo := todo - {id};
    }
  }

  class Database {
    var messages: map<Id, Message>   // chat_messages by primary key
    var index: Option<seq<Entry>>        // chat_messages_fts, None while the table does not exist
    var triggers: bool                   // the three triggers exist

    predicate InStep()
      reads this
    {
      triggers && index.Some? && Mirrors(messages, index.value)
    }

    constructor (messages: map<Id, Message>)
      ensures this.messages == messages && index == None && !triggers
    {
      this.messages, index, triggers := messages, None, false;
    }

    /**
     Creates the table and the triggers when they are missing and inserts an entry for every message without one.
     Entries that are there already are not touched, so the result mirrors the messages exactly when those were sound.
     */
    method Migrate(ftsAvailable: bool)
      modifies this`index, this`triggers
      ensures !ftsAvailable ==> index == old(index) && triggers == old(triggers)
      ensures ftsAvailable ==> triggers && index.Some?
      ensures ftsAvailable && old(index).None? ==> InStep()
      ensures ftsAvailable && old(index).Some? ==>
                (InStep() <==> SoundIndex(messages, old(index).value)) && old(index).value <= index.value
      ensures ftsAvailable && old(InStep()) ==> index == old(index) && triggers
    {
      if !ftsAvailable { return; }
      if index.None? { index := Some([]); }
      triggers := true;
      ghost var before := index.value;
      var entries := Backfill(messages, index.value);
      BackfillIff(messages, before, entries);
      index := Some(entries);
    }

    /** INSERT: refused when the primary key is taken. */
    method Insert(id: Id, m: Message) returns (ok: bool)
      requires InStep()
      modifies this`messages, this`index
      ensures ok == (id !in old(messages)) && InStep()
      ensures messages == if ok then old(messages)[id := m] else old(messages)
    {
      if id in messages { return false; }
      messages := messages[id := m];
      AfterInsert(id);
      return true;
    }

    /** The row trigger of an insertion. */
    method AfterInsert(id: Id)
      requires id in messages && triggers && index.Some? && Mirrors(messages - {id}, index.value)
      modifies this`index
      ensures InStep()
    {
      var e := EntryOf(id, messages[id]);
      assert forall i :: 0 <= i < |index.value| ==> TrueEntry(messages - {id}, index.value[i]);
      AppendedIs(index.value, e);
      index := Some(index.value + [e]);
    }

    /** The row trigger of a deletion. */
    method AfterDelete(id: Id, ghost was: map<Id, Message>)
      requires triggers && index.Some? && Mirrors(was, index.value) && messages == was - {id}
      modifies this`index
      ensures InStep()
    {
      WithoutIs(was, index.value, id);
      index := Some(Without(index.value, id));
    }

    /** DELETE of one row, if it is there. */
    method Delete(id: Id)
      requires InStep()
      modifies this`messages, this`index
      ensures InStep() && messages == old(messages) - {id}
    {
      ghost var was := messages;
      if id in messages {
        messages := messages - {id};
        AfterDelete(id, was);
      } else {
        assert messages - {id} == messages;
      }
    }

    /** UPDATE of one row, which may change its id: refused when the new id belongs to another row. */
    method Update(oldId: Id, newId: Id, m: Message) returns (ok: bool)
      requires InStep()
      modifies this`messages, this`index
      ensures ok == (oldId in old(messages) && (newId == oldId || newId !in old(messages))) && InStep()
      ensures messages == if ok then (old(messages) - {oldId})[newId := m] else old(messages)
    {
      if oldId !in messages || (newId != oldId && newId in messages) { return false; }
      ghost var was := messages;
      messages := (messages - {oldId})[newId := m];
      // the trigger: delete the entries of the old id, insert one for the new row
      WithoutIs(was, index.value, oldId);
      index := Some(Without(index.value, oldId));
      assert messages - {newId} == was - {oldId};
      AfterInsert(newId);
      return true;
    }
  }
}
