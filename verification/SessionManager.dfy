/**
 `SessionManager` as an object: each operation changes the cache, the message objects and the database rows in place,
 and leaves the state that `ChatStore` computes.
 */
module SessionManagers {
  import opened Options
  import opened ChatContent
  import opened ChatStore
  import opened Sequences

  class SessionManager {
    const codec: Codec
    var sessions: map<Sid, SessionRow>   // table sessions
    var rows: map<Sid, seq<Row>>         // table chat_messages
    var cache: map<Sid, Cached>          // self.sessions
    var heap: map<Ref, Message>
    var next: Ref

    function State(): Store
      reads this
    {
      Store(sessions, rows, cache, heap, next)
    }

    constructor (codec: Codec)
      ensures this.codec == codec && State() == Store(map[], map[], map[], map[], 0)
    {
      this.codec := codec;
      sessions, rows, cache, heap, next := map[], map[], map[], map[], 0;
    }

    // -------------------------------------------------------------- loading

    method LoadSessions(recent: seq<Sid>)
      modifies this
      ensures State() == Restart(old(State()), Elements(recent))
    {
      ghost var s := State();
      cache := map[];
      for i := 0 to |recent|
        invariant State() == s.(cache := cache) && cache == Restart(s, Elements(recent[..i])).cache
      {
        var sid := recent[i];
        assert Elements(recent[..i + 1]) == Elements(recent[..i]) + {sid};
        RestartNext(s, Elements(recent[..i]), sid);
        if Loadable(State(), sid) {
          cache := cache[sid := Cached([], sessions[sid].count)];
        }
      }
      assert recent[..|recent|] == recent;
    }

    /** Decodes the rows one by one. */
    method HydrateRows(stored: seq<Row>) returns (r: Result<seq<Message>, ()>)
      ensures r == HydrateAll(codec, stored)
    {
      var messages := [];
      for i := 0 to |stored|
        invariant |messages| == i && HydrateAll(codec, stored[..i]) == Ok(messages)
      {
        var m := Hydrate(codec, stored[i]);
        HydrateNext(codec, stored, i, messages);
        if m.Err? {
          return Err(());
        }
        messages := messages + [m.value];
      }
      assert stored[..|stored|] == stored;
      return Ok(messages);
    }

    method NewObjects(messages: seq<Message>) returns (history: seq<Ref>)
      modifies this`heap, this`next
      ensures heap == Objects(old(heap), old(next), messages) && next == old(next) + |messages|
      ensures history == NewRefs(old(next), |messages|)
    {
      history := [];
      for i := 0 to |messages|
        invariant heap == Objects(old(heap), old(next), messages[..i]) && next == old(next) + i
        invariant history == NewRefs(old(next), i)
      {
        assert messages[..i + 1][..i] == messages[..i];
        history := history + [next];
        heap, next := heap[next := messages[i]], next + 1;
      }
      assert messages[..|messages|] == messages;
    }

    method LoadSessionFromDb(sid: Sid) returns (r: Result<(), Fault>)
      modifies this
      ensures match Load(codec, old(State()), sid)
              case Err(e) => r == Err(e) && State() == old(State())
              case Ok(loaded) => r == Ok(()) && State() == loaded
    {
      if sid !in sessions {
        return Err(KeyError);
      }
      var messages := HydrateRows(RowsOf(State(), sid));
      if messages.Err? {
        return Err(LoadError);
      }
      var history := NewObjects(messages.value);
      cache := cache[sid := Cached(history, sessions[sid].count)];
      return Ok(());
    }

    method GetSession(sid: Sid, now: int) returns (r: Result<(), Fault>)
      modifies this
      ensures match Get(codec, old(State()), sid, now)
              case Err(e) => r == Err(e) && State() == old(State())
              case Ok(g) => r == Ok(()) && State() == g
    {
      if sid !in cache || (cache[sid].history == [] && cache[sid].count > 0) {
        r := LoadSessionFromDb(sid);
        if r.Err? {
          return;
        }
      }
      if sid in sessions {
        cache := cache[sid := cache[sid].(count := sessions[sid].count)];
        sessions := sessions[sid := sessions[sid].(lastAccessed := Some(now))];
      }
      r := Ok(());
    }

    // -------------------------------------------------------------- messages

    method AddMessage(sid: Sid, ref: Ref, id: RowId, now: int) returns (r: Result<(), Fault>)
      requires ref in heap
      modifies this
      ensures match Add(codec, old(State()), sid, ref, id, now)
              case Err(e) => r == Err(e) && State() == old(State())
              case Ok(s') => r == Ok(()) && State() == s'
    {
      r := GetSession(sid, now);
      if r.Err? {
        return;
      }
      ghost var g := State();
      var history := cache[sid].history + [ref];
      cache := cache[sid := Cached(history, |history|)];
      SetTwice(g.cache, sid, cache[sid]);
      PersistMessage(sid, ref, id, now);
    }

    /** Restores a message that is not in the cached history, and drops one whose session is gone. */
    method PersistMessage(sid: Sid, ref: Ref, id: RowId, now: int)
      requires ref in heap && sid in cache && cache[sid].count == |cache[sid].history|
      modifies this
      ensures var history := old(cache[sid].history);
              var history' := if ref in history then history else history + [ref];
              State() == if sid !in old(sessions) then old(State()).(cache := old(cache) - {sid})
                         else Persist(codec, old(State()), sid, history', ref, id, now)
    {
      ghost var was := cache;
      if ref !in cache[sid].history {
        var history := cache[sid].history + [ref];
        cache := cache[sid := Cached(history, |history|)];
      }
      SetTwice(was, sid, cache[sid]);
      if sid !in sessions {
        cache := cache - {sid};
        return;
      }
      var m := heap[ref];
      var row := Row(id, m.role, Stored(codec, m.content), Some(codec.dumpMeta(Stamped(codec, m, now))), now);
      rows := rows[sid := RowsOf(State(), sid) + [row]];
      sessions := sessions[sid := sessions[sid].(count := |cache[sid].history|, lastAccessed := Some(now))];
      heap := heap[ref := m.(meta := Some(Stamped(codec, m, now).(dbId := Some(id))))];
    }

    /** Deletes the rows from `keep` on, one by one. */
    method DeleteFrom(stored: seq<Row>, keep: nat) returns (left: seq<Row>)
      requires keep <= |stored|
      ensures left == stored[..keep]
    {
      left := stored;
      for i := keep to |stored|
        invariant left == stored[..keep] + stored[i..]
      {
        left := left[..keep] + left[keep + 1..];
      }
    }

    method TruncateMessages(sid: Sid, keep: int, now: int) returns (r: Result<bool, Fault>)
      modifies this
      ensures match Truncate(codec, old(State()), sid, keep, now)
              case Err(e) => r == Err(e) && State() == old(State())
              case Ok(a) => r == Ok(a.ok) && State() == a.store
    {
      var got := GetSession(sid, now);
      if got.Err? {
        return Err(got.error);
      }
      if keep < 0 {
        return Ok(false);
      }
      var stored := RowsOf(State(), sid);
      var left := DeleteFrom(stored, Min(keep, |stored|));
      rows := rows[sid := left];
      if sid in sessions {
        sessions := sessions[sid := sessions[sid].(count := Min(keep, |stored|), lastAccessed := Some(now))];
      }
      var history := cache[sid].history;
      cache := cache[sid := cache[sid].(history := history[..Min(keep, |history|)])];
      return Ok(true);
    }

    /** Deletes each row read with its exact payload; stops at the first that matches nothing. */
    method DeleteExact(sid: Sid, read: seq<Row>) returns (ok: bool)
      requires DistinctIds(read) && DistinctIds(RowsOf(State(), sid))
      modifies this`rows
      ensures ok <==> ById(RowsOf(old(State()), sid)) == ById(read)
      ensures rows - {sid} == old(rows) - {sid}
    {
      var left := RowsOf(State(), sid);
      ghost var was, table := rows, ById(left);
      for i := 0 to |read|
        invariant DistinctIds(left) && rows - {sid} == was - {sid}
        invariant Drain(table, read) == Drain(ById(left), read[i..])
      {
        DrainStep(table, left, read, i);
        SetTwice(rows, sid, DeleteRow(left, read[i]));
        var deleted := |left| - |DeleteRow(left, read[i])|;
        left := DeleteRow(left, read[i]);
        rows := rows[sid := left];
        if deleted != 1 {
          DrainsIff(table, read);
          return false;
        }
      }
      assert read[|read|..] == [];
      DrainEnd(table, left, read);
      return left == [];
    }

    method WriteRows(refs: seq<Ref>, ids: seq<RowId>, now: int) returns (written: seq<Row>)
      requires |ids| == |refs| && forall x :: x in refs ==> x in heap
      ensures written == NewRows(codec, heap, refs, ids, now)
    {
      written := [];
      for i := 0 to |refs|
        invariant |written| == i
        invariant forall j :: 0 <= j < i ==> written[j] == ReplacementRow(codec, heap[refs[j]], ids[j], now + j)
      {
        var m := heap[refs[i]];
        var meta := MetaOf(m).(dbId := None);
        var row := Row(ids[i], m.role, Stored(codec, m.content), if meta == EMPTY then None else Some(codec.dumpMeta(meta)), now + i);
        assert row == ReplacementRow(codec, m, ids[i], now + i);
        written := written + [row];
      }
    }

    method StampMessages(refs: seq<Ref>, ids: seq<RowId>)
      requires |ids| == |refs| && forall x :: x in refs ==> x in heap
      modifies this`heap
      ensures heap == StampIds(old(heap), refs, ids)
    {
      for i := 0 to |refs|
        invariant heap.Keys == old(heap).Keys
        invariant forall x :: x in refs[i..] ==> x in heap
        invariant StampIds(heap, refs[i..], ids[i..]) == StampIds(old(heap), refs, ids)
      {
        assert refs[i..][0] == refs[i] && ids[i..][0] == ids[i];
        assert refs[i..][1..] == refs[i + 1..] && ids[i..][1..] == ids[i + 1..];
        heap := heap[refs[i] := WithId(heap[refs[i]], ids[i])];
      }
    }

    /** What another connection commits to the session. */
    method OthersCommit(sid: Sid, other: Option<Foreign>)
      modifies this
      ensures State() == AfterOthers(old(State()), sid, other)
    {
      if other.Some? && sid in sessions {
        rows, sessions := rows[sid := other.value.rows], sessions[sid := sessions[sid].(count := other.value.count)];
      }
    }

    /** What other threads do to the session's history. */
    method ThreadsChange(sid: Sid, meanwhile: Option<Meanwhile>)
      modifies this
      ensures State() == AfterThreads(old(State()), sid, meanwhile)
    {
      if meanwhile.Some? {
        cache := cache[sid := Cached(meanwhile.value.history, |meanwhile.value.history|)];
        heap := heap + meanwhile.value.edits;
      }
    }

    /** The first version checks, the exact deletes included, which a failure rolls back. */
    method VersionMatches(sid: Sid, expected: seq<Entry>, read: seq<Row>) returns (ok: bool)
      requires sid in cache && DistinctIds(read) && DistinctIds(RowsOf(State(), sid))
      modifies this`rows
      ensures ok <==> && MemoryIs(heap, cache[sid].history, expected)
                      && RowSnapshot(codec, read) == Ok(expected)
                      && ById(RowsOf(old(State()), sid)) == ById(read)
      ensures if ok then rows - {sid} == old(rows) - {sid} else rows == old(rows)
    {
      var begun := rows;
      if !MemoryIs(heap, cache[sid].history, expected) || RowSnapshot(codec, read) != Ok(expected) {
        return false;
      }
      ok := DeleteExact(sid, read);
      if !ok {
        rows := begun;
      }
    }

    /**
     `other` is what another connection commits between the read of the rows and the deletes, `meanwhile` what other
     threads do to the history between the first check of memory and the last.
     */
    method ReplaceMessages(sid: Sid, refs: seq<Ref>, expected: Option<seq<Entry>>, ids: seq<RowId>, now: int,
                           other: Option<Foreign>, meanwhile: Option<Meanwhile>) returns (r: Result<bool, Fault>)
      requires |ids| == |refs| && (forall x :: x in refs ==> x in heap)
      requires DistinctIds(RowsOf(State(), sid)) && (other.Some? ==> DistinctIds(other.value.rows))
      modifies this
      ensures match Replace(codec, old(State()), sid, refs, expected, ids, now, other, meanwhile)
              case Err(e) => r == Err(e) && State() == old(State())
              case Ok(a) => r == Ok(a.ok) && State() == a.store
    {
      var got := GetSession(sid, now);
      if got.Err? {
        return Err(got.error);
      }
      var ok := SwapMessages(sid, refs, expected, ids, now, other, meanwhile);
      return Ok(ok);
    }

    /** The transaction on a session that has been fetched. */
    method SwapMessages(sid: Sid, refs: seq<Ref>, expected: Option<seq<Entry>>, ids: seq<RowId>, now: int,
                        other: Option<Foreign>, meanwhile: Option<Meanwhile>) returns (ok: bool)
      requires sid in cache && |ids| == |refs| && (forall x :: x in refs ==> x in heap)
      requires DistinctIds(RowsOf(State(), sid)) && (other.Some? ==> DistinctIds(other.value.rows))
      modifies this
      ensures Answer(State(), ok) == Swap(codec, old(State()), sid, refs, expected, ids, now, other, meanwhile)
    {
      var read := RowsOf(State(), sid);
      OthersCommit(sid, other);
      ghost var o := State();
      var begun := rows;
      if expected.Some? {
        var current := VersionMatches(sid, expected.value, read);
        if !current {
          assert State() == o;
          return false;
        }
      }
      ThreadsChange(sid, meanwhile);
      assert State().(rows := begun) == AfterThreads(o, sid, meanwhile);
      ok := RecheckAndInstall(sid, refs, expected, ids, now, begun);
    }

    /** The rest of the transaction: the last checks, then the writes and the commit; or a rollback of the deletes. */
    method RecheckAndInstall(sid: Sid, refs: seq<Ref>, expected: Option<seq<Entry>>, ids: seq<RowId>, now: int,
                             begun: map<Sid, seq<Row>>) returns (ok: bool)
      requires |ids| == |refs| && (forall x :: x in refs ==> x in heap) && sid in cache && rows - {sid} == begun - {sid}
      modifies this
      ensures ok == MayCommit(old(State()), sid, refs, expected)
      ensures State() == if ok then Install(codec, old(State()).(rows := begun), sid, refs, ids, now)
                         else old(State()).(rows := begun)
    {
      if expected.Some? && !MemoryIs(heap, cache[sid].history, expected.value) {
        rows := begun;
        return false;
      }
      if sid !in sessions && refs != [] {
        rows := begun;
        return false;
      }
      SetOverRest(rows, begun, sid, NewRows(codec, heap, refs, ids, now));
      InstallMessages(sid, refs, ids, now);
      return true;
    }

    /** Writes the rows, commits, and makes the messages the history. */
    method InstallMessages(sid: Sid, refs: seq<Ref>, ids: seq<RowId>, now: int)
      requires |ids| == |refs| && forall x :: x in refs ==> x in heap
      modifies this
      ensures State() == Install(codec, old(State()), sid, refs, ids, now)
    {
      var written := WriteRows(refs, ids, now);
      rows := rows[sid := written];
      if sid in sessions {
        sessions := sessions[sid := sessions[sid].(count := |refs|, lastAccessed := Some(now))];
      }
      StampMessages(refs, ids);
      cache := cache[sid := Cached(refs, |refs|)];
    }

    // -------------------------------------------------------------- sessions

    method CreateSession(sid: Sid, study: bool, now: int) returns (r: Result<(), Fault>)
      modifies this
      ensures match Create(old(State()), sid, study, now)
              case Err(e) => r == Err(e) && State() == old(State())
              case Ok(s') => r == Ok(()) && State() == s'
    {
      if sid in sessions {
        return Err(IntegrityError);
      }
      sessions := sessions[sid := SessionRow(0, study, false, false, Some(now), Some(now))];
      cache := cache[sid := Cached([], 0)];
      return Ok(());
    }

    method DeleteSession(sid: Sid) returns (ok: bool)
      modifies this
      ensures Answer(State(), ok) == Delete(old(State()), sid)
    {
      var existed := sid in sessions;
      var removed := sid in cache;
      cache := cache - {sid};
      if existed || removed {
        rows, sessions := rows - {sid}, sessions - {sid};
        return true;
      }
      assert cache == old(cache);
      return false;
    }

    method CleanupSession(sid: Sid, now: int, cutoff: int, minAge: int) returns (fate: Fate)
      requires sid in sessions
      modifies this
      ensures State() == SweepOne(old(State()), sid, now, cutoff, minAge)
      ensures fate == FateOf(old(sessions)[sid], cutoff, minAge)
    {
      var row := sessions[sid];
      if row.count == 0 {
        if row.study || (row.createdAt.Some? && row.createdAt.value > minAge) {
          return Keep;
        }
        cache, rows, sessions := cache - {sid}, rows - {sid}, sessions - {sid};
        return Drop;
      } else if !row.archived && row.lastAccessed.Some? && row.lastAccessed.value < cutoff && !row.important {
        sessions := sessions[sid := row.(archived := true, lastAccessed := Some(now))];
        return Archive;
      }
      return Keep;
    }

    /** `order` lists the sessions as the query returns them. */
    method CleanupEmptySessions(order: seq<Sid>, now: int, cutoff: int, minAge: int)
      returns (deletedEmpty: nat, archivedOld: nat)
      requires NoDuplicates(order) && Elements(order) == sessions.Keys
      modifies this
      ensures State() == Cleanup(old(State()), now, cutoff, minAge)
      ensures deletedEmpty == |Fated(old(State()), old(sessions).Keys, Drop, cutoff, minAge)|
      ensures archivedOld == |Fated(old(State()), old(sessions).Keys, Archive, cutoff, minAge)|
    {
      deletedEmpty, archivedOld := 0, 0;
      ghost var s := State();
      assert forall sid :: sid in order ==> sid in Elements(order);
      for i := 0 to |order|
        invariant State() == SweepAll(s, order[..i], now, cutoff, minAge)
        invariant deletedEmpty == CountFate(s, order[..i], Drop, cutoff, minAge)
        invariant archivedOld == CountFate(s, order[..i], Archive, cutoff, minAge)
      {
        assert order[..i + 1][..i] == order[..i];
        SweepAllLeaves(s, order[..i], order[i], now, cutoff, minAge);
        var fate := CleanupSession(order[i], now, cutoff, minAge);
        if fate == Drop {
          deletedEmpty := deletedEmpty + 1;
        } else if fate == Archive {
          archivedOld := archivedOld + 1;
        }
      }
      assert order[..|order|] == order;
      SweepAllIs(s, order, now, cutoff, minAge);
      CountFateIs(s, order, Drop, cutoff, minAge);
      CountFateIs(s, order, Archive, cutoff, minAge);
    }
  }

  lemma SetTwice<K, V>(m: map<K, V>, k: K, v: V)
    ensures m[k := v][k := v] == m[k := v] && m[k := v] - {k} == m - {k}
    ensures k in m && m[k] == v ==> m[k := v] == m
  {
  }

  lemma SetOverRest<K, V>(m: map<K, V>, n: map<K, V>, k: K, v: V)
    requires m - {k} == n - {k}
    ensures m[k := v] == n[k := v]
  {
    assert forall x :: x != k ==> (x in m <==> x in m - {k}) && (x in n <==> x in n - {k});
  }

  lemma {:induction false} PrefixErr(c: Codec, stored: seq<Row>, n: nat)
    requires n <= |stored| && HydrateAll(c, stored[..n]).Err?
    ensures HydrateAll(c, stored).Err?
    decreases |stored| - n
  {
    if n < |stored| {
      assert stored[..n + 1][..n] == stored[..n];
      PrefixErr(c, stored, n + 1);
    } else {
      assert stored[..n] == stored;
    }
  }

  lemma HydrateNext(c: Codec, stored: seq<Row>, i: nat, messages: seq<Message>)
    requires i < |stored| && HydrateAll(c, stored[..i]) == Ok(messages)
    ensures match Hydrate(c, stored[i])
            case Err(_) => HydrateAll(c, stored).Err?
            case Ok(m) => HydrateAll(c, stored[..i + 1]) == Ok(messages + [m])
  {
    assert stored[..i + 1][..i] == stored[..i];
    if Hydrate(c, stored[i]).Err? {
      PrefixErr(c, stored, i + 1);
    }
  }
}
