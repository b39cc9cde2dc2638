/**
 The session manager between its cache and the database, one operation at a time: sessions and message rows in the
 store, lazily loaded histories in memory.

 Message objects have identities (`Ref`) and live in `heap`, because the code stamps row ids into the very objects
 that histories share.  Rows of a session are kept in timestamp order; the clock, the row ids that `uuid4` draws and
 what other connections commit are parameters.
 */
module ChatStore {
  import opened Options
  import opened ChatContent
  import opened Sequences

  type Sid = nat
  type Ref = nat

  datatype SessionRow = SessionRow(count: nat, study: bool, archived: bool, important: bool,
                                   createdAt: Option<int>, lastAccessed: Option<int>)

  datatype Cached = Cached(history: seq<Ref>, count: nat)

  datatype Store = Store(
    sessions: map<Sid, SessionRow>,
    rows: map<Sid, seq<Row>>,
    cache: map<Sid, Cached>,
    heap: map<Ref, Message>,
    next: Ref                    // no message object has this identity or a larger one
  )

  datatype Fault = KeyError | LoadError | IntegrityError

  // ---------------------------------------------------------------- reading a store

  function RowsOf(s: Store, sid: Sid): seq<Row> {
    if sid in s.rows then s.rows[sid] else []
  }

  function Deref(heap: map<Ref, Message>, refs: seq<Ref>): (r: seq<Message>)
    requires forall x :: x in refs ==> x in heap
    ensures |r| == |refs| && forall i :: 0 <= i < |r| ==> r[i] == heap[refs[i]]
  {
    seq(|refs|, i requires 0 <= i < |refs| => heap[refs[i]])
  }

  predicate InOrder(rows: seq<Row>) {
    forall i, j :: 0 <= i < j < |rows| ==> rows[i].stamp < rows[j].stamp
  }

  predicate DistinctIds(rows: seq<Row>) {
    forall i, j :: 0 <= i < j < |rows| ==> rows[i].id != rows[j].id
  }

  predicate Later(rows: seq<Row>, now: int) {
    forall i :: 0 <= i < |rows| ==> rows[i].stamp < now
  }

  predicate FreshId(rows: seq<Row>, id: RowId) {
    forall i :: 0 <= i < |rows| ==> rows[i].id != id
  }

  /** A metadata-only entry: its messages are loaded on first read. */
  predicate Unhydrated(e: Cached) {
    e.history == [] && e.count > 0
  }

  /** The history is, in order, what loading the rows builds. */
  predicate Mirrors(c: Codec, rows: seq<Row>, heap: map<Ref, Message>, refs: seq<Ref>) {
    |rows| == |refs| && forall i :: 0 <= i < |rows| ==> refs[i] in heap && Shows(c, rows[i], heap[refs[i]])
  }

  predicate Readable(c: Codec, rows: seq<Row>) {
    forall i :: 0 <= i < |rows| ==> Hydrate(c, rows[i]).Ok?
  }

  /** One session's books: its row, its messages and its cache entry fit together. */
  predicate Book(c: Codec, s: Store, sid: Sid) {
    var rows := RowsOf(s, sid);
    && (if sid in s.sessions then s.sessions[sid].count == |rows| else rows == [] && sid !in s.cache)
    && InOrder(rows) && DistinctIds(rows) && Readable(c, rows)
    && (sid in s.cache && !Unhydrated(s.cache[sid]) ==> Mirrors(c, rows, s.heap, s.cache[sid].history))
  }

  ghost predicate Good(c: Codec, s: Store) {
    (forall x :: x in s.heap ==> x < s.next) && forall sid :: Book(c, s, sid)
  }

  predicate Disjoint(a: seq<Ref>, b: seq<Ref>) {
    forall x :: x in a ==> x !in b
  }

  /** The objects in question belong to no other session's history. */
  predicate Owned(s: Store, sid: Sid, refs: seq<Ref>) {
    forall t :: t in s.cache && t != sid ==> Disjoint(s.cache[t].history, refs)
  }

  predicate Holds(s: Store, sid: Sid) {
    sid in s.cache && forall x :: x in s.cache[sid].history ==> x in s.heap
  }

  // ---------------------------------------------------------------- get_session

  predicate NeedsLoad(s: Store, sid: Sid) {
    sid !in s.cache || Unhydrated(s.cache[sid])
  }

  /** New message objects, one after the other. */
  function Objects(heap: map<Ref, Message>, next: Ref, messages: seq<Message>): (r: map<Ref, Message>)
    ensures heap.Keys <= r.Keys
  {
    if messages == [] then heap
    else
      var n := |messages| - 1;
      Objects(heap, next, messages[..n])[next + n := messages[n]]
  }

  function NewRefs(next: Ref, n: nat): (r: seq<Ref>)
    ensures |r| == n && forall i :: 0 <= i < n ==> r[i] == next + i
  {
    seq(n, i requires 0 <= i < n => next + i)
  }

  function Load(c: Codec, s: Store, sid: Sid): (r: Result<Store, Fault>)
    ensures r.Ok? ==> s.heap.Keys <= r.value.heap.Keys
  {
    if sid !in s.sessions then Err(KeyError)
    else
      match HydrateAll(c, RowsOf(s, sid))
      case Err(_) => Err(LoadError)
      case Ok(messages) =>
        Ok(s.(heap := Objects(s.heap, s.next, messages), next := s.next + |messages|,
              cache := s.cache[sid := Cached(NewRefs(s.next, |messages|), s.sessions[sid].count)]))
  }

  /** `sync_session_metadata` and `_touch_session`. */
  function Touch(s: Store, sid: Sid, now: int): Store
    requires sid in s.cache
  {
    if sid !in s.sessions then s
    else s.(cache := s.cache[sid := s.cache[sid].(count := s.sessions[sid].count)],
            sessions := s.sessions[sid := s.sessions[sid].(lastAccessed := Some(now))])
  }

  function Get(c: Codec, s: Store, sid: Sid, now: int): (r: Result<Store, Fault>)
    ensures r.Ok? ==> sid in r.value.cache && s.heap.Keys <= r.value.heap.Keys
  {
    if NeedsLoad(s, sid) then
      match Load(c, s, sid)
      case Err(e) => Err(e)
      case Ok(loaded) => Ok(Touch(loaded, sid, now))
    else Ok(Touch(s, sid, now))
  }

  /** What is between the two states of an operation on `sid`, as every other session sees it. */
  predicate Apart(s: Store, s': Store, t: Sid) {
    && (t in s.sessions <==> t in s'.sessions) && (t in s.sessions ==> s'.sessions[t].count == s.sessions[t].count)
    && RowsOf(s', t) == RowsOf(s, t)
    && (t in s.cache <==> t in s'.cache) && (t in s.cache ==> s'.cache[t] == s.cache[t])
    && (t in s.cache ==> forall x :: x in s.cache[t].history && x in s.heap ==> x in s'.heap && s'.heap[x] == s.heap[x])
  }

  lemma ApartKeeps(c: Codec, s: Store, s': Store, t: Sid)
    requires Book(c, s, t) && Apart(s, s', t)
    ensures Book(c, s', t)
  {
  }

  lemma KeepsIfApart(c: Codec, s: Store, s': Store, sid: Sid)
    requires Good(c, s) && Book(c, s', sid) && (forall x :: x in s'.heap ==> x < s'.next)
    requires forall t :: t != sid ==> Apart(s, s', t)
    ensures Good(c, s')
  {
    forall t ensures Book(c, s', t) {
      assert Book(c, s, t);
      if t != sid {
        assert Apart(s, s', t);
        ApartKeeps(c, s, s', t);
      }
    }
  }

  lemma ReadableLoads(c: Codec, rows: seq<Row>)
    requires Readable(c, rows)
    ensures HydrateAll(c, rows).Ok?
  {
    if rows != [] {
      ReadableLoads(c, rows[..|rows| - 1]);
    }
  }

  lemma {:induction false} ObjectsAt(heap: map<Ref, Message>, next: Ref, messages: seq<Message>, x: Ref)
    ensures next <= x < next + |messages| ==>
              x in Objects(heap, next, messages) && Objects(heap, next, messages)[x] == messages[x - next]
    ensures !(next <= x < next + |messages|) ==>
              && (x in Objects(heap, next, messages) <==> x in heap)
              && (x in heap ==> Objects(heap, next, messages)[x] == heap[x])
  {
    if messages != [] {
      ObjectsAt(heap, next, messages[..|messages| - 1], x);
    }
  }

  lemma LoadMirrors(c: Codec, rows: seq<Row>, heap: map<Ref, Message>, next: Ref)
    requires HydrateAll(c, rows).Ok?
    ensures var messages := HydrateAll(c, rows).value;
            Mirrors(c, rows, Objects(heap, next, messages), NewRefs(next, |messages|))
  {
    var messages := HydrateAll(c, rows).value;
    var refs := NewRefs(next, |messages|);
    forall i | 0 <= i < |rows|
      ensures refs[i] in Objects(heap, next, messages) && Shows(c, rows[i], Objects(heap, next, messages)[refs[i]])
    {
      ObjectsAt(heap, next, messages, next + i);
      assert Hydrate(c, rows[i]) == Ok(messages[i]);
    }
  }

  lemma LoadKeeps(c: Codec, s: Store, sid: Sid)
    requires Good(c, s) && sid in s.sessions
    ensures Load(c, s, sid).Ok? && Good(c, Load(c, s, sid).value)
    ensures Mirrors(c, RowsOf(s, sid), Load(c, s, sid).value.heap, Load(c, s, sid).value.cache[sid].history)
  {
    assert Book(c, s, sid);
    ReadableLoads(c, RowsOf(s, sid));
    LoadMirrors(c, RowsOf(s, sid), s.heap, s.next);
    var messages := HydrateAll(c, RowsOf(s, sid)).value;
    var s' := Load(c, s, sid).value;
    forall x: Ref ensures x in s'.heap ==> x < s'.next {
      ObjectsAt(s.heap, s.next, messages, x);
    }
    forall t | t != sid ensures Apart(s, s', t) {
      forall x | x in s.heap ensures x in s'.heap && s'.heap[x] == s.heap[x] {
        ObjectsAt(s.heap, s.next, messages, x);
      }
    }
    KeepsIfApart(c, s, s', sid);
  }

  lemma TouchKeeps(c: Codec, s: Store, sid: Sid, now: int)
    requires Good(c, s) && sid in s.cache && !Unhydrated(s.cache[sid])
    ensures Good(c, Touch(s, sid, now))
  {
    assert Book(c, s, sid);
    KeepsIfApart(c, s, Touch(s, sid, now), sid);
  }

  lemma MirrorsSnapshot(c: Codec, rows: seq<Row>, heap: map<Ref, Message>, refs: seq<Ref>)
    requires Mirrors(c, rows, heap, refs) && HydrateAll(c, rows).Ok? && forall x :: x in refs ==> x in heap
    ensures Snapshot(Deref(heap, refs)) == Snapshot(HydrateAll(c, rows).value)
  {
    var loaded := HydrateAll(c, rows).value;
    forall i | 0 <= i < |rows| ensures MessageEntry(heap[refs[i]]) == MessageEntry(loaded[i]) {
      assert Shows(c, rows[i], heap[refs[i]]);
      assert Hydrate(c, rows[i]) == Ok(loaded[i]);
    }
  }

  lemma {:induction false} HydrateAllFails(c: Codec, rows: seq<Row>)
    ensures HydrateAll(c, rows).Err? <==> !Readable(c, rows)
  {
    if rows != [] {
      var n := |rows| - 1;
      HydrateAllFails(c, rows[..n]);
      assert rows == rows[..n] + [rows[n]];
    }
  }

  /** In any store: how reading a session fails, by a KeyError when it is unknown and otherwise by a row that raises. */
  lemma GetFailsIff(c: Codec, s: Store, sid: Sid, now: int)
    ensures Get(c, s, sid, now) == Err(KeyError) <==> NeedsLoad(s, sid) && sid !in s.sessions
    ensures Get(c, s, sid, now) == Err(LoadError) <==>
            NeedsLoad(s, sid) && sid in s.sessions && exists i :: 0 <= i < |RowsOf(s, sid)| && Hydrate(c, RowsOf(s, sid)[i]).Err?
    ensures Get(c, s, sid, now) != Err(IntegrityError)
  {
    HydrateAllFails(c, RowsOf(s, sid));
  }

  /** After a successful `get_session` the entry is hydrated. */
  lemma GetKeeps(c: Codec, s: Store, sid: Sid, now: int)
    requires Good(c, s)
    ensures if sid in s.sessions then Get(c, s, sid, now).Ok? else Get(c, s, sid, now) == Err(KeyError)
    ensures sid in s.sessions ==>
              var s' := Get(c, s, sid, now).value;
              && Good(c, s') && sid in s'.sessions && s'.rows == s.rows
              && s'.cache[sid].count == s'.sessions[sid].count
              && Mirrors(c, RowsOf(s, sid), s'.heap, s'.cache[sid].history)
  {
    assert Book(c, s, sid);
    if sid in s.sessions {
      if NeedsLoad(s, sid) {
        LoadKeeps(c, s, sid);
        TouchKeeps(c, Load(c, s, sid).value, sid, now);
      } else {
        TouchKeeps(c, s, sid, now);
      }
    }
  }

  /**
   In good books `get_session` fails exactly for an unknown session, and then with a KeyError.  Otherwise the history
   it returns is what a fresh load of the rows builds, message by message, and the counts agree with it.
   */
  lemma GetIsFreshLoad(c: Codec, s: Store, sid: Sid, now: int)
    requires Good(c, s)
    ensures Get(c, s, sid, now) == Err(KeyError) <==> sid !in s.sessions
    ensures sid in s.sessions ==>
              && Get(c, s, sid, now).Ok?
              && var s' := Get(c, s, sid, now).value;
                 && Holds(s', sid) && sid in s'.sessions && HydrateAll(c, RowsOf(s, sid)).Ok?
                 && Snapshot(Deref(s'.heap, s'.cache[sid].history)) == Snapshot(HydrateAll(c, RowsOf(s, sid)).value)
                 && s'.cache[sid].count == |s'.cache[sid].history| == s'.sessions[sid].count
  {
    assert Book(c, s, sid);
    GetKeeps(c, s, sid, now);
    if sid in s.sessions {
      var s' := Get(c, s, sid, now).value;
      assert Book(c, s', sid);
      ReadableLoads(c, RowsOf(s, sid));
      MirrorsSnapshot(c, RowsOf(s, sid), s'.heap, s'.cache[sid].history);
    }
  }

  /** A read leaves the time of the read, and no other trace in the database. */
  lemma GetTouches(c: Codec, s: Store, sid: Sid, now: int)
    requires Good(c, s) && sid in s.sessions
    ensures Get(c, s, sid, now).Ok?
    ensures var s' := Get(c, s, sid, now).value;
            && s'.rows == s.rows && s'.sessions.Keys == s.sessions.Keys
            && s'.sessions[sid].lastAccessed == Some(now)
            && s'.sessions[sid].(lastAccessed := s.sessions[sid].lastAccessed) == s.sessions[sid]
            && forall t :: t in s.sessions && t != sid ==> s'.sessions[t] == s.sessions[t]
  {
    GetKeeps(c, s, sid, now);
  }

  // ---------------------------------------------------------------- add_message

  /** `_persist_message_locked` on a session that exists; the message is already at the end of `history`. */
  function Persist(c: Codec, s: Store, sid: Sid, history: seq<Ref>, ref: Ref, id: RowId, now: int): Store
    requires sid in s.sessions && ref in s.heap
  {
    s.(heap := s.heap[ref := Persisted(c, s.heap[ref], id, now)],
       rows := s.rows[sid := RowsOf(s, sid) + [PersistedRow(c, s.heap[ref], id, now)]],
       cache := s.cache[sid := Cached(history, |history|)],
       sessions := s.sessions[sid := s.sessions[sid].(count := |history|, lastAccessed := Some(now))])
  }

  /** A message for a session that is gone from the database drops the cache entry too. */
  function Add(c: Codec, s: Store, sid: Sid, ref: Ref, id: RowId, now: int): Result<Store, Fault>
    requires ref in s.heap
  {
    match Get(c, s, sid, now)
    case Err(e) => Err(e)
    case Ok(g) =>
      if sid !in g.sessions then Ok(g.(cache := g.cache - {sid}))
      else Ok(Persist(c, g, sid, g.cache[sid].history + [ref], ref, id, now))
  }

  /** A new id on a message object makes it differ from the row it was loaded from. */
  lemma StampSpoils(c: Codec, row: Row, m: Message, id: RowId, now: int)
    requires Shows(c, row, m) && row.id != id
    ensures !Shows(c, row, Persisted(c, m, id, now))
  {
  }

  /**
   After an append, memory mirrors the rows exactly when the message object was not in the history already and its
   content survives storage.
   */
  lemma AppendMirrorsIff(c: Codec, rows: seq<Row>, heap: map<Ref, Message>, history: seq<Ref>, ref: Ref, id: RowId, now: int)
    requires Lawful(c) && ref in heap && FreshId(rows, id) && Mirrors(c, rows, heap, history)
    ensures Mirrors(c, rows + [PersistedRow(c, heap[ref], id, now)], heap[ref := Persisted(c, heap[ref], id, now)], history + [ref])
            <==> ref !in history && RoundTrips(c, heap[ref].content)
  {
    var m := heap[ref];
    var heap' := heap[ref := Persisted(c, m, id, now)];
    var rows', history' := rows + [PersistedRow(c, m, id, now)], history + [ref];
    PersistedShowsIff(c, m, id, now);
    assert rows'[|rows|] == PersistedRow(c, m, id, now) && history'[|rows|] == ref;
    if ref in history {
      var i :| 0 <= i < |history| && history[i] == ref;
      StampSpoils(c, rows[i], m, id, now);
      assert rows'[i] == rows[i] && history'[i] == ref;
    } else {
      forall i | 0 <= i < |rows| ensures history'[i] in heap' && Shows(c, rows'[i], heap'[history'[i]]) {
        assert rows'[i] == rows[i] && history'[i] == history[i];
      }
    }
  }

  /** Getting a session changes no message object and no other session's entry. */
  lemma GetFrame(c: Codec, s: Store, sid: Sid, now: int)
    requires Good(c, s) && sid in s.sessions && Get(c, s, sid, now).Ok?
    ensures var s' := Get(c, s, sid, now).value;
            && (forall x :: x in s.heap ==> x in s'.heap && s'.heap[x] == s.heap[x])
            && (forall t :: t != sid ==> (t in s'.cache <==> t in s.cache) && (t in s.cache ==> s'.cache[t] == s.cache[t]))
            && (if NeedsLoad(s, sid) then forall x :: x in s'.cache[sid].history ==> x !in s.heap
                else s'.cache[sid].history == s.cache[sid].history)
  {
    var messages := if NeedsLoad(s, sid) then HydrateAll(c, RowsOf(s, sid)).value else [];
    assert NeedsLoad(s, sid) ==> HydrateAll(c, RowsOf(s, sid)).Ok?;
    forall x | x in s.heap ensures x in Objects(s.heap, s.next, messages) && Objects(s.heap, s.next, messages)[x] == s.heap[x] {
      ObjectsAt(s.heap, s.next, messages, x);
    }
  }

  lemma RowsGrow(c: Codec, rows: seq<Row>, row: Row)
    requires InOrder(rows) && DistinctIds(rows) && Readable(c, rows)
    requires Later(rows, row.stamp) && FreshId(rows, row.id) && Hydrate(c, row).Ok?
    ensures InOrder(rows + [row]) && DistinctIds(rows + [row]) && Readable(c, rows + [row])
  {
  }

  lemma PersistKeepsIff(c: Codec, s: Store, sid: Sid, history: seq<Ref>, ref: Ref, id: RowId, now: int)
    requires Lawful(c) && Good(c, s) && sid in s.sessions && ref in s.heap && Owned(s, sid, [ref])
    requires Later(RowsOf(s, sid), now) && FreshId(RowsOf(s, sid), id) && Mirrors(c, RowsOf(s, sid), s.heap, history)
    ensures Good(c, Persist(c, s, sid, history + [ref], ref, id, now))
            <==> ref !in history && RoundTrips(c, s.heap[ref].content)
  {
    var s' := Persist(c, s, sid, history + [ref], ref, id, now);
    assert Book(c, s, sid);
    AppendMirrorsIff(c, RowsOf(s, sid), s.heap, history, ref, id, now);
    assert Good(c, s') ==> Book(c, s', sid);
    if ref !in history && RoundTrips(c, s.heap[ref].content) {
      PersistedShowsIff(c, s.heap[ref], id, now);
      RowsGrow(c, RowsOf(s, sid), PersistedRow(c, s.heap[ref], id, now));
      assert Book(c, s', sid);
      forall t | t != sid ensures Apart(s, s', t) {
        assert t in s.cache ==> Disjoint(s.cache[t].history, [ref]);
      }
      KeepsIfApart(c, s, s', sid);
    }
  }

  /**
   In good books `add_message` to a known session succeeds, and leaves the books good exactly when the message object
   was not in the session's cached history already and its content survives storage.
   */
  lemma AddKeepsIff(c: Codec, s: Store, sid: Sid, ref: Ref, id: RowId, now: int)
    requires Lawful(c) && Good(c, s) && sid in s.sessions && ref in s.heap && Owned(s, sid, [ref])
    requires Later(RowsOf(s, sid), now) && FreshId(RowsOf(s, sid), id)
    ensures Add(c, s, sid, ref, id, now).Ok?
    ensures Good(c, Add(c, s, sid, ref, id, now).value)
            <==> (sid in s.cache ==> ref !in s.cache[sid].history) && RoundTrips(c, s.heap[ref].content)
  {
    GetKeeps(c, s, sid, now);
    GetFrame(c, s, sid, now);
    var g := Get(c, s, sid, now).value;
    assert Owned(g, sid, [ref]) by {
      forall t | t in g.cache && t != sid ensures Disjoint(g.cache[t].history, [ref]) {
        assert Disjoint(s.cache[t].history, [ref]);
      }
    }
    assert RowsOf(g, sid) == RowsOf(s, sid);
    PersistKeepsIff(c, g, sid, g.cache[sid].history, ref, id, now);
  }

  lemma PersistStores(c: Codec, s: Store, sid: Sid, history: seq<Ref>, ref: Ref, id: RowId, now: int)
    requires Lawful(c) && sid in s.sessions && ref in s.heap
    ensures var s', m, n := Persist(c, s, sid, history, ref, id, now), s.heap[ref], |RowsOf(s, sid)|;
            && s'.heap == s.heap[ref := AsGiven(m, id, Some(c.iso(now)))]
            && |RowsOf(s', sid)| == n + 1 && RowsOf(s', sid)[..n] == RowsOf(s, sid)
            && RowsOf(s', sid)[n].id == id && RowsOf(s', sid)[n].stamp == now
            && (RoundTrips(c, m.content) ==> Hydrate(c, RowsOf(s', sid)[n]) == Ok(AsGiven(m, id, Some(c.iso(now)))))
  {
    PersistedIsGiven(c, s.heap[ref], id, now);
  }

  lemma AddPersists(c: Codec, s: Store, sid: Sid, ref: Ref, id: RowId, now: int) returns (g: Store, history: seq<Ref>)
    requires Good(c, s) && sid in s.sessions && ref in s.heap
    ensures sid in g.sessions && g.rows == s.rows && g.heap.Keys >= s.heap.Keys
    ensures forall x :: x in s.heap ==> x in g.heap && g.heap[x] == s.heap[x]
    ensures Add(c, s, sid, ref, id, now) == Ok(Persist(c, g, sid, history, ref, id, now))
  {
    GetKeeps(c, s, sid, now);
    GetFrame(c, s, sid, now);
    g := Get(c, s, sid, now).value;
    history := g.cache[sid].history + [ref];
  }

  /**
   What `add_message` to a known session leaves: one more row, stamped with the time and the new id, which loads as the
   message that was given, metadata and all; and that very message in memory.
   */
  lemma AddStores(c: Codec, s: Store, sid: Sid, ref: Ref, id: RowId, now: int)
    requires Lawful(c) && Good(c, s) && sid in s.sessions && ref in s.heap
    ensures Add(c, s, sid, ref, id, now).Ok?
    ensures var s', n, given := Add(c, s, sid, ref, id, now).value, |RowsOf(s, sid)|, AsGiven(s.heap[ref], id, Some(c.iso(now)));
            && |RowsOf(s', sid)| == n + 1 && RowsOf(s', sid)[..n] == RowsOf(s, sid)
            && RowsOf(s', sid)[n].id == id && RowsOf(s', sid)[n].stamp == now
            && (RoundTrips(c, s.heap[ref].content) ==> Hydrate(c, RowsOf(s', sid)[n]) == Ok(given))
            && ref in s'.heap && s'.heap[ref] == given
  {
    var g, history := AddPersists(c, s, sid, ref, id, now);
    assert RowsOf(g, sid) == RowsOf(s, sid) && g.heap[ref] == s.heap[ref];
    PersistStores(c, g, sid, history, ref, id, now);
  }

  /** Every other message and every other session's rows are as they were. */
  lemma AddLeaves(c: Codec, s: Store, sid: Sid, ref: Ref, id: RowId, now: int)
    requires Good(c, s) && sid in s.sessions && ref in s.heap
    ensures Add(c, s, sid, ref, id, now).Ok?
    ensures var s' := Add(c, s, sid, ref, id, now).value;
            && (forall x :: x in s.heap && x != ref ==> x in s'.heap && s'.heap[x] == s.heap[x])
            && forall t :: t != sid ==> RowsOf(s', t) == RowsOf(s, t)
  {
    var g, history := AddPersists(c, s, sid, ref, id, now);
  }

  /** The message is the last of the history, and the counts and the time of the last access match. */
  lemma AddCounts(c: Codec, s: Store, sid: Sid, ref: Ref, id: RowId, now: int)
    requires Good(c, s) && sid in s.sessions && ref in s.heap
    ensures Add(c, s, sid, ref, id, now).Ok?
    ensures var s', n := Add(c, s, sid, ref, id, now).value, |RowsOf(s, sid)|;
            && sid in s'.cache && |s'.cache[sid].history| == n + 1 && s'.cache[sid].history[n] == ref
            && sid in s'.sessions && s'.sessions[sid].count == s'.cache[sid].count == n + 1
            && s'.sessions[sid].lastAccessed == Some(now)
  {
    GetKeeps(c, s, sid, now);
  }

  /** A session whose row is gone but that is still cached takes no message, and leaves the cache. */
  lemma AddToDeleted(c: Codec, s: Store, sid: Sid, ref: Ref, id: RowId, now: int)
    requires sid !in s.sessions && sid in s.cache && !NeedsLoad(s, sid) && ref in s.heap
    ensures Add(c, s, sid, ref, id, now) == Ok(s.(cache := s.cache - {sid}))
    ensures Get(c, Add(c, s, sid, ref, id, now).value, sid, now) == Err(KeyError)
  {
  }

  // ---------------------------------------------------------------- truncate_messages

  datatype Answer = Answer(store: Store, ok: bool)

  function Min(a: int, b: int): int {
    if a < b then a else b
  }

  /** The in-memory message_count keeps its old value. */
  function Cut(s: Store, sid: Sid, keep: nat, now: int): Store
    requires sid in s.cache
  {
    var rows, e := RowsOf(s, sid), s.cache[sid];
    s.(rows := s.rows[sid := rows[..Min(keep, |rows|)]],
       sessions := if sid !in s.sessions then s.sessions
                   else s.sessions[sid := s.sessions[sid].(count := Min(keep, |rows|), lastAccessed := Some(now))],
       cache := s.cache[sid := e.(history := e.history[..Min(keep, |e.history|)])])
  }

  function Truncate(c: Codec, s: Store, sid: Sid, keep: int, now: int): Result<Answer, Fault> {
    match Get(c, s, sid, now)
    case Err(e) => Err(e)
    case Ok(g) => Ok(if keep < 0 then Answer(g, false) else Answer(Cut(g, sid, keep, now), true))
  }

  lemma CutKeeps(c: Codec, s: Store, sid: Sid, keep: nat, now: int)
    requires Good(c, s) && sid in s.sessions && sid in s.cache && Mirrors(c, RowsOf(s, sid), s.heap, s.cache[sid].history)
    ensures var s' := Cut(s, sid, keep, now);
            Good(c, s') && Mirrors(c, RowsOf(s', sid), s'.heap, s'.cache[sid].history)
  {
    assert Book(c, s, sid);
    var s' := Cut(s, sid, keep, now);
    assert Mirrors(c, RowsOf(s', sid), s'.heap, s'.cache[sid].history);
    assert Book(c, s', sid);
    KeepsIfApart(c, s, s', sid);
  }

  /** Truncation keeps the books good, and the first messages in memory and in the store alike. */
  lemma TruncateKeeps(c: Codec, s: Store, sid: Sid, keep: int, now: int)
    requires Good(c, s) && sid in s.sessions
    ensures Truncate(c, s, sid, keep, now).Ok?
    ensures var a := Truncate(c, s, sid, keep, now).value;
            && Good(c, a.store)
            && (a.ok <==> keep >= 0)
            && RowsOf(a.store, sid) == (if 0 <= keep < |RowsOf(s, sid)| then RowsOf(s, sid)[..keep] else RowsOf(s, sid))
            && sid in a.store.cache && Mirrors(c, RowsOf(a.store, sid), a.store.heap, a.store.cache[sid].history)
            && forall t :: t != sid ==> RowsOf(a.store, t) == RowsOf(s, t)
  {
    GetKeeps(c, s, sid, now);
    var g := Get(c, s, sid, now).value;
    if keep >= 0 {
      CutKeeps(c, g, sid, keep, now);
      assert RowsOf(g, sid)[..|RowsOf(g, sid)|] == RowsOf(g, sid);
    }
  }

  // ---------------------------------------------------------------- create_session, delete_session, restart

  function Create(s: Store, sid: Sid, study: bool, now: int): Result<Store, Fault> {
    if sid in s.sessions then Err(IntegrityError)
    else Ok(s.(sessions := s.sessions[sid := SessionRow(0, study, false, false, Some(now), Some(now))],
               cache := s.cache[sid := Cached([], 0)]))
  }

  /** With neither row nor cache entry nothing is committed. */
  function Delete(s: Store, sid: Sid): Answer {
    if sid !in s.sessions && sid !in s.cache then Answer(s, false)
    else Answer(s.(sessions := s.sessions - {sid}, rows := s.rows - {sid}, cache := s.cache - {sid}), true)
  }

  predicate Loadable(s: Store, sid: Sid) {
    sid in s.sessions && !s.sessions[sid].archived && (s.sessions[sid].count > 0 || s.sessions[sid].study)
  }

  /** A new process caches the metadata of the loadable sessions among `recent`, the 100 last accessed. */
  function Restart(s: Store, recent: set<Sid>): Store {
    s.(cache := map sid | sid in recent && Loadable(s, sid) :: Cached([], s.sessions[sid].count))
  }

  /** The loop over the sessions that the query returns. */
  lemma RestartNext(s: Store, recent: set<Sid>, sid: Sid)
    ensures Restart(s, recent + {sid}).cache ==
            if Loadable(s, sid) then Restart(s, recent).cache[sid := Cached([], s.sessions[sid].count)]
            else Restart(s, recent).cache
  {
  }

  lemma CreateKeeps(c: Codec, s: Store, sid: Sid, study: bool, now: int)
    requires Good(c, s) && Create(s, sid, study, now).Ok?
    ensures Good(c, Create(s, sid, study, now).value)
  {
    assert Book(c, s, sid);
    KeepsIfApart(c, s, Create(s, sid, study, now).value, sid);
  }

  lemma DeleteKeeps(c: Codec, s: Store, sid: Sid)
    requires Good(c, s)
    ensures Good(c, Delete(s, sid).store)
  {
    KeepsIfApart(c, s, Delete(s, sid).store, sid);
  }

  lemma RestartKeeps(c: Codec, s: Store, recent: set<Sid>)
    requires Good(c, s)
    ensures Good(c, Restart(s, recent))
  {
    forall sid ensures Book(c, Restart(s, recent), sid) {
      assert Book(c, s, sid);
    }
  }

  /** A session created is empty, active and as asked for, and nothing else has changed. */
  lemma CreatedIsEmpty(c: Codec, s: Store, sid: Sid, study: bool, now: int, later: int)
    requires Good(c, s) && sid !in s.sessions
    ensures Create(s, sid, study, now).Ok?
    ensures var s' := Create(s, sid, study, now).value;
            && sid in s'.sessions && s'.sessions[sid].study == study && !s'.sessions[sid].archived
            && !s'.sessions[sid].important && s'.sessions[sid].createdAt == Some(now)
            && Get(c, s', sid, later).Ok? && Get(c, s', sid, later).value.cache[sid] == Cached([], 0)
            && (forall t :: t != sid ==> (t in s'.sessions <==> t in s.sessions) && RowsOf(s', t) == RowsOf(s, t))
            && (forall t :: t != sid && t in s.sessions ==> s'.sessions[t] == s.sessions[t])
  {
    assert Book(c, s, sid);
  }

  /** A deleted session is unknown, its rows are gone, its id is free, and nothing else has changed. */
  lemma DeleteForgets(c: Codec, s: Store, sid: Sid, study: bool, now: int)
    ensures var a := Delete(s, sid);
            && (a.ok <==> sid in s.sessions || sid in s.cache)
            && Get(c, a.store, sid, now) == Err(KeyError) && (a.ok ==> RowsOf(a.store, sid) == [])
            && Create(a.store, sid, study, now).Ok?
            && (forall t :: t != sid ==> (t in a.store.sessions <==> t in s.sessions) && RowsOf(a.store, t) == RowsOf(s, t))
            && (forall t :: t != sid && t in s.sessions ==> a.store.sessions[t] == s.sessions[t])
            && (forall t :: t != sid ==> (t in a.store.cache <==> t in s.cache) && (t in s.cache ==> a.store.cache[t] == s.cache[t]))
  {
  }

  /** A new process lists the sessions among those asked for that have messages or are for studying, archived ones aside. */
  lemma RestartLists(c: Codec, s: Store, recent: set<Sid>, sid: Sid)
    requires Good(c, s)
    ensures var s' := Restart(s, recent);
            && s'.sessions == s.sessions && s'.rows == s.rows
            && (sid in s'.cache <==>
                  && sid in recent && sid in s.sessions && !s.sessions[sid].archived
                  && (RowsOf(s, sid) != [] || s.sessions[sid].study))
            && (sid in s'.cache ==> s'.cache[sid].history == [] && s'.cache[sid].count == |RowsOf(s, sid)|)
  {
    assert Book(c, s, sid);
  }

  // ---------------------------------------------------------------- replace_messages

  /** What the exact deletes compare besides the key: role, content and metadata as stored. */
  datatype Payload = Payload(role: string, content: string, meta: Option<string>)

  function PayloadOf(r: Row): Payload {
    Payload(r.role, r.content, r.meta)
  }

  /** A session's rows as the database finds them: by primary key. */
  function ById(rows: seq<Row>): (m: map<RowId, Payload>)
    ensures forall k :: k in m <==> !FreshId(rows, k)
  {
    if rows == [] then map[]
    else
      assert forall i :: 0 < i < |rows| ==> rows[1..][i - 1] == rows[i];
      ById(rows[1..])[rows[0].id := PayloadOf(rows[0])]
  }

  /** What the table holds of each row: everything that can be edited. */
  lemma {:induction false} ByIdAt(rows: seq<Row>, i: nat)
    requires DistinctIds(rows) && i < |rows|
    ensures rows[i].id in ById(rows)
    ensures var p := ById(rows)[rows[i].id]; p.role == rows[i].role && p.content == rows[i].content && p.meta == rows[i].meta
  {
    if i > 0 {
      assert DistinctIds(rows[1..]) && rows[1..][i - 1] == rows[i];
      ByIdAt(rows[1..], i - 1);
    }
  }

  /** Deletes one by one the rows read, each with its exact payload; None when one of them matches nothing. */
  function Drain(table: map<RowId, Payload>, read: seq<Row>): Option<map<RowId, Payload>> {
    if read == [] then Some(table)
    else if read[0].id in table && table[read[0].id] == PayloadOf(read[0]) then Drain(table - {read[0].id}, read[1..])
    else None
  }

  lemma MinusPlus<K, V>(m: map<K, V>, k: K, v: V)
    requires k !in m
    ensures m[k := v] - {k} == m
  {
  }

  lemma PlusMinus<K, V>(m: map<K, V>, k: K)
    requires k in m
    ensures (m - {k})[k := m[k]] == m
  {
  }

  /** Every row read is deleted and none is left over exactly when the table holds what was read, no less and no more. */
  lemma {:induction false} DrainsIff(table: map<RowId, Payload>, read: seq<Row>)
    requires DistinctIds(read)
    ensures Drain(table, read) == Some(map[]) <==> table == ById(read)
  {
    if read != [] {
      var id, p := read[0].id, PayloadOf(read[0]);
      assert DistinctIds(read[1..]);
      assert FreshId(read[1..], id);
      MinusPlus(ById(read[1..]), id, p);
      if id in table && table[id] == p {
        PlusMinus(table, id);
        DrainsIff(table - {id}, read[1..]);
      }
    }
  }

  predicate SameStored(a: Row, b: Row) {
    a.id == b.id && PayloadOf(a) == PayloadOf(b)
  }

  /** `DELETE ... WHERE id = ... AND role = ... AND content = ... AND metadata = ...`, metadata compared NULL-safely. */
  function DeleteRow(rows: seq<Row>, row: Row): seq<Row> {
    if rows == [] then []
    else (if SameStored(rows[0], row) then [] else [rows[0]]) + DeleteRow(rows[1..], row)
  }

  lemma {:induction false} DeleteRowFresh(rows: seq<Row>, row: Row, id: RowId)
    ensures FreshId(rows, id) ==> FreshId(DeleteRow(rows, row), id)
    ensures FreshId(rows, row.id) ==> DeleteRow(rows, row) == rows
  {
    if rows != [] {
      DeleteRowFresh(rows[1..], row, id);
      assert FreshId(rows, id) ==> FreshId(rows[1..], id);
      assert FreshId(rows, row.id) ==> FreshId(rows[1..], row.id) && rows[0].id != row.id;
      assert [rows[0]] + rows[1..] == rows;
    }
  }

  lemma TailDistinct(rows: seq<Row>)
    requires DistinctIds(rows) && rows != []
    ensures DistinctIds(rows[1..]) && FreshId(rows[1..], rows[0].id)
  {
  }

  lemma HeadDistinct(row: Row, rows: seq<Row>)
    requires DistinctIds(rows) && FreshId(rows, row.id)
    ensures DistinctIds([row] + rows)
  {
  }

  predicate Stores(rows: seq<Row>, row: Row) {
    row.id in ById(rows) && ById(rows)[row.id] == PayloadOf(row)
  }

  lemma DeleteHead(rows: seq<Row>, row: Row)
    requires DistinctIds(rows) && rows != [] && SameStored(rows[0], row)
    ensures DeleteRow(rows, row) == rows[1..] && ById(rows[1..]) == ById(rows) - {row.id} && Stores(rows, row)
  {
    TailDistinct(rows);
    DeleteRowFresh(rows[1..], row, row.id);
    MinusPlus(ById(rows[1..]), rows[0].id, PayloadOf(rows[0]));
  }

  lemma SetMinusOther<K, V>(m: map<K, V>, k: K, v: V, other: K)
    requires k != other
    ensures m[k := v] - {other} == (m - {other})[k := v]
  {
  }

  lemma ByIdCons(row: Row, rows: seq<Row>)
    ensures ById([row] + rows) == ById(rows)[row.id := PayloadOf(row)]
  {
    assert ([row] + rows)[1..] == rows;
  }

  /** `left` is `rows` without the row stored like `row`, if there is one. */
  predicate Deleted(rows: seq<Row>, row: Row, left: seq<Row>) {
    if Stores(rows, row) then |left| == |rows| - 1 && ById(left) == ById(rows) - {row.id} else left == rows
  }

  lemma DeletedPast(head: Row, rest: seq<Row>, row: Row, left: seq<Row>)
    requires !SameStored(head, row) && FreshId(rest, head.id) && Deleted(rest, row, left)
    ensures Deleted([head] + rest, row, [head] + left)
  {
    ByIdCons(head, rest);
    ByIdCons(head, left);
    if head.id != row.id {
      SetMinusOther(ById(rest), head.id, PayloadOf(head), row.id);
    }
  }

  /** Exactly one row is deleted when the table holds the row as it was read, and none otherwise. */
  lemma {:induction false} DeleteRowIs(rows: seq<Row>, row: Row)
    requires DistinctIds(rows)
    ensures DistinctIds(DeleteRow(rows, row)) && Deleted(rows, row, DeleteRow(rows, row))
  {
    if rows != [] {
      TailDistinct(rows);
      if SameStored(rows[0], row) {
        DeleteHead(rows, row);
      } else {
        var left := DeleteRow(rows[1..], row);
        DeleteRowIs(rows[1..], row);
        DeleteRowFresh(rows[1..], row, rows[0].id);
        HeadDistinct(rows[0], left);
        DeletedPast(rows[0], rows[1..], row, left);
        assert [rows[0]] + rows[1..] == rows;
        assert DeleteRow(rows, row) == [rows[0]] + left;
      }
    }
  }

  /** One delete, as the loop does it: `left` is what is left of the table before row `i` of those read. */
  lemma DrainStep(table: map<RowId, Payload>, left: seq<Row>, read: seq<Row>, i: nat)
    requires DistinctIds(left) && i < |read| && Drain(table, read) == Drain(ById(left), read[i..])
    ensures var left' := DeleteRow(left, read[i]);
            && DistinctIds(left')
            && Drain(table, read) == if |left| - |left'| == 1 then Drain(ById(left'), read[i + 1..]) else None
  {
    assert read[i..][0] == read[i] && read[i..][1..] == read[i + 1..];
    DeleteRowIs(left, read[i]);
  }

  lemma DrainEnd(table: map<RowId, Payload>, left: seq<Row>, read: seq<Row>)
    requires DistinctIds(read) && Drain(table, read) == Drain(ById(left), [])
    ensures left == [] <==> table == ById(read)
  {
    assert left != [] ==> left[0].id in ById(left);
    DrainsIff(table, read);
  }

  function NewRows(c: Codec, heap: map<Ref, Message>, refs: seq<Ref>, ids: seq<RowId>, now: int): (r: seq<Row>)
    requires |ids| == |refs| && forall x :: x in refs ==> x in heap
    ensures |r| == |refs|
    ensures forall i :: 0 <= i < |r| ==> r[i] == ReplacementRow(c, heap[refs[i]], ids[i], now + i)
  {
    seq(|refs|, i requires 0 <= i < |refs| => ReplacementRow(c, heap[refs[i]], ids[i], now + i))
  }

  /** `message.metadata["_db_id"] = msg_id` for each message in turn. */
  function StampIds(heap: map<Ref, Message>, refs: seq<Ref>, ids: seq<RowId>): (r: map<Ref, Message>)
    requires |ids| == |refs| && forall x :: x in refs ==> x in heap
    ensures r.Keys == heap.Keys
    ensures forall x :: x in heap && x !in refs ==> r[x] == heap[x]
  {
    if refs == [] then heap
    else StampIds(heap[refs[0] := WithId(heap[refs[0]], ids[0])], refs[1..], ids[1..])
  }

  function LastIndex(refs: seq<Ref>, x: Ref): (r: nat)
    requires x in refs
    ensures r < |refs| && refs[r] == x && forall j :: r < j < |refs| ==> refs[j] != x
  {
    if refs[|refs| - 1] == x then |refs| - 1 else LastIndex(refs[..|refs| - 1], x)
  }

  lemma {:induction false} StampIdsLast(heap: map<Ref, Message>, refs: seq<Ref>, ids: seq<RowId>, k: nat)
    requires |ids| == |refs| && (forall x :: x in refs ==> x in heap)
    requires k < |refs| && forall j :: k < j < |refs| ==> refs[j] != refs[k]
    ensures StampIds(heap, refs, ids)[refs[k]] == WithId(heap[refs[k]], ids[k])
  {
    if k > 0 {
      StampIdsLast(heap[refs[0] := WithId(heap[refs[0]], ids[0])], refs[1..], ids[1..], k - 1);
    }
  }

  lemma StampedWithLast(heap: map<Ref, Message>, refs: seq<Ref>, ids: seq<RowId>, i: nat)
    requires |ids| == |refs| && (forall x :: x in refs ==> x in heap) && i < |refs|
    ensures StampIds(heap, refs, ids)[refs[i]] == WithId(heap[refs[i]], ids[LastIndex(refs, refs[i])])
  {
    StampIdsLast(heap, refs, ids, LastIndex(refs, refs[i]));
  }

  /** The id each listed object carries in the end. */
  function CarriedIds(refs: seq<Ref>, ids: seq<RowId>): (r: seq<RowId>)
    requires |ids| == |refs|
    ensures |r| == |refs| && forall i :: 0 <= i < |refs| ==> r[i] == ids[LastIndex(refs, refs[i])]
  {
    seq(|refs|, i requires 0 <= i < |refs| => ids[LastIndex(refs, refs[i])])
  }

  lemma CarriedIdsIff(refs: seq<Ref>, ids: seq<RowId>)
    requires |ids| == |refs| && NoDuplicates(ids)
    ensures CarriedIds(refs, ids) == ids <==> NoDuplicates(refs)
  {
    if CarriedIds(refs, ids) == ids {
      forall i, j | 0 <= i < j < |refs| ensures refs[i] != refs[j] {
        assert ids[LastIndex(refs, refs[i])] == ids[i] && ids[LastIndex(refs, refs[j])] == ids[j];
      }
    }
  }

  ghost predicate AllRoundTrip(c: Codec, heap: map<Ref, Message>, refs: seq<Ref>)
    requires forall x :: x in refs ==> x in heap
  {
    forall i :: 0 <= i < |refs| ==> RoundTrips(c, heap[refs[i]].content)
  }

  lemma MirrorsRowsIff(c: Codec, heap: map<Ref, Message>, heap': map<Ref, Message>, refs: seq<Ref>, ids: seq<RowId>,
                       carried: seq<RowId>, now: int)
    requires Lawful(c) && |ids| == |carried| == |refs| && heap.Keys == heap'.Keys && forall x :: x in refs ==> x in heap
    requires forall i :: 0 <= i < |refs| ==> heap'[refs[i]] == WithId(heap[refs[i]], carried[i])
    ensures Mirrors(c, NewRows(c, heap, refs, ids, now), heap', refs) <==> carried == ids && AllRoundTrip(c, heap, refs)
  {
    var rows := NewRows(c, heap, refs, ids, now);
    forall i | 0 <= i < |refs|
      ensures Shows(c, rows[i], heap'[refs[i]]) <==> RoundTrips(c, heap[refs[i]].content) && carried[i] == ids[i]
    {
      ReplacementShowsIff(c, heap[refs[i]], ids[i], now + i, carried[i]);
    }
  }

  /**
   After a replacement, memory mirrors the rows exactly when every content survives storage and no message object was
   listed twice: a repeated object keeps only the id of its last row.
   */
  lemma ReplacedMirrorsIff(c: Codec, heap: map<Ref, Message>, refs: seq<Ref>, ids: seq<RowId>, now: int)
    requires Lawful(c) && |ids| == |refs| && NoDuplicates(ids) && forall x :: x in refs ==> x in heap
    ensures Mirrors(c, NewRows(c, heap, refs, ids, now), StampIds(heap, refs, ids), refs)
            <==> NoDuplicates(refs) && AllRoundTrip(c, heap, refs)
  {
    var heap' := StampIds(heap, refs, ids);
    var carried := CarriedIds(refs, ids);
    forall i | 0 <= i < |refs| ensures heap'[refs[i]] == WithId(heap[refs[i]], carried[i]) {
      StampedWithLast(heap, refs, ids, i);
    }
    MirrorsRowsIff(c, heap, heap', refs, ids, carried, now);
    CarriedIdsIff(refs, ids);
  }

  /** What another connection commits while the call runs: the session's rows and its stored message_count. */
  datatype Foreign = Foreign(rows: seq<Row>, count: nat)

  function AfterOthers(s: Store, sid: Sid, other: Option<Foreign>): Store {
    if other.None? || sid !in s.sessions then s
    else s.(rows := s.rows[sid := other.value.rows],
            sessions := s.sessions[sid := s.sessions[sid].(count := other.value.count)])
  }

  /** What other threads make of the session's history meanwhile: they append to it, or edit messages in place. */
  datatype Meanwhile = Meanwhile(history: seq<Ref>, edits: map<Ref, Message>)

  function AfterThreads(s: Store, sid: Sid, meanwhile: Option<Meanwhile>): Store {
    if meanwhile.None? then s
    else s.(cache := s.cache[sid := Cached(meanwhile.value.history, |meanwhile.value.history|)],
            heap := s.heap + meanwhile.value.edits)
  }

  predicate MemoryIs(heap: map<Ref, Message>, refs: seq<Ref>, entries: seq<Entry>) {
    |refs| == |entries| && forall i :: 0 <= i < |refs| ==> refs[i] in heap && MessageEntry(heap[refs[i]]) == entries[i]
  }

  /** The expected snapshot is that of memory and of the rows read, and those rows are what the deletes find. */
  predicate Matches(c: Codec, s: Store, sid: Sid, expected: seq<Entry>, table: seq<Row>)
    requires sid in s.cache
  {
    && MemoryIs(s.heap, s.cache[sid].history, expected)
    && RowSnapshot(c, RowsOf(s, sid)) == Ok(expected)
    && ById(table) == ById(RowsOf(s, sid))
  }

  function Install(c: Codec, s: Store, sid: Sid, refs: seq<Ref>, ids: seq<RowId>, now: int): Store
    requires |ids| == |refs| && forall x :: x in refs ==> x in s.heap
  {
    s.(rows := s.rows[sid := NewRows(c, s.heap, refs, ids, now)],
       sessions := if sid !in s.sessions then s.sessions
                   else s.sessions[sid := s.sessions[sid].(count := |refs|, lastAccessed := Some(now))],
       heap := StampIds(s.heap, refs, ids),
       cache := s.cache[sid := Cached(refs, |refs|)])
  }

  /** The last check of memory, and the rows' parent: without one they violate the foreign key. */
  predicate MayCommit(s: Store, sid: Sid, refs: seq<Ref>, expected: Option<seq<Entry>>)
    requires sid in s.cache
  {
    && (expected.Some? ==> MemoryIs(s.heap, s.cache[sid].history, expected.value))
    && (refs == [] || sid in s.sessions)
  }

  /** The replacement of a session that has been fetched. */
  function Swap(c: Codec, g: Store, sid: Sid, refs: seq<Ref>, expected: Option<seq<Entry>>, ids: seq<RowId>, now: int,
                other: Option<Foreign>, meanwhile: Option<Meanwhile>): Answer
    requires sid in g.cache && |ids| == |refs| && forall x :: x in refs ==> x in g.heap
  {
    var o := AfterOthers(g, sid, other);
    var m := AfterThreads(o, sid, meanwhile);
    if expected.Some? && !Matches(c, g, sid, expected.value, RowsOf(o, sid)) then Answer(o, false)
    else if !MayCommit(m, sid, refs, expected) then Answer(m, false)
    else Answer(Install(c, m, sid, refs, ids, now), true)
  }

  function Replace(c: Codec, s: Store, sid: Sid, refs: seq<Ref>, expected: Option<seq<Entry>>, ids: seq<RowId>, now: int,
                   other: Option<Foreign>, meanwhile: Option<Meanwhile>): Result<Answer, Fault>
    requires |ids| == |refs| && forall x :: x in refs ==> x in s.heap
  {
    match Get(c, s, sid, now)
    case Err(e) => Err(e)
    case Ok(g) => Ok(Swap(c, g, sid, refs, expected, ids, now, other, meanwhile))
  }

  lemma MemoryIsIff(heap: map<Ref, Message>, refs: seq<Ref>, entries: seq<Entry>)
    requires forall x :: x in refs ==> x in heap
    ensures MemoryIs(heap, refs, entries) <==> entries == Snapshot(Deref(heap, refs))
  {
    var current := Snapshot(Deref(heap, refs));
    forall i | 0 <= i < |refs| ensures refs[i] in heap && current[i] == MessageEntry(heap[refs[i]]) {}
    if MemoryIs(heap, refs, entries) {
      assert forall i :: 0 <= i < |refs| ==> entries[i] == current[i];
    }
  }

  lemma SwapAnswersIff(c: Codec, g: Store, sid: Sid, refs: seq<Ref>, expected: seq<Entry>, ids: seq<RowId>,
                       now: int, other: Option<Foreign>, meanwhile: Option<Meanwhile>)
    requires sid in g.cache && sid in g.sessions && |ids| == |refs| && forall x :: x in refs ==> x in g.heap
    ensures Swap(c, g, sid, refs, Some(expected), ids, now, other, meanwhile).ok
            <==> && MemoryIs(g.heap, g.cache[sid].history, expected)
                 && RowSnapshot(c, RowsOf(g, sid)) == Ok(expected)
                 && (other.Some? ==> ById(other.value.rows) == ById(RowsOf(g, sid)))
                 && (meanwhile.Some? ==>
                       MemoryIs(g.heap + meanwhile.value.edits, meanwhile.value.history, expected))
  {
  }

  /** A row that another connection edits before the deletes, in its role, content or metadata, makes the swap fail. */
  lemma SwapSeesEdits(c: Codec, g: Store, sid: Sid, refs: seq<Ref>, expected: seq<Entry>, ids: seq<RowId>, now: int,
                      other: Foreign, meanwhile: Option<Meanwhile>, i: nat, j: nat)
    requires sid in g.cache && sid in g.sessions && |ids| == |refs| && forall x :: x in refs ==> x in g.heap
    requires DistinctIds(RowsOf(g, sid)) && DistinctIds(other.rows) && i < |RowsOf(g, sid)| && j < |other.rows|
    requires var before, after := RowsOf(g, sid)[i], other.rows[j];
             && before.id == after.id
             && (before.role != after.role || before.content != after.content || before.meta != after.meta)
    ensures !Swap(c, g, sid, refs, Some(expected), ids, now, Some(other), meanwhile).ok
  {
    ByIdAt(RowsOf(g, sid), i);
    ByIdAt(other.rows, j);
    SwapAnswersIff(c, g, sid, refs, expected, ids, now, Some(other), meanwhile);
  }

  /**
   In good books a replacement fails exactly when an expected snapshot is given that is not the current one, or another
   connection has changed, added or removed a row in the meantime, or another thread has changed the snapshot of memory.
   So with the current snapshot and no other writer the version checks never fail.
   */
  lemma ReplaceAnswersIff(c: Codec, s: Store, sid: Sid, refs: seq<Ref>, expected: Option<seq<Entry>>, ids: seq<RowId>,
                          now: int, other: Option<Foreign>, meanwhile: Option<Meanwhile>)
    requires Good(c, s) && sid in s.sessions && |ids| == |refs| && forall x :: x in refs ==> x in s.heap
    ensures Replace(c, s, sid, refs, expected, ids, now, other, meanwhile).Ok? && HydrateAll(c, RowsOf(s, sid)).Ok?
    ensures Replace(c, s, sid, refs, expected, ids, now, other, meanwhile).value.ok
            <==> (expected.Some? ==>
                    && expected.value == Snapshot(HydrateAll(c, RowsOf(s, sid)).value)
                    && (other.Some? ==> ById(other.value.rows) == ById(RowsOf(s, sid)))
                    && (meanwhile.Some? ==>
                          MemoryIs(Get(c, s, sid, now).value.heap + meanwhile.value.edits, meanwhile.value.history,
                                   expected.value)))
  {
    GetKeeps(c, s, sid, now);
    GetIsFreshLoad(c, s, sid, now);
    HydratedSnapshotAgrees(c, RowsOf(s, sid));
    var g := Get(c, s, sid, now).value;
    if expected.Some? {
      MemoryIsIff(g.heap, g.cache[sid].history, expected.value);
      SwapAnswersIff(c, g, sid, refs, expected.value, ids, now, other, meanwhile);
    }
  }

  lemma SwapAllOrNothing(c: Codec, g: Store, sid: Sid, refs: seq<Ref>, expected: Option<seq<Entry>>, ids: seq<RowId>,
                         now: int, other: Option<Foreign>, meanwhile: Option<Meanwhile>)
    requires sid in g.cache && sid in g.sessions && |ids| == |refs| && forall x :: x in refs ==> x in g.heap
    ensures var o := AfterOthers(g, sid, other);
            var m := AfterThreads(o, sid, meanwhile);
            var a := Swap(c, g, sid, refs, expected, ids, now, other, meanwhile);
            if a.ok then
              && RowsOf(a.store, sid) == NewRows(c, m.heap, refs, ids, now)
              && a.store.cache[sid] == Cached(refs, |refs|) && a.store.sessions[sid].count == |refs|
            else
              && RowsOf(a.store, sid) == (if other.Some? then other.value.rows else RowsOf(g, sid))
              && (other.Some? ==> a.store.sessions[sid].count == other.value.count)
              && (a.store == o || a.store == m)
  {
  }

  /** A replacement is all or nothing, whatever other connections and threads do while it runs. */
  lemma ReplaceAllOrNothing(c: Codec, s: Store, sid: Sid, refs: seq<Ref>, expected: Option<seq<Entry>>, ids: seq<RowId>,
                            now: int, other: Option<Foreign>, meanwhile: Option<Meanwhile>)
    requires Good(c, s) && sid in s.sessions && |ids| == |refs| && forall x :: x in refs ==> x in s.heap
    ensures Get(c, s, sid, now).Ok? && Replace(c, s, sid, refs, expected, ids, now, other, meanwhile).Ok?
    ensures var o := AfterOthers(Get(c, s, sid, now).value, sid, other);
            var m := AfterThreads(o, sid, meanwhile);
            var a := Replace(c, s, sid, refs, expected, ids, now, other, meanwhile).value;
            if a.ok then
              && RowsOf(a.store, sid) == NewRows(c, m.heap, refs, ids, now)
              && a.store.cache[sid] == Cached(refs, |refs|) && a.store.sessions[sid].count == |refs|
            else
              && RowsOf(a.store, sid) == (if other.Some? then other.value.rows else RowsOf(s, sid))
              && (other.Some? ==> a.store.sessions[sid].count == other.value.count)
              && (a.store == o || a.store == m)
  {
    GetKeeps(c, s, sid, now);
    SwapAllOrNothing(c, Get(c, s, sid, now).value, sid, refs, expected, ids, now, other, meanwhile);
  }

  lemma NewRowStores(c: Codec, heap: map<Ref, Message>, refs: seq<Ref>, ids: seq<RowId>, now: int, i: nat)
    requires Lawful(c) && |ids| == |refs| && (forall x :: x in refs ==> x in heap) && i < |refs|
    ensures var row, m := NewRows(c, heap, refs, ids, now)[i], heap[refs[i]];
            && row.id == ids[i] && row.stamp == now + i
            && (RoundTrips(c, m.content) ==> Hydrate(c, row) == Ok(AsGiven(m, ids[i], Some(c.iso(now + i)))))
  {
    ReplacementIsGiven(c, heap[refs[i]], ids[i], now + i);
  }

  lemma StampStores(c: Codec, heap: map<Ref, Message>, refs: seq<Ref>, ids: seq<RowId>, i: nat)
    requires Lawful(c) && |ids| == |refs| && NoDuplicates(refs) && (forall x :: x in refs ==> x in heap) && i < |refs|
    ensures StampIds(heap, refs, ids)[refs[i]] == AsGiven(heap[refs[i]], ids[i], None)
  {
    StampIdsLast(heap, refs, ids, i);
    ReplacementIsGiven(c, heap[refs[i]], ids[i], 0);
  }

  /**
   What a successful replacement leaves: a row for each message given, in order, stamped with the time and its place,
   with its new id, which loads as that message; and in memory each message as it was given, under that id.
   */
  lemma SwapStores(c: Codec, g: Store, sid: Sid, refs: seq<Ref>, expected: Option<seq<Entry>>, ids: seq<RowId>, now: int,
                   other: Option<Foreign>, meanwhile: Option<Meanwhile>, i: nat)
    requires Lawful(c) && sid in g.cache && sid in g.sessions && |ids| == |refs| && NoDuplicates(refs)
    requires (forall x :: x in refs ==> x in g.heap) && i < |refs|
    requires Swap(c, g, sid, refs, expected, ids, now, other, meanwhile).ok
    ensures var s' := Swap(c, g, sid, refs, expected, ids, now, other, meanwhile).store;
            var m := (if meanwhile.Some? then g.heap + meanwhile.value.edits else g.heap)[refs[i]];
            && |RowsOf(s', sid)| == |refs| && RowsOf(s', sid)[i].id == ids[i] && RowsOf(s', sid)[i].stamp == now + i
            && refs[i] in s'.heap && s'.heap[refs[i]] == AsGiven(m, ids[i], None)
            && (RoundTrips(c, m.content) ==> Hydrate(c, RowsOf(s', sid)[i]) == Ok(AsGiven(m, ids[i], Some(c.iso(now + i)))))
            && sid in s'.sessions && s'.sessions[sid].lastAccessed == Some(now)
  {
    var heap := if meanwhile.Some? then g.heap + meanwhile.value.edits else g.heap;
    NewRowStores(c, heap, refs, ids, now, i);
    StampStores(c, heap, refs, ids, i);
  }

  /** Without a session row there is nothing to replace messages of. */
  lemma OrphanReplaceIff(c: Codec, g: Store, sid: Sid, refs: seq<Ref>, ids: seq<RowId>, now: int)
    requires sid in g.cache && sid !in g.sessions && |ids| == |refs| && forall x :: x in refs ==> x in g.heap
    ensures Swap(c, g, sid, refs, None, ids, now, None, None).ok <==> refs == []
  {
  }

  lemma InstallApart(c: Codec, s: Store, sid: Sid, refs: seq<Ref>, ids: seq<RowId>, now: int, t: Sid)
    requires |ids| == |refs| && Owned(s, sid, refs) && (forall x :: x in refs ==> x in s.heap) && t != sid
    ensures Apart(s, Install(c, s, sid, refs, ids, now), t)
  {
    assert t in s.cache ==> Disjoint(s.cache[t].history, refs);
  }

  lemma NewRowsInOrder(c: Codec, heap: map<Ref, Message>, refs: seq<Ref>, ids: seq<RowId>, now: int)
    requires |ids| == |refs| && NoDuplicates(ids) && forall x :: x in refs ==> x in heap
    ensures InOrder(NewRows(c, heap, refs, ids, now)) && DistinctIds(NewRows(c, heap, refs, ids, now))
  {
  }

  lemma InstalledBookIff(c: Codec, s: Store, sid: Sid, refs: seq<Ref>, ids: seq<RowId>, now: int)
    requires Lawful(c) && sid in s.sessions && |ids| == |refs| && NoDuplicates(ids) && forall x :: x in refs ==> x in s.heap
    ensures Book(c, Install(c, s, sid, refs, ids, now), sid) <==> NoDuplicates(refs) && AllRoundTrip(c, s.heap, refs)
  {
    var s' := Install(c, s, sid, refs, ids, now);
    ReplacedMirrorsIff(c, s.heap, refs, ids, now);
    NewRowsInOrder(c, s.heap, refs, ids, now);
    assert RowsOf(s', sid) == NewRows(c, s.heap, refs, ids, now);
    assert Mirrors(c, RowsOf(s', sid), s'.heap, refs) ==> Readable(c, RowsOf(s', sid));
  }

  lemma InstallKeepsIff(c: Codec, s: Store, sid: Sid, refs: seq<Ref>, ids: seq<RowId>, now: int)
    requires Lawful(c) && Good(c, s) && sid in s.sessions && |ids| == |refs| && NoDuplicates(ids)
    requires Owned(s, sid, refs) && forall x :: x in refs ==> x in s.heap
    ensures Good(c, Install(c, s, sid, refs, ids, now)) <==> NoDuplicates(refs) && AllRoundTrip(c, s.heap, refs)
  {
    var s' := Install(c, s, sid, refs, ids, now);
    InstalledBookIff(c, s, sid, refs, ids, now);
    assert Good(c, s') ==> Book(c, s', sid);
    if NoDuplicates(refs) && AllRoundTrip(c, s.heap, refs) {
      forall t | t != sid ensures Apart(s, s', t) {
        InstallApart(c, s, sid, refs, ids, now, t);
      }
      KeepsIfApart(c, s, s', sid);
    }
  }

  /**
   A replacement that succeeds with no other writer leaves good books exactly when every content survives storage and
   no message object is listed twice.
   */
  lemma ReplaceKeepsIff(c: Codec, s: Store, sid: Sid, refs: seq<Ref>, expected: Option<seq<Entry>>, ids: seq<RowId>, now: int)
    requires Lawful(c) && Good(c, s) && sid in s.sessions && |ids| == |refs| && NoDuplicates(ids)
    requires Owned(s, sid, refs) && forall x :: x in refs ==> x in s.heap
    requires Replace(c, s, sid, refs, expected, ids, now, None, None).Ok?
    ensures var a := Replace(c, s, sid, refs, expected, ids, now, None, None).value;
            if a.ok then Good(c, a.store) <==> NoDuplicates(refs) && AllRoundTrip(c, s.heap, refs) else Good(c, a.store)
  {
    GetKeeps(c, s, sid, now);
    GetFrame(c, s, sid, now);
    var g := Get(c, s, sid, now).value;
    assert Owned(g, sid, refs) by {
      forall t | t in g.cache && t != sid ensures Disjoint(g.cache[t].history, refs) {
        assert Disjoint(s.cache[t].history, refs);
      }
    }
    assert AllRoundTrip(c, g.heap, refs) <==> AllRoundTrip(c, s.heap, refs) by {
      forall i | 0 <= i < |refs| ensures g.heap[refs[i]] == s.heap[refs[i]] {
        assert refs[i] in refs;
      }
    }
    InstallKeepsIff(c, g, sid, refs, ids, now);
  }

  // ---------------------------------------------------------------- cleanup_empty_sessions

  datatype Fate = Keep | Drop | Archive

  /** What the cleanup does with a session, given the two cutoffs it computed from the clock. */
  function FateOf(r: SessionRow, cutoff: int, minAge: int): Fate {
    if r.count == 0 then
      if r.study || (r.createdAt.Some? && r.createdAt.value > minAge) then Keep else Drop
    else if !r.archived && r.lastAccessed.Some? && r.lastAccessed.value < cutoff && !r.important then Archive
    else Keep
  }

  function Fated(s: Store, some: set<Sid>, fate: Fate, cutoff: int, minAge: int): set<Sid> {
    set sid | sid in some && sid in s.sessions && FateOf(s.sessions[sid], cutoff, minAge) == fate
  }

  /**
   The cleanup of some of the sessions.  Deleting a session row deletes its messages; updating one touches
   `last_accessed`.
   */
  function Sweep(s: Store, some: set<Sid>, now: int, cutoff: int, minAge: int): Store {
    var dropped, archived := Fated(s, some, Drop, cutoff, minAge), Fated(s, some, Archive, cutoff, minAge);
    s.(sessions := map sid | sid in s.sessions && sid !in dropped ::
           if sid in archived then s.sessions[sid].(archived := true, lastAccessed := Some(now)) else s.sessions[sid],
       rows := s.rows - dropped,
       cache := s.cache - dropped)
  }

  function Cleanup(s: Store, now: int, cutoff: int, minAge: int): Store {
    Sweep(s, s.sessions.Keys, now, cutoff, minAge)
  }

  lemma SweepNone(s: Store, now: int, cutoff: int, minAge: int)
    ensures Sweep(s, {}, now, cutoff, minAge) == s
  {
    var s' := Sweep(s, {}, now, cutoff, minAge);
    assert s'.sessions == s.sessions && s'.rows == s.rows && s'.cache == s.cache;
  }

  lemma FatedNext(s: Store, some: set<Sid>, sid: Sid, fate: Fate, cutoff: int, minAge: int)
    requires sid in s.sessions && sid !in some
    ensures sid !in Fated(s, some, fate, cutoff, minAge)
    ensures Fated(s, some + {sid}, fate, cutoff, minAge)
            == Fated(s, some, fate, cutoff, minAge) + (if FateOf(s.sessions[sid], cutoff, minAge) == fate then {sid} else {})
  {
  }

  /** The cleanup of one session. */
  function SweepOne(s: Store, sid: Sid, now: int, cutoff: int, minAge: int): Store {
    if sid !in s.sessions then s
    else
      match FateOf(s.sessions[sid], cutoff, minAge)
      case Keep => s
      case Drop => s.(sessions := s.sessions - {sid}, rows := s.rows - {sid}, cache := s.cache - {sid})
      case Archive => s.(sessions := s.sessions[sid := s.sessions[sid].(archived := true, lastAccessed := Some(now))])
  }

  /** The loop over the sessions as the query lists them. */
  function SweepAll(s: Store, order: seq<Sid>, now: int, cutoff: int, minAge: int): Store {
    if order == [] then s
    else SweepOne(SweepAll(s, order[..|order| - 1], now, cutoff, minAge), order[|order| - 1], now, cutoff, minAge)
  }

  function CountFate(s: Store, order: seq<Sid>, fate: Fate, cutoff: int, minAge: int): nat
    requires forall sid :: sid in order ==> sid in s.sessions
  {
    if order == [] then 0
    else
      CountFate(s, order[..|order| - 1], fate, cutoff, minAge)
      + if FateOf(s.sessions[order[|order| - 1]], cutoff, minAge) == fate then 1 else 0
  }

  lemma SweepNext(s: Store, some: set<Sid>, sid: Sid, now: int, cutoff: int, minAge: int)
    requires sid in s.sessions && sid !in some
    ensures var t := Sweep(s, some, now, cutoff, minAge);
            && sid in t.sessions && t.sessions[sid] == s.sessions[sid]
            && Sweep(s, some + {sid}, now, cutoff, minAge) == SweepOne(t, sid, now, cutoff, minAge)
  {
    FatedNext(s, some, sid, Drop, cutoff, minAge);
    FatedNext(s, some, sid, Archive, cutoff, minAge);
    var t, t' := Sweep(s, some, now, cutoff, minAge), Sweep(s, some + {sid}, now, cutoff, minAge);
    match FateOf(s.sessions[sid], cutoff, minAge)
    case Keep => assert t'.sessions == t.sessions && t'.rows == t.rows && t'.cache == t.cache;
    case Drop =>
      assert t'.sessions == t.sessions - {sid} && t'.rows == t.rows - {sid} && t'.cache == t.cache - {sid};
    case Archive =>
      assert t'.sessions == t.sessions[sid := t.sessions[sid].(archived := true, lastAccessed := Some(now))];
      assert t'.rows == t.rows && t'.cache == t.cache;
  }

  lemma ElementsNext<T(!new)>(order: seq<T>)
    requires NoDuplicates(order) && order != []
    ensures var n := |order| - 1;
            Elements(order) == Elements(order[..n]) + {order[n]} && order[n] !in Elements(order[..n]) && NoDuplicates(order[..n])
  {
  }

  /** Sweeping one session after the other, in any order, is the cleanup of them all. */
  lemma {:induction false} SweepAllIs(s: Store, order: seq<Sid>, now: int, cutoff: int, minAge: int)
    requires NoDuplicates(order) && forall sid :: sid in order ==> sid in s.sessions
    ensures SweepAll(s, order, now, cutoff, minAge) == Sweep(s, Elements(order), now, cutoff, minAge)
  {
    if order == [] {
      SweepNone(s, now, cutoff, minAge);
      assert Elements(order) == {};
    } else {
      var n := |order| - 1;
      ElementsNext(order);
      SweepAllIs(s, order[..n], now, cutoff, minAge);
      SweepNext(s, Elements(order[..n]), order[n], now, cutoff, minAge);
    }
  }

  /** A session not yet swept is still as it was. */
  lemma SweepAllLeaves(s: Store, order: seq<Sid>, sid: Sid, now: int, cutoff: int, minAge: int)
    requires sid in s.sessions && sid !in order
    ensures sid in SweepAll(s, order, now, cutoff, minAge).sessions
    ensures SweepAll(s, order, now, cutoff, minAge).sessions[sid] == s.sessions[sid]
  {
    if order != [] {
      SweepAllLeaves(s, order[..|order| - 1], sid, now, cutoff, minAge);
    }
  }

  lemma {:induction false} CountFateIs(s: Store, order: seq<Sid>, fate: Fate, cutoff: int, minAge: int)
    requires NoDuplicates(order) && forall sid :: sid in order ==> sid in s.sessions
    ensures CountFate(s, order, fate, cutoff, minAge) == |Fated(s, Elements(order), fate, cutoff, minAge)|
  {
    if order == [] {
      assert Fated(s, Elements(order), fate, cutoff, minAge) == {};
    } else {
      var n := |order| - 1;
      ElementsNext(order);
      CountFateIs(s, order[..n], fate, cutoff, minAge);
      FatedNext(s, Elements(order[..n]), order[n], fate, cutoff, minAge);
    }
  }

  /**
   Where every stored message_count is the row count, cleanup deletes no message; and never a Study session, nor an
   empty session younger than the minimum age.
   */
  lemma CleanupSpares(s: Store, now: int, cutoff: int, minAge: int, sid: Sid)
    requires sid in s.sessions && s.sessions[sid].count == |RowsOf(s, sid)|
    ensures RowsOf(Cleanup(s, now, cutoff, minAge), sid) == RowsOf(s, sid)
    ensures s.sessions[sid].study || (s.sessions[sid].createdAt.Some? && s.sessions[sid].createdAt.value > minAge)
            ==> sid in Cleanup(s, now, cutoff, minAge).sessions
  {
  }

  /**
   What cleanup does to a session, exactly: it deletes one with no messages that is neither for studying nor young, and
   archives one with messages that nobody marked as important or has accessed since the cutoff.
   */
  lemma CleanupIs(c: Codec, s: Store, now: int, cutoff: int, minAge: int, sid: Sid)
    requires Good(c, s) && sid in s.sessions
    ensures var s', r := Cleanup(s, now, cutoff, minAge), s.sessions[sid];
            && (sid !in s'.sessions <==>
                  RowsOf(s, sid) == [] && !r.study && (r.createdAt.Some? ==> r.createdAt.value <= minAge))
            && (sid !in s'.sessions ==> sid !in s'.cache && RowsOf(s', sid) == [])
            && (sid in s'.sessions ==>
                  && RowsOf(s', sid) == RowsOf(s, sid) && (sid in s'.cache <==> sid in s.cache)
                  && (s'.sessions[sid].archived <==>
                        r.archived || (RowsOf(s, sid) != [] && !r.important
                                       && r.lastAccessed.Some? && r.lastAccessed.value < cutoff))
                  && (s'.sessions[sid].archived == r.archived ==> s'.sessions[sid] == r))
  {
    assert Book(c, s, sid);
  }

  /** So a session read since the cutoff is not archived. */
  lemma ReadIsNotArchived(c: Codec, s: Store, sid: Sid, read: int, now: int, cutoff: int, minAge: int)
    requires Good(c, s) && sid in s.sessions && cutoff <= read
    ensures Get(c, s, sid, read).Ok?
    ensures var s' := Cleanup(Get(c, s, sid, read).value, now, cutoff, minAge);
            sid in s'.sessions ==> s'.sessions[sid].archived == s.sessions[sid].archived
  {
    GetKeeps(c, s, sid, read);
    GetTouches(c, s, sid, read);
    CleanupIs(c, Get(c, s, sid, read).value, now, cutoff, minAge, sid);
  }

  /** A second cleanup at the same reading of the clock has nothing to do. */
  lemma CleanupTwice(s: Store, now: int, cutoff: int, minAge: int)
    ensures var s' := Cleanup(s, now, cutoff, minAge);
            (forall sid :: sid in s'.sessions ==> FateOf(s'.sessions[sid], cutoff, minAge).Keep?)
    ensures Cleanup(Cleanup(s, now, cutoff, minAge), now, cutoff, minAge) == Cleanup(s, now, cutoff, minAge)
  {
    var s' := Cleanup(s, now, cutoff, minAge);
    var s'' := Cleanup(s', now, cutoff, minAge);
    assert s''.sessions == s'.sessions && s''.rows == s'.rows && s''.cache == s'.cache;
  }

  lemma CleanupKeeps(c: Codec, s: Store, now: int, cutoff: int, minAge: int)
    requires Good(c, s)
    ensures Good(c, Cleanup(s, now, cutoff, minAge))
  {
    var s' := Cleanup(s, now, cutoff, minAge);
    forall sid ensures Book(c, s', sid) {
      assert Book(c, s, sid);
    }
  }

  // ---------------------------------------------------------------- runs

  datatype Op =
    | OpNew(message: Message)
    | OpCreate(sid: Sid, study: bool, now: int)
    | OpGet(sid: Sid, now: int)
    | OpAdd(sid: Sid, ref: Ref, id: RowId, now: int)
    | OpTruncate(sid: Sid, keep: int, now: int)
    | OpReplace(sid: Sid, refs: seq<Ref>, expected: Option<seq<Entry>>, ids: seq<RowId>, now: int)
    | OpDelete(sid: Sid)
    | OpCleanup(now: int, cutoff: int, minAge: int)
    | OpRestart(recent: set<Sid>)

  /** The message objects named exist, and each replacement row gets an id. */
  predicate Possible(s: Store, op: Op) {
    match op
    case OpAdd(_, ref, _, _) => ref in s.heap
    case OpReplace(_, refs, _, ids, _) => |ids| == |refs| && forall x :: x in refs ==> x in s.heap
    case _ => true
  }

  function NewObject(s: Store, m: Message): Store {
    s.(heap := s.heap[s.next := m], next := s.next + 1)
  }

  function After(s: Store, r: Result<Store, Fault>): Store {
    if r.Ok? then r.value else s
  }

  function AfterAnswer(s: Store, r: Result<Answer, Fault>): Store {
    if r.Ok? then r.value.store else s
  }

  /** A raised exception changes nothing. */
  function Apply(c: Codec, s: Store, op: Op): Store
    requires Possible(s, op)
  {
    match op
    case OpNew(m) => NewObject(s, m)
    case OpCreate(sid, study, now) => After(s, Create(s, sid, study, now))
    case OpGet(sid, now) => After(s, Get(c, s, sid, now))
    case OpAdd(sid, ref, id, now) => After(s, Add(c, s, sid, ref, id, now))
    case OpTruncate(sid, keep, now) => AfterAnswer(s, Truncate(c, s, sid, keep, now))
    case OpReplace(sid, refs, expected, ids, now) => AfterAnswer(s, Replace(c, s, sid, refs, expected, ids, now, None, None))
    case OpDelete(sid) => Delete(s, sid).store
    case OpCleanup(now, cutoff, minAge) => Cleanup(s, now, cutoff, minAge)
    case OpRestart(recent) => Restart(s, recent)
  }

  /**
   What the callers provide: contents that survive storage, message objects that belong to no other session and are
   not in a history twice, new row ids, and a clock that moves on.
   */
  ghost predicate Admissible(c: Codec, s: Store, op: Op)
    requires Possible(s, op)
  {
    match op
    case OpAdd(sid, ref, id, now) =>
      && Owned(s, sid, [ref]) && (sid in s.cache ==> ref !in s.cache[sid].history) && RoundTrips(c, s.heap[ref].content)
      && Later(RowsOf(s, sid), now) && FreshId(RowsOf(s, sid), id)
    case OpReplace(sid, refs, _, ids, _) =>
      Owned(s, sid, refs) && NoDuplicates(refs) && NoDuplicates(ids) && AllRoundTrip(c, s.heap, refs)
    case _ => true
  }

  ghost predicate IsStep(c: Codec, s: Store, op: Op, s': Store) {
    Possible(s, op) && Admissible(c, s, op) && s' == Apply(c, s, op)
  }

  ghost predicate IsRun(c: Codec, trace: seq<Store>, ops: seq<Op>) {
    |trace| == |ops| + 1 && forall i :: 0 <= i < |ops| ==> StepAt(c, trace, ops, i)
  }

  ghost predicate StepAt(c: Codec, trace: seq<Store>, ops: seq<Op>, i: nat)
    requires i < |ops| && |trace| == |ops| + 1
  {
    IsStep(c, trace[i], ops[i], trace[i + 1])
  }

  lemma EmptyStoreGood(c: Codec)
    ensures Good(c, Store(map[], map[], map[], map[], 0))
  {
  }

  lemma NewObjectKeeps(c: Codec, s: Store, m: Message)
    requires Good(c, s)
    ensures Good(c, NewObject(s, m))
  {
    forall t ensures Book(c, NewObject(s, m), t) {
      assert Book(c, s, t);
    }
  }

  lemma StepKeepsGood(c: Codec, s: Store, op: Op)
    requires Lawful(c) && Good(c, s) && Possible(s, op) && Admissible(c, s, op)
    ensures Good(c, Apply(c, s, op))
  {
    match op
    case OpNew(m) => NewObjectKeeps(c, s, m);
    case OpCreate(sid, study, now) => if Create(s, sid, study, now).Ok? { CreateKeeps(c, s, sid, study, now); }
    case OpGet(sid, now) => GetKeeps(c, s, sid, now);
    case OpAdd(sid, ref, id, now) =>
      GetKeeps(c, s, sid, now);
      if sid in s.sessions { AddKeepsIff(c, s, sid, ref, id, now); }
    case OpTruncate(sid, keep, now) =>
      GetKeeps(c, s, sid, now);
      if sid in s.sessions { TruncateKeeps(c, s, sid, keep, now); }
    case OpReplace(sid, refs, expected, ids, now) =>
      GetKeeps(c, s, sid, now);
      if sid in s.sessions { ReplaceKeepsIff(c, s, sid, refs, expected, ids, now); }
    case OpDelete(sid) => DeleteKeeps(c, s, sid);
    case OpCleanup(now, cutoff, minAge) => CleanupKeeps(c, s, now, cutoff, minAge);
    case OpRestart(recent) => RestartKeeps(c, s, recent);
  }

  /**
   Over every sequential run: each cached history is unhydrated with a positive count or mirrors its rows in order,
   every stored message_count is its row count, and every row has a parent session.
   */
  lemma {:induction false} RunKeepsGood(c: Codec, trace: seq<Store>, ops: seq<Op>, n: nat)
    requires Lawful(c) && IsRun(c, trace, ops) && Good(c, trace[0]) && n <= |ops|
    ensures Good(c, trace[n])
  {
    if n > 0 {
      RunKeepsGood(c, trace, ops, n - 1);
      assert StepAt(c, trace, ops, n - 1);
      StepKeepsGood(c, trace[n - 1], ops[n - 1]);
    }
  }
}
