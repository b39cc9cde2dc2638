/**
 The concurrent append protocol of one cached chat session: any number of `add_message` calls, which touch the
 in-memory list before they take the session's history lock, against any number of whole-history replacements,
 which hold that lock throughout.

 One action below is one indivisible effect of a thread.  Lists and messages have identities, because the code
 repairs by object identity and because a thread may still append to a list object that is no longer the history.
 */
module HistoryProtocol {
  import opened Options

  type Msg = nat     // identity of a ChatMessage object
  type ListId = nat  // identity of a list object
  type Tid = nat

  /** The ids part of a history snapshot: one entry per message, None for a message without `_db_id`. */
  type Ids = seq<Option<nat>>

  datatype AddPc =
    | Begin                  // called, nothing done
    | Fetched(list: ListId)  // evaluated `session.history`, not yet appended
    | Appended               // appended to that list object
    | AliasHeld(list: ListId) // SessionManager.add_message only: evaluated the right side of `_history = history`
    | Waiting                // about to take the history lock
    | Holding                // inside `_persist_message_locked`
    | Repaired               // the message is in the cached history
    | Counted(n: nat)        // evaluated the new stored message_count
    | Added                  // row committed, lock released

  datatype ReplacePc =
    | Called
    | Locked
    | MemoryMatched
    | RowsMatched
    | Rechecked
    | Committed              // rows replaced, `session.history` not yet assigned
    | Returned(ok: bool)

  datatype Thread =
    | Adder(msg: Msg, viaManager: bool, apc: AddPc)
    | Replacer(messages: seq<Msg>, expected: Option<Ids>, rpc: ReplacePc)

  /** What a commit did, in commit order. */
  datatype Commit = AddOne(msg: Msg) | ReplaceAll(messages: seq<Msg>)

  datatype State = State(
    lists: map<ListId, seq<Msg>>,
    cur: ListId,               // the list object `session.history` refers to
    ids: map<Msg, nat>,        // metadata["_db_id"] of the messages that have one
    rows: seq<Msg>,            // stored rows in timestamp order: the message each was written from
    rowIds: seq<nat>,          // their primary keys
    count: nat,                // stored message_count
    nextId: nat,
    lock: Option<Tid>,
    threads: map<Tid, Thread>,
    used: set<Msg>,            // every message object seen so far
    inFlight: map<Msg, Tid>,   // the pending adds: a message whose row is not committed, and its call
    base: seq<Msg>,            // the history at the start
    log: seq<Commit>
  )

  datatype Action =
    | StartAdd(t: Tid, msg: Msg, viaManager: bool)
    | StartReplace(t: Tid, messages: seq<Msg>, expected: Option<Ids>)
    | Fetch(t: Tid)
    | Append(t: Tid)
    | AliasRead(t: Tid)
    | AliasWrite(t: Tid)
    | Acquire(t: Tid)
    | Repair(t: Tid)
    | CountMemory(t: Tid)
    | CommitRow(t: Tid)
    | CheckMemory(t: Tid)
    | CheckRows(t: Tid)
    | RecheckMemory(t: Tid)
    | CommitRows(t: Tid)
    | Install(t: Tid)

  // ---------------------------------------------------------------- reading a state

  ghost function Memory(s: State): seq<Msg>
    requires s.cur in s.lists
  {
    s.lists[s.cur]
  }

  /** How often a message object occurs in a list. */
  ghost function Occurs(l: seq<Msg>, x: Msg): nat {
    multiset(l)[x]
  }

  ghost predicate IsPending(th: Thread) {
    th.Adder? && th.apc != Added
  }

  ghost predicate Unfinished(th: Thread) {
    if th.Adder? then th.apc != Added else !th.rpc.Returned?
  }

  ghost predicate Quiescent(s: State) {
    forall t :: t in s.threads ==> !Unfinished(s.threads[t])
  }

  ghost predicate HoldsLock(th: Thread) {
    if th.Adder? then th.apc.Holding? || th.apc.Repaired? || th.apc.Counted?
    else !th.rpc.Called? && !th.rpc.Returned?
  }

  /** A replacement has committed its rows and not yet assigned `session.history`. */
  ghost predicate Installing(s: State) {
    s.lock.Some? && s.lock.value in s.threads && InstallPending(s.threads[s.lock.value])
  }

  ghost predicate InstallPending(th: Thread) {
    th.Replacer? && th.rpc == Committed
  }

  ghost function IdOf(ids: map<Msg, nat>, m: Msg): Option<nat> {
    if m in ids then Some(ids[m]) else None
  }

  ghost function MemoryIds(s: State): (r: Ids)
    requires s.cur in s.lists
    ensures |r| == |Memory(s)|
    ensures forall i :: 0 <= i < |r| ==> r[i] == IdOf(s.ids, Memory(s)[i])
  {
    seq(|Memory(s)|, i requires 0 <= i < |Memory(s)| => IdOf(s.ids, Memory(s)[i]))
  }

  ghost function RowIds(s: State): (r: Ids)
    ensures |r| == |s.rowIds|
    ensures forall i :: 0 <= i < |r| ==> r[i] == Some(s.rowIds[i])
  {
    seq(|s.rowIds|, i requires 0 <= i < |s.rowIds| => Some(s.rowIds[i]))
  }

  // ---------------------------------------------------------------- the steps

  ghost predicate AdderAt(s: State, t: Tid, apc: AddPc) {
    t in s.threads && s.threads[t].Adder? && s.threads[t].apc == apc
  }

  ghost predicate ReplacerAt(s: State, t: Tid, rpc: ReplacePc) {
    t in s.threads && s.threads[t].Replacer? && s.threads[t].rpc == rpc
  }

  ghost predicate SwapperAt(s: State, t: Tid, rpc: ReplacePc) {
    ReplacerAt(s, t, rpc) && s.threads[t].expected.Some?
  }

  ghost function Advance(s: State, t: Tid, apc: AddPc): State
    requires t in s.threads && s.threads[t].Adder?
  {
    s.(threads := s.threads[t := s.threads[t].(apc := apc)])
  }

  ghost function Move(s: State, t: Tid, rpc: ReplacePc): State
    requires t in s.threads && s.threads[t].Replacer?
  {
    s.(threads := s.threads[t := s.threads[t].(rpc := rpc)])
  }

  ghost function AfterStartAdd(s: State, t: Tid, m: Msg, viaManager: bool): State {
    s.(threads := s.threads[t := Adder(m, viaManager, Begin)], used := s.used + {m}, inFlight := s.inFlight[m := t])
  }

  ghost function AfterStartReplace(s: State, t: Tid, ms: seq<Msg>, expected: Option<Ids>): State {
    s.(threads := s.threads[t := Replacer(ms, expected, Called)], used := s.used + (set m | m in ms))
  }

  ghost predicate CanAppend(s: State, t: Tid) {
    t in s.threads && s.threads[t].Adder? && s.threads[t].apc.Fetched? && s.threads[t].apc.list in s.lists
  }

  ghost function AfterAppend(s: State, t: Tid): State
    requires CanAppend(s, t)
  {
    var l := s.threads[t].apc.list;
    Advance(s, t, Appended).(lists := s.lists[l := s.lists[l] + [s.threads[t].msg]])
  }

  ghost predicate CanAliasWrite(s: State, t: Tid) {
    t in s.threads && s.threads[t].Adder? && s.threads[t].apc.AliasHeld? && s.threads[t].apc.list in s.lists
  }

  ghost function AfterAliasWrite(s: State, t: Tid): State
    requires CanAliasWrite(s, t)
  {
    Advance(s, t, Waiting).(cur := s.threads[t].apc.list)
  }

  ghost predicate CanAcquire(s: State, t: Tid) {
    && s.lock == None
    && (AdderAt(s, t, Waiting) || (AdderAt(s, t, Appended) && !s.threads[t].viaManager) || ReplacerAt(s, t, Called))
  }

  ghost function AfterAcquire(s: State, t: Tid): State
    requires CanAcquire(s, t)
  {
    (if s.threads[t].Adder? then Advance(s, t, Holding) else Move(s, t, Locked)).(lock := Some(t))
  }

  /** The repair: a message that is not in the cached history, by identity, is appended to it. */
  ghost function AfterRepair(s: State, t: Tid): State
    requires s.cur in s.lists && AdderAt(s, t, Holding)
  {
    var m := s.threads[t].msg;
    if m in Memory(s) then Advance(s, t, Repaired)
    else Advance(s, t, Repaired).(lists := s.lists[s.cur := Memory(s) + [m]])
  }

  ghost predicate CanCommitRow(s: State, t: Tid) {
    t in s.threads && s.threads[t].Adder? && s.threads[t].apc.Counted?
  }

  ghost function AfterCommitRow(s: State, t: Tid): State
    requires CanCommitRow(s, t)
  {
    var th := s.threads[t];
    Advance(s, t, Added).(rows := s.rows + [th.msg], rowIds := s.rowIds + [s.nextId], nextId := s.nextId + 1,
                          count := th.apc.n, ids := s.ids[th.msg := s.nextId], lock := None,
                          log := s.log + [AddOne(th.msg)], inFlight := s.inFlight - {th.msg})
  }

  /** One check of a compare-and-swap: go on when `actual` is the expected snapshot, else release and return False. */
  ghost function AfterCheck(s: State, t: Tid, actual: Ids, next: ReplacePc): State
    requires t in s.threads && s.threads[t].Replacer? && s.threads[t].expected.Some?
  {
    if actual == s.threads[t].expected.value then Move(s, t, next)
    else Move(s, t, Returned(false)).(lock := None)
  }

  ghost predicate CanCommitRows(s: State, t: Tid) {
    SwapperAt(s, t, Rechecked) || (ReplacerAt(s, t, Locked) && s.threads[t].expected.None?)
  }

  ghost function AfterCommitRows(s: State, t: Tid): State
    requires CanCommitRows(s, t)
  {
    var ms := s.threads[t].messages;
    Move(s, t, Committed).(rows := ms, rowIds := NewIds(s.nextId, |ms|), nextId := s.nextId + |ms|,
                           count := |ms|, ids := Stamp(s.ids, ms, s.nextId), log := s.log + [ReplaceAll(ms)])
  }

  ghost function NewIds(first: nat, n: nat): (r: seq<nat>)
    ensures |r| == n && forall i :: 0 <= i < n ==> r[i] == first + i
  {
    seq(n, i => first + i)
  }

  /** `message.metadata["_db_id"] = id` for each message in turn. */
  ghost function Stamp(ids: map<Msg, nat>, ms: seq<Msg>, first: nat): (r: map<Msg, nat>)
    ensures r.Keys == ids.Keys + (set m | m in ms)
  {
    if ms == [] then ids
    else Stamp(ids, ms[..|ms| - 1], first)[ms[|ms| - 1] := first + |ms| - 1]
  }

  /** `session.history = list(messages)`: a list object not seen before. */
  ghost function AfterInstall(s: State, t: Tid): State
    requires ReplacerAt(s, t, Committed)
  {
    var l := Above(s.lists.Keys);
    Move(s, t, Returned(true)).(lists := s.lists[l := s.threads[t].messages], cur := l, lock := None)
  }

  ghost function Above(ks: set<nat>): (n: nat)
    ensures forall k :: k in ks ==> k < n
  {
    if ks == {} then 0
    else
      var k :| k in ks;
      var n := Above(ks - {k});
      assert ks == (ks - {k}) + {k};
      if n > k then n else k + 1
  }

  ghost predicate Enabled(s: State, a: Action) {
    && s.cur in s.lists
    && match a
       case StartAdd(t, m, _) => t !in s.threads && m !in s.used
       case StartReplace(t, _, _) => t !in s.threads
       case Fetch(t) => AdderAt(s, t, Begin)
       case Append(t) => CanAppend(s, t)
       case AliasRead(t) => AdderAt(s, t, Appended) && s.threads[t].viaManager
       case AliasWrite(t) => CanAliasWrite(s, t)
       case Acquire(t) => CanAcquire(s, t)
       case Repair(t) => AdderAt(s, t, Holding)
       case CountMemory(t) => AdderAt(s, t, Repaired)
       case CommitRow(t) => CanCommitRow(s, t)
       case CheckMemory(t) => SwapperAt(s, t, Locked)
       case CheckRows(t) => SwapperAt(s, t, MemoryMatched)
       case RecheckMemory(t) => SwapperAt(s, t, RowsMatched)
       case CommitRows(t) => CanCommitRows(s, t)
       case Install(t) => ReplacerAt(s, t, Committed)
  }

  ghost function Do(s: State, a: Action): State
    requires Enabled(s, a)
  {
    match a
    case StartAdd(t, m, viaManager) => AfterStartAdd(s, t, m, viaManager)
    case StartReplace(t, ms, expected) => AfterStartReplace(s, t, ms, expected)
    case Fetch(t) => Advance(s, t, Fetched(s.cur))
    case Append(t) => AfterAppend(s, t)
    case AliasRead(t) => Advance(s, t, AliasHeld(s.cur))
    case AliasWrite(t) => AfterAliasWrite(s, t)
    case Acquire(t) => AfterAcquire(s, t)
    case Repair(t) => AfterRepair(s, t)
    case CountMemory(t) => Advance(s, t, Counted(|Memory(s)|))
    case CommitRow(t) => AfterCommitRow(s, t)
    case CheckMemory(t) => AfterCheck(s, t, MemoryIds(s), MemoryMatched)
    case CheckRows(t) => AfterCheck(s, t, RowIds(s), RowsMatched)
    case RecheckMemory(t) => AfterCheck(s, t, MemoryIds(s), Rechecked)
    case CommitRows(t) => AfterCommitRows(s, t)
    case Install(t) => AfterInstall(s, t)
  }

  // ---------------------------------------------------------------- runs

  /** A hydrated session with no call in flight: memory, rows and message_count agree. */
  ghost predicate Init(s: State) {
    && s.cur in s.lists && s.lists == map[s.cur := s.base]
    && s.rows == s.base && |s.rowIds| == |s.rows| == s.count
    && s.ids.Keys == (set m | m in s.base)
    && s.lock == None && s.threads == map[] && s.log == [] && s.inFlight == map[]
    && s.used == (set m | m in s.base)
    && RowIdsBooked(s)
  }

  ghost predicate IsLast(l: seq<Msg>, i: nat)
    requires i < |l|
  {
    forall j :: i < j < |l| ==> l[j] != l[i]
  }

  /** Row ids are distinct, and a message carries the id of its row, or of the last of its rows. */
  ghost predicate RowIdsBooked(s: State) {
    IdsBooked(s.ids, s.rows, s.rowIds, s.nextId)
  }

  ghost predicate CarriesId(ids: map<Msg, nat>, rows: seq<Msg>, rowIds: seq<nat>, i: nat)
    requires i < |rows| == |rowIds|
  {
    IsLast(rows, i) ==> IdOf(ids, rows[i]) == Some(rowIds[i])
  }

  ghost predicate IdsBooked(ids: map<Msg, nat>, rows: seq<Msg>, rowIds: seq<nat>, nextId: nat) {
    && |rowIds| == |rows|
    && (forall i: nat :: i < |rows| ==> CarriesId(ids, rows, rowIds, i))
    && (forall i :: 0 <= i < |rowIds| ==> rowIds[i] < nextId)
    && (forall i, j :: 0 <= i < j < |rowIds| ==> rowIds[i] != rowIds[j])
  }

  /**
   What a caller must respect for memory and rows to stay in agreement.  The list that `SessionManager.add_message`
   writes back agrees with the rows by then, and a replacement installs no list that names a message in flight whose
   add has already fetched the history.  A compare-and-swap sees to the latter itself (`GuardedSwapInstallsCleanly`).
   */
  ghost predicate Clean(s: State, a: Action)
    requires Enabled(s, a)
  {
    match a
    case AliasWrite(t) => WritesBack(Contents, s, t)
    case Install(t) => InstallsCleanly(s, t)
    case _ => true
  }

  ghost predicate AboutToCommit(th: Thread) {
    th.Adder? && (th.apc.Repaired? || th.apc.Counted?)
  }

  /** What an add in flight will still do to the history. */
  datatype Stage =
    | ToAppend   // append its message: it has not fetched the history, or has fetched the list that is the history
    | ToRepair   // append its message if it is not there
    | InPlace    // nothing

  /** What the books of memory and rows come down to. */
  datatype View = View(memory: seq<Msg>, rows: seq<Msg>, pending: map<Msg, Stage>, installing: bool)

  ghost function StageOf(th: Thread, history: ListId): Stage {
    if th.Replacer? then InPlace
    else
      match th.apc
      case Begin => ToAppend
      case Fetched(list) => if list == history then ToAppend else ToRepair
      case Repaired => InPlace
      case Counted(_) => InPlace
      case _ => ToRepair
  }

  ghost function Stages(s: State, history: ListId): map<Msg, Stage> {
    map x | x in s.inFlight && s.inFlight[x] in s.threads :: StageOf(s.threads[s.inFlight[x]], history)
  }

  /** The books as they are when `history` is the history. */
  ghost function ViewAt(s: State, history: ListId): View
    requires history in s.lists
  {
    View(s.lists[history], s.rows, Stages(s, history), Installing(s))
  }

  ghost function ViewOf(s: State): View
    requires s.cur in s.lists
  {
    ViewAt(s, s.cur)
  }

  /** Memory and rows may agree in what they hold, or only in how much. */
  datatype Aspect = Contents | Size

  /** One message: how often memory and rows must hold it for them to agree once its add, if there is one, is done. */
  ghost predicate Matches(v: View, x: Msg) {
    if x !in v.pending || v.pending[x] == ToAppend then Occurs(v.memory, x) == Occurs(v.rows, x)
    else if v.pending[x] == ToRepair && x !in v.memory then Occurs(v.rows, x) == 0
    else Occurs(v.memory, x) == Occurs(v.rows, x) + 1
  }

  /** The messages in flight that will still be appended to the history. */
  ghost function Awaited(v: View): set<Msg> {
    set x | x in v.pending && (v.pending[x] == ToAppend || (v.pending[x] == ToRepair && x !in v.memory))
  }

  /** Memory and rows will agree if nothing but the adds in flight happens. */
  ghost predicate Agrees(aspect: Aspect, v: View) {
    || v.installing
    || match aspect
       case Contents => forall x :: Matches(v, x)
       case Size => |v.memory| + |Awaited(v)| == |v.rows| + |v.pending|
  }

  /** The list that `t` writes back agrees with the rows. */
  ghost predicate WritesBack(aspect: Aspect, s: State, t: Tid)
    requires CanAliasWrite(s, t)
  {
    Agrees(aspect, ViewAt(s, s.threads[t].apc.list))
  }

  /** Every message in flight that the replacement names has an add that has not fetched the history yet. */
  ghost predicate InstallsCleanly(s: State, t: Tid)
    requires t in s.threads && s.threads[t].Replacer?
  {
    forall m :: m in s.threads[t].messages && m in s.inFlight ==> AdderAt(s, s.inFlight[m], Begin)
  }

  /** The list written back is the history itself. */
  ghost predicate WritesBackHistory(s: State, t: Tid) {
    AdderAt(s, t, AliasHeld(s.cur))
  }

  ghost predicate NamesNoPending(s: State, ms: seq<Msg>) {
    forall m :: m in ms ==> m !in s.inFlight
  }

  /** The states passed through: `trace` starts in `s`, and each action leads from one state to the next. */
  ghost predicate IsRun(trace: seq<State>, actions: seq<Action>) {
    && |trace| == |actions| + 1
    && forall i :: 0 <= i < |actions| ==> StepAt(trace, actions, i)
  }

  ghost predicate StepAt(trace: seq<State>, actions: seq<Action>, i: nat)
    requires i < |actions| && |trace| == |actions| + 1
  {
    IsStep(trace[i], actions[i], trace[i + 1])
  }

  ghost predicate IsStep(s: State, a: Action, s': State) {
    Enabled(s, a) && s' == Do(s, a)
  }

  ghost predicate IsCleanStep(s: State, a: Action, s': State) {
    IsStep(s, a, s') && Clean(s, a)
  }

  ghost predicate IsCleanRun(trace: seq<State>, actions: seq<Action>) {
    && |trace| == |actions| + 1
    && forall i :: 0 <= i < |actions| ==> CleanStepAt(trace, actions, i)
  }

  ghost predicate CleanStepAt(trace: seq<State>, actions: seq<Action>, i: nat)
    requires i < |actions| && |trace| == |actions| + 1
  {
    IsCleanStep(trace[i], actions[i], trace[i + 1])
  }

  lemma RunExtends(trace: seq<State>, actions: seq<Action>, a: Action, s': State)
    requires IsRun(trace, actions) && IsStep(trace[|actions|], a, s')
    ensures IsRun(trace + [s'], actions + [a])
  {
    forall i: nat | i <= |actions| ensures StepAt(trace + [s'], actions + [a], i) {
      assert i < |actions| ==> StepAt(trace, actions, i);
    }
  }

  /** The sequential specification: the history after the commits of `log`, one at a time. */
  ghost function Replay(base: seq<Msg>, log: seq<Commit>): seq<Msg> {
    if log == [] then base
    else
      match log[|log| - 1]
      case AddOne(m) => Replay(base, log[..|log| - 1]) + [m]
      case ReplaceAll(ms) => ms
  }

  // ---------------------------------------------------------------- what every run keeps

  ghost predicate AddsOnce(log: seq<Commit>) {
    forall i, j | 0 <= i < j < |log| && log[i].AddOne? && log[j].AddOne? :: log[i] != log[j]
  }

  ghost predicate MsgBooked(s: State, x: Msg) {
    && (x in s.inFlight ==>
          && s.inFlight[x] in s.threads && IsPending(s.threads[s.inFlight[x]]) && s.threads[s.inFlight[x]].msg == x
          && x in s.used)
    && (x !in s.used ==> AddOne(x) !in s.log)
  }

  /** An add is in flight until it has committed, and has committed when it is done. */
  ghost predicate Booked(s: State, t: Tid)
    requires t in s.threads
  {
    match s.threads[t]
    case Adder(msg, _, apc) =>
      && msg in s.used
      && (if apc == Added then msg !in s.inFlight && AddOne(msg) in s.log
          else msg in s.inFlight && s.inFlight[msg] == t && AddOne(msg) !in s.log)
    case Replacer(ms, _, _) => forall m :: m in ms ==> m in s.used
  }

  ghost predicate Books(s: State) {
    && s.rows == Replay(s.base, s.log) && AddsOnce(s.log)
    && (forall x :: MsgBooked(s, x))
    && (forall t :: t in s.threads ==> Booked(s, t))
  }

  /** A step of thread `t` that commits nothing and starts nothing. */
  ghost predicate IsQuiet(s: State, s': State, t: Tid) {
    && t in s.threads && t in s'.threads && s'.threads == s.threads[t := s'.threads[t]]
    && s'.rows == s.rows && s'.base == s.base && s'.log == s.log && s'.used == s.used && s'.inFlight == s.inFlight
    && s'.ids == s.ids
    && match s.threads[t]
       case Adder(msg, _, apc) => s'.threads[t].Adder? && s'.threads[t].msg == msg && apc != Added && s'.threads[t].apc != Added
       case Replacer(ms, _, _) => s'.threads[t].Replacer? && s'.threads[t].messages == ms
  }

  lemma QuietKeepsBooks(s: State, s': State, t: Tid)
    requires Books(s) && IsQuiet(s, s', t)
    ensures Books(s')
  {
    assert Booked(s, t);
    forall x ensures MsgBooked(s', x) { assert MsgBooked(s, x); }
    forall u | u in s'.threads ensures Booked(s', u) { assert Booked(s, u); }
  }

  lemma StartAddKeepsBooks(s: State, t: Tid, m: Msg, viaManager: bool)
    requires Books(s) && t !in s.threads && m !in s.used
    ensures Books(AfterStartAdd(s, t, m, viaManager))
  {
    var s' := AfterStartAdd(s, t, m, viaManager);
    assert MsgBooked(s, m);
    forall x ensures MsgBooked(s', x) { assert MsgBooked(s, x); }
    forall u | u in s'.threads ensures Booked(s', u) { if u != t { assert Booked(s, u); } }
  }

  lemma StartReplaceKeepsBooks(s: State, t: Tid, ms: seq<Msg>, expected: Option<Ids>)
    requires Books(s) && t !in s.threads
    ensures Books(AfterStartReplace(s, t, ms, expected))
  {
    var s' := AfterStartReplace(s, t, ms, expected);
    forall x ensures MsgBooked(s', x) { assert MsgBooked(s, x); }
    forall u | u in s'.threads ensures Booked(s', u) { if u != t { assert Booked(s, u); } }
  }

  lemma AddAppended(base: seq<Msg>, log: seq<Commit>, m: Msg)
    requires AddsOnce(log) && AddOne(m) !in log
    ensures AddsOnce(log + [AddOne(m)]) && Replay(base, log + [AddOne(m)]) == Replay(base, log) + [m]
  {
    assert (log + [AddOne(m)])[..|log|] == log;
  }

  lemma CommitRowKeepsBooks(s: State, t: Tid)
    requires Books(s) && CanCommitRow(s, t)
    ensures Books(AfterCommitRow(s, t))
  {
    var s' := AfterCommitRow(s, t);
    assert Booked(s, t);
    AddAppended(s.base, s.log, s.threads[t].msg);
    forall x ensures MsgBooked(s', x) { assert MsgBooked(s, x); }
    forall u | u in s'.threads ensures Booked(s', u) { assert Booked(s, u); }
  }

  lemma CommitRowsKeepsBooks(s: State, t: Tid)
    requires Books(s) && CanCommitRows(s, t)
    ensures Books(AfterCommitRows(s, t))
  {
    var s' := AfterCommitRows(s, t);
    forall x ensures MsgBooked(s', x) { assert MsgBooked(s, x); }
    forall u | u in s'.threads ensures Booked(s', u) { assert Booked(s, u); }
  }

  ghost predicate StartsOrCommits(a: Action) {
    a.StartAdd? || a.StartReplace? || a.CommitRow? || a.CommitRows?
  }

  lemma AdderStepIsQuiet(s: State, a: Action)
    requires Enabled(s, a)
    requires a.Fetch? || a.Append? || a.AliasRead? || a.AliasWrite? || a.Repair? || a.CountMemory?
    ensures IsQuiet(s, Do(s, a), a.t)
  {
  }

  lemma CheckStepIsQuiet(s: State, a: Action)
    requires Enabled(s, a) && (a.CheckMemory? || a.CheckRows? || a.RecheckMemory?)
    ensures IsQuiet(s, Do(s, a), a.t)
  {
  }

  lemma StepIsQuiet(s: State, a: Action)
    requires Enabled(s, a) && !StartsOrCommits(a)
    ensures IsQuiet(s, Do(s, a), a.t)
  {
    if a.CheckMemory? || a.CheckRows? || a.RecheckMemory? {
      CheckStepIsQuiet(s, a);
    } else if !a.Acquire? && !a.Install? {
      AdderStepIsQuiet(s, a);
    }
  }

  lemma QuietStepKeepsBooks(s: State, a: Action)
    requires Books(s) && Enabled(s, a) && !StartsOrCommits(a)
    ensures Books(Do(s, a))
  {
    StepIsQuiet(s, a);
    QuietKeepsBooks(s, Do(s, a), a.t);
  }

  /** The books of the commits are kept by every step whatsoever. */
  lemma StepKeepsBooks(s: State, a: Action)
    requires Books(s) && Enabled(s, a)
    ensures Books(Do(s, a))
  {
    match a
    case StartAdd(t, m, viaManager) => StartAddKeepsBooks(s, t, m, viaManager);
    case StartReplace(t, ms, expected) => StartReplaceKeepsBooks(s, t, ms, expected);
    case CommitRow(t) => CommitRowKeepsBooks(s, t);
    case CommitRows(t) => CommitRowsKeepsBooks(s, t);
    case _ => QuietStepKeepsBooks(s, a);
  }

  lemma {:induction false} RunKeepsBooks(trace: seq<State>, actions: seq<Action>, n: nat)
    requires IsRun(trace, actions) && Init(trace[0]) && n <= |actions|
    ensures Books(trace[n])
  {
    if n > 0 {
      RunKeepsBooks(trace, actions, n - 1);
      assert StepAt(trace, actions, n - 1);
      StepKeepsBooks(trace[n - 1], actions[n - 1]);
    }
  }

  /**
   At every point of every run, the rows are the sequential replay of the commits, no add has committed twice, and
   exactly the finished adds have committed.
   */
  lemma RowsAreReplay(trace: seq<State>, actions: seq<Action>)
    requires IsRun(trace, actions) && Init(trace[0])
    ensures var s := trace[|actions|];
            && s.rows == Replay(s.base, s.log) && AddsOnce(s.log)
            && forall t :: t in s.threads && s.threads[t].Adder? ==>
                 (s.threads[t].apc == Added <==> AddOne(s.threads[t].msg) in s.log)
  {
    RunKeepsBooks(trace, actions, |actions|);
    var s := trace[|actions|];
    forall t | t in s.threads && s.threads[t].Adder?
      ensures s.threads[t].apc == Added <==> AddOne(s.threads[t].msg) in s.log
    {
      assert Booked(s, t);
    }
  }

  lemma {:induction false} ReplayKeeps(base: seq<Msg>, log: seq<Commit>, i: nat, x: Msg)
    requires i < |log| && log[i] == AddOne(x)
    requires forall j :: i < j < |log| && log[j].ReplaceAll? ==> x in log[j].messages
    ensures x in Replay(base, log)
  {
    var n := |log| - 1;
    if i < n {
      ReplayKeeps(base, log[..n], i, x);
    }
  }

  /**
   No added message is lost: at every point of every run, a finished add's message is in the rows, or else a
   replacement that committed after it left it out.
   */
  lemma NothingLost(trace: seq<State>, actions: seq<Action>, t: Tid)
    requires IsRun(trace, actions) && Init(trace[0])
    requires AdderAt(trace[|actions|], t, Added)
    ensures var s := trace[|actions|];
            var x := s.threads[t].msg;
            || x in s.rows
            || exists i, j :: 0 <= i < j < |s.log| && s.log[i] == AddOne(x) && s.log[j].ReplaceAll?
                              && x !in s.log[j].messages
  {
    var s := trace[|actions|];
    var x := s.threads[t].msg;
    RunKeepsBooks(trace, actions, |actions|);
    assert Booked(s, t);
    var i :| 0 <= i < |s.log| && s.log[i] == AddOne(x);
    if forall j :: i < j < |s.log| && s.log[j].ReplaceAll? ==> x in s.log[j].messages {
      ReplayKeeps(s.base, s.log, i, x);
    }
  }

  // ---------------------------------------------------------------- locks and lists

  ghost predicate ThreadOk(s: State, t: Tid)
    requires t in s.threads
  {
    && (HoldsLock(s.threads[t]) ==> s.lock == Some(t))
    && match s.threads[t]
       case Adder(_, _, Fetched(list)) => list in s.lists
       case Adder(_, _, AliasHeld(list)) => list in s.lists
       case Adder(_, _, _) => true
       case Replacer(ms, _, rpc) => rpc == Committed ==> s.rows == ms
  }

  /** What every step whatsoever keeps: the books, the lock discipline, and what a replacement has committed. */
  ghost predicate Sound(s: State) {
    && Books(s)
    && s.cur in s.lists
    && (s.lock.Some? ==> s.lock.value in s.threads && HoldsLock(s.threads[s.lock.value]))
    && (forall t :: t in s.threads ==> ThreadOk(s, t))
  }

  lemma OneHolder(s: State, t: Tid, u: Tid)
    requires Sound(s) && t in s.threads && u in s.threads && HoldsLock(s.threads[t]) && HoldsLock(s.threads[u])
    ensures t == u
  {
    assert ThreadOk(s, t) && ThreadOk(s, u);
  }

  lemma QuietKeepsSound(s: State, s': State, t: Tid)
    requires Sound(s) && IsQuiet(s, s', t) && s.lists.Keys <= s'.lists.Keys && s'.cur in s'.lists && ThreadOk(s', t)
    requires s'.lock == (if HoldsLock(s'.threads[t]) then Some(t) else if s.lock == Some(t) then None else s.lock)
    requires s'.lock == s.lock || s.lock == None || s.lock == Some(t)
    ensures Sound(s')
  {
    QuietKeepsBooks(s, s', t);
    assert ThreadOk(s, t);
    forall u | u in s'.threads ensures ThreadOk(s', u) { assert ThreadOk(s, u); }
  }

  lemma StartAddKeepsSound(s: State, t: Tid, m: Msg, viaManager: bool)
    requires Sound(s) && t !in s.threads && m !in s.used
    ensures Sound(AfterStartAdd(s, t, m, viaManager))
  {
    var s' := AfterStartAdd(s, t, m, viaManager);
    StartAddKeepsBooks(s, t, m, viaManager);
    forall u | u in s'.threads ensures ThreadOk(s', u) { if u != t { assert ThreadOk(s, u); } }
  }

  lemma StartReplaceKeepsSound(s: State, t: Tid, ms: seq<Msg>, expected: Option<Ids>)
    requires Sound(s) && t !in s.threads
    ensures Sound(AfterStartReplace(s, t, ms, expected))
  {
    var s' := AfterStartReplace(s, t, ms, expected);
    StartReplaceKeepsBooks(s, t, ms, expected);
    forall u | u in s'.threads ensures ThreadOk(s', u) { if u != t { assert ThreadOk(s, u); } }
  }

  lemma CommitRowKeepsSound(s: State, t: Tid)
    requires Sound(s) && CanCommitRow(s, t)
    ensures Sound(AfterCommitRow(s, t))
  {
    var s' := AfterCommitRow(s, t);
    CommitRowKeepsBooks(s, t);
    assert ThreadOk(s, t);
    forall u | u in s'.threads ensures ThreadOk(s', u) { assert ThreadOk(s, u); }
  }

  lemma CommitRowsKeepsSound(s: State, t: Tid)
    requires Sound(s) && CanCommitRows(s, t)
    ensures Sound(AfterCommitRows(s, t))
  {
    var s' := AfterCommitRows(s, t);
    CommitRowsKeepsBooks(s, t);
    assert ThreadOk(s, t);
    forall u | u in s'.threads ensures ThreadOk(s', u) { assert ThreadOk(s, u); }
  }

  /** A check, the installation and the acquisition of the lock move a replacement, or an add to its lock. */
  lemma CheckKeepsSound(s: State, t: Tid, actual: Ids, next: ReplacePc)
    requires Sound(s) && t in s.threads && s.threads[t].Replacer? && s.threads[t].expected.Some?
    requires HoldsLock(s.threads[t]) && !next.Called? && !next.Returned? && !next.Committed?
    ensures Sound(AfterCheck(s, t, actual, next))
  {
    assert ThreadOk(s, t);
    QuietKeepsSound(s, AfterCheck(s, t, actual, next), t);
  }

  lemma CheckStepKeepsSound(s: State, a: Action)
    requires Sound(s) && Enabled(s, a) && (a.CheckMemory? || a.CheckRows? || a.RecheckMemory?)
    ensures Sound(Do(s, a))
  {
    match a
    case CheckMemory(t) => CheckKeepsSound(s, t, MemoryIds(s), MemoryMatched);
    case CheckRows(t) => CheckKeepsSound(s, t, RowIds(s), RowsMatched);
    case RecheckMemory(t) => CheckKeepsSound(s, t, MemoryIds(s), Rechecked);
  }

  lemma InstallKeepsSound(s: State, t: Tid)
    requires Sound(s) && ReplacerAt(s, t, Committed)
    ensures Sound(AfterInstall(s, t))
  {
    assert ThreadOk(s, t);
    QuietKeepsSound(s, AfterInstall(s, t), t);
  }

  lemma AcquireKeepsSound(s: State, t: Tid)
    requires Sound(s) && CanAcquire(s, t)
    ensures Sound(AfterAcquire(s, t))
  {
    assert ThreadOk(s, t);
    QuietKeepsSound(s, AfterAcquire(s, t), t);
  }

  lemma AdderStepKeepsSound(s: State, a: Action)
    requires Sound(s) && Enabled(s, a)
    requires a.Fetch? || a.Append? || a.AliasRead? || a.AliasWrite? || a.Repair? || a.CountMemory?
    ensures Sound(Do(s, a))
  {
    assert ThreadOk(s, a.t);
    AdderStepIsQuiet(s, a);
    QuietKeepsSound(s, Do(s, a), a.t);
  }

  lemma StepKeepsSound(s: State, a: Action)
    requires Sound(s) && Enabled(s, a)
    ensures Sound(Do(s, a))
  {
    match a
    case StartAdd(t, m, viaManager) => StartAddKeepsSound(s, t, m, viaManager);
    case StartReplace(t, ms, expected) => StartReplaceKeepsSound(s, t, ms, expected);
    case CommitRow(t) => CommitRowKeepsSound(s, t);
    case CommitRows(t) => CommitRowsKeepsSound(s, t);
    case Install(t) => InstallKeepsSound(s, t);
    case Acquire(t) => AcquireKeepsSound(s, t);
    case CheckMemory(_) => CheckStepKeepsSound(s, a);
    case CheckRows(_) => CheckStepKeepsSound(s, a);
    case RecheckMemory(_) => CheckStepKeepsSound(s, a);
    case _ => AdderStepKeepsSound(s, a);
  }
}
