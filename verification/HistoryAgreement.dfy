/**
 When memory, rows and message_count agree: what each step does to them, which steps decide, and what the last of those
 decides at the end of a run.
 */
module HistoryAgreement {
  import opened HistoryProtocol
  import opened Options

  // ---------------------------------------------------------------- what a step does to memory and rows

  lemma OccursAppended(l: seq<Msg>, m: Msg)
    ensures forall x :: Occurs(l + [m], x) == Occurs(l, x) + (if x == m then 1 else 0)
  {
  }

  datatype Effect =
    | Nothing
    | Begins(m: Msg)
    | Appends(m: Msg)
    | Repairs(m: Msg)
    | Commits(m: Msg)
    | Writes(after: View)
    | Replaces
    | Installs(ready: set<Msg>)   // the messages in flight whose adds have not fetched the history

  ghost predicate Moves(e: Effect, v: View, v': View) {
    match e
    case Nothing => v' == v
    case Begins(m) => m !in v.pending && v' == v.(pending := v.pending[m := ToAppend])
    case Appends(m) =>
      && m in v.pending && v.pending[m] == ToAppend
      && v' == v.(memory := v.memory + [m], pending := v.pending[m := ToRepair])
    case Repairs(m) =>
      && m in v.pending && v.pending[m] == ToRepair
      && v' == v.(memory := if m in v.memory then v.memory else v.memory + [m], pending := v.pending[m := InPlace])
    case Commits(m) =>
      && m in v.pending && v.pending[m] == InPlace && !v.installing
      && v' == v.(rows := v.rows + [m], pending := v.pending - {m})
    case Writes(after) => v' == after
    case Replaces => v'.installing
    case Installs(ready) =>
      && v.installing && !v'.installing && v'.memory == v'.rows
      && forall x :: x in v'.pending ==> v'.pending[x] == if x in ready then ToAppend else ToRepair
  }

  ghost function Ready(s: State): set<Msg> {
    set m | m in s.inFlight && AdderAt(s, s.inFlight[m], Begin)
  }

  ghost function EffectOf(s: State, a: Action): Effect
    requires Enabled(s, a)
  {
    match a
    case StartAdd(_, m, _) => Begins(m)
    case Append(t) => if s.threads[t].apc.list == s.cur then Appends(s.threads[t].msg) else Nothing
    case AliasWrite(t) => Writes(ViewAt(s, s.threads[t].apc.list))
    case Repair(t) => Repairs(s.threads[t].msg)
    case CommitRow(t) => Commits(s.threads[t].msg)
    case CommitRows(_) => Replaces
    case Install(_) => Installs(Ready(s))
    case _ => Nothing
  }

  /** A step of an add in flight concerns the stage of its own message. */
  lemma AdderStages(s: State, s': State, t: Tid, history: ListId)
    requires Books(s) && t in s.threads && IsPending(s.threads[t])
    requires t in s'.threads && s'.threads == s.threads[t := s'.threads[t]] && s'.inFlight == s.inFlight
    ensures s.threads[t].msg in Stages(s, history)
    ensures Stages(s, history)[s.threads[t].msg] == StageOf(s.threads[t], history)
    ensures Stages(s', history) == Stages(s, history)[s.threads[t].msg := StageOf(s'.threads[t], history)]
  {
    assert Booked(s, t);
    forall x | x in s.inFlight && x != s.threads[t].msg ensures s.inFlight[x] != t {
      assert MsgBooked(s, x);
    }
  }

  /** A step of a replacement concerns none. */
  lemma ReplacerStages(s: State, s': State, t: Tid, history: ListId)
    requires Books(s) && t in s.threads && s.threads[t].Replacer?
    requires t in s'.threads && s'.threads == s.threads[t := s'.threads[t]] && s'.inFlight == s.inFlight
    ensures Stages(s', history) == Stages(s, history)
  {
    forall x | x in s.inFlight ensures s.inFlight[x] != t {
      assert MsgBooked(s, x);
    }
  }

  /** A new thread leaves the stages of the messages in flight alone. */
  lemma StartStages(s: State, t: Tid, th: Thread, history: ListId)
    requires Books(s) && t !in s.threads
    ensures Stages(s.(threads := s.threads[t := th]), history) == Stages(s, history)
    ensures Stages(s, history).Keys == s.inFlight.Keys
  {
    forall x | x in s.inFlight ensures s.inFlight[x] in s.threads { assert MsgBooked(s, x); }
  }

  lemma StartAddStages(s: State, t: Tid, m: Msg, viaManager: bool, history: ListId)
    requires Books(s) && t !in s.threads && m !in s.used
    ensures m !in s.inFlight && Stages(AfterStartAdd(s, t, m, viaManager), history) == Stages(s, history)[m := ToAppend]
  {
    assert MsgBooked(s, m);
    var th := Adder(m, viaManager, Begin);
    StartStages(s, t, th, history);
    assert Stages(AfterStartAdd(s, t, m, viaManager), history)
        == Stages(s.(threads := s.threads[t := th]), history)[m := ToAppend];
  }

  lemma StartAddMoves(s: State, t: Tid, m: Msg, viaManager: bool)
    requires Sound(s) && t !in s.threads && m !in s.used
    ensures Moves(Begins(m), ViewOf(s), ViewOf(AfterStartAdd(s, t, m, viaManager)))
  {
    StartAddStages(s, t, m, viaManager, s.cur);
  }

  lemma StartReplaceMoves(s: State, t: Tid, ms: seq<Msg>, expected: Option<Ids>)
    requires Sound(s) && t !in s.threads
    ensures ViewOf(AfterStartReplace(s, t, ms, expected)) == ViewOf(s)
  {
    var th := Replacer(ms, expected, Called);
    StartStages(s, t, th, s.cur);
    assert Stages(AfterStartReplace(s, t, ms, expected), s.cur) == Stages(s.(threads := s.threads[t := th]), s.cur);
  }

  lemma AppendMoves(s: State, t: Tid)
    requires Sound(s) && CanAppend(s, t)
    ensures Moves(EffectOf(s, Append(t)), ViewOf(s), ViewOf(AfterAppend(s, t)))
  {
    AdderStages(s, AfterAppend(s, t), t, s.cur);
    assert ThreadOk(s, t);
  }

  lemma RepairMoves(s: State, t: Tid)
    requires Sound(s) && AdderAt(s, t, Holding)
    ensures Moves(Repairs(s.threads[t].msg), ViewOf(s), ViewOf(AfterRepair(s, t)))
  {
    AdderStages(s, AfterRepair(s, t), t, s.cur);
    assert ThreadOk(s, t);
  }

  lemma CommitRowMoves(s: State, t: Tid)
    requires Sound(s) && CanCommitRow(s, t)
    ensures Moves(Commits(s.threads[t].msg), ViewOf(s), ViewOf(AfterCommitRow(s, t)))
  {
    var m := s.threads[t].msg;
    var s' := AfterCommitRow(s, t);
    assert Booked(s, t) && ThreadOk(s, t);
    forall x | x in s.inFlight && x != m ensures s.inFlight[x] != t { assert MsgBooked(s, x); }
    assert Stages(s', s.cur) == Stages(s, s.cur) - {m};
  }

  lemma CommitRowsMoves(s: State, t: Tid)
    requires Sound(s) && CanCommitRows(s, t)
    ensures Moves(Replaces, ViewOf(s), ViewOf(AfterCommitRows(s, t)))
  {
    assert ThreadOk(s, t);
  }

  lemma InstallMoves(s: State, t: Tid)
    requires Sound(s) && ReplacerAt(s, t, Committed)
    ensures Moves(Installs(Ready(s)), ViewOf(s), ViewOf(AfterInstall(s, t)))
  {
    var s' := AfterInstall(s, t);
    assert ThreadOk(s, t) && Memory(s') == s'.rows;
    ReplacerStages(s, s', t, s'.cur);
    forall x | x in Stages(s', s'.cur)
      ensures Stages(s', s'.cur)[x] == if x in Ready(s) then ToAppend else ToRepair
    {
      var u := s.inFlight[x];
      assert MsgBooked(s, x) && ThreadOk(s, u);
      if AboutToCommit(s.threads[u]) { OneHolder(s, t, u); }
    }
  }

  lemma AliasWriteMoves(s: State, t: Tid)
    requires Sound(s) && CanAliasWrite(s, t)
    ensures Moves(EffectOf(s, AliasWrite(t)), ViewOf(s), ViewOf(AfterAliasWrite(s, t)))
  {
    assert ThreadOk(s, t);
    AdderStages(s, AfterAliasWrite(s, t), t, s.threads[t].apc.list);
    assert Stages(AfterAliasWrite(s, t), s.threads[t].apc.list) == Stages(s, s.threads[t].apc.list);
  }

  lemma AdvanceMoves(s: State, t: Tid, apc: AddPc)
    requires Sound(s) && t in s.threads && s.threads[t].Adder? && s.threads[t].apc != Added
    requires StageOf(s.threads[t].(apc := apc), s.cur) == StageOf(s.threads[t], s.cur)
    ensures ViewOf(Advance(s, t, apc)) == ViewOf(s)
  {
    AdderStages(s, Advance(s, t, apc), t, s.cur);
  }

  lemma AcquireMoves(s: State, t: Tid)
    requires Sound(s) && CanAcquire(s, t)
    ensures ViewOf(AfterAcquire(s, t)) == ViewOf(s)
  {
    if s.threads[t].Adder? {
      AdderStages(s, AfterAcquire(s, t), t, s.cur);
    } else {
      ReplacerStages(s, AfterAcquire(s, t), t, s.cur);
    }
  }

  lemma CheckMoves(s: State, t: Tid, actual: Ids, next: ReplacePc)
    requires Sound(s) && t in s.threads && s.threads[t].Replacer? && s.threads[t].expected.Some?
    requires HoldsLock(s.threads[t]) && !s.threads[t].rpc.Committed? && !next.Committed?
    ensures ViewOf(AfterCheck(s, t, actual, next)) == ViewOf(s)
  {
    assert ThreadOk(s, t);
    ReplacerStages(s, AfterCheck(s, t, actual, next), t, s.cur);
  }

  lemma SilentAdderMoves(s: State, a: Action)
    requires Sound(s) && Enabled(s, a) && (a.Fetch? || a.AliasRead? || a.CountMemory?)
    ensures Do(s, a).cur in Do(s, a).lists && ViewOf(Do(s, a)) == ViewOf(s)
  {
    match a
    case Fetch(t) => AdvanceMoves(s, t, Fetched(s.cur));
    case AliasRead(t) => AdvanceMoves(s, t, AliasHeld(s.cur));
    case CountMemory(t) => AdvanceMoves(s, t, Counted(|Memory(s)|));
  }

  lemma CheckStepMoves(s: State, a: Action)
    requires Sound(s) && Enabled(s, a) && (a.CheckMemory? || a.CheckRows? || a.RecheckMemory?)
    ensures Do(s, a).cur in Do(s, a).lists && ViewOf(Do(s, a)) == ViewOf(s)
  {
    match a
    case CheckMemory(t) => CheckMoves(s, t, MemoryIds(s), MemoryMatched);
    case CheckRows(t) => CheckMoves(s, t, RowIds(s), RowsMatched);
    case RecheckMemory(t) => CheckMoves(s, t, MemoryIds(s), Rechecked);
  }

  lemma StepMoves(s: State, a: Action)
    requires Sound(s) && Enabled(s, a)
    ensures Do(s, a).cur in Do(s, a).lists && Moves(EffectOf(s, a), ViewOf(s), ViewOf(Do(s, a)))
  {
    match a
    case StartAdd(t, m, viaManager) => StartAddMoves(s, t, m, viaManager);
    case StartReplace(t, ms, expected) => StartReplaceMoves(s, t, ms, expected);
    case Append(t) => AppendMoves(s, t);
    case AliasWrite(t) => AliasWriteMoves(s, t);
    case Repair(t) => RepairMoves(s, t);
    case CommitRow(t) => CommitRowMoves(s, t);
    case CommitRows(t) => CommitRowsMoves(s, t);
    case Install(t) => InstallMoves(s, t);
    case Acquire(t) => AcquireMoves(s, t);
    case CheckMemory(_) => CheckStepMoves(s, a);
    case CheckRows(_) => CheckStepMoves(s, a);
    case RecheckMemory(_) => CheckStepMoves(s, a);
    case _ => SilentAdderMoves(s, a);
  }

  // ---------------------------------------------------------------- agreement of memory and rows

  /** What decides the agreement after an effect, given whether it held before. */
  ghost predicate EffectDecides(aspect: Aspect, e: Effect, v': View, before: bool) {
    match e
    case Writes(after) => Agrees(aspect, after)
    case Replaces => true
    case Installs(ready) => forall x :: x in v'.rows && x in v'.pending ==> x in ready
    case _ => before
  }

  lemma CommitsContents(m: Msg, v: View, v': View)
    requires Moves(Commits(m), v, v')
    ensures Agrees(Contents, v') <==> Agrees(Contents, v)
  {
    OccursAppended(v.rows, m);
    forall x ensures Matches(v', x) <==> Matches(v, x) {}
  }

  lemma AppendsContents(m: Msg, v: View, v': View)
    requires Moves(Appends(m), v, v') || Moves(Repairs(m), v, v')
    ensures Agrees(Contents, v') <==> Agrees(Contents, v)
  {
    OccursAppended(v.memory, m);
    forall x ensures Matches(v', x) <==> Matches(v, x) {}
  }

  lemma BeginsContents(m: Msg, v: View, v': View)
    requires Moves(Begins(m), v, v')
    ensures Agrees(Contents, v') <==> Agrees(Contents, v)
  {
    forall x ensures Matches(v', x) <==> Matches(v, x) {}
  }

  lemma InstallsContents(ready: set<Msg>, v: View, v': View)
    requires Moves(Installs(ready), v, v')
    ensures Agrees(Contents, v') <==> forall x :: x in v'.rows && x in v'.pending ==> x in ready
  {
    forall x ensures Matches(v', x) <==> !(x in v'.rows && x in v'.pending && x !in ready) {}
  }

  lemma MovesContents(e: Effect, v: View, v': View)
    requires Moves(e, v, v')
    ensures Agrees(Contents, v') <==> EffectDecides(Contents, e, v', Agrees(Contents, v))
  {
    match e
    case Begins(m) => BeginsContents(m, v, v');
    case Appends(m) => AppendsContents(m, v, v');
    case Repairs(m) => AppendsContents(m, v, v');
    case Commits(m) => CommitsContents(m, v, v');
    case Installs(ready) => InstallsContents(ready, v, v');
    case _ =>
  }

  lemma BeginsSize(m: Msg, v: View, v': View)
    requires Moves(Begins(m), v, v')
    ensures Agrees(Size, v') <==> Agrees(Size, v)
  {
    assert Awaited(v') == Awaited(v) + {m} && m !in Awaited(v);
    assert |v'.pending| == |v.pending| + 1 by {
      assert v'.pending.Keys == v.pending.Keys + {m};
    }
  }

  lemma AppendsSize(m: Msg, v: View, v': View)
    requires Moves(Appends(m), v, v')
    ensures Agrees(Size, v') <==> Agrees(Size, v)
  {
    assert Awaited(v) == Awaited(v') + {m} && m !in Awaited(v');
    assert v'.pending.Keys == v.pending.Keys;
  }

  lemma RepairsSize(m: Msg, v: View, v': View)
    requires Moves(Repairs(m), v, v')
    ensures Agrees(Size, v') <==> Agrees(Size, v)
  {
    assert m !in Awaited(v') && v'.pending.Keys == v.pending.Keys;
    assert Awaited(v) == if m in v.memory then Awaited(v') else Awaited(v') + {m};
  }

  lemma CommitsSize(m: Msg, v: View, v': View)
    requires Moves(Commits(m), v, v')
    ensures Agrees(Size, v') <==> Agrees(Size, v)
  {
    assert Awaited(v') == Awaited(v);
    assert |v.pending| == |v'.pending| + 1 by {
      assert v.pending.Keys == v'.pending.Keys + {m};
    }
  }

  lemma InstallsSize(ready: set<Msg>, v: View, v': View)
    requires Moves(Installs(ready), v, v')
    ensures Agrees(Size, v') <==> forall x :: x in v'.rows && x in v'.pending ==> x in ready
  {
    var missing := set x | x in v'.pending && x in v'.rows && x !in ready;
    assert Awaited(v') == v'.pending.Keys - missing;
    assert |v'.pending.Keys - missing| == |v'.pending| - |missing|;
    assert missing == {} <==> forall x :: x in v'.rows && x in v'.pending ==> x in ready by {
      assert forall x :: x in v'.rows && x in v'.pending && x !in ready ==> x in missing;
    }
  }

  lemma MovesSize(e: Effect, v: View, v': View)
    requires Moves(e, v, v')
    ensures Agrees(Size, v') <==> EffectDecides(Size, e, v', Agrees(Size, v))
  {
    match e
    case Begins(m) => BeginsSize(m, v, v');
    case Appends(m) => AppendsSize(m, v, v');
    case Repairs(m) => RepairsSize(m, v, v');
    case Commits(m) => CommitsSize(m, v, v');
    case Installs(ready) => InstallsSize(ready, v, v');
    case _ =>
  }

  /** The actions that make the history another list, and the one that makes it due. */
  ghost predicate SetsHistory(a: Action) {
    a.AliasWrite? || a.CommitRows? || a.Install?
  }

  /** If `a` sets the history, it sets it to a list that agrees with the rows. */
  ghost predicate SetWell(aspect: Aspect, s: State, a: Action) {
    match a
    case AliasWrite(t) => CanAliasWrite(s, t) && WritesBack(aspect, s, t)
    case Install(t) => ReplacerAt(s, t, Committed) && InstallsCleanly(s, t)
    case _ => true
  }

  /** Whether memory agrees after `a`, given whether it did before. */
  ghost predicate Decided(aspect: Aspect, s: State, a: Action, before: bool) {
    if SetsHistory(a) then SetWell(aspect, s, a) else before
  }

  lemma InstallDecides(s: State, t: Tid)
    requires Sound(s) && ReplacerAt(s, t, Committed)
    ensures var v' := ViewOf(AfterInstall(s, t));
            InstallsCleanly(s, t) <==> forall x :: x in v'.rows && x in v'.pending ==> x in Ready(s)
  {
    var s' := AfterInstall(s, t);
    assert ThreadOk(s, t);
    forall x | x in s.inFlight ensures s.inFlight[x] in s.threads { assert MsgBooked(s, x); }
    assert ViewOf(s').pending.Keys == s.inFlight.Keys;
  }

  lemma EffectDecidesStep(aspect: Aspect, s: State, a: Action, before: bool)
    requires Sound(s) && Enabled(s, a) && Do(s, a).cur in Do(s, a).lists
    ensures EffectDecides(aspect, EffectOf(s, a), ViewOf(Do(s, a)), before) <==> Decided(aspect, s, a, before)
  {
    if a.Install? { InstallDecides(s, a.t); }
  }

  /** Only a write-back or an installation can spoil or mend the agreement, and each decides it alone. */
  lemma StepAgreesIff(aspect: Aspect, s: State, a: Action)
    requires Sound(s) && Enabled(s, a)
    ensures s.cur in s.lists && Do(s, a).cur in Do(s, a).lists
    ensures Agrees(aspect, ViewOf(Do(s, a))) <==> Decided(aspect, s, a, Agrees(aspect, ViewOf(s)))
  {
    StepMoves(s, a);
    if aspect.Contents? {
      MovesContents(EffectOf(s, a), ViewOf(s), ViewOf(Do(s, a)));
    } else {
      MovesSize(EffectOf(s, a), ViewOf(s), ViewOf(Do(s, a)));
    }
    EffectDecidesStep(aspect, s, a, Agrees(aspect, ViewOf(s)));
  }

  // ---------------------------------------------------------------- the stored count

  ghost predicate CountOk(s: State, t: Tid)
    requires t in s.threads && s.cur in s.lists
  {
    match s.threads[t]
    case Adder(msg, _, Counted(n)) => s.inFlight.Keys == {msg} ==> n == |Memory(s)|
    case _ => true
  }

  /** With no add in flight the stored count is the length of the history, or will be once a replacement is installed. */
  ghost predicate Counts(s: State)
    requires s.cur in s.lists
  {
    && (s.inFlight == map[] ==> s.count == if Installing(s) then |s.rows| else |Memory(s)|)
    && (forall t :: t in s.threads ==> CountOk(s, t))
  }

  lemma StartAddKeepsCounts(s: State, t: Tid, m: Msg, viaManager: bool)
    requires Sound(s) && Counts(s) && t !in s.threads && m !in s.used
    ensures Counts(AfterStartAdd(s, t, m, viaManager))
  {
    var s' := AfterStartAdd(s, t, m, viaManager);
    assert m in s'.inFlight;
    forall u | u in s'.threads ensures CountOk(s', u) {
      if u in s.threads { assert CountOk(s, u) && Booked(s, u); }
    }
  }

  lemma StartReplaceKeepsCounts(s: State, t: Tid, ms: seq<Msg>, expected: Option<Ids>)
    requires Sound(s) && Counts(s) && t !in s.threads
    ensures Counts(AfterStartReplace(s, t, ms, expected))
  {
    var s' := AfterStartReplace(s, t, ms, expected);
    forall u | u in s'.threads ensures CountOk(s', u) {
      if u in s.threads { assert CountOk(s, u); }
    }
  }

  /** Two adds in progress have different messages. */
  lemma PendingDistinct(s: State, t: Tid, u: Tid)
    requires Books(s) && t in s.threads && u in s.threads && IsPending(s.threads[t]) && IsPending(s.threads[u]) && t != u
    ensures s.threads[t].msg != s.threads[u].msg
  {
    assert Booked(s, t) && Booked(s, u);
  }

  lemma CommitRowKeepsCounts(s: State, t: Tid)
    requires Sound(s) && Counts(s) && CanCommitRow(s, t)
    ensures Counts(AfterCommitRow(s, t))
  {
    var s' := AfterCommitRow(s, t);
    assert ThreadOk(s, t) && Booked(s, t) && CountOk(s, t);
    if s'.inFlight == map[] {
      assert s.inFlight.Keys == s'.inFlight.Keys + {s.threads[t].msg};
    }
    forall u | u in s'.threads ensures CountOk(s', u) {
      if u != t && AboutToCommit(s.threads[u]) { OneHolder(s, t, u); }
    }
  }

  /** A replacement that holds the lock leaves no add counted. */
  lemma ReplacementKeepsCounts(s: State, s': State, t: Tid)
    requires Sound(s) && t in s.threads && s.threads[t].Replacer? && HoldsLock(s.threads[t]) && s'.cur in s'.lists
    requires t in s'.threads && s'.threads == s.threads[t := s'.threads[t]] && s'.threads[t].Replacer?
    requires s'.inFlight == map[] ==> s'.count == if Installing(s') then |s'.rows| else |Memory(s')|
    ensures Counts(s')
  {
    forall u | u in s'.threads ensures CountOk(s', u) {
      if u != t && AboutToCommit(s.threads[u]) { OneHolder(s, t, u); }
    }
  }

  lemma CommitRowsKeepsCounts(s: State, t: Tid)
    requires Sound(s) && CanCommitRows(s, t)
    ensures Counts(AfterCommitRows(s, t))
  {
    CommitRowsMoves(s, t);
    ReplacementKeepsCounts(s, AfterCommitRows(s, t), t);
  }

  lemma InstallKeepsCounts(s: State, t: Tid)
    requires Sound(s) && Counts(s) && ReplacerAt(s, t, Committed)
    ensures Counts(AfterInstall(s, t))
  {
    assert ThreadOk(s, t);
    ReplacementKeepsCounts(s, AfterInstall(s, t), t);
  }

  lemma CountMemoryKeepsCounts(s: State, t: Tid)
    requires Sound(s) && Counts(s) && AdderAt(s, t, Repaired)
    ensures Counts(Advance(s, t, Counted(|Memory(s)|)))
  {
    var s' := Advance(s, t, Counted(|Memory(s)|));
    assert Booked(s, t);
    forall u | u in s'.threads ensures CountOk(s', u) { assert CountOk(s, u); }
  }

  /** A step of an add that is in flight, and not to be counted yet, whatever it does to the history. */
  lemma AdderKeepsCounts(s: State, s': State, t: Tid)
    requires Sound(s) && Counts(s) && IsQuiet(s, s', t) && s'.cur in s'.lists
    requires IsPending(s.threads[t]) && s'.threads[t].Adder? && !s'.threads[t].apc.Counted?
    ensures Counts(s')
  {
    assert Booked(s, t);
    forall u | u in s'.threads ensures CountOk(s', u) {
      assert CountOk(s, u);
      if u != t && IsPending(s.threads[u]) { PendingDistinct(s, t, u); }
    }
  }

  /** A step of a replacement that changes no list. */
  lemma ReplacerKeepsCounts(s: State, s': State, t: Tid)
    requires s.cur in s.lists && Counts(s) && t in s.threads && s.threads[t].Replacer?
    requires t in s'.threads && s'.threads == s.threads[t := s'.threads[t]] && s'.threads[t].Replacer?
    requires s'.rows == s.rows && s'.inFlight == s.inFlight && s'.cur == s.cur && s'.lists == s.lists && s'.count == s.count && (Installing(s') <==> Installing(s))
    ensures Counts(s')
  {
    forall u | u in s'.threads ensures CountOk(s', u) { assert CountOk(s, u); }
  }

  lemma CheckKeepsCounts(s: State, t: Tid, actual: Ids, next: ReplacePc)
    requires Sound(s) && Counts(s) && t in s.threads && s.threads[t].Replacer? && s.threads[t].expected.Some?
    requires HoldsLock(s.threads[t]) && !s.threads[t].rpc.Committed? && !next.Committed?
    ensures Counts(AfterCheck(s, t, actual, next))
  {
    CheckMoves(s, t, actual, next);
    ReplacerKeepsCounts(s, AfterCheck(s, t, actual, next), t);
  }

  lemma CheckStepKeepsCounts(s: State, a: Action)
    requires Sound(s) && Counts(s) && Enabled(s, a) && (a.CheckMemory? || a.CheckRows? || a.RecheckMemory?)
    ensures Do(s, a).cur in Do(s, a).lists && Counts(Do(s, a))
  {
    match a
    case CheckMemory(t) => CheckKeepsCounts(s, t, MemoryIds(s), MemoryMatched);
    case CheckRows(t) => CheckKeepsCounts(s, t, RowIds(s), RowsMatched);
    case RecheckMemory(t) => CheckKeepsCounts(s, t, MemoryIds(s), Rechecked);
  }

  lemma AcquireKeepsCounts(s: State, t: Tid)
    requires Sound(s) && Counts(s) && CanAcquire(s, t)
    ensures Counts(AfterAcquire(s, t))
  {
    AcquireMoves(s, t);
    if s.threads[t].Adder? {
      AdderKeepsCounts(s, AfterAcquire(s, t), t);
    } else {
      ReplacerKeepsCounts(s, AfterAcquire(s, t), t);
    }
  }

  lemma AdderStepKeepsCounts(s: State, a: Action)
    requires Sound(s) && Counts(s) && Enabled(s, a)
    requires a.Fetch? || a.Append? || a.AliasRead? || a.AliasWrite? || a.Repair?
    ensures Do(s, a).cur in Do(s, a).lists && Counts(Do(s, a))
  {
    match a
    case Fetch(t) => AdderKeepsCounts(s, Advance(s, t, Fetched(s.cur)), t);
    case Append(t) => AdderKeepsCounts(s, AfterAppend(s, t), t);
    case AliasRead(t) => AdderKeepsCounts(s, Advance(s, t, AliasHeld(s.cur)), t);
    case AliasWrite(t) => AdderKeepsCounts(s, AfterAliasWrite(s, t), t);
    case Repair(t) => AdderKeepsCounts(s, AfterRepair(s, t), t);
  }

  lemma StepKeepsCounts(s: State, a: Action)
    requires Sound(s) && Counts(s) && Enabled(s, a)
    ensures Do(s, a).cur in Do(s, a).lists && Counts(Do(s, a))
  {
    match a
    case StartAdd(t, m, viaManager) => StartAddKeepsCounts(s, t, m, viaManager);
    case StartReplace(t, ms, expected) => StartReplaceKeepsCounts(s, t, ms, expected);
    case CommitRow(t) => CommitRowKeepsCounts(s, t);
    case CountMemory(t) => CountMemoryKeepsCounts(s, t);
    case Acquire(t) => AcquireKeepsCounts(s, t);
    case CommitRows(t) => CommitRowsKeepsCounts(s, t);
    case Install(t) => InstallKeepsCounts(s, t);
    case CheckMemory(_) => CheckStepKeepsCounts(s, a);
    case CheckRows(_) => CheckStepKeepsCounts(s, a);
    case RecheckMemory(_) => CheckStepKeepsCounts(s, a);
    case _ => AdderStepKeepsCounts(s, a);
  }

  // ---------------------------------------------------------------- main results

  /** What every run keeps. */
  ghost predicate Orders(s: State) {
    Sound(s) && Counts(s)
  }

  lemma StepKeepsOrders(s: State, a: Action, s': State)
    requires Orders(s) && IsStep(s, a, s')
    ensures Orders(s')
  {
    StepKeepsSound(s, a);
    StepKeepsCounts(s, a);
  }

  lemma InitOrders(s: State)
    requires Init(s)
    ensures Orders(s) && Agrees(Contents, ViewOf(s)) && Agrees(Size, ViewOf(s))
  {
    assert Stages(s, s.cur) == map[] && Awaited(ViewOf(s)) == {};
  }

  /** ... and a clean run besides. */
  ghost predicate Inv(s: State) {
    Orders(s) && Agrees(Contents, ViewOf(s))
  }

  lemma StepKeepsInv(s: State, a: Action, s': State)
    requires Inv(s) && IsCleanStep(s, a, s')
    ensures Inv(s')
  {
    StepKeepsOrders(s, a, s');
    StepAgreesIff(Contents, s, a);
  }

  lemma CleanStepKeepsInv(trace: seq<State>, actions: seq<Action>, n: nat)
    requires IsCleanRun(trace, actions) && 0 < n <= |actions| && Inv(trace[n - 1])
    ensures Inv(trace[n])
  {
    assert CleanStepAt(trace, actions, n - 1);
    StepKeepsInv(trace[n - 1], actions[n - 1], trace[n]);
  }

  lemma {:induction false} CleanRunKeepsInv(trace: seq<State>, actions: seq<Action>, n: nat)
    requires IsCleanRun(trace, actions) && Init(trace[0]) && n <= |actions|
    ensures Inv(trace[n])
  {
    if n == 0 {
      InitOrders(trace[0]);
    } else {
      CleanRunKeepsInv(trace, actions, n - 1);
      CleanStepKeepsInv(trace, actions, n);
    }
  }

  /** Among the first `n` actions, no such action follows action `k`. */
  ghost predicate IsLastWord(actions: seq<Action>, k: nat, n: nat)
    requires n <= |actions|
  {
    forall j :: k < j < n ==> !SetsHistory(actions[j])
  }

  /** Where one of the first `n` actions is the last to set the history, it set it well. */
  ghost predicate LastSetWell(aspect: Aspect, trace: seq<State>, actions: seq<Action>, n: nat)
    requires |trace| == |actions| + 1 && n <= |actions|
  {
    forall k :: 0 <= k < n && SetsHistory(actions[k]) && IsLastWord(actions, k, n) ==> SetWell(aspect, trace[k], actions[k])
  }

  lemma LastSetStep(aspect: Aspect, trace: seq<State>, actions: seq<Action>, n: nat)
    requires |trace| == |actions| + 1 && n < |actions|
    ensures LastSetWell(aspect, trace, actions, n + 1)
            <==> Decided(aspect, trace[n], actions[n], LastSetWell(aspect, trace, actions, n))
  {
    forall k | 0 <= k < n
      ensures IsLastWord(actions, k, n + 1) <==> IsLastWord(actions, k, n) && !SetsHistory(actions[n])
    {
    }
    assert IsLastWord(actions, n, n + 1);
  }

  lemma NextAgreesIff(aspect: Aspect, s: State, a: Action, s': State, before: bool, after: bool)
    requires Orders(s) && IsStep(s, a, s') && (Agrees(aspect, ViewOf(s)) <==> before)
    requires after <==> Decided(aspect, s, a, before)
    ensures Orders(s') && (Agrees(aspect, ViewOf(s')) <==> after)
  {
    StepKeepsOrders(s, a, s');
    StepAgreesIff(aspect, s, a);
  }

  /** What `AgreementIff` and `CountIff` say of a run's end, at any of its points. */
  ghost predicate AgreesWhenSetWell(aspect: Aspect, trace: seq<State>, actions: seq<Action>, n: nat)
    requires |trace| == |actions| + 1 && n <= |actions|
  {
    Orders(trace[n]) && (Agrees(aspect, ViewOf(trace[n])) <==> LastSetWell(aspect, trace, actions, n))
  }

  lemma RunStep(aspect: Aspect, trace: seq<State>, actions: seq<Action>, k: nat, n: nat)
    requires IsRun(trace, actions) && n == k + 1 <= |actions| && AgreesWhenSetWell(aspect, trace, actions, k)
    ensures AgreesWhenSetWell(aspect, trace, actions, n)
  {
    var before, after := LastSetWell(aspect, trace, actions, k), LastSetWell(aspect, trace, actions, n);
    LastSetStep(aspect, trace, actions, k);
    assert StepAt(trace, actions, k);
    NextAgreesIff(aspect, trace[k], actions[k], trace[n], before, after);
  }

  lemma StartAgrees(aspect: Aspect, trace: seq<State>, actions: seq<Action>)
    requires |trace| == |actions| + 1 && Init(trace[0])
    ensures AgreesWhenSetWell(aspect, trace, actions, 0)
  {
    InitOrders(trace[0]);
  }

  lemma {:induction false} RunAgreesIff(aspect: Aspect, trace: seq<State>, actions: seq<Action>, n: nat)
    requires IsRun(trace, actions) && Init(trace[0]) && n <= |actions|
    ensures AgreesWhenSetWell(aspect, trace, actions, n)
  {
    if n == 0 {
      StartAgrees(aspect, trace, actions);
    } else {
      var k := n - 1;
      RunAgreesIff(aspect, trace, actions, k);
      RunStep(aspect, trace, actions, k, n);
    }
  }

  lemma QuiescentView(s: State)
    requires Sound(s) && Quiescent(s)
    ensures s.inFlight == map[] && ViewOf(s) == View(Memory(s), s.rows, map[], false)
  {
    forall x ensures x !in s.inFlight {
      assert MsgBooked(s, x);
      assert x in s.inFlight ==> Unfinished(s.threads[s.inFlight[x]]);
    }
    assert Stages(s, s.cur) == map[];
    assert s.lock.Some? ==> Unfinished(s.threads[s.lock.value]);
  }

  lemma QuiescentAgreesIff(s: State)
    requires Sound(s) && Quiescent(s)
    ensures Agrees(Contents, ViewOf(s)) <==> multiset(Memory(s)) == multiset(s.rows)
    ensures Agrees(Size, ViewOf(s)) <==> |Memory(s)| == |s.rows|
  {
    QuiescentView(s);
    assert Awaited(ViewOf(s)) == {};
    if Agrees(Contents, ViewOf(s)) {
      forall x ensures multiset(Memory(s))[x] == multiset(s.rows)[x] {
        assert Matches(ViewOf(s), x);
      }
    }
    if multiset(Memory(s)) == multiset(s.rows) {
      forall x ensures Matches(ViewOf(s), x) {}
    }
  }

  /**
   In every run: once no call is in flight, memory and rows hold the same messages equally often exactly when the last
   action to set the history set it well.  A replacement does, unless it names a message in flight whose add has fetched
   the history already; the write-back of `SessionManager.add_message` does when its list agrees with the rows then.
   */
  lemma AgreementIff(trace: seq<State>, actions: seq<Action>)
    requires IsRun(trace, actions) && Init(trace[0]) && Quiescent(trace[|actions|])
    ensures var s := trace[|actions|];
            && s.cur in s.lists
            && (multiset(Memory(s)) == multiset(s.rows) <==> LastSetWell(Contents, trace, actions, |actions|))
  {
    RunAgreesIff(Contents, trace, actions, |actions|);
    QuiescentAgreesIff(trace[|actions|]);
  }

  /**
   The stored message_count is then always the length of the history, and so it is the number of rows exactly when the
   last action to set the history gave it the right length.
   */
  lemma CountIff(trace: seq<State>, actions: seq<Action>)
    requires IsRun(trace, actions) && Init(trace[0]) && Quiescent(trace[|actions|])
    ensures var s := trace[|actions|];
            && s.cur in s.lists && s.count == |Memory(s)|
            && (s.count == |s.rows| <==> LastSetWell(Size, trace, actions, |actions|))
  {
    RunAgreesIff(Size, trace, actions, |actions|);
    QuiescentView(trace[|actions|]);
    QuiescentAgreesIff(trace[|actions|]);
  }

  /**
   Once no call of a clean run is in flight, memory and rows hold the same messages equally often, the stored
   message_count is the number of rows, the rows are the replay of the commits, and every add has committed once.
   */
  lemma QuiescentAgreement(trace: seq<State>, actions: seq<Action>)
    requires IsCleanRun(trace, actions) && Init(trace[0]) && Quiescent(trace[|actions|])
    ensures var s := trace[|actions|];
            && s.cur in s.lists
            && multiset(Memory(s)) == multiset(s.rows)
            && s.count == |s.rows|
            && s.rows == Replay(s.base, s.log) && AddsOnce(s.log)
            && forall t :: t in s.threads && s.threads[t].Adder? ==> AddOne(s.threads[t].msg) in s.log
  {
    var s := trace[|actions|];
    CleanRunKeepsInv(trace, actions, |actions|);
    QuiescentView(s);
    QuiescentAgreesIff(s);
    assert |multiset(Memory(s))| == |multiset(s.rows)|;
    forall t | t in s.threads && s.threads[t].Adder? ensures AddOne(s.threads[t].msg) in s.log {
      assert Booked(s, t) && !Unfinished(s.threads[t]);
    }
  }

  /** The memory half of `NothingLost`: in a clean run what is in the rows is in memory, unless it is being installed. */
  lemma NothingLostInMemory(trace: seq<State>, actions: seq<Action>, t: Tid)
    requires IsCleanRun(trace, actions) && Init(trace[0])
    requires AdderAt(trace[|actions|], t, Added)
    ensures var s := trace[|actions|];
            && s.cur in s.lists
            && (Installing(s) || (s.threads[t].msg in Memory(s) <==> s.threads[t].msg in s.rows))
  {
    var s := trace[|actions|];
    var x := s.threads[t].msg;
    CleanRunKeepsInv(trace, actions, |actions|);
    assert Booked(s, t);
    assert !Installing(s) ==> Matches(ViewOf(s), x);
    assert x in Memory(s) <==> Occurs(Memory(s), x) > 0;
    assert x in s.rows <==> Occurs(s.rows, x) > 0;
  }

  // ---------------------------------------------------------------- the conditions are exact

  /** Runs the rest of an add that has appended and is about to take the lock. */
  ghost function FinishAdd(s: State, u: Tid): State
    requires s.cur in s.lists && CanAcquire(s, u) && s.threads[u].Adder?
  {
    var s1 := AfterAcquire(s, u);
    var s2 := AfterRepair(s1, u);
    var s3 := Advance(s2, u, Counted(|Memory(s2)|));
    AfterCommitRow(s3, u)
  }

  /** It commits one row of its message, and puts it into the history if it is not there. */
  lemma FinishAddIs(s: State, u: Tid)
    requires s.cur in s.lists && CanAcquire(s, u) && s.threads[u].Adder?
    ensures var e, m := FinishAdd(s, u), s.threads[u].msg;
            && e.cur in e.lists && e.rows == s.rows + [m]
            && Memory(e) == if m in Memory(s) then Memory(s) else Memory(s) + [m]
  {
  }

  /** Before taking the lock: `Session.add_message` has appended, `SessionManager.add_message` has written back too. */
  ghost predicate AboutToPersist(s: State, u: Tid) {
    AdderAt(s, u, Waiting) || (AdderAt(s, u, Appended) && !s.threads[u].viaManager)
  }

  /**
   A replacement without an expected snapshot commits and installs while add `u` is about to persist; then `u`
   finishes.  Its message ends up equally often in memory and rows exactly when the replacement did not name it.
   */
  lemma ReplacementAgreesIff(s: State, t: Tid, u: Tid)
    requires ReplacerAt(s, t, Locked) && s.threads[t].expected.None? && AboutToPersist(s, u)
    ensures var e := FinishAdd(AfterInstall(AfterCommitRows(s, t), t), u);
            var m := s.threads[u].msg;
            Occurs(Memory(e), m) == Occurs(e.rows, m) <==> m !in s.threads[t].messages
  {
    var m := s.threads[u].msg;
    var ms := s.threads[t].messages;
    var s1 := AfterInstall(AfterCommitRows(s, t), t);
    assert Memory(s1) == ms && s1.rows == ms;
    FinishAddIs(s1, u);
    OccursAppended(ms, m);
  }

  lemma OneAddedAgreesIff(l: seq<Msg>, rows: seq<Msg>, m: Msg)
    ensures multiset(if m in l then l else l + [m]) == multiset(rows + [m])
            <==> multiset(l) == multiset(rows) + if m in l then multiset{m} else multiset{}
  {
    assert multiset(rows + [m]) == multiset(rows) + multiset{m};
    if m !in l {
      assert multiset(l + [m]) == multiset(l) + multiset{m};
      assert multiset(l + [m]) - multiset{m} == multiset(l);
      assert multiset(rows + [m]) - multiset{m} == multiset(rows);
    }
  }

  /**
   One add writes back a list and finishes with nothing else happening: memory and rows agree exactly when the list
   held what the rows held, and the add's message at most once more.
   */
  lemma WriteBackAgreesIff(s: State, t: Tid)
    requires s.lock == None && CanAliasWrite(s, t)
    ensures var e := FinishAdd(AfterAliasWrite(s, t), t);
            var m := s.threads[t].msg;
            var l := s.lists[s.threads[t].apc.list];
            multiset(Memory(e)) == multiset(e.rows)
            <==> multiset(l) == multiset(s.rows) + if m in l then multiset{m} else multiset{}
  {
    var m := s.threads[t].msg;
    var l := s.lists[s.threads[t].apc.list];
    FinishAddIs(AfterAliasWrite(s, t), t);
    OneAddedAgreesIff(l, s.rows, m);
  }

  /** Writing back the history itself leaves agreement as it was; so does writing back any list that agrees as well. */
  lemma HistoryWriteBackIsHarmless(aspect: Aspect, s: State, t: Tid)
    requires s.cur in s.lists && Agrees(aspect, ViewOf(s)) && WritesBackHistory(s, t)
    ensures CanAliasWrite(s, t) && WritesBack(aspect, s, t)
  {
  }

  lemma AdderStepKeepsLists(s: State, a: Action)
    requires Enabled(s, a) && (a.Fetch? || a.Append? || a.AliasRead? || a.AliasWrite? || a.Repair? || a.CountMemory?)
    ensures s.lists.Keys <= Do(s, a).lists.Keys
  {
  }

  lemma StepKeepsLists(s: State, a: Action)
    requires Enabled(s, a)
    ensures s.lists.Keys <= Do(s, a).lists.Keys
  {
    if a.Fetch? || a.Append? || a.AliasRead? || a.AliasWrite? || a.Repair? || a.CountMemory? {
      AdderStepKeepsLists(s, a);
    }
  }

  lemma StepKeepsHistory(s: State, a: Action)
    requires Enabled(s, a) && !a.Install? && !a.AliasWrite?
    ensures Do(s, a).cur == s.cur
  {
  }

  /** A step makes the history a list object not seen before by an installation, one held by a write-back, or keeps it. */
  lemma StepMovesHistory(s: State, a: Action, s': State)
    requires IsStep(s, a, s')
    ensures s.lists.Keys <= s'.lists.Keys
    ensures match a
            case Install(_) => s'.cur !in s.lists
            case AliasWrite(t) => CanAliasWrite(s, t) && s'.cur == s.threads[t].apc.list
            case _ => s'.cur == s.cur
  {
    StepKeepsLists(s, a);
    if !a.Install? && !a.AliasWrite? { StepKeepsHistory(s, a); }
  }

  /** Of the actions from `i` to `k`, no installation and no write-back follows the one at `j`. */
  ghost predicate IsLastMove(actions: seq<Action>, i: nat, j: nat, k: nat)
    requires k <= |actions|
  {
    && i <= j < k && (actions[j].Install? || actions[j].AliasWrite?)
    && forall h :: j < h < k ==> !actions[h].Install? && !actions[h].AliasWrite?
  }

  ghost predicate WroteBack(s: State, a: Action, list: ListId) {
    a.AliasWrite? && CanAliasWrite(s, a.t) && s.threads[a.t].apc.list == list
  }

  /** If the history was moved from `i` to `k`, the last to move it wrote `list` back. */
  ghost predicate MovedBackTo(trace: seq<State>, actions: seq<Action>, i: nat, k: nat, list: ListId)
    requires |trace| == |actions| + 1 && k <= |actions|
  {
    forall j: nat :: IsLastMove(actions, i, j, k) ==> WroteBack(trace[j], actions[j], list)
  }

  /** Whether `list` is the history after `a`, given whether it was before. */
  ghost predicate IsHistoryAfter(s: State, a: Action, list: ListId, before: bool) {
    if a.Install? || a.AliasWrite? then WroteBack(s, a, list) else before
  }

  lemma MovedBackStep(trace: seq<State>, actions: seq<Action>, i: nat, k: nat, list: ListId)
    requires |trace| == |actions| + 1 && i <= k < |actions|
    ensures MovedBackTo(trace, actions, i, k + 1, list)
            <==> IsHistoryAfter(trace[k], actions[k], list, MovedBackTo(trace, actions, i, k, list))
  {
    forall j: nat | i <= j < k
      ensures IsLastMove(actions, i, j, k + 1) <==>
              IsLastMove(actions, i, j, k) && !actions[k].Install? && !actions[k].AliasWrite?
    {
    }
    assert IsLastMove(actions, i, k, k + 1) <==> actions[k].Install? || actions[k].AliasWrite?;
  }

  lemma HistoryAfterStep(s: State, a: Action, s': State, list: ListId, before: bool, after: bool)
    requires IsStep(s, a, s') && list in s.lists && (s.cur == list <==> before)
    requires after <==> IsHistoryAfter(s, a, list, before)
    ensures list in s'.lists && (s'.cur == list <==> after)
  {
    StepMovesHistory(s, a, s');
  }

  ghost predicate HistoryIsMovedBack(trace: seq<State>, actions: seq<Action>, i: nat, k: nat, list: ListId)
    requires |trace| == |actions| + 1 && k <= |actions|
  {
    list in trace[k].lists && (trace[k].cur == list <==> MovedBackTo(trace, actions, i, k, list))
  }

  lemma HistoryMovesOn(trace: seq<State>, actions: seq<Action>, i: nat, k: nat, list: ListId)
    requires IsRun(trace, actions) && i <= k < |actions| && HistoryIsMovedBack(trace, actions, i, k, list)
    ensures HistoryIsMovedBack(trace, actions, i, k + 1, list)
  {
    var before, after := MovedBackTo(trace, actions, i, k, list), MovedBackTo(trace, actions, i, k + 1, list);
    MovedBackStep(trace, actions, i, k, list);
    assert StepAt(trace, actions, k);
    HistoryAfterStep(trace[k], actions[k], trace[k + 1], list, before, after);
  }

  lemma {:induction false} HistoryMoves(trace: seq<State>, actions: seq<Action>, i: nat, k: nat, list: ListId)
    requires IsRun(trace, actions) && i <= k <= |actions| && trace[i].cur == list && list in trace[i].lists
    ensures HistoryIsMovedBack(trace, actions, i, k, list)
  {
    if i < k {
      HistoryMoves(trace, actions, i, k - 1, list);
      HistoryMovesOn(trace, actions, i, k - 1, list);
    }
  }

  /**
   `session._history = session.history` in SessionManager.add_message: the list it writes back, read at `i` and
   written at `k`, is still the history exactly when nothing moved the history in between, or the last to move it was
   another write-back of that very list.
   */
  lemma WriteBackKeepsHistoryIff(trace: seq<State>, actions: seq<Action>, i: nat, k: nat, t: Tid)
    requires IsRun(trace, actions) && i < k < |actions|
    requires actions[i] == AliasRead(t) && actions[k] == AliasWrite(t)
    requires AdderAt(trace[k], t, AliasHeld(trace[i].cur))
    ensures WritesBackHistory(trace[k], t) <==> MovedBackTo(trace, actions, i, k, trace[i].cur)
  {
    assert StepAt(trace, actions, i);
    HistoryMoves(trace, actions, i, k, trace[i].cur);
  }

  // ---------------------------------------------------------------- what goes wrong otherwise

  /** A session holding message 0. */
  ghost function OneMessage(): State {
    State(map[0 := [0]], 0, map[0 := 7], [0], [7], 1, 8, None, map[], {0}, map[], [0], [])
  }

  lemma OneMessageInit()
    ensures Init(OneMessage())
  {
    assert (set m | m in OneMessage().base) == {0};
  }

  /**
   A session holding message 0.  Call 0 is SessionManager.add_message of message 1: it appends, and evaluates the
   right side of `session._history = session.history`.
   */
  lemma AddUpToAliasRead() returns (trace: seq<State>, actions: seq<Action>)
    ensures IsRun(trace, actions) && Init(trace[0])
    ensures var s := trace[|actions|];
            && s.cur == 0 && s.lists == map[0 := [0, 1]] && s.rows == [0] && s.lock == None
            && s.threads == map[0 := Adder(1, true, AliasHeld(0))]
  {
    var s0 := OneMessage();
    OneMessageInit();
    var s1 := AfterStartAdd(s0, 0, 1, true);
    var s2 := Advance(s1, 0, Fetched(0));
    var s3 := AfterAppend(s2, 0);
    var s4 := Advance(s3, 0, AliasHeld(0));
    assert s3.lists[0] == [0, 1];
    trace, actions := [s0], [];
    RunExtends(trace, actions, StartAdd(0, 1, true), s1);
    trace, actions := trace + [s1], actions + [StartAdd(0, 1, true)];
    RunExtends(trace, actions, Fetch(0), s2);
    trace, actions := trace + [s2], actions + [Fetch(0)];
    RunExtends(trace, actions, Append(0), s3);
    trace, actions := trace + [s3], actions + [Append(0)];
    RunExtends(trace, actions, AliasRead(0), s4);
    trace, actions := trace + [s4], actions + [AliasRead(0)];
  }

  /** Call 1 is a replacement by [2, 3]; it takes the lock. */
  lemma ReplaceUpToLock() returns (trace: seq<State>, actions: seq<Action>)
    ensures IsRun(trace, actions) && Init(trace[0])
    ensures var s := trace[|actions|];
            && s.cur == 0 && s.lists == map[0 := [0, 1]] && s.lock == Some(1)
            && s.threads == map[0 := Adder(1, true, AliasHeld(0)), 1 := Replacer([2, 3], None, Locked)]
  {
    trace, actions := AddUpToAliasRead();
    var s5 := AfterStartReplace(trace[|actions|], 1, [2, 3], None);
    var s6 := AfterAcquire(s5, 1);
    RunExtends(trace, actions, StartReplace(1, [2, 3], None), s5);
    trace, actions := trace + [s5], actions + [StartReplace(1, [2, 3], None)];
    RunExtends(trace, actions, Acquire(1), s6);
    trace, actions := trace + [s6], actions + [Acquire(1)];
  }

  /** It commits, installs and returns. */
  lemma ReplaceMeanwhile() returns (trace: seq<State>, actions: seq<Action>)
    ensures IsRun(trace, actions) && Init(trace[0])
    ensures var s := trace[|actions|];
            && s.cur in s.lists && 0 in s.lists && s.lists[0] == [0, 1] && s.rows == [2, 3] && s.lock == None
            && s.threads == map[0 := Adder(1, true, AliasHeld(0)), 1 := Replacer([2, 3], None, Returned(true))]
  {
    trace, actions := ReplaceUpToLock();
    var s7 := AfterCommitRows(trace[|actions|], 1);
    var s8 := AfterInstall(s7, 1);
    RunExtends(trace, actions, CommitRows(1), s7);
    trace, actions := trace + [s7], actions + [CommitRows(1)];
    RunExtends(trace, actions, Install(1), s8);
    trace, actions := trace + [s8], actions + [Install(1)];
  }

  /** Call 0 then writes its list back, which undoes the install, and takes the lock. */
  lemma WriteBackAfterInstall() returns (trace: seq<State>, actions: seq<Action>)
    ensures IsRun(trace, actions) && Init(trace[0])
    ensures var s := trace[|actions|];
            && s.cur == 0 && 0 in s.lists && s.lists[0] == [0, 1] && s.rows == [2, 3] && s.lock == Some(0)
            && s.threads == map[0 := Adder(1, true, Holding), 1 := Replacer([2, 3], None, Returned(true))]
  {
    trace, actions := ReplaceMeanwhile();
    var s8 := trace[|actions|];
    var s9 := AfterAliasWrite(s8, 0);
    var s10 := AfterAcquire(s9, 0);
    RunExtends(trace, actions, AliasWrite(0), s9);
    trace, actions := trace + [s9], actions + [AliasWrite(0)];
    RunExtends(trace, actions, Acquire(0), s10);
    trace, actions := trace + [s10], actions + [Acquire(0)];
  }

  /**
   Once call 0 has persisted, no call is in flight, and memory and rows disagree in contents and in number; message_count
   follows memory.
   */
  lemma StaleWriteBackDisagrees() returns (trace: seq<State>, actions: seq<Action>)
    ensures IsRun(trace, actions) && Init(trace[0]) && Quiescent(trace[|actions|])
    ensures trace[|actions|].cur in trace[|actions|].lists
    ensures Memory(trace[|actions|]) == [0, 1] && trace[|actions|].rows == [2, 3, 1] && trace[|actions|].count == 2
  {
    trace, actions := WriteBackAfterInstall();
    var s10 := trace[|actions|];
    var s11 := AfterRepair(s10, 0);
    var s12 := Advance(s11, 0, Counted(|Memory(s11)|));
    var s13 := AfterCommitRow(s12, 0);
    RunExtends(trace, actions, Repair(0), s11);
    trace, actions := trace + [s11], actions + [Repair(0)];
    RunExtends(trace, actions, CountMemory(0), s12);
    trace, actions := trace + [s12], actions + [CountMemory(0)];
    RunExtends(trace, actions, CommitRow(0), s13);
    trace, actions := trace + [s13], actions + [CommitRow(0)];
  }
}
