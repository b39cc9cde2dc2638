/**
 What a compare-and-swap of a whole history answers, and what it may commit: the checks it passes, the ids that messages
 and rows carry, which adds can write a list back, and what a guarded swap cannot install.
 */
module HistorySwaps {
  import opened HistoryProtocol
  import opened Options

  // ---------------------------------------------------------------- what a compare-and-swap answers

  ghost predicate Swapper(s: State, t: Tid) {
    t in s.threads && s.threads[t].Replacer? && s.threads[t].expected.Some?
  }

  ghost predicate IsCheckOf(a: Action, t: Tid) {
    (a.CheckMemory? || a.CheckRows? || a.RecheckMemory?) && a.t == t
  }

  /** The snapshot that a check sees: of the rows, or of the history. */
  ghost function Seen(s: State, a: Action): Ids
    requires s.cur in s.lists
  {
    if a.CheckRows? then RowIds(s) else MemoryIds(s)
  }

  /** What `t` expects is what the check sees. */
  ghost predicate SeesExpected(s: State, a: Action, t: Tid) {
    Swapper(s, t) && s.cur in s.lists && s.threads[t].expected.value == Seen(s, a)
  }

  ghost predicate MatchAt(trace: seq<State>, actions: seq<Action>, i: nat, t: Tid, check: Action)
    requires i < |actions| && |trace| == |actions| + 1
  {
    actions[i] == check && SeesExpected(trace[i], check, t)
  }

  ghost predicate MismatchAt(trace: seq<State>, actions: seq<Action>, i: nat, t: Tid)
    requires i < |actions| && |trace| == |actions| + 1
  {
    IsCheckOf(actions[i], t) && !SeesExpected(trace[i], actions[i], t)
  }

  /** Among the first `n` actions is this check, and it saw what was expected. */
  ghost predicate Matched(trace: seq<State>, actions: seq<Action>, n: nat, t: Tid, check: Action)
    requires n <= |actions| && |trace| == |actions| + 1
  {
    exists i: nat :: i < n && MatchAt(trace, actions, i, t, check)
  }

  /** Among the first `n` actions is a check of `t` that saw something else. */
  ghost predicate Mismatched(trace: seq<State>, actions: seq<Action>, n: nat, t: Tid)
    requires n <= |actions| && |trace| == |actions| + 1
  {
    exists i: nat :: i < n && MismatchAt(trace, actions, i, t)
  }

  /** How many of the three checks a replacement at this point has behind it. */
  ghost function ChecksPassed(rpc: ReplacePc): nat {
    match rpc
    case MemoryMatched => 1
    case RowsMatched => 2
    case Rechecked => 3
    case Committed => 3
    case Returned(ok) => if ok then 3 else 0
    case _ => 0
  }

  ghost function CheckNumber(a: Action): nat {
    if a.CheckMemory? then 1 else if a.CheckRows? then 2 else 3
  }

  lemma OwnCheckDecides(s: State, a: Action, t: Tid)
    requires Enabled(s, a) && Swapper(s, t) && IsCheckOf(a, t)
    ensures var s' := Do(s, a);
            && Swapper(s', t) && s'.threads[t].expected == s.threads[t].expected
            && !s.threads[t].rpc.Returned? && ChecksPassed(s.threads[t].rpc) == CheckNumber(a) - 1
            && if SeesExpected(s, a, t) then ChecksPassed(s'.threads[t].rpc) == CheckNumber(a) && !s'.threads[t].rpc.Returned?
               else s'.threads[t].rpc == Returned(false)
  {
  }

  lemma OtherStepsCheckNothing(s: State, a: Action, t: Tid)
    requires Enabled(s, a) && Swapper(s, t) && !IsCheckOf(a, t)
    ensures var s' := Do(s, a);
            && Swapper(s', t) && s'.threads[t].expected == s.threads[t].expected
            && ChecksPassed(s'.threads[t].rpc) == ChecksPassed(s.threads[t].rpc)
            && (s'.threads[t].rpc == Returned(false) <==> s.threads[t].rpc == Returned(false))
  {
    if a.t == t {
      assert a.Acquire? || a.CommitRows? || a.Install?;
    } else if !StartsOrCommits(a) {
      StepIsQuiet(s, a);
    }
  }

  /** A compare-and-swap begins with no check behind it. */
  lemma SwapStarts(s: State, a: Action, t: Tid)
    requires Enabled(s, a) && !Swapper(s, t)
    ensures !IsCheckOf(a, t)
    ensures Swapper(Do(s, a), t) ==> Do(s, a).threads[t].rpc == Called
  {
    if !StartsOrCommits(a) { StepIsQuiet(s, a); }
  }

  /** The checks that `t` has behind it have seen what it expects, and it has given up exactly when one has not. */
  ghost predicate IsChecked(trace: seq<State>, actions: seq<Action>, n: nat, t: Tid)
    requires n <= |actions| && |trace| == |actions| + 1
  {
    && (Mismatched(trace, actions, n, t) <==> Swapper(trace[n], t) && trace[n].threads[t].rpc == Returned(false))
    && (Swapper(trace[n], t) ==>
          var passed := ChecksPassed(trace[n].threads[t].rpc);
          && (passed >= 1 ==> Matched(trace, actions, n, t, CheckMemory(t)))
          && (passed >= 2 ==> Matched(trace, actions, n, t, CheckRows(t)))
          && (passed >= 3 ==> Matched(trace, actions, n, t, RecheckMemory(t))))
  }

  lemma MatchedNext(trace: seq<State>, actions: seq<Action>, k: nat, n: nat, t: Tid, check: Action)
    requires n == k + 1 <= |actions| && |trace| == |actions| + 1
    ensures Matched(trace, actions, n, t, check) <==> Matched(trace, actions, k, t, check) || MatchAt(trace, actions, k, t, check)
  {
  }

  lemma MismatchedNext(trace: seq<State>, actions: seq<Action>, k: nat, n: nat, t: Tid)
    requires n == k + 1 <= |actions| && |trace| == |actions| + 1
    ensures Mismatched(trace, actions, n, t) <==> Mismatched(trace, actions, k, t) || MismatchAt(trace, actions, k, t)
  {
  }

  /** `IsChecked`, for a state and whether there was a mismatch and each of the checks matched. */
  ghost predicate Checked(s: State, t: Tid, mismatch: bool, memory: bool, rows: bool, again: bool) {
    && (mismatch <==> Swapper(s, t) && s.threads[t].rpc == Returned(false))
    && (Swapper(s, t) ==>
          var passed := ChecksPassed(s.threads[t].rpc);
          (passed >= 1 ==> memory) && (passed >= 2 ==> rows) && (passed >= 3 ==> again))
  }

  lemma CheckedStep(s: State, a: Action, s': State, t: Tid, mismatch: bool, memory: bool, rows: bool, again: bool)
    requires IsStep(s, a, s') && Checked(s, t, mismatch, memory, rows, again)
    ensures var seen := SeesExpected(s, a, t);
            Checked(s', t, mismatch || (IsCheckOf(a, t) && !seen), memory || (a == CheckMemory(t) && seen),
                    rows || (a == CheckRows(t) && seen), again || (a == RecheckMemory(t) && seen))
  {
    if !Swapper(s, t) {
      SwapStarts(s, a, t);
    } else if IsCheckOf(a, t) {
      OwnCheckDecides(s, a, t);
    } else {
      OtherStepsCheckNothing(s, a, t);
    }
  }

  lemma CheckedNext(trace: seq<State>, actions: seq<Action>, k: nat, n: nat, t: Tid)
    requires IsRun(trace, actions) && n == k + 1 <= |actions| && IsChecked(trace, actions, k, t)
    ensures IsChecked(trace, actions, n, t)
  {
    var mismatch, memory := Mismatched(trace, actions, k, t), Matched(trace, actions, k, t, CheckMemory(t));
    var rows, again := Matched(trace, actions, k, t, CheckRows(t)), Matched(trace, actions, k, t, RecheckMemory(t));
    assert StepAt(trace, actions, k);
    CheckedStep(trace[k], actions[k], trace[n], t, mismatch, memory, rows, again);
    MismatchedNext(trace, actions, k, n, t);
    MatchedNext(trace, actions, k, n, t, CheckMemory(t));
    MatchedNext(trace, actions, k, n, t, CheckRows(t));
    MatchedNext(trace, actions, k, n, t, RecheckMemory(t));
  }

  lemma {:induction false} RunIsChecked(trace: seq<State>, actions: seq<Action>, n: nat, t: Tid)
    requires IsRun(trace, actions) && trace[0].threads == map[] && n <= |actions|
    ensures IsChecked(trace, actions, n, t)
  {
    if n > 0 {
      var k := n - 1;
      RunIsChecked(trace, actions, k, t);
      CheckedNext(trace, actions, k, n, t);
    }
  }

  /**
   What a compare-and-swap answers, in every run.  It commits only after its three checks, of the history, of the rows
   and of the history again, have each seen the expected snapshot; and it returns True exactly when none of its checks
   has seen anything else.
   */
  lemma SwapReturnsIff(trace: seq<State>, actions: seq<Action>, t: Tid)
    requires IsRun(trace, actions) && Init(trace[0]) && Swapper(trace[|actions|], t)
    ensures var n, rpc := |actions|, trace[|actions|].threads[t].rpc;
            && (rpc in {Rechecked, Committed, Returned(true)} ==>
                  && Matched(trace, actions, n, t, CheckMemory(t))
                  && Matched(trace, actions, n, t, CheckRows(t))
                  && Matched(trace, actions, n, t, RecheckMemory(t)))
            && (rpc.Returned? ==> (rpc.ok <==> !Mismatched(trace, actions, n, t)))
  {
    RunIsChecked(trace, actions, |actions|, t);
  }

  // ---------------------------------------------------------------- the ids that messages carry

  /** The commit wrote a row from this message. */
  ghost predicate Names(c: Commit, x: Msg) {
    match c
    case AddOne(m) => m == x
    case ReplaceAll(ms) => x in ms
  }

  ghost predicate NamedIn(log: seq<Commit>, x: Msg) {
    exists i :: 0 <= i < |log| && Names(log[i], x)
  }

  /** A message carries an id exactly when a row has been written from it. */
  ghost predicate Stamped(s: State) {
    forall x :: x in s.ids <==> x in s.base || NamedIn(s.log, x)
  }

  lemma NamedNext(log: seq<Commit>, c: Commit)
    ensures forall x :: NamedIn(log + [c], x) <==> NamedIn(log, x) || Names(c, x)
  {
    forall x ensures NamedIn(log + [c], x) <==> NamedIn(log, x) || Names(c, x) {
      assert (log + [c])[|log|] == c;
      if NamedIn(log, x) {
        var i :| 0 <= i < |log| && Names(log[i], x);
        assert (log + [c])[i] == log[i];
      }
    }
  }

  lemma {:induction false} StampLast(ids: map<Msg, nat>, ms: seq<Msg>, first: nat, i: nat)
    requires i < |ms| && IsLast(ms, i)
    ensures IdOf(Stamp(ids, ms, first), ms[i]) == Some(first + i)
  {
    if i < |ms| - 1 {
      var front := ms[..|ms| - 1];
      assert front[i] == ms[i] && IsLast(front, i);
      StampLast(ids, front, first, i);
    }
  }

  lemma IdAppended(ids: map<Msg, nat>, rows: seq<Msg>, rowIds: seq<nat>, id: nat, m: Msg)
    requires IdsBooked(ids, rows, rowIds, id)
    ensures IdsBooked(ids[m := id], rows + [m], rowIds + [id], id + 1)
  {
    var ids', rows', rowIds' := ids[m := id], rows + [m], rowIds + [id];
    forall i: nat | i < |rows'| ensures CarriesId(ids', rows', rowIds', i) {
      if i < |rows| && IsLast(rows', i) {
        assert rows'[|rows|] != rows'[i];
        assert forall j :: i < j < |rows| ==> rows'[j] == rows[j];
        assert CarriesId(ids, rows, rowIds, i);
      }
    }
  }

  lemma IdsReplaced(ids: map<Msg, nat>, ms: seq<Msg>, first: nat)
    ensures IdsBooked(Stamp(ids, ms, first), ms, NewIds(first, |ms|), first + |ms|)
  {
    var ids', rowIds := Stamp(ids, ms, first), NewIds(first, |ms|);
    forall i: nat | i < |ms| ensures CarriesId(ids', ms, rowIds, i) {
      if IsLast(ms, i) { StampLast(ids, ms, first, i); }
    }
  }

  lemma CommitRowKeepsStamps(s: State, t: Tid)
    requires Stamped(s) && CanCommitRow(s, t)
    ensures Stamped(AfterCommitRow(s, t))
  {
    NamedNext(s.log, AddOne(s.threads[t].msg));
  }

  lemma CommitRowsKeepsStamps(s: State, t: Tid)
    requires Stamped(s) && CanCommitRows(s, t)
    ensures Stamped(AfterCommitRows(s, t))
  {
    var ms := s.threads[t].messages;
    NamedNext(s.log, ReplaceAll(ms));
    assert AfterCommitRows(s, t).ids.Keys == s.ids.Keys + set m | m in ms;
  }

  lemma StepKeepsIds(s: State, a: Action, s': State)
    requires RowIdsBooked(s) && Stamped(s) && IsStep(s, a, s')
    ensures RowIdsBooked(s') && Stamped(s')
  {
    if a.CommitRow? {
      IdAppended(s.ids, s.rows, s.rowIds, s.nextId, s.threads[a.t].msg);
      CommitRowKeepsStamps(s, a.t);
    } else if a.CommitRows? {
      IdsReplaced(s.ids, s.threads[a.t].messages, s.nextId);
      CommitRowsKeepsStamps(s, a.t);
    } else if !StartsOrCommits(a) {
      StepIsQuiet(s, a);
      assert s'.ids == s.ids && s'.rowIds == s.rowIds && s'.nextId == s.nextId;
    }
  }

  /**
   In every run the row ids are distinct, a message carries the id of its row, or of the last one written from it, and a
   message from which no row was written carries none.
   */
  lemma {:induction false} RowsCarryTheirIds(trace: seq<State>, actions: seq<Action>, n: nat)
    requires IsRun(trace, actions) && Init(trace[0]) && n <= |actions|
    ensures RowIdsBooked(trace[n]) && Stamped(trace[n])
  {
    if n > 0 {
      var k := n - 1;
      RowsCarryTheirIds(trace, actions, k);
      assert StepAt(trace, actions, k);
      StepKeepsIds(trace[k], actions[k], trace[n]);
    }
  }

  /** So where memory lists what the rows list, each message once, the snapshot of memory is that of the rows. */
  lemma MemoryShowsRowIds(s: State)
    requires RowIdsBooked(s) && s.cur in s.lists && Memory(s) == s.rows
    requires forall i, j :: 0 <= i < j < |s.rows| ==> s.rows[i] != s.rows[j]
    ensures MemoryIds(s) == RowIds(s)
  {
    forall i | 0 <= i < |s.rows| ensures MemoryIds(s)[i] == RowIds(s)[i] {
      assert IsLast(s.rows, i) && CarriesId(s.ids, s.rows, s.rowIds, i);
    }
  }

  /** From here to the end of the run, `actions` are the call `t` alone. */
  ghost predicate RunsAlone(trace: seq<State>, actions: seq<Action>, s: State, t: Tid) {
    IsRun(trace, actions) && trace[0] == s && forall i :: 0 <= i < |actions| ==> actions[i].t == t
  }

  lemma RunsOn(trace: seq<State>, actions: seq<Action>, s: State, t: Tid, a: Action, s': State)
    requires RunsAlone(trace, actions, s, t) && IsStep(trace[|actions|], a, s') && a.t == t
    ensures RunsAlone(trace + [s'], actions + [a], s, t)
  {
    RunExtends(trace, actions, a, s');
  }

  lemma UndisturbedStart(s: State, t: Tid, ms: seq<Msg>) returns (trace: seq<State>, actions: seq<Action>)
    requires s.cur in s.lists && s.lock == None && t !in s.threads
    ensures RunsAlone(trace, actions, s, t)
    ensures |actions| > 0 && actions[0] == StartReplace(t, ms, Some(MemoryIds(s)))
    ensures var e := trace[|actions|];
            && SwapperAt(e, t, Locked) && e.threads[t] == Replacer(ms, Some(MemoryIds(s)), Locked)
            && e.cur == s.cur && e.lists == s.lists && e.ids == s.ids && e.rowIds == s.rowIds
  {
    var s1 := AfterStartReplace(s, t, ms, Some(MemoryIds(s)));
    var s2 := AfterAcquire(s1, t);
    trace, actions := [s], [];
    RunsOn(trace, actions, s, t, StartReplace(t, ms, Some(MemoryIds(s))), s1);
    trace, actions := trace + [s1], actions + [StartReplace(t, ms, Some(MemoryIds(s)))];
    RunsOn(trace, actions, s, t, Acquire(t), s2);
    trace, actions := trace + [s2], actions + [Acquire(t)];
  }

  /** A compare-and-swap with the current snapshot passes its three checks when nothing comes between them. */
  lemma UndisturbedChecksPass(s: State, t: Tid, ms: seq<Msg>) returns (trace: seq<State>, actions: seq<Action>)
    requires s.cur in s.lists && s.lock == None && t !in s.threads && MemoryIds(s) == RowIds(s)
    ensures RunsAlone(trace, actions, s, t)
    ensures |actions| > 0 && actions[0] == StartReplace(t, ms, Some(MemoryIds(s)))
    ensures var e := trace[|actions|]; SwapperAt(e, t, Rechecked) && e.threads[t].messages == ms && e.cur in e.lists
  {
    trace, actions := UndisturbedStart(s, t, ms);
    var s2 := trace[|actions|];
    assert MemoryIds(s2) == MemoryIds(s) && RowIds(s2) == RowIds(s);
    var s3, s4, s5 := Move(s2, t, MemoryMatched), Move(s2, t, RowsMatched), Move(s2, t, Rechecked);
    assert MemoryIds(s4) == MemoryIds(s2) && RowIds(s3) == RowIds(s2);
    RunsOn(trace, actions, s, t, CheckMemory(t), s3);
    trace, actions := trace + [s3], actions + [CheckMemory(t)];
    RunsOn(trace, actions, s, t, CheckRows(t), s4);
    trace, actions := trace + [s4], actions + [CheckRows(t)];
    RunsOn(trace, actions, s, t, RecheckMemory(t), s5);
    trace, actions := trace + [s5], actions + [RecheckMemory(t)];
  }

  /** ... and then leaves the given messages as history and as rows. */
  lemma UndisturbedSwapSucceeds(s: State, t: Tid, ms: seq<Msg>) returns (trace: seq<State>, actions: seq<Action>)
    requires s.cur in s.lists && s.lock == None && t !in s.threads && MemoryIds(s) == RowIds(s)
    ensures RunsAlone(trace, actions, s, t)
    ensures |actions| > 0 && actions[0] == StartReplace(t, ms, Some(MemoryIds(s)))
    ensures var e := trace[|actions|];
            && SwapperAt(e, t, Returned(true)) && e.lock == None
            && e.cur in e.lists && Memory(e) == e.rows == ms && e.count == |ms|
  {
    trace, actions := UndisturbedChecksPass(s, t, ms);
    var s6 := AfterCommitRows(trace[|actions|], t);
    var s7 := AfterInstall(s6, t);
    RunsOn(trace, actions, s, t, CommitRows(t), s6);
    trace, actions := trace + [s6], actions + [CommitRows(t)];
    RunsOn(trace, actions, s, t, Install(t), s7);
    trace, actions := trace + [s7], actions + [Install(t)];
  }

  // ---------------------------------------------------------------- which adds write back

  ghost predicate ManagersHold(s: State) {
    forall t :: t in s.threads && s.threads[t].Adder? && s.threads[t].apc.AliasHeld? ==> s.threads[t].viaManager
  }

  lemma ReplacerStaysReplacer(s: State, a: Action)
    requires Enabled(s, a) && a.t in s.threads && s.threads[a.t].Replacer?
    ensures a.t in Do(s, a).threads && Do(s, a).threads[a.t].Replacer?
  {
  }

  lemma OnlyReadHolds(s: State, a: Action)
    requires Enabled(s, a) && !a.AliasRead? && (a.t in s.threads ==> s.threads[a.t].Adder?)
    ensures a.t in Do(s, a).threads && Do(s, a).threads[a.t].Adder? ==> !Do(s, a).threads[a.t].apc.AliasHeld?
  {
  }

  lemma OwnStepOfAdd(s: State, a: Action)
    requires Enabled(s, a)
    ensures var s' := Do(s, a);
            a.t in s'.threads && s'.threads[a.t].Adder? && s'.threads[a.t].apc.AliasHeld? ==> s'.threads[a.t].viaManager
  {
    if a.AliasRead? {
    } else if a.t in s.threads && s.threads[a.t].Replacer? {
      ReplacerStaysReplacer(s, a);
    } else {
      OnlyReadHolds(s, a);
    }
  }

  lemma StepAddsOnly(s: State, a: Action, t: Tid)
    requires Enabled(s, a) && t in Do(s, a).threads && t != a.t
    ensures t in s.threads && Do(s, a).threads[t] == s.threads[t]
  {
    if !StartsOrCommits(a) { StepIsQuiet(s, a); }
  }

  lemma StepKeepsManagers(s: State, a: Action)
    requires ManagersHold(s) && Enabled(s, a)
    ensures ManagersHold(Do(s, a))
  {
    OwnStepOfAdd(s, a);
    var s' := Do(s, a);
    forall t | t in s'.threads && t != a.t ensures t in s.threads && s'.threads[t] == s.threads[t] {
      StepAddsOnly(s, a, t);
    }
  }

  lemma {:induction false} RunKeepsManagers(trace: seq<State>, actions: seq<Action>, n: nat)
    requires IsRun(trace, actions) && Init(trace[0]) && n <= |actions|
    ensures ManagersHold(trace[n])
  {
    if n > 0 {
      var k := n - 1;
      RunKeepsManagers(trace, actions, k);
      assert StepAt(trace, actions, k);
      StepKeepsManagers(trace[k], actions[k]);
    }
  }

  /** The add is past the point at which `SessionManager.add_message` writes its list back. */
  ghost predicate PastWriteBack(s: State, t: Tid) {
    && t in s.threads && s.threads[t].Adder? && s.threads[t].viaManager
    && !s.threads[t].apc.Begin? && !s.threads[t].apc.Fetched? && !s.threads[t].apc.Appended? && !s.threads[t].apc.AliasHeld?
  }

  ghost predicate WroteBackIn(actions: seq<Action>, n: nat, t: Tid)
    requires n <= |actions|
  {
    exists i :: 0 <= i < n && actions[i] == AliasWrite(t)
  }

  lemma StepPastWriteBack(s: State, a: Action, t: Tid)
    requires Enabled(s, a) && PastWriteBack(Do(s, a), t)
    ensures PastWriteBack(s, t) || a == AliasWrite(t)
  {
    if a.t != t { StepAddsOnly(s, a, t); }
  }

  /** In every run `SessionManager.add_message` has written a list back before it takes the lock ... */
  lemma {:induction false} ManagersWriteBack(trace: seq<State>, actions: seq<Action>, n: nat, t: Tid)
    requires IsRun(trace, actions) && Init(trace[0]) && n <= |actions| && PastWriteBack(trace[n], t)
    ensures WroteBackIn(actions, n, t)
  {
    var k := n - 1;
    assert StepAt(trace, actions, k);
    StepPastWriteBack(trace[k], actions[k], t);
    if PastWriteBack(trace[k], t) {
      ManagersWriteBack(trace, actions, k, t);
    }
  }

  /** ... and nothing else does. */
  lemma OnlyManagersWriteBack(trace: seq<State>, actions: seq<Action>, k: nat)
    requires IsRun(trace, actions) && Init(trace[0]) && k < |actions| && actions[k].AliasWrite?
    ensures var s, t := trace[k], actions[k].t; t in s.threads && s.threads[t].Adder? && s.threads[t].viaManager
  {
    RunKeepsManagers(trace, actions, k);
    assert StepAt(trace, actions, k);
  }

  // ---------------------------------------------------------------- what a compare-and-swap sees to

  /** A swap that names no message in flight, or whose snapshot has a message without an id and can match no rows. */
  ghost predicate Guarded(s: State, t: Tid) {
    && t in s.threads && s.threads[t].Replacer? && s.threads[t].expected.Some?
    && (forall m :: m in s.threads[t].messages ==> m in s.used)
    && (|| NamesNoPending(s, s.threads[t].messages)
        || (None in s.threads[t].expected.value && s.threads[t].rpc !in {RowsMatched, Rechecked, Committed}))
  }

  /** A step moves only its own thread, and puts in flight only messages never seen. */
  lemma StepFrame(s: State, a: Action)
    requires Enabled(s, a)
    ensures var s' := Do(s, a);
            && s.used <= s'.used
            && (forall u :: u in s.threads && u != a.t ==> u in s'.threads && s'.threads[u] == s.threads[u])
            && (forall m :: m in s'.inFlight ==> m in s.inFlight || m !in s.used)
  {
    if !StartsOrCommits(a) { StepIsQuiet(s, a); }
  }

  /** The swap's own steps: its list and snapshot stay, and it goes past the rows only with a snapshot of them. */
  lemma OwnStepOfSwap(s: State, a: Action)
    requires Enabled(s, a) && a.t in s.threads && s.threads[a.t].Replacer? && s.threads[a.t].expected.Some?
    ensures var th, th' := s.threads[a.t], Do(s, a).threads[a.t];
            && th' == th.(rpc := th'.rpc)
            && (None in th.expected.value && th.rpc in {Called, Locked, MemoryMatched} ==> th'.rpc !in {RowsMatched, Rechecked, Committed})
            && (th.rpc.Returned? || th.rpc == Committed ==> th'.rpc.Returned?)
  {
    if a.CheckRows? { assert None !in RowIds(s); }
  }

  lemma StepKeepsGuarded(s: State, a: Action, t: Tid)
    requires Guarded(s, t) && Enabled(s, a)
    ensures Guarded(Do(s, a), t)
  {
    StepFrame(s, a);
    if a.t == t {
      OwnStepOfSwap(s, a);
    }
  }

  lemma {:induction false} GuardedUntil(trace: seq<State>, actions: seq<Action>, i: nat, k: nat, t: Tid)
    requires IsRun(trace, actions) && i <= k <= |actions| && Guarded(trace[i], t)
    ensures Guarded(trace[k], t)
  {
    if i < k {
      GuardedUntil(trace, actions, i, k - 1, t);
      assert StepAt(trace, actions, k - 1);
      StepKeepsGuarded(trace[k - 1], actions[k - 1], t);
    }
  }

  /**
   A replacement with an expected snapshot installs cleanly by itself, in every run and however late it starts, when
   the snapshot has an entry without an id or it names no message in flight.  The compactor's guard sees to that: it
   takes the new list from a history that has the very snapshot.
   */
  lemma GuardedSwapInstallsCleanly(trace: seq<State>, actions: seq<Action>, i: nat, k: nat, t: Tid)
    requires IsRun(trace, actions) && i < k < |actions|
    requires actions[i].StartReplace? && actions[i].t == t && actions[i].expected.Some?
    requires NamesNoPending(trace[i], actions[i].messages) || None in actions[i].expected.value
    requires actions[k] == Install(t)
    ensures ReplacerAt(trace[k], t, Committed)
    ensures NamesNoPending(trace[k], trace[k].threads[t].messages) && InstallsCleanly(trace[k], t)
  {
    assert StepAt(trace, actions, i);
    assert StepAt(trace, actions, k);
    GuardedUntil(trace, actions, i + 1, k, t);
  }
}
