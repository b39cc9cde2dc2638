/**
 The durable half of the browser sessions: threads that change the in-memory session table and then save it to one
 file, each save split into the steps of the atomic writer, with a crash possible at any step.

 A file is an inode with contents; the directory maps the file name to an inode.  A process kill loses memory only.
 A power loss also loses the contents of files that were not fsynced, and may undo a rename whose directory was not.
 */
module SessionFile {
  import opened Options

  type Token = nat
  type User = nat
  type Ino = nat
  type Tid = nat
  type Table = map<Token, User>

  /** A file being or having been written: the table it is meant to hold and the chunks of it written so far. */
  datatype File = File(table: Table, written: nat, synced: bool)

  /** The JSON text of a table is written in this many chunks: braces and one chunk per entry. */
  function Chunks(table: Table): nat {
    |table| + 2
  }

  predicate Whole(f: File) {
    f.written == Chunks(f.table) && f.synced
  }

  datatype Pc =
    | Called
    | Inside                // holds the lock, table not yet changed
    | Changed               // holds the lock, table changed
    | Unsaved               // released the lock, save still to come
    | Saving                // holds the lock, inside `_save_sessions`
    | Writing(tmp: Ino)     // temporary file created
    | Synced(tmp: Ino)      // written, flushed and fsynced
    | Replaced              // `os.replace` done
    | Done(ok: bool)        // lock released; False when the write failed and the error was logged

  datatype State = State(
    mem: Table,
    issued: set<Token>,     // every token the table ever held
    lock: Option<Tid>,
    threads: map<Tid, Pc>,
    inodes: map<Ino, File>,
    path: Ino,              // what the file name refers to
    durable: Ino,           // what it refers to after a power loss, unless the later rename survives
    versions: seq<Table>,   // the values of `mem`, oldest first
    published: seq<nat>,    // the versions that became the file, in order of `os.replace`
    debtor: Tid             // the thread that last changed `mem`
  )

  datatype Action =
    | Start(t: Tid)
    | Enter(t: Tid)
    | Change(t: Tid, table: Table)
    | LeaveUnchanged(t: Tid)
    | Leave(t: Tid)
    | EnterSave(t: Tid)
    | CreateTemp(t: Tid, ino: Ino)
    | WriteChunk(t: Tid)
    | Fsync(t: Tid)
    | Replace(t: Tid)
    | SyncDirectory(t: Tid)
    | Finish(t: Tid)
    | Fail(t: Tid)
    | Kill(keep: set<Token>, t: Tid)
    | PowerLoss(entry: Ino, inodes: map<Ino, File>, keep: set<Token>, t: Tid)

  ghost function FileTable(s: State): Table
    requires s.path in s.inodes
  {
    s.inodes[s.path].table
  }

  ghost predicate HoldsLock(pc: Pc) {
    pc.Inside? || pc.Changed? || pc.Saving? || pc.Writing? || pc.Synced? || pc.Replaced?
  }

  ghost predicate At(s: State, t: Tid, pc: Pc) {
    t in s.threads && s.threads[t] == pc
  }

  // ---------------------------------------------------------------- the steps

  ghost predicate CanWrite(s: State, t: Tid) {
    t in s.threads && s.threads[t].Writing? && s.threads[t].tmp in s.inodes
  }

  ghost function Temp(s: State, t: Tid): File
    requires CanWrite(s, t)
  {
    s.inodes[s.threads[t].tmp]
  }

  ghost predicate CanReplace(s: State, t: Tid) {
    t in s.threads && s.threads[t].Synced? && s.threads[t].tmp in s.inodes
  }

  /** Power loss keeps the contents of fsynced files; the rest may be anything. */
  ghost predicate Survives(inodes: map<Ino, File>, inodes': map<Ino, File>) {
    forall i :: i in inodes && inodes[i].synced ==> i in inodes' && inodes'[i] == inodes[i]
  }

  ghost predicate Enabled(s: State, a: Action) {
    && s.path in s.inodes
    && match a
       case Start(t) => t !in s.threads
       case Enter(t) => At(s, t, Called) && s.lock == None
       case Change(t, table) => At(s, t, Inside) && forall k :: k in table && k !in s.mem ==> k !in s.issued
       case LeaveUnchanged(t) => At(s, t, Inside)
       case Leave(t) => At(s, t, Changed)
       case EnterSave(t) => (At(s, t, Unsaved) && s.lock == None) || At(s, t, Changed)
       case CreateTemp(t, ino) => At(s, t, Saving) && ino !in s.inodes
       case WriteChunk(t) => CanWrite(s, t) && Temp(s, t).written < Chunks(Temp(s, t).table)
       case Fsync(t) => CanWrite(s, t) && Temp(s, t).written == Chunks(Temp(s, t).table)
       case Replace(t) => CanReplace(s, t)
       case SyncDirectory(t) => At(s, t, Replaced)
       case Finish(t) => At(s, t, Replaced)
       case Fail(t) => t in s.threads && (s.threads[t].Saving? || s.threads[t].Writing? || s.threads[t].Synced?)
       case Kill(keep, _) => keep <= FileTable(s).Keys
       case PowerLoss(entry, inodes, keep, _) =>
         && entry in {s.path, s.durable} && entry in inodes && Survives(s.inodes, inodes)
         && keep <= inodes[entry].table.Keys
  }

  ghost function Step(s: State, t: Tid, pc: Pc): State {
    s.(threads := s.threads[t := pc])
  }

  ghost function WithTemp(s: State, t: Tid, f: File): State
    requires CanWrite(s, t)
  {
    s.(inodes := s.inodes[s.threads[t].tmp := f])
  }

  ghost function AfterChange(s: State, t: Tid, table: Table): State {
    Step(s, t, Changed).(mem := table, issued := s.issued + table.Keys, versions := s.versions + [table], debtor := t)
  }

  ghost function AfterReplace(s: State, t: Tid): State
    requires CanReplace(s, t) && s.versions != []
  {
    Step(s, t, Replaced).(path := s.threads[t].tmp, published := s.published + [|s.versions| - 1])
  }

  /**
   A new process: it loads the file, without the entries that have expired, and saves the table back when it
   dropped any.
   */
  ghost function Restart(s: State, keep: set<Token>, t: Tid): State
    requires s.path in s.inodes
  {
    var loaded := map k | k in FileTable(s) && k in keep :: FileTable(s)[k];
    s.(mem := loaded, lock := None, versions := s.versions + [loaded], debtor := t,
       threads := if loaded == FileTable(s) then map[] else map[t := Unsaved])
  }

  ghost function Do(s: State, a: Action): State
    requires Enabled(s, a) && s.versions != []
  {
    match a
    case Start(t) => Step(s, t, Called)
    case Enter(t) => Step(s, t, Inside).(lock := Some(t))
    case Change(t, table) => AfterChange(s, t, table)
    case LeaveUnchanged(t) => Step(s, t, Done(true)).(lock := None)
    case Leave(t) => Step(s, t, Unsaved).(lock := None)
    case EnterSave(t) => Step(s, t, Saving).(lock := Some(t))
    case CreateTemp(t, ino) => Step(s, t, Writing(ino)).(inodes := s.inodes[ino := File(s.mem, 0, false)])
    case WriteChunk(t) => WithTemp(s, t, Temp(s, t).(written := Temp(s, t).written + 1))
    case Fsync(t) => Step(WithTemp(s, t, Temp(s, t).(synced := true)), t, Synced(s.threads[t].tmp))
    case Replace(t) => AfterReplace(s, t)
    case SyncDirectory(_) => s.(durable := s.path)
    case Finish(t) => Step(s, t, Done(true)).(lock := None)
    case Fail(t) => Step(s, t, Done(false)).(lock := None)
    case Kill(keep, t) => Restart(s, keep, t)
    case PowerLoss(entry, inodes, keep, t) => Restart(s.(path := entry, durable := entry, inodes := inodes), keep, t)
  }

  // ---------------------------------------------------------------- runs

  /** A process that has loaded a complete session file, no thread in the session code. */
  ghost predicate Init(s: State) {
    && s.path in s.inodes && s.durable == s.path && Whole(s.inodes[s.path])
    && s.mem == FileTable(s) && s.issued == s.mem.Keys && s.versions == [s.mem]
    && s.lock == None && s.threads == map[] && s.published == []
  }

  ghost predicate IsStep(s: State, a: Action, s': State) {
    s.versions != [] && Enabled(s, a) && s' == Do(s, a)
  }

  ghost predicate IsRun(trace: seq<State>, actions: seq<Action>) {
    && |trace| == |actions| + 1
    && forall i :: 0 <= i < |actions| ==> StepAt(trace, actions, i)
  }

  ghost predicate StepAt(trace: seq<State>, actions: seq<Action>, i: nat)
    requires i < |actions| && |trace| == |actions| + 1
  {
    IsStep(trace[i], actions[i], trace[i + 1])
  }

  // ---------------------------------------------------------------- the invariant

  ghost predicate Owes(pc: Pc) {
    !pc.Called? && !pc.Inside? && !pc.Replaced? && pc != Done(true)
  }

  ghost predicate GlobalOk(s: State) {
    && s.path in s.inodes && s.durable in s.inodes
    && Whole(s.inodes[s.path]) && Whole(s.inodes[s.durable])
    && s.mem.Keys <= s.issued && FileTable(s).Keys <= s.issued && s.inodes[s.durable].table.Keys <= s.issued
    && (s.lock.Some? ==> s.lock.value in s.threads && HoldsLock(s.threads[s.lock.value]))
    && s.versions != [] && s.versions[|s.versions| - 1] == s.mem
    && FileTable(s) in s.versions && s.inodes[s.durable].table in s.versions
    && (s.mem != FileTable(s) ==> s.debtor in s.threads && Owes(s.threads[s.debtor]))
  }

  ghost predicate InLockOrder(s: State) {
    && (forall i :: 0 <= i < |s.published| ==> s.published[i] < |s.versions|)
    && forall i, j :: 0 <= i < j < |s.published| ==> s.published[i] <= s.published[j]
  }

  ghost predicate ThreadOk(s: State, t: Tid)
    requires t in s.threads && s.path in s.inodes
  {
    && (HoldsLock(s.threads[t]) ==> s.lock == Some(t))
    && match s.threads[t]
       case Writing(tmp) => tmp in s.inodes && tmp != s.path && tmp != s.durable && s.inodes[tmp].table == s.mem
                            && !s.inodes[tmp].synced
       case Synced(tmp) => tmp in s.inodes && s.inodes[tmp].table == s.mem && Whole(s.inodes[tmp])
       case Replaced => s.mem == FileTable(s)
       case _ => true
  }

  ghost predicate Inv(s: State) {
    && GlobalOk(s)
    && InLockOrder(s)
    && forall t :: t in s.threads ==> ThreadOk(s, t)
  }

  lemma InitInv(s: State)
    requires Init(s)
    ensures Inv(s)
  {
  }

  /** The steps that only move a thread, and the lock with it. */
  lemma MoveKeeps(s: State, t: Tid, pc: Pc, lock: Option<Tid>)
    requires Inv(s)
    requires t in s.threads || pc == Called
    requires pc == Called || pc == Inside || pc == Unsaved || pc == Saving || pc.Done?
    requires lock == s.lock || s.lock == None || s.lock == Some(t)
    requires lock == (if HoldsLock(pc) then Some(t) else if s.lock == Some(t) then None else s.lock)
    requires t in s.threads && Owes(s.threads[t]) ==> Owes(pc)
    ensures Inv(Step(s, t, pc).(lock := lock))
  {
    var s' := Step(s, t, pc).(lock := lock);
    forall u | u in s'.threads ensures ThreadOk(s', u) {
      if u in s.threads { assert ThreadOk(s, u); }
    }
  }

  lemma ChangeKeeps(s: State, t: Tid, table: Table)
    requires Inv(s) && Enabled(s, Change(t, table))
    ensures Inv(AfterChange(s, t, table))
  {
    var s' := AfterChange(s, t, table);
    assert ThreadOk(s, t);
    forall u | u in s'.threads ensures ThreadOk(s', u) {
      assert ThreadOk(s, u);
    }
  }

  lemma TempKeeps(s: State, a: Action)
    requires Inv(s) && Enabled(s, a) && (a.CreateTemp? || a.WriteChunk? || a.Fsync?)
    ensures Inv(Do(s, a))
  {
    var s' := Do(s, a);
    assert ThreadOk(s, a.t);
    forall u | u in s'.threads ensures ThreadOk(s', u) {
      assert ThreadOk(s, u);
    }
  }

  lemma ReplaceKeeps(s: State, t: Tid)
    requires Inv(s) && CanReplace(s, t)
    ensures Inv(AfterReplace(s, t))
  {
    var s' := AfterReplace(s, t);
    assert ThreadOk(s, t);
    forall u | u in s'.threads ensures ThreadOk(s', u) {
      assert ThreadOk(s, u);
    }
  }

  lemma SyncDirectoryKeeps(s: State, t: Tid)
    requires Inv(s) && At(s, t, Replaced)
    ensures Inv(s.(durable := s.path))
  {
    var s' := s.(durable := s.path);
    forall u | u in s'.threads ensures ThreadOk(s', u) {
      assert ThreadOk(s, u);
    }
  }

  lemma RestartKeeps(s: State, keep: set<Token>, t: Tid)
    requires s.path in s.inodes && Whole(s.inodes[s.path]) && s.durable in s.inodes && Whole(s.inodes[s.durable])
    requires FileTable(s).Keys <= s.issued && s.inodes[s.durable].table.Keys <= s.issued
    requires FileTable(s) in s.versions && s.inodes[s.durable].table in s.versions && InLockOrder(s)
    ensures Inv(Restart(s, keep, t))
  {
  }

  lemma MoveStepKeeps(s: State, a: Action)
    requires Inv(s) && Enabled(s, a)
    requires a.Start? || a.Enter? || a.LeaveUnchanged? || a.Leave? || a.EnterSave? || a.Finish? || a.Fail?
    ensures Inv(Do(s, a))
  {
    if !a.Start? { assert ThreadOk(s, a.t); }
    match a
    case Start(t) => MoveKeeps(s, t, Called, s.lock);
    case Enter(t) => MoveKeeps(s, t, Inside, Some(t));
    case LeaveUnchanged(t) => MoveKeeps(s, t, Done(true), None);
    case Leave(t) => MoveKeeps(s, t, Unsaved, None);
    case EnterSave(t) => MoveKeeps(s, t, Saving, Some(t));
    case Finish(t) => MoveKeeps(s, t, Done(true), None);
    case Fail(t) => MoveKeeps(s, t, Done(false), None);
  }

  lemma StepKeepsInv(s: State, a: Action)
    requires Inv(s) && Enabled(s, a)
    ensures Inv(Do(s, a))
  {
    match a
    case Change(t, table) => ChangeKeeps(s, t, table);
    case CreateTemp(_, _) => TempKeeps(s, a);
    case WriteChunk(_) => TempKeeps(s, a);
    case Fsync(_) => TempKeeps(s, a);
    case Replace(t) => ReplaceKeeps(s, t);
    case SyncDirectory(t) => SyncDirectoryKeeps(s, t);
    case Kill(keep, t) => RestartKeeps(s, keep, t);
    case PowerLoss(entry, inodes, keep, t) =>
      RestartKeeps(s.(path := entry, durable := entry, inodes := inodes), keep, t);
    case _ => MoveStepKeeps(s, a);
  }

  lemma {:induction false} RunKeepsInv(trace: seq<State>, actions: seq<Action>, n: nat)
    requires IsRun(trace, actions) && Init(trace[0]) && n <= |actions|
    ensures Inv(trace[n])
  {
    if n == 0 {
      InitInv(trace[0]);
    } else {
      RunKeepsInv(trace, actions, n - 1);
      assert StepAt(trace, actions, n - 1);
      StepKeepsInv(trace[n - 1], actions[n - 1]);
    }
  }

  // ---------------------------------------------------------------- main results

  /**
   At every point of every run, crashes and failed writes included, the file is complete and holds one value the
   table had, and the values written to it appear in the order in which the lock holders made them.
   */
  lemma FileAlwaysWhole(trace: seq<State>, actions: seq<Action>)
    requires IsRun(trace, actions) && Init(trace[0])
    ensures var s := trace[|actions|];
            && s.path in s.inodes && Whole(s.inodes[s.path]) && FileTable(s) in s.versions && InLockOrder(s)
  {
    RunKeepsInv(trace, actions, |actions|);
  }

  /** Each `os.replace` makes the file the current table: nothing changes it while a writer holds the lock. */
  lemma ReplacePublishesCurrent(trace: seq<State>, actions: seq<Action>, i: nat, t: Tid)
    requires IsRun(trace, actions) && Init(trace[0]) && i < |actions| && actions[i] == Replace(t)
    ensures var s := trace[i + 1];
            && s.path in s.inodes && FileTable(s) == trace[i].mem == s.mem
            && s.published != [] && s.published[|s.published| - 1] < |s.versions|
            && s.versions[s.published[|s.published| - 1]] == s.mem
  {
    RunKeepsInv(trace, actions, i);
    RunKeepsInv(trace, actions, i + 1);
    assert StepAt(trace, actions, i);
    assert ThreadOk(trace[i], t);
  }

  /** A token that was handed out and is no longer in the table. */
  ghost predicate Revoked(s: State, tok: Token) {
    tok in s.issued && tok !in s.mem
  }

  /** ... nor in the file. */
  ghost predicate Gone(s: State, tok: Token) {
    Revoked(s, tok) && s.path in s.inodes && tok !in FileTable(s)
  }

  /** ... nor in what the file may revert to. */
  ghost predicate GoneForGood(s: State, tok: Token) {
    Gone(s, tok) && s.durable in s.inodes && tok !in s.inodes[s.durable].table
  }

  lemma StaysRevoked(s: State, a: Action, s': State, tok: Token)
    requires Inv(s) && IsStep(s, a, s') && Revoked(s, tok) && !a.Kill? && !a.PowerLoss?
    ensures Revoked(s', tok)
    ensures a.Replace? ==> Gone(s', tok)
    ensures Gone(s, tok) ==> Gone(s', tok)
    ensures GoneForGood(s, tok) || (Gone(s, tok) && a.SyncDirectory?) ==> GoneForGood(s', tok)
  {
    if !a.Start? { assert ThreadOk(s, a.t); }
  }

  lemma StaysGone(s: State, a: Action, s': State, tok: Token)
    requires Inv(s) && IsStep(s, a, s') && (a.Kill? || a.PowerLoss?)
    ensures a.Kill? && Gone(s, tok) ==> Gone(s', tok)
    ensures GoneForGood(s, tok) ==> GoneForGood(s', tok)
  {
  }

  lemma {:induction false} RevokedUntil(trace: seq<State>, actions: seq<Action>, i: nat, k: nat, tok: Token)
    requires IsRun(trace, actions) && Init(trace[0]) && i <= k <= |actions|
    requires Revoked(trace[i], tok) && forall j :: i <= j < k ==> !actions[j].Kill? && !actions[j].PowerLoss?
    ensures Revoked(trace[k], tok)
  {
    if i < k {
      RevokedUntil(trace, actions, i, k - 1, tok);
      RunKeepsInv(trace, actions, k - 1);
      assert StepAt(trace, actions, k - 1);
      StaysRevoked(trace[k - 1], actions[k - 1], trace[k], tok);
    }
  }

  lemma {:induction false} GoneUntil(trace: seq<State>, actions: seq<Action>, i: nat, k: nat, tok: Token)
    requires IsRun(trace, actions) && Init(trace[0]) && i <= k <= |actions| && Gone(trace[i], tok)
    ensures (forall j :: i <= j < k ==> !actions[j].PowerLoss?) ==> Gone(trace[k], tok)
    ensures GoneForGood(trace[i], tok) ==> GoneForGood(trace[k], tok)
  {
    if i < k {
      GoneUntil(trace, actions, i, k - 1, tok);
      RunKeepsInv(trace, actions, k - 1);
      var s, a, s' := trace[k - 1], actions[k - 1], trace[k];
      assert StepAt(trace, actions, k - 1);
      if a.Kill? || a.PowerLoss? {
        StaysGone(s, a, s', tok);
      } else if Gone(s, tok) {
        StaysRevoked(s, a, s', tok);
      }
    }
  }

  /** The step into state `n` takes the token out of the table. */
  lemma ChangeRevokes(trace: seq<State>, actions: seq<Action>, n: nat, tok: Token)
    requires IsRun(trace, actions) && Init(trace[0]) && 0 < n <= |actions| && actions[n - 1].Change?
    requires tok in trace[n - 1].mem && tok !in actions[n - 1].table
    ensures Revoked(trace[n], tok)
  {
    RunKeepsInv(trace, actions, n - 1);
    assert StepAt(trace, actions, n - 1);
  }

  /** ... it replaces the file: the token is gone from that too. */
  lemma ReplacedIsGone(trace: seq<State>, actions: seq<Action>, i: nat, n: nat, tok: Token)
    requires IsRun(trace, actions) && Init(trace[0]) && i < n <= |actions| && Revoked(trace[i], tok)
    requires actions[n - 1].Replace? && forall j :: i <= j < n ==> !actions[j].Kill? && !actions[j].PowerLoss?
    ensures Gone(trace[n], tok)
  {
    RevokedUntil(trace, actions, i, n - 1, tok);
    RunKeepsInv(trace, actions, n - 1);
    assert StepAt(trace, actions, n - 1);
    StaysRevoked(trace[n - 1], actions[n - 1], trace[n], tok);
  }

  /** ... it syncs the directory: the token is gone for good. */
  lemma SyncedIsGoneForGood(trace: seq<State>, actions: seq<Action>, i: nat, n: nat, tok: Token)
    requires IsRun(trace, actions) && Init(trace[0]) && i < n <= |actions| && Gone(trace[i], tok)
    requires actions[n - 1].SyncDirectory? && forall j :: i <= j < n ==> !actions[j].PowerLoss?
    ensures GoneForGood(trace[n], tok)
  {
    GoneUntil(trace, actions, i, n - 1, tok);
    RunKeepsInv(trace, actions, n - 1);
    assert StepAt(trace, actions, n - 1);
    StaysRevoked(trace[n - 1], actions[n - 1], trace[n], tok);
  }

  /**
   A thread takes `tok` out of the table at `i`, and any thread replaces the file at `r`, with no crash in between.
   From then on neither the table nor the file ever holds `tok` again, whatever other threads save and however often
   the process is killed and restarted; after the directory was synced too, not even a power loss brings it back.
   */
  lemma RevokedNeverReappears(trace: seq<State>, actions: seq<Action>, i: nat, r: nat, k: nat, tok: Token)
    requires IsRun(trace, actions) && Init(trace[0]) && i < r < k <= |actions|
    requires actions[i].Change? && tok in trace[i].mem && tok !in actions[i].table
    requires actions[r].Replace? && forall j :: i < j < r ==> !actions[j].Kill? && !actions[j].PowerLoss?
    ensures (forall j :: r < j < k ==> !actions[j].PowerLoss?) ==> Gone(trace[k], tok)
    ensures forall d :: r < d < k && actions[d].SyncDirectory? && (forall j :: r < j < d ==> !actions[j].PowerLoss?) ==>
              Gone(trace[k], tok)
  {
    ChangeRevokes(trace, actions, i + 1, tok);
    ReplacedIsGone(trace, actions, i + 1, r + 1, tok);
    GoneUntil(trace, actions, r + 1, k, tok);
    forall d | r < d < k && actions[d].SyncDirectory? && (forall j :: r < j < d ==> !actions[j].PowerLoss?)
      ensures Gone(trace[k], tok)
    {
      SyncedIsGoneForGood(trace, actions, r + 1, d + 1, tok);
      GoneUntil(trace, actions, d + 1, k, tok);
    }
  }

  /** When every thread is done, disk equals memory, unless the save of the last thread to change memory failed. */
  lemma DiskEqualsMemory(trace: seq<State>, actions: seq<Action>)
    requires IsRun(trace, actions) && Init(trace[0])
    requires forall t :: t in trace[|actions|].threads ==> trace[|actions|].threads[t].Done?
    ensures var s := trace[|actions|];
            s.path in s.inodes && (s.mem == FileTable(s) || At(s, s.debtor, Done(false)))
  {
    RunKeepsInv(trace, actions, |actions|);
  }

  /** The action sets the in-memory table. */
  ghost predicate SetsMemory(a: Action) {
    a.Change? || a.Kill? || a.PowerLoss?
  }

  /** ... to what is in the file anyway. */
  ghost predicate SetsWhatIsSaved(s: State, a: Action)
    requires s.path in s.inodes
  {
    match a
    case Change(_, table) => table == FileTable(s)
    case Kill(keep, _) => FileTable(s).Keys <= keep
    case PowerLoss(entry, inodes, keep, _) => entry in inodes && inodes[entry].table.Keys <= keep
    case _ => false
  }

  /** A restart takes into memory all of what it loads exactly when nothing has expired. */
  lemma LoadsAllIff(loaded: Table, keep: set<Token>)
    ensures (map k | k in loaded && k in keep :: loaded[k]) == loaded <==> loaded.Keys <= keep
  {
    var kept := map k | k in loaded && k in keep :: loaded[k];
    if kept == loaded {
      forall k | k in loaded.Keys ensures k in keep { assert k in kept; }
    }
  }

  lemma SettingAgreesIff(s: State, a: Action)
    requires Inv(s) && Enabled(s, a) && SetsMemory(a)
    ensures var s' := Do(s, a); s'.path in s'.inodes && (s'.mem == FileTable(s') <==> SetsWhatIsSaved(s, a))
  {
    match a
    case Kill(keep, _) => LoadsAllIff(FileTable(s), keep);
    case PowerLoss(entry, inodes, keep, _) => LoadsAllIff(inodes[entry].table, keep);
    case _ =>
  }

  /** A step that does not set memory makes the file equal to it by a replacement, and changes neither otherwise. */
  lemma SavingAgreesIff(s: State, a: Action)
    requires Inv(s) && Enabled(s, a) && !SetsMemory(a)
    ensures var s' := Do(s, a);
            s'.path in s'.inodes && (s'.mem == FileTable(s') <==> a.Replace? || s.mem == FileTable(s))
  {
    if !a.Start? { assert ThreadOk(s, a.t); }
  }

  ghost predicate ReplacedBetween(actions: seq<Action>, i: nat, n: nat)
    requires n <= |actions|
  {
    exists j :: i <= j < n && actions[j].Replace?
  }

  /** One more step after memory was set, in terms of whether it was saved before. */
  lemma SavedNext(s: State, a: Action, s': State, saved: bool)
    requires Inv(s) && IsStep(s, a, s') && !SetsMemory(a) && (s.mem == FileTable(s) <==> saved)
    ensures s'.path in s'.inodes && (s'.mem == FileTable(s') <==> a.Replace? || saved)
  {
    SavingAgreesIff(s, a);
  }

  ghost predicate IsSaved(s: State) {
    s.path in s.inodes && s.mem == FileTable(s)
  }

  lemma ReplacedNext(actions: seq<Action>, i: nat, n: nat)
    requires i <= n < |actions|
    ensures ReplacedBetween(actions, i, n + 1) <==> ReplacedBetween(actions, i, n) || actions[n].Replace?
  {
  }

  ghost predicate NoSetting(actions: seq<Action>, i: nat, n: nat)
    requires n <= |actions|
  {
    forall j :: i <= j < n ==> !SetsMemory(actions[j])
  }

  lemma SavedOn(trace: seq<State>, actions: seq<Action>, n: nat, saved: bool)
    requires IsRun(trace, actions) && Init(trace[0]) && n < |actions| && !SetsMemory(actions[n])
    requires IsSaved(trace[n]) <==> saved
    ensures IsSaved(trace[n + 1]) <==> actions[n].Replace? || saved
  {
    RunKeepsInv(trace, actions, n);
    assert StepAt(trace, actions, n);
    SavedNext(trace[n], actions[n], trace[n + 1], saved);
  }

  lemma {:induction false} SavedSince(trace: seq<State>, actions: seq<Action>, i: nat, n: nat)
    requires IsRun(trace, actions) && Init(trace[0]) && i <= n <= |actions| && NoSetting(actions, i, n)
    ensures IsSaved(trace[n]) <==> ReplacedBetween(actions, i, n) || IsSaved(trace[i])
  {
    if i < n {
      SavedSince(trace, actions, i, n - 1);
      SavedOn(trace, actions, n - 1, IsSaved(trace[n - 1]));
      ReplacedNext(actions, i, n - 1);
    }
  }

  /**
   Disk equals memory, at any point of any run, exactly when since memory was last set, at `i`, the file has been
   replaced, or memory was set to what the file held.  Whose save it was, and how other saves ended, does not matter.
   */
  lemma DiskEqualsMemoryIff(trace: seq<State>, actions: seq<Action>, i: nat, n: nat)
    requires IsRun(trace, actions) && Init(trace[0]) && i < n <= |actions|
    requires SetsMemory(actions[i]) && NoSetting(actions, i + 1, n)
    ensures trace[i].path in trace[i].inodes
    ensures IsSaved(trace[n]) <==> ReplacedBetween(actions, i + 1, n) || SetsWhatIsSaved(trace[i], actions[i])
  {
    RunKeepsInv(trace, actions, i);
    assert StepAt(trace, actions, i);
    SettingAgreesIff(trace[i], actions[i]);
    SavedSince(trace, actions, i + 1, n);
  }

  /** Before anything sets memory it is what was loaded. */
  lemma DiskEqualsLoaded(trace: seq<State>, actions: seq<Action>, n: nat)
    requires IsRun(trace, actions) && Init(trace[0]) && n <= |actions| && NoSetting(actions, 0, n)
    ensures IsSaved(trace[n])
  {
    SavedSince(trace, actions, 0, n);
  }

  // ---------------------------------------------------------------- when a revoked token comes back

  ghost predicate InFile(s: State, tok: Token) {
    s.path in s.inodes && tok in FileTable(s)
  }

  /** ... in what the file is after a power loss that undoes the last rename. */
  ghost predicate InDurable(s: State, tok: Token) {
    s.durable in s.inodes && tok in s.inodes[s.durable].table
  }

  ghost predicate Crashes(a: Action) {
    a.Kill? || a.PowerLoss?
  }

  ghost predicate NoCrash(actions: seq<Action>, i: nat, n: nat)
    requires n <= |actions|
  {
    forall j :: i <= j < n ==> !Crashes(actions[j])
  }

  ghost predicate SyncedBetween(actions: seq<Action>, i: nat, n: nat)
    requires n <= |actions|
  {
    exists j :: i <= j < n && actions[j].SyncDirectory?
  }

  /** While a token is revoked, replacing the file takes it out of it, and syncing the directory out for good. */
  lemma RevokedStep(s: State, a: Action, s': State, tok: Token)
    requires Inv(s) && IsStep(s, a, s') && Revoked(s, tok) && !Crashes(a)
    ensures Revoked(s', tok)
    ensures InFile(s', tok) <==> InFile(s, tok) && !a.Replace?
    ensures InDurable(s', tok) <==> InDurable(s, tok) && !a.SyncDirectory?
  {
    if !a.Start? { assert ThreadOk(s, a.t); }
    StaysRevoked(s, a, s', tok);
  }

  lemma SyncedNext(actions: seq<Action>, i: nat, n: nat)
    requires i <= n < |actions|
    ensures SyncedBetween(actions, i, n + 1) <==> SyncedBetween(actions, i, n) || actions[n].SyncDirectory?
  {
  }

  lemma RevokedOn(trace: seq<State>, actions: seq<Action>, n: nat, tok: Token)
    requires IsRun(trace, actions) && Init(trace[0]) && n < |actions| && !Crashes(actions[n]) && Revoked(trace[n], tok)
    ensures Revoked(trace[n + 1], tok)
    ensures InFile(trace[n + 1], tok) <==> InFile(trace[n], tok) && !actions[n].Replace?
    ensures InDurable(trace[n + 1], tok) <==> InDurable(trace[n], tok) && !actions[n].SyncDirectory?
  {
    RunKeepsInv(trace, actions, n);
    assert StepAt(trace, actions, n);
    RevokedStep(trace[n], actions[n], trace[n + 1], tok);
  }

  lemma {:induction false} RevokedInFile(trace: seq<State>, actions: seq<Action>, i: nat, n: nat, tok: Token)
    requires IsRun(trace, actions) && Init(trace[0]) && i <= n <= |actions|
    requires Revoked(trace[i], tok) && NoCrash(actions, i, n)
    ensures Revoked(trace[n], tok)
    ensures InFile(trace[n], tok) <==> InFile(trace[i], tok) && !ReplacedBetween(actions, i, n)
  {
    if i < n {
      RevokedInFile(trace, actions, i, n - 1, tok);
      RevokedOn(trace, actions, n - 1, tok);
      ReplacedNext(actions, i, n - 1);
    }
  }

  lemma {:induction false} RevokedInDurable(trace: seq<State>, actions: seq<Action>, i: nat, n: nat, tok: Token)
    requires IsRun(trace, actions) && Init(trace[0]) && i <= n <= |actions|
    requires Revoked(trace[i], tok) && NoCrash(actions, i, n)
    ensures Revoked(trace[n], tok)
    ensures InDurable(trace[n], tok) <==> InDurable(trace[i], tok) && !SyncedBetween(actions, i, n)
  {
    if i < n {
      RevokedInDurable(trace, actions, i, n - 1, tok);
      RevokedOn(trace, actions, n - 1, tok);
      SyncedNext(actions, i, n - 1);
    }
  }

  /**
   A token revoked by `i` is still in the file, with no crash until `n`, exactly when it was in it at `i` and no thread
   has replaced the file since; and in what a power loss may bring back, when no thread has synced the directory since.
   */
  lemma RevokedInFileIff(trace: seq<State>, actions: seq<Action>, i: nat, n: nat, tok: Token)
    requires IsRun(trace, actions) && Init(trace[0]) && i <= n <= |actions|
    requires Revoked(trace[i], tok) && NoCrash(actions, i, n)
    ensures Revoked(trace[n], tok)
    ensures InFile(trace[n], tok) <==> InFile(trace[i], tok) && !ReplacedBetween(actions, i, n)
    ensures InDurable(trace[n], tok) <==> InDurable(trace[i], tok) && !SyncedBetween(actions, i, n)
  {
    RevokedInFile(trace, actions, i, n, tok);
    RevokedInDurable(trace, actions, i, n, tok);
  }

  /** A crash brings a token back into memory when it is in what the new process loads and has not expired. */
  lemma CrashReturnsIff(s: State, a: Action, s': State, tok: Token)
    requires Inv(s) && IsStep(s, a, s') && Crashes(a)
    ensures tok in s'.mem <==>
            tok in a.keep && if a.PowerLoss? && a.entry != s.path then InDurable(s, tok) else InFile(s, tok)
  {
  }

  /**
   A revoked token comes back with the first crash after its revocation, at `n`, exactly when it has not expired and the
   new process finds it: in the file, when it was there at `i` and no thread has replaced the file since; or, when a
   power loss undoes the last rename, in the file before it, when no thread has synced the directory since.
   */
  lemma RevokedReturnsIff(trace: seq<State>, actions: seq<Action>, i: nat, n: nat, tok: Token)
    requires IsRun(trace, actions) && Init(trace[0]) && i <= n < |actions|
    requires Revoked(trace[i], tok) && NoCrash(actions, i, n) && Crashes(actions[n])
    ensures tok in trace[n + 1].mem <==>
            && tok in actions[n].keep
            && if actions[n].PowerLoss? && actions[n].entry != trace[n].path
               then InDurable(trace[i], tok) && !SyncedBetween(actions, i, n)
               else InFile(trace[i], tok) && !ReplacedBetween(actions, i, n)
  {
    RevokedInFileIff(trace, actions, i, n, tok);
    RunKeepsInv(trace, actions, n);
    assert StepAt(trace, actions, n);
    CrashReturnsIff(trace[n], actions[n], trace[n + 1], tok);
  }

  // ---------------------------------------------------------------- what goes wrong otherwise

  lemma RunExtends(trace: seq<State>, actions: seq<Action>, a: Action, s': State)
    requires IsRun(trace, actions) && IsStep(trace[|actions|], a, s')
    ensures IsRun(trace + [s'], actions + [a])
  {
    forall i: nat | i <= |actions| ensures StepAt(trace + [s'], actions + [a], i) {
      assert i < |actions| ==> StepAt(trace, actions, i);
    }
  }

  /** The token 5 in memory and in the file, and no thread. */
  ghost function OneToken(): State {
    var table := map[5 := 9];
    State(table, {5}, None, map[], map[0 := File(table, Chunks(table), true)], 0, 0, [table], [], 0)
  }

  lemma LockIsTaken() returns (trace: seq<State>, actions: seq<Action>)
    ensures IsRun(trace, actions) && trace[0] == OneToken()
    ensures trace[|actions|] == Step(Step(OneToken(), 0, Called), 0, Inside).(lock := Some(0))
  {
    trace, actions := [OneToken()], [];
    var s1 := Step(OneToken(), 0, Called);
    RunExtends(trace, actions, Start(0), s1);
    trace, actions := trace + [s1], actions + [Start(0)];
    var s2 := Step(s1, 0, Inside).(lock := Some(0));
    RunExtends(trace, actions, Enter(0), s2);
    trace, actions := trace + [s2], actions + [Enter(0)];
  }

  /** Thread 0 takes the only token, 5, out of the table, keeping the lock for its save. */
  lemma RevokeUpToSave() returns (trace: seq<State>, actions: seq<Action>)
    ensures IsRun(trace, actions) && Init(trace[0]) && 5 in trace[0].mem
    ensures var s := trace[|actions|];
            && s.path == s.durable == 0 && s.inodes == OneToken().inodes && s.mem == map[] && 5 in s.issued
            && s.versions != [] && s.threads == map[0 := Changed]
  {
    trace, actions := LockIsTaken();
    var s3 := AfterChange(trace[|actions|], 0, map[]);
    RunExtends(trace, actions, Change(0, map[]), s3);
    trace, actions := trace + [s3], actions + [Change(0, map[])];
  }

  lemma RevokeUpToTemp() returns (trace: seq<State>, actions: seq<Action>)
    ensures IsRun(trace, actions) && Init(trace[0]) && 5 in trace[0].mem
    ensures var s := trace[|actions|];
            && s.path == s.durable == 0 && s.inodes == OneToken().inodes[1 := File(map[], 0, false)]
            && s.mem == map[] && 5 in s.issued && s.versions != [] && s.threads == map[0 := Writing(1)]
  {
    trace, actions := RevokeUpToSave();
    var s4 := Step(trace[|actions|], 0, Saving).(lock := Some(0));
    RunExtends(trace, actions, EnterSave(0), s4);
    trace, actions := trace + [s4], actions + [EnterSave(0)];
    var s5 := Step(s4, 0, Writing(1)).(inodes := s4.inodes[1 := File(map[], 0, false)]);
    RunExtends(trace, actions, CreateTemp(0, 1), s5);
    trace, actions := trace + [s5], actions + [CreateTemp(0, 1)];
  }

  /** It writes the table without the token to a temporary file ... */
  lemma RevokeUpToFsync() returns (trace: seq<State>, actions: seq<Action>)
    ensures IsRun(trace, actions) && Init(trace[0]) && 5 in trace[0].mem
    ensures var s := trace[|actions|];
            && s.path == s.durable == 0 && 0 in s.inodes && s.inodes[0] == OneToken().inodes[0]
            && 1 in s.inodes && s.inodes[1] == File(map[], 2, false)
            && s.mem == map[] && 5 in s.issued && s.versions != [] && s.threads == map[0 := Writing(1)]
  {
    trace, actions := RevokeUpToTemp();
    var s6 := WithTemp(trace[|actions|], 0, File(map[], 1, false));
    RunExtends(trace, actions, WriteChunk(0), s6);
    trace, actions := trace + [s6], actions + [WriteChunk(0)];
    var s7 := WithTemp(s6, 0, File(map[], 2, false));
    RunExtends(trace, actions, WriteChunk(0), s7);
    trace, actions := trace + [s7], actions + [WriteChunk(0)];
  }

  /** ... and makes it the file: the token is gone from memory and from the file. */
  lemma RevokeUpToReplace() returns (trace: seq<State>, actions: seq<Action>)
    ensures IsRun(trace, actions) && Init(trace[0]) && 5 in trace[0].mem
    ensures var s := trace[|actions|];
            && Gone(s, 5) && s.durable == 0 && s.path in s.inodes && 0 in s.inodes && s.inodes[0] == OneToken().inodes[0]
            && s.versions != []
  {
    trace, actions := RevokeUpToFsync();
    var s7 := trace[|actions|];
    var s8 := Step(WithTemp(s7, 0, File(map[], 2, true)), 0, Synced(1));
    RunExtends(trace, actions, Fsync(0), s8);
    trace, actions := trace + [s8], actions + [Fsync(0)];
    var s9 := AfterReplace(s8, 0);
    RunExtends(trace, actions, Replace(0), s9);
    trace, actions := trace + [s9], actions + [Replace(0)];
  }

  /** A power loss before the directory is synced undoes the rename, and with it the revocation. */
  lemma UnsyncedRevocationReturns() returns (trace: seq<State>, actions: seq<Action>)
    ensures IsRun(trace, actions) && Init(trace[0]) && |actions| > 0 && actions[|actions| - 1].PowerLoss?
    ensures 5 in trace[0].mem && Gone(trace[|actions| - 1], 5) && 5 in trace[|actions|].mem
  {
    trace, actions := RevokeUpToReplace();
    var s := trace[|actions|];
    var a := PowerLoss(0, s.inodes, {5}, 1);
    var s' := Restart(s.(path := 0, durable := 0, inodes := s.inodes), {5}, 1);
    assert 5 in s.inodes[0].table;
    RunExtends(trace, actions, a, s');
    trace, actions := trace + [s'], actions + [a];
  }

  /**
   `_save_sessions` logs a failed write and returns, so a revocation whose write failed looks finished: every thread
   is done, yet the file still holds the token, and after a restart so does memory.
   */
  lemma FailedSaveLosesRevocation() returns (trace: seq<State>, actions: seq<Action>)
    ensures IsRun(trace, actions) && Init(trace[0]) && |actions| > 0 && actions[|actions| - 1].Kill?
    ensures var s := trace[|actions| - 1];
            && (forall t :: t in s.threads ==> s.threads[t].Done?)
            && 5 in trace[0].mem && Revoked(s, 5) && !Gone(s, 5)
    ensures 5 in trace[|actions|].mem
  {
    trace, actions := RevokeUpToSave();
    var s4 := Step(trace[|actions|], 0, Saving).(lock := Some(0));
    RunExtends(trace, actions, EnterSave(0), s4);
    trace, actions := trace + [s4], actions + [EnterSave(0)];
    var s5 := Step(s4, 0, Done(false)).(lock := None);
    RunExtends(trace, actions, Fail(0), s5);
    trace, actions := trace + [s5], actions + [Fail(0)];
    var s6 := Restart(s5, {5}, 1);
    RunExtends(trace, actions, Kill({5}, 1), s6);
    trace, actions := trace + [s6], actions + [Kill({5}, 1)];
  }
}
