/**
 `get_privileges` takes no lock: it reads the admin flag and then, for an ordinary user, the stored map, while
 promotions and demotions write the same record one field at a time.  Writers exclude each other by the config lock,
 so at most one operation is in progress; one reader call is followed.
 */
module PrivilegeReads {
  import opened Options
  import opened Privileges
  import Accounts

  datatype Writer =
    | Free
    | FlagRaised                              // promotion: flag on
    | Stashed                                 // promotion: flag on, stash written
    | Popped(stash: Option<PrivilegeMap>)     // demotion: stash taken
    | Restored                                // demotion: stored map written back

  datatype Reader =
    | Outside
    | Entered                                 // called, nothing read
    | SawOrdinary                             // read the flag as off
    | Answered(privileges: PrivilegeMap)

  datatype State = State(
    user: UserRecord,
    writer: Writer,
    reader: Reader,
    seen: set<PrivilegeMap>,     // the effective maps at the instants of the reader's call
    granted: set<PrivilegeMap>   // the maps this user was ever given as an ordinary user
  )

  datatype Action =
    | RaiseFlag
    | WriteStash
    | WriteAdminMap
    | PopStash
    | RestoreMap
    | LowerFlag
    | SetPrivileges(privileges: PrivilegeMap)
    | Enter
    | ReadFlag
    | ReadMap

  predicate Enabled(s: State, a: Action) {
    match a
    case RaiseFlag => s.writer == Free && !s.user.isAdmin
    case WriteStash => s.writer == FlagRaised
    case WriteAdminMap => s.writer == Stashed
    case PopStash => s.writer == Free && s.user.isAdmin
    case RestoreMap => s.writer.Popped?
    case LowerFlag => s.writer == Restored
    case SetPrivileges(_) => s.writer == Free && !s.user.isAdmin
    case Enter => s.reader == Outside
    case ReadFlag => s.reader == Entered
    case ReadMap => s.reader == SawOrdinary
  }

  /** One write: the new record is what a call in progress may observe from now on. */
  function Write(s: State, user: UserRecord, writer: Writer): State {
    var inCall := s.reader.Entered? || s.reader.SawOrdinary?;
    s.(user := user, writer := writer, seen := if inCall then s.seen + {Effective(user)} else s.seen)
  }

  function Do(s: State, a: Action): State
    requires Enabled(s, a)
  {
    var u := s.user;
    match a
    case RaiseFlag => Write(s, u.(isAdmin := true), FlagRaised)
    case WriteStash => Write(s, u.(stash := Some(OrDefault(u.privileges))), Stashed)
    case WriteAdminMap => Write(s, u.(privileges := Some(ADMIN_PRIVILEGES)), Free)
    case PopStash => Write(s, u.(stash := None), Popped(u.stash))
    case RestoreMap => Write(s, u.(privileges := Some(OrDefault(s.writer.stash))), Restored)
    case LowerFlag => Write(s, u.(isAdmin := false), Free)
    case SetPrivileges(p) => Write(s, u.(privileges := Some(p)), Free).(granted := s.granted + {Merge(Some(p))})
    case Enter => s.(reader := Entered, seen := {Effective(u)})
    case ReadFlag => s.(reader := if u.isAdmin then Answered(ADMIN_PRIVILEGES) else SawOrdinary)
    case ReadMap => s.(reader := Answered(Merge(u.privileges)))
  }

  /** The writes of a promotion and of a demotion, one after the other, are what `set_admin` does to the record. */
  lemma WritesMakeSetAdmin(s: State)
    requires s.writer == Free
    ensures !s.user.isAdmin ==>
              Do(Do(Do(s, RaiseFlag), WriteStash), WriteAdminMap).user == Accounts.Promoted(s.user)
    ensures s.user.isAdmin ==> Do(Do(Do(s, PopStash), RestoreMap), LowerFlag).user == Accounts.Demoted(s.user)
  {
  }

  predicate Init(s: State) {
    && s.writer == Free && s.reader == Outside
    && DEFAULT_PRIVILEGES in s.granted
    && (s.user.isAdmin && s.user.stash.Some? ==> Merge(s.user.stash) in s.granted)
    && (!s.user.isAdmin ==> Merge(s.user.privileges) in s.granted)
  }

  ghost predicate IsStep(s: State, a: Action, s': State) {
    Enabled(s, a) && s' == Do(s, a)
  }

  ghost predicate IsRun(trace: seq<State>, actions: seq<Action>) {
    && |trace| == |actions| + 1
    && forall i :: 0 <= i < |actions| ==> StepAt(trace, actions, i)
  }

  ghost predicate StepAt(trace: seq<State>, actions: seq<Action>, i: nat)
    requires i < |actions| && |trace| == |actions| + 1
  {
    IsStep(trace[i], actions[i], trace[i + 1])
  }

  /** The map a demotion from here would restore, if any promotion stashed one. */
  function ToRestore(s: State): Option<PrivilegeMap> {
    match s.writer
    case FlagRaised => Some(OrDefault(s.user.privileges))
    case Popped(stash) => stash
    case Restored => s.user.privileges
    case _ => s.user.stash
  }

  /** The writer is where the flag says it can be. */
  predicate WriterOk(s: State) {
    && (!s.user.isAdmin ==> s.writer == Free)
    && DEFAULT_PRIVILEGES in s.granted
    && (!s.user.isAdmin ==> Merge(s.user.privileges) in s.granted)
    && (s.user.isAdmin ==> Merge(ToRestore(s)) in s.granted)
  }

  /**
   A reader that saw the flag off holds a claim on every map it may still read: the stored one, and the one that a
   demotion would put there, because the promotion that stashed it came after the flag was read.
   */
  predicate ReaderOk(s: State) {
    match s.reader
    case Outside => true
    case Entered => Effective(s.user) in s.seen
    case SawOrdinary =>
      && Effective(s.user) in s.seen && Merge(s.user.privileges) in s.seen
      && (s.user.isAdmin ==> ToRestore(s).Some? && Merge(ToRestore(s)) in s.seen)
    case Answered(p) => p in s.seen
  }

  lemma StepKeepsWriterOk(s: State, a: Action)
    requires WriterOk(s) && Enabled(s, a)
    ensures WriterOk(Do(s, a))
  {
    MergeAdmin();
    MergeOrDefault(s.user.privileges);
    if s.writer.Popped? { MergeOrDefault(s.writer.stash); }
  }

  lemma StepKeepsReaderOk(s: State, a: Action)
    requires WriterOk(s) && ReaderOk(s) && Enabled(s, a)
    ensures ReaderOk(Do(s, a))
  {
    MergeAdmin();
    MergeOrDefault(s.user.privileges);
    if s.writer.Popped? { MergeOrDefault(s.writer.stash); }
  }

  lemma StepKeepsOk(s: State, a: Action)
    requires WriterOk(s) && ReaderOk(s) && Enabled(s, a)
    ensures WriterOk(Do(s, a)) && ReaderOk(Do(s, a))
  {
    StepKeepsWriterOk(s, a);
    StepKeepsReaderOk(s, a);
  }

  lemma {:induction false} RunKeepsOk(trace: seq<State>, actions: seq<Action>, n: nat)
    requires IsRun(trace, actions) && Init(trace[0]) && n <= |actions|
    ensures WriterOk(trace[n]) && ReaderOk(trace[n])
  {
    if n > 0 {
      RunKeepsOk(trace, actions, n - 1);
      assert StepAt(trace, actions, n - 1);
      StepKeepsOk(trace[n - 1], actions[n - 1]);
    }
  }

  /** What is recorded as seen is what was effective at some instant since the call at `e` began. */
  lemma {:induction false} SeenSinceEntered(trace: seq<State>, actions: seq<Action>, e: nat, n: nat, p: PrivilegeMap)
    requires IsRun(trace, actions) && e < n <= |actions| && actions[e] == Enter && p in trace[n].seen
    requires forall j :: e < j < n ==> actions[j] != Enter
    ensures exists j :: e < j <= n && Effective(trace[j].user) == p
  {
    assert StepAt(trace, actions, n - 1);
    if p in trace[n - 1].seen && e < n - 1 {
      SeenSinceEntered(trace, actions, e, n - 1, p);
    } else {
      assert Effective(trace[n].user) == p;
    }
  }

  /** A call entered at `e` is not entered again. */
  lemma {:induction false} EnteredOnce(trace: seq<State>, actions: seq<Action>, e: nat, n: nat)
    requires IsRun(trace, actions) && e < n <= |actions| && actions[e] == Enter
    ensures !trace[n].reader.Outside?
    ensures forall j :: e < j < n ==> actions[j] != Enter
  {
    assert StepAt(trace, actions, n - 1);
    if e < n - 1 { EnteredOnce(trace, actions, e, n - 1); }
  }

  /**
   In every interleaving, the map that a call entered at `e` returns with the last action was the user's effective
   map at some instant of the call.
   */
  lemma ReadIsLinearizable(trace: seq<State>, actions: seq<Action>, e: nat)
    requires IsRun(trace, actions) && Init(trace[0]) && e < |actions| && actions[e] == Enter
    requires actions[|actions| - 1].ReadFlag? || actions[|actions| - 1].ReadMap?
    requires trace[|actions|].reader.Answered?
    ensures exists j :: e < j <= |actions| && Effective(trace[j].user) == trace[|actions|].reader.privileges
  {
    RunKeepsOk(trace, actions, |actions|);
    EnteredOnce(trace, actions, e, |actions|);
    SeenSinceEntered(trace, actions, e, |actions|, trace[|actions|].reader.privileges);
  }

  /** A map counts as granted only when it was granted at first or has been set since. */
  lemma {:induction false} GrantedOnlyBySetting(trace: seq<State>, actions: seq<Action>, n: nat, p: PrivilegeMap)
    requires IsRun(trace, actions) && n <= |actions| && p in trace[n].granted
    ensures p in trace[0].granted
            || exists i :: 0 <= i < n && actions[i].SetPrivileges? && p == Merge(Some(actions[i].privileges))
  {
    if n > 0 {
      var k := n - 1;
      assert StepAt(trace, actions, k);
      if p in trace[k].granted {
        GrantedOnlyBySetting(trace, actions, k, p);
      } else {
        assert actions[k].SetPrivileges? && p == Merge(Some(actions[k].privileges));
      }
    }
  }

  /** No intermediate state of a promotion or demotion leaves an ordinary user with a map never granted to them. */
  lemma NoEscalation(trace: seq<State>, actions: seq<Action>)
    requires IsRun(trace, actions) && Init(trace[0]) && !trace[|actions|].user.isAdmin
    ensures Effective(trace[|actions|].user) in trace[|actions|].granted
  {
    RunKeepsOk(trace, actions, |actions|);
  }
}
