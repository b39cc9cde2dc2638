/**
 The account and session state of the authentication manager as a state machine: what each operation answers and
 what it leaves behind.  `AuthManager` carries the operations out in place; here are the runs.
 */
module Accounts {
  import opened Options
  import opened Privileges
  import opened Text

  datatype Session = Session(username: string, expiry: int)

  datatype State = State(
    users: map<string, UserRecord>,
    retired: set<string>,
    sessions: map<string, Session>,   // by token digest
    unavailable: bool                 // the credential store could not be loaded: everything is refused
  )

  const RESERVED_USERNAMES: set<string> := {"internal-tool", "api", "demo", "system", "owner@localhost"}
  const RESERVED_PREFIXES: seq<string> := ["remote:", "remote-instance:", "restia:"]

  predicate IsReserved(username: string) {
    var key := Normalize(username);
    key in RESERVED_USERNAMES || exists i :: 0 <= i < |RESERVED_PREFIXES| && RESERVED_PREFIXES[i] <= key
  }

  predicate IsAdmin(users: map<string, UserRecord>, name: string) {
    name in users && users[name].isAdmin
  }

  function Admins(users: map<string, UserRecord>): set<string> {
    set u | u in users && users[u].isAdmin
  }

  datatype SetAdminResult = OK | USER_NOT_FOUND | NOT_AUTHORIZED | LAST_ADMIN

  /** How the deletion of a user's bearer tokens went, outside this model. */
  datatype TokenStore = TokensRevoked | ActiveLink | TokensUnavailable

  // ---------------------------------------------------------------- the operations

  /** An absent or empty requester is an internal call and needs no authority. */
  predicate MayAct(users: map<string, UserRecord>, requester: Option<string>) {
    requester.None? || requester.value == "" || IsAdmin(users, Normalize(requester.value))
  }

  predicate CanCreate(s: State, username: string, requester: Option<string>) {
    var name := Normalize(username);
    && !s.unavailable && name != "" && !IsReserved(name) && name !in s.retired && name !in s.users
    && MayAct(s.users, requester)
  }

  function Create(s: State, username: string, passwordHash: string, isAdmin: bool): State {
    var privileges := if isAdmin then ADMIN_PRIVILEGES else DEFAULT_PRIVILEGES;
    s.(users := s.users[Normalize(username) := UserRecord(passwordHash, isAdmin, Some(privileges), None)])
  }

  /** The requester is looked up as given, without normalization. */
  predicate CanDelete(s: State, username: string, requester: string, tokens: TokenStore) {
    var name := Normalize(username);
    !s.unavailable && name in s.users && name != requester && IsAdmin(s.users, requester) && tokens == TokensRevoked
  }

  /** The half of a deletion that happens under the config lock ... */
  function RemoveAccount(s: State, name: string): State {
    s.(users := s.users - {name}, retired := s.retired + {name})
  }

  /** ... and the half that happens afterwards under the session lock. */
  function DropSessions(s: State, name: string): State {
    s.(sessions := map k | k in s.sessions && s.sessions[k].username != name :: s.sessions[k])
  }

  function Delete(s: State, username: string): State {
    DropSessions(RemoveAccount(s, Normalize(username)), Normalize(username))
  }

  predicate CanRename(s: State, oldName: string, newName: string, requester: string) {
    var from, to := Normalize(oldName), Normalize(newName);
    && !s.unavailable && from != "" && to != "" && !IsReserved(to) && to !in s.retired
    && from in s.users && to !in s.users && IsAdmin(s.users, Normalize(requester))
  }

  function MoveAccount(s: State, from: string, to: string): State
    requires from in s.users
  {
    s.(users := (s.users - {from})[to := s.users[from]])
  }

  /** Sessions are compared by normalized name and rewritten to `to` as it is. */
  function HandedOver(session: Session, from: string, to: string): Session {
    if Normalize(session.username) == from then session.(username := to) else session
  }

  function Reattribute(s: State, from: string, to: string): State {
    s.(sessions := map k | k in s.sessions :: HandedOver(s.sessions[k], from, to))
  }

  function RenameAccount(s: State, from: string, to: string): State
    requires from in s.users
  {
    MoveAccount(s, from, to).(retired := s.retired + {from})
  }

  function Rename(s: State, oldName: string, newName: string): State
    requires Normalize(oldName) in s.users
  {
    Reattribute(RenameAccount(s, Normalize(oldName), Normalize(newName)), Normalize(oldName), Normalize(newName))
  }

  predicate CanRollback(s: State, currentName: string, formerName: string, requester: string) {
    var current, former := Normalize(currentName), Normalize(formerName);
    && !s.unavailable && current != "" && former != "" && current in s.users && former !in s.users
    && former in s.retired && IsAdmin(s.users, Normalize(requester))
  }

  function Rollback(s: State, currentName: string, formerName: string): State
    requires Normalize(currentName) in s.users
  {
    var current, former := Normalize(currentName), Normalize(formerName);
    Reattribute(MoveAccount(s, current, former).(retired := s.retired - {former}), current, former)
  }

  predicate CanRetire(s: State, username: string) {
    !s.unavailable && Normalize(username) != "" && Normalize(username) !in s.users
  }

  function Retire(s: State, username: string): State {
    s.(retired := s.retired + {Normalize(username)})
  }

  function SetAdminAnswer(s: State, username: string, isAdmin: bool, requester: string): SetAdminResult {
    var name := Normalize(username);
    if s.unavailable then NOT_AUTHORIZED
    else if name !in s.users then USER_NOT_FOUND
    else if !IsAdmin(s.users, Normalize(requester)) then NOT_AUTHORIZED
    else if s.users[name].isAdmin && !isAdmin && |Admins(s.users)| <= 1 then LAST_ADMIN
    else OK
  }

  function Promoted(r: UserRecord): UserRecord {
    r.(isAdmin := true, stash := Some(OrDefault(r.privileges)), privileges := Some(ADMIN_PRIVILEGES))
  }

  function Demoted(r: UserRecord): UserRecord {
    r.(privileges := Some(OrDefault(r.stash)), stash := None, isAdmin := false)
  }

  function SetAdmin(s: State, username: string, isAdmin: bool): State
    requires Normalize(username) in s.users
  {
    var name := Normalize(username);
    var r := s.users[name];
    if r.isAdmin == isAdmin then s else s.(users := s.users[name := if isAdmin then Promoted(r) else Demoted(r)])
  }

  predicate CanSetPrivileges(s: State, username: string, requester: Option<string>) {
    var name := Normalize(username);
    !s.unavailable && MayAct(s.users, requester) && name in s.users && !s.users[name].isAdmin
  }

  function Restricted(updates: PrivilegeMap, keys: set<string>): PrivilegeMap {
    map k | k in updates && k in keys :: updates[k]
  }

  /** The current effective map with the known keys of the request written over it. */
  function Edited(r: UserRecord, updates: PrivilegeMap): PrivilegeMap {
    Effective(r) + Restricted(updates, DEFAULT_PRIVILEGES.Keys)
  }

  function SetPrivileges(s: State, username: string, updates: PrivilegeMap): State
    requires Normalize(username) in s.users
  {
    var name := Normalize(username);
    s.(users := s.users[name := s.users[name].(privileges := Some(Edited(s.users[name], updates)))])
  }

  predicate CanIssue(s: State, username: string) {
    !s.unavailable && Normalize(username) in s.users
  }

  function Issue(s: State, username: string, key: string, expiry: int): State {
    s.(sessions := s.sessions[key := Session(Normalize(username), expiry)])
  }

  /** A session authenticates while it has not expired and its account exists; otherwise the check drops it. */
  predicate IsValid(s: State, key: string, now: int) {
    !s.unavailable && key in s.sessions && now <= s.sessions[key].expiry && s.sessions[key].username in s.users
  }

  function Validate(s: State, key: string, now: int): State {
    if s.unavailable || IsValid(s, key, now) then s else s.(sessions := s.sessions - {key})
  }

  function RevokeToken(s: State, key: string): State {
    if s.unavailable then s else s.(sessions := s.sessions - {key})
  }

  function RevokeUserSessions(s: State, username: string, except: Option<string>): State {
    if s.unavailable then s
    else s.(sessions := map k | k in s.sessions && (Some(k) == except || s.sessions[k].username != Normalize(username))
                          :: s.sessions[k])
  }

  // ---------------------------------------------------------------- runs

  datatype Op =
    | OpCreate(username: string, passwordHash: string, isAdmin: bool, requestedBy: Option<string>)
    | OpDelete(username: string, requester: string, tokens: TokenStore)
    | OpRename(oldName: string, newName: string, requester: string)
    | OpRollback(currentName: string, formerName: string, requester: string)
    | OpRetire(username: string)
    | OpSetAdmin(username: string, isAdmin: bool, requester: string)
    | OpSetPrivileges(username: string, updates: PrivilegeMap, requestedBy: Option<string>)
    | OpIssue(username: string, key: string, expiry: int)
    | OpValidate(key: string, now: int)
    | OpRevokeToken(key: string)
    | OpRevokeUser(username: string, except: Option<string>)

  predicate Accepted(s: State, op: Op) {
    match op
    case OpCreate(u, _, _, who) => CanCreate(s, u, who)
    case OpDelete(u, who, tokens) => CanDelete(s, u, who, tokens)
    case OpRename(o, n, who) => CanRename(s, o, n, who)
    case OpRollback(c, f, who) => CanRollback(s, c, f, who)
    case OpRetire(u) => CanRetire(s, u)
    case OpSetAdmin(u, on, who) => SetAdminAnswer(s, u, on, who) == OK
    case OpSetPrivileges(u, _, who) => CanSetPrivileges(s, u, who)
    case OpIssue(u, _, _) => CanIssue(s, u)
    case OpValidate(_, _) => true
    case OpRevokeToken(_) => true
    case OpRevokeUser(_, _) => true
  }

  /** A refused operation changes nothing. */
  function Apply(s: State, op: Op): State {
    if !Accepted(s, op) then s
    else
      match op
      case OpCreate(u, hash, on, _) => Create(s, u, hash, on)
      case OpDelete(u, _, _) => Delete(s, u)
      case OpRename(o, n, _) => Rename(s, o, n)
      case OpRollback(c, f, _) => Rollback(s, c, f)
      case OpRetire(u) => Retire(s, u)
      case OpSetAdmin(u, on, _) => SetAdmin(s, u, on)
      case OpSetPrivileges(u, updates, _) => SetPrivileges(s, u, updates)
      case OpIssue(u, key, expiry) => Issue(s, u, key, expiry)
      case OpValidate(key, now) => Validate(s, key, now)
      case OpRevokeToken(key) => RevokeToken(s, key)
      case OpRevokeUser(u, except) => RevokeUserSessions(s, u, except)
  }

  function Exec(s: State, ops: seq<Op>): State {
    if ops == [] then s else Apply(Exec(s, ops[..|ops| - 1]), ops[|ops| - 1])
  }

  // ---------------------------------------------------------------- what every run keeps

  /** Active names are stored in normal form, which loading the file ensures. */
  predicate NamesNormal(s: State) {
    forall u :: u in s.users ==> Normalize(u) == u
  }

  predicate SessionsActive(s: State) {
    forall k :: k in s.sessions ==> s.sessions[k].username in s.users
  }

  predicate Good(s: State) {
    Admins(s.users) != {} && s.users.Keys !! s.retired && NamesNormal(s) && SessionsActive(s)
  }

  lemma AdminStays(users: map<string, UserRecord>, users': map<string, UserRecord>, name: string)
    requires IsAdmin(users', name)
    ensures Admins(users') != {}
  {
    assert name in Admins(users');
  }

  /** With two admins there is one besides `name`. */
  lemma AnotherAdmin(users: map<string, UserRecord>, name: string) returns (other: string)
    requires |Admins(users)| > 1
    ensures IsAdmin(users, other) && other != name
  {
    assert Admins(users) != {} && Admins(users) != {name};
    assert exists other :: other in Admins(users) && other != name by {
      var a :| a in Admins(users);
      assert a != name || exists b :: b in Admins(users) && b != a;
    }
    other :| other in Admins(users) && other != name;
  }

  lemma ApplyKeepsAdmin(s: State, op: Op)
    requires Admins(s.users) != {}
    ensures Admins(Apply(s, op).users) != {}
  {
    var a :| a in Admins(s.users);
    var s' := Apply(s, op);
    match op
    case OpDelete(u, who, _) => if Accepted(s, op) { AdminStays(s.users, s'.users, who); } else { AdminStays(s.users, s'.users, a); }
    case OpRename(o, n, _) =>
      AdminStays(s.users, s'.users, if Accepted(s, op) && a == Normalize(o) then Normalize(n) else a);
    case OpRollback(c, f, _) =>
      AdminStays(s.users, s'.users, if Accepted(s, op) && a == Normalize(c) then Normalize(f) else a);
    case OpSetAdmin(u, on, _) =>
      if Accepted(s, op) && !on && s.users[Normalize(u)].isAdmin {
        var other := AnotherAdmin(s.users, Normalize(u));
        AdminStays(s.users, s'.users, other);
      } else {
        AdminStays(s.users, s'.users, a);
      }
    case _ => AdminStays(s.users, s'.users, a);
  }

  lemma ApplyKeepsDisjoint(s: State, op: Op)
    requires s.users.Keys !! s.retired
    ensures Apply(s, op).users.Keys !! Apply(s, op).retired
  {
  }

  lemma MoveKeepsNames(s: State, from: string, to: string)
    requires NamesNormal(s) && from in s.users && Normalize(to) == to
    ensures NamesNormal(Reattribute(MoveAccount(s, from, to), from, to))
  {
  }

  lemma ApplyKeepsNames(s: State, op: Op)
    requires NamesNormal(s)
    ensures NamesNormal(Apply(s, op))
  {
    if Accepted(s, op) {
      match op
      case OpCreate(u, _, _, _) => NormalizeIdempotent(u);
      case OpRename(o, n, _) =>
        NormalizeIdempotent(n);
        MoveKeepsNames(s, Normalize(o), Normalize(n));
      case OpRollback(c, f, _) =>
        NormalizeIdempotent(f);
        MoveKeepsNames(s, Normalize(c), Normalize(f));
      case _ =>
    }
  }

  lemma ApplyKeepsSessions(s: State, op: Op)
    requires SessionsActive(s) && NamesNormal(s)
    ensures SessionsActive(Apply(s, op))
  {
  }

  lemma ApplyKeepsGood(s: State, op: Op)
    requires Good(s)
    ensures Good(Apply(s, op))
  {
    ApplyKeepsAdmin(s, op);
    ApplyKeepsDisjoint(s, op);
    ApplyKeepsNames(s, op);
    ApplyKeepsSessions(s, op);
  }

  /** Every run keeps an admin, keeps active and retired names apart, and leaves no session of an inactive name. */
  lemma {:induction false} RunKeepsGood(s: State, ops: seq<Op>)
    requires Good(s)
    ensures Good(Exec(s, ops))
  {
    if ops != [] {
      var t, op := Exec(s, ops[..|ops| - 1]), ops[|ops| - 1];
      RunKeepsGood(s, ops[..|ops| - 1]);
      ApplyKeepsGood(t, op);
    }
  }

  /** A name leaves retirement exactly when an accepted rollback restores it as the former name. */
  lemma OnlyRollbackUnretires(s: State, op: Op, name: string)
    requires name in s.retired
    ensures name !in Apply(s, op).retired <==>
            op.OpRollback? && Accepted(s, op) && Normalize(op.formerName) == name
  {
  }

  // ---------------------------------------------------------------- rename and rollback

  /** After an accepted rename, its rollback is accepted exactly when the requester is an admin by then. */
  lemma RollbackAcceptedIff(s: State, oldName: string, newName: string, requester: string, requester': string)
    requires CanRename(s, oldName, newName, requester) && NamesNormal(s)
    ensures CanRollback(Rename(s, oldName, newName), newName, oldName, requester') <==>
            IsAdmin(Rename(s, oldName, newName).users, Normalize(requester'))
  {
  }

  /** Sessions survive being handed over and back when none carried the new name and the old one was spelled plainly. */
  predicate HandsBack(s: State, from: string, to: string) {
    forall k :: k in s.sessions ==> HandsBackOne(s.sessions[k], from, to)
  }

  predicate HandsBackOne(session: Session, from: string, to: string) {
    Normalize(session.username) != to && (Normalize(session.username) == from ==> session.username == from)
  }

  lemma HandedBackIff(session: Session, from: string, to: string)
    requires from != to && Normalize(from) == from && Normalize(to) == to
    ensures HandedOver(HandedOver(session, from, to), to, from) == session <==> HandsBackOne(session, from, to)
  {
  }

  lemma SameSessionsIff(a: map<string, Session>, b: map<string, Session>)
    requires a.Keys == b.Keys
    ensures a == b <==> forall k :: k in b ==> a[k] == b[k]
  {
  }

  lemma ReattributeBackIff(s: State, from: string, to: string)
    requires from != to && Normalize(from) == from && Normalize(to) == to
    ensures Reattribute(Reattribute(s, from, to), to, from).sessions == s.sessions <==> HandsBack(s, from, to)
  {
    var t := Reattribute(Reattribute(s, from, to), to, from);
    assert t.sessions.Keys == s.sessions.Keys;
    forall k | k in s.sessions ensures t.sessions[k] == s.sessions[k] <==> HandsBackOne(s.sessions[k], from, to) {
      HandedBackIff(s.sessions[k], from, to);
    }
    SameSessionsIff(t.sessions, s.sessions);
  }

  /** The accounts move there and back, and the old name leaves retirement, where the rename put it. */
  lemma MoveBackIs(s: State, from: string, to: string)
    requires from in s.users && to !in s.users && from != to
    ensures var m := RenameAccount(s, from, to);
            && to in m.users && MoveAccount(m, to, from).users == s.users
            && (m.retired - {from} == s.retired <==> from !in s.retired)
  {
    assert (s.users - {from})[to := s.users[from]] - {to} == s.users - {from};
  }

  /**
   Rename followed by its rollback restores the accounts always, the retired names exactly when the old name was not
   retired before, and the sessions exactly when none of them carried the new name and those of the old name spelled
   it in normal form.
   */
  lemma RollbackRestoresIff(s: State, oldName: string, newName: string, requester: string)
    requires CanRename(s, oldName, newName, requester)
    ensures var t := Rollback(Rename(s, oldName, newName), newName, oldName);
            && t.users == s.users
            && (t.retired == s.retired <==> Normalize(oldName) !in s.retired)
            && (t.sessions == s.sessions <==> HandsBack(s, Normalize(oldName), Normalize(newName)))
  {
    var from, to := Normalize(oldName), Normalize(newName);
    NormalizeIdempotent(oldName);
    NormalizeIdempotent(newName);
    MoveBackIs(s, from, to);
    ReattributeBackIff(s, from, to);
  }

  /** In a good state the rollback of a rename restores everything. */
  lemma RollbackRestores(s: State, oldName: string, newName: string, requester: string)
    requires Good(s) && CanRename(s, oldName, newName, requester)
    ensures Rollback(Rename(s, oldName, newName), newName, oldName) == s
  {
    RollbackRestoresIff(s, oldName, newName, requester);
  }

  // ---------------------------------------------------------------- a temporary admin stint

  /** The name under which the record called `name` goes after `op`. */
  function Follow(s: State, op: Op, name: string): string {
    if !Accepted(s, op) then name
    else if op.OpRename? && Normalize(op.oldName) == name then Normalize(op.newName)
    else if op.OpRollback? && Normalize(op.currentName) == name then Normalize(op.formerName)
    else name
  }

  function FollowAll(s: State, ops: seq<Op>, name: string): string {
    if ops == [] then name
    else Follow(Exec(s, ops[..|ops| - 1]), ops[|ops| - 1], FollowAll(s, ops[..|ops| - 1], name))
  }

  /** `op` demotes or deletes the record called `name`. */
  predicate EndsStint(s: State, op: Op, name: string) {
    && Accepted(s, op)
    && ((op.OpSetAdmin? && !op.isAdmin && Normalize(op.username) == name)
        || (op.OpDelete? && Normalize(op.username) == name))
  }

  /** No operation of the run ends the stint of the record called `name` at the start. */
  predicate StintLasts(s: State, ops: seq<Op>, name: string) {
    forall i :: 0 <= i < |ops| ==> !EndsStint(Exec(s, ops[..i]), ops[i], FollowAll(s, ops[..i], name))
  }

  predicate AdminWithStash(s: State, name: string, stash: Option<PrivilegeMap>) {
    IsAdmin(s.users, name) && s.users[name].stash == stash
  }

  /** The stash of an admin outlives every other operation, renames and refused privilege edits included. */
  lemma StashSurvivesOp(s: State, op: Op, name: string, stash: Option<PrivilegeMap>)
    requires AdminWithStash(s, name, stash) && !EndsStint(s, op, name)
    ensures AdminWithStash(Apply(s, op), Follow(s, op, name), stash)
  {
  }

  lemma {:induction false} StashSurvivesRun(s: State, ops: seq<Op>, name: string, stash: Option<PrivilegeMap>)
    requires AdminWithStash(s, name, stash) && StintLasts(s, ops, name)
    ensures AdminWithStash(Exec(s, ops), FollowAll(s, ops, name), stash)
  {
    if ops != [] {
      var n := |ops| - 1;
      forall i | 0 <= i < n ensures !EndsStint(Exec(s, ops[..n][..i]), ops[..n][i], FollowAll(s, ops[..n][..i], name)) {
        assert ops[..n][..i] == ops[..i];
      }
      StashSurvivesRun(s, ops[..n], name, stash);
      assert ops[..n] == ops[..|ops| - 1];
      StashSurvivesOp(Exec(s, ops[..n]), ops[n], FollowAll(s, ops[..n], name), stash);
    }
  }

  /**
   From a promotion to the next demotion of the same record, through any run of operations and under whatever name it
   has by then, the privileges after the demotion are those before the promotion.
   */
  lemma DemotionUndoesPromotion(s: State, username: string, requester: string, ops: seq<Op>,
                                username': string, requester': string)
    requires SetAdminAnswer(s, username, true, requester) == OK && !s.users[Normalize(username)].isAdmin
    requires var t := SetAdmin(s, username, true);
             && StintLasts(t, ops, Normalize(username))
             && Normalize(username') == FollowAll(t, ops, Normalize(username))
             && SetAdminAnswer(Exec(t, ops), username', false, requester') == OK
    ensures var u := Exec(SetAdmin(s, username, true), ops);
            && Normalize(username') in u.users
            && Effective(SetAdmin(u, username', false).users[Normalize(username')])
               == Effective(s.users[Normalize(username)])
  {
    var before := s.users[Normalize(username)];
    var t := SetAdmin(s, username, true);
    StashSurvivesRun(t, ops, Normalize(username), Some(OrDefault(before.privileges)));
    MergeOrDefault(before.privileges);
    MergeOrDefault(Some(OrDefault(before.privileges)));
  }

  /** A user created as an admin has no stash, and demotes to the defaults. */
  lemma CreatedAdminDemotesToDefaults(s: State, username: string, hash: string, who: Option<string>, ops: seq<Op>,
                                      username': string, requester': string)
    requires CanCreate(s, username, who)
    requires var t := Create(s, username, hash, true);
             && StintLasts(t, ops, Normalize(username))
             && Normalize(username') == FollowAll(t, ops, Normalize(username))
             && SetAdminAnswer(Exec(t, ops), username', false, requester') == OK
    ensures var u := Exec(Create(s, username, hash, true), ops);
            && Normalize(username') in u.users
            && Effective(SetAdmin(u, username', false).users[Normalize(username')]) == DEFAULT_PRIVILEGES
  {
    var t := Create(s, username, hash, true);
    StashSurvivesRun(t, ops, Normalize(username), None);
    MergeOrDefault(None);
  }

  // ---------------------------------------------------------------- the two halves of an operation

  /**
   Deletion and rename release the config lock before they touch the sessions.  Until they do, sessions may still name
   the account that is gone, and no other inactive one.
   */
  predicate ActiveOrHeld(s: State, held: string) {
    forall k :: k in s.sessions ==> s.sessions[k].username in s.users || s.sessions[k].username == held
  }

  /** A moved account takes its sessions along, so none of them loses its user. */
  lemma MoveKeepsHeld(s: State, from: string, to: string, held: string)
    requires from in s.users && Normalize(from) == from && Normalize(to) == to && Normalize(held) == held
    requires ActiveOrHeld(s, held) && NamesNormal(s)
    ensures ActiveOrHeld(Reattribute(MoveAccount(s, from, to), from, to), held)
  {
  }

  lemma ApplyKeepsHeld(s: State, op: Op, held: string)
    requires ActiveOrHeld(s, held) && NamesNormal(s) && Normalize(held) == held
    ensures ActiveOrHeld(Apply(s, op), held)
  {
    if Accepted(s, op) {
      match op
      case OpRename(o, n, _) =>
        NormalizeIdempotent(o);
        NormalizeIdempotent(n);
        MoveKeepsHeld(s, Normalize(o), Normalize(n), held);
      case OpRollback(c, f, _) =>
        NormalizeIdempotent(c);
        NormalizeIdempotent(f);
        MoveKeepsHeld(s, Normalize(c), Normalize(f), held);
      case _ =>
    }
  }

  lemma {:induction false} RunKeepsHeld(s: State, ops: seq<Op>, held: string)
    requires ActiveOrHeld(s, held) && NamesNormal(s) && Normalize(held) == held
    ensures ActiveOrHeld(Exec(s, ops), held) && NamesNormal(Exec(s, ops))
  {
    if ops != [] {
      var t, op := Exec(s, ops[..|ops| - 1]), ops[|ops| - 1];
      RunKeepsHeld(s, ops[..|ops| - 1], held);
      ApplyKeepsHeld(t, op, held);
      ApplyKeepsNames(t, op);
    }
  }

  /**
   Any run of other operations between the two halves of a rename: afterwards every session names an active user
   exactly when the new name is still active by then, or no session is left to hand over.
   */
  lemma RenameGapIff(s: State, from: string, to: string, ops: seq<Op>)
    requires Good(s) && from in s.users && to !in s.users && Normalize(to) == to
    ensures var t := Exec(RenameAccount(s, from, to), ops);
            SessionsActive(Reattribute(t, from, to))
            <==> to in t.users || forall k :: k in t.sessions ==> t.sessions[k].username != from
  {
    var r := RenameAccount(s, from, to);
    RunKeepsHeld(r, ops, from);
    var t := Exec(r, ops);
    var e := Reattribute(t, from, to);
    forall k | k in t.sessions
      ensures k in e.sessions
      ensures e.sessions[k].username == if t.sessions[k].username == from then to else t.sessions[k].username
    {
    }
    if SessionsActive(e) && to !in t.users {
      forall k | k in t.sessions ensures t.sessions[k].username != from {
        assert k in e.sessions;
      }
    }
  }

  /** The operation takes the name `name` away from its account. */
  predicate TakesName(op: Op, name: string) {
    match op
    case OpDelete(u, _, _) => Normalize(u) == name
    case OpRename(o, _, _) => Normalize(o) == name
    case OpRollback(c, _, _) => Normalize(c) == name
    case _ => false
  }

  predicate NoneTakes(ops: seq<Op>, name: string) {
    ops != [] ==> NoneTakes(ops[..|ops| - 1], name) && !TakesName(ops[|ops| - 1], name)
  }

  lemma NameStaysOp(s: State, op: Op, name: string)
    requires name in s.users && !TakesName(op, name)
    ensures name in Apply(s, op).users
  {
  }

  lemma {:induction false} NameStays(s: State, ops: seq<Op>, name: string)
    requires name in s.users && NoneTakes(ops, name)
    ensures name in Exec(s, ops).users
  {
    if ops != [] {
      NameStays(s, ops[..|ops| - 1], name);
      NameStaysOp(Exec(s, ops[..|ops| - 1]), ops[|ops| - 1], name);
    }
  }

  /**
   The routes reserve the new name while a rename is under way, so that no deletion, rename or rollback takes it away
   in between; then the rename leaves every session with an active user.
   */
  lemma ReservedRenameKeepsSessions(s: State, from: string, to: string, ops: seq<Op>)
    requires Good(s) && from in s.users && to !in s.users && Normalize(to) == to
    requires NoneTakes(ops, to)
    ensures SessionsActive(Reattribute(Exec(RenameAccount(s, from, to), ops), from, to))
  {
    NameStays(RenameAccount(s, from, to), ops, to);
    RenameGapIff(s, from, to, ops);
  }

  /** Without the reservation: a deletion of the new name in between leaves orphans exactly when there were sessions. */
  lemma RenameAroundDeleteIff(s: State, from: string, to: string, op: Op)
    requires Good(s) && from in s.users && to !in s.users && Normalize(to) == to
    requires op.OpDelete? && Normalize(op.username) == to && Accepted(RenameAccount(s, from, to), op)
    ensures SessionsActive(Reattribute(Apply(RenameAccount(s, from, to), op), from, to))
            <==> forall k :: k in s.sessions ==> s.sessions[k].username != from
  {
    var r := RenameAccount(s, from, to);
    assert Exec(r, [op]) == Apply(r, op) by {
      assert [op][..0] == [];
    }
    RenameGapIff(s, from, to, [op]);
    var t := Apply(r, op);
    assert forall k :: k in s.sessions && s.sessions[k].username == from ==> k in t.sessions && t.sessions[k] == s.sessions[k];
    assert forall k :: k in t.sessions ==> k in s.sessions && t.sessions[k] == s.sessions[k];
  }

  /** Between the two halves of a deletion anything may happen: afterwards every session names an active user. */
  lemma DeleteGapKeepsSessions(s: State, name: string, ops: seq<Op>)
    requires Good(s) && name in s.users
    ensures SessionsActive(DropSessions(Exec(RemoveAccount(s, name), ops), name))
  {
    RunKeepsHeld(RemoveAccount(s, name), ops, name);
  }

  // ---------------------------------------------------------------- what becomes of an orphaned session

  predicate Restores(s: State, op: Op, name: string) {
    op.OpRollback? && Accepted(s, op) && Normalize(op.formerName) == name
  }

  /** Some operation of the run restores the name. */
  predicate RestoredIn(s: State, ops: seq<Op>, name: string) {
    && ops != []
    && (|| RestoredIn(s, ops[..|ops| - 1], name)
        || Restores(Exec(s, ops[..|ops| - 1]), ops[|ops| - 1], name))
  }

  /** No operation of the run hands out the token again. */
  predicate NoneIssues(ops: seq<Op>, key: string) {
    ops != [] ==> NoneIssues(ops[..|ops| - 1], key) && !(ops[|ops| - 1].OpIssue? && ops[|ops| - 1].key == key)
  }

  predicate Orphaned(s: State, key: string, name: string) {
    name !in s.users && name in s.retired && (key in s.sessions ==> s.sessions[key].username == name)
  }

  predicate NamesActive(s: State, key: string) {
    key in s.sessions ==> s.sessions[key].username in s.users
  }

  lemma OrphanStep(s: State, op: Op, key: string, name: string)
    requires NamesNormal(s) && Normalize(name) == name && !(op.OpIssue? && op.key == key) && Orphaned(s, key, name)
    ensures if Restores(s, op, name) then NamesActive(Apply(s, op), key) else Orphaned(Apply(s, op), key, name)
  {
  }

  lemma NamesActiveStep(s: State, op: Op, key: string)
    requires NamesNormal(s) && !(op.OpIssue? && op.key == key) && NamesActive(s, key)
    ensures NamesActive(Apply(s, op), key)
  {
  }

  lemma ApplyKeepsAvailability(s: State, op: Op)
    ensures Apply(s, op).unavailable == s.unavailable
  {
  }

  lemma {:induction false} OrphanRun(s: State, ops: seq<Op>, key: string, name: string)
    requires NamesNormal(s) && Normalize(name) == name && Orphaned(s, key, name) && NoneIssues(ops, key)
    ensures var t := Exec(s, ops);
            && NamesNormal(t) && t.unavailable == s.unavailable
            && if RestoredIn(s, ops, name) then NamesActive(t, key) else Orphaned(t, key, name)
  {
    if ops != [] {
      var t, op := Exec(s, ops[..|ops| - 1]), ops[|ops| - 1];
      OrphanRun(s, ops[..|ops| - 1], key, name);
      if RestoredIn(s, ops[..|ops| - 1], name) {
        NamesActiveStep(t, op, key);
      } else {
        OrphanStep(t, op, key, name);
      }
      ApplyKeepsNames(t, op);
      ApplyKeepsAvailability(t, op);
    }
  }

  /**
   A session whose name is retired, still there and not expired after any run of operations: it authenticates exactly
   when a rollback in the run restored its name, and then for the account that has taken that name over.
   */
  lemma OrphanAuthenticatesIff(s: State, ops: seq<Op>, key: string, name: string, now: int)
    requires NamesNormal(s) && Normalize(name) == name && Orphaned(s, key, name) && !s.unavailable
    requires NoneIssues(ops, key)
    requires key in Exec(s, ops).sessions && now <= Exec(s, ops).sessions[key].expiry
    ensures IsValid(Exec(s, ops), key, now) <==> RestoredIn(s, ops, name)
  {
    OrphanRun(s, ops, key, name);
  }

  // ---------------------------------------------------------------- what a caller sees

  /** Everything but the record of one name is as it was. */
  ghost predicate OthersKept(s: State, t: State, name: string) {
    forall u :: u != name ==> (u in t.users <==> u in s.users) && (u in s.users ==> t.users[u] == s.users[u])
  }

  /** An admin, or a call without a requester, creates an ordinary or admin user under a free name. */
  lemma CreateAdds(s: State, username: string, hash: string, isAdmin: bool, who: Option<string>)
    requires !s.unavailable && Normalize(username) != "" && !IsReserved(Normalize(username))
    requires Normalize(username) !in s.users && Normalize(username) !in s.retired
    requires who.None? || who.value == "" || IsAdmin(s.users, Normalize(who.value))
    ensures var t, name := Apply(s, OpCreate(username, hash, isAdmin, who)), Normalize(username);
            && name in t.users && t.users[name].passwordHash == hash && t.users[name].isAdmin == isAdmin
            && Effective(t.users[name]) == (if isAdmin then ADMIN_PRIVILEGES else DEFAULT_PRIVILEGES)
            && OthersKept(s, t, name) && t.retired == s.retired && t.sessions == s.sessions
  {
    assert DEFAULT_PRIVILEGES + DEFAULT_PRIVILEGES == DEFAULT_PRIVILEGES;
  }

  /** Another admin deletes a user whose tokens could be revoked: the name is retired. */
  lemma DeleteRemoves(s: State, username: string, requester: string)
    requires !s.unavailable && Normalize(username) in s.users
    requires IsAdmin(s.users, requester) && requester != Normalize(username)
    ensures var t, name := Apply(s, OpDelete(username, requester, TokensRevoked)), Normalize(username);
            name !in t.users && t.retired == s.retired + {name} && OthersKept(s, t, name)
  {
  }

  /** An admin renames a user to a free name: the record moves, and the old name is retired. */
  lemma RenameMoves(s: State, oldName: string, newName: string, requester: string)
    requires !s.unavailable && Normalize(oldName) != "" && Normalize(oldName) in s.users && IsAdmin(s.users, Normalize(requester))
    requires Normalize(newName) != "" && !IsReserved(Normalize(newName))
    requires Normalize(newName) !in s.users && Normalize(newName) !in s.retired
    ensures var t, from, to := Apply(s, OpRename(oldName, newName, requester)), Normalize(oldName), Normalize(newName);
            && t.users == (map u | u in s.users.Keys - {from} + {to} :: if u == to then s.users[from] else s.users[u])
            && t.retired == s.retired + {from}
  {
  }

  lemma RetireHolds(s: State, username: string)
    requires !s.unavailable && Normalize(username) != "" && Normalize(username) !in s.users
    ensures Apply(s, OpRetire(username)) == s.(retired := s.retired + {Normalize(username)})
  {
  }

  /** An edit sets the known keys it names, and leaves every other privilege of the user, and every other user, alone. */
  lemma EditChanges(s: State, username: string, updates: PrivilegeMap, who: Option<string>)
    requires !s.unavailable && Normalize(username) in s.users && !s.users[Normalize(username)].isAdmin
    requires who.None? || who.value == "" || IsAdmin(s.users, Normalize(who.value))
    ensures var t, name := Apply(s, OpSetPrivileges(username, updates, who)), Normalize(username);
            && name in t.users && Effective(t.users[name]).Keys == Effective(s.users[name]).Keys
            && (forall k :: k in Effective(s.users[name]) ==>
                  Effective(t.users[name])[k] ==
                  if k in updates && k in DEFAULT_PRIVILEGES then updates[k] else Effective(s.users[name])[k])
            && t.users[name].(privileges := s.users[name].privileges) == s.users[name]
            && OthersKept(s, t, name) && t.retired == s.retired && t.sessions == s.sessions
  {
  }

  /** An admin keeps all privileges: an edit of an admin is refused. */
  lemma AdminIsNotEdited(s: State, username: string, updates: PrivilegeMap, who: Option<string>)
    requires IsAdmin(s.users, Normalize(username))
    ensures Apply(s, OpSetPrivileges(username, updates, who)) == s
  {
  }

  /** Which of its four answers `set_admin` gives: the last admin is one who would leave none behind. */
  lemma SetAdminAnswerIs(s: State, username: string, isAdmin: bool, requester: string)
    requires !s.unavailable
    ensures var a, name := SetAdminAnswer(s, username, isAdmin, requester), Normalize(username);
            var may := name in s.users && IsAdmin(s.users, Normalize(requester));
            && (a == USER_NOT_FOUND <==> name !in s.users)
            && (a == LAST_ADMIN <==> may && !isAdmin && Admins(s.users) == {name})
            && (a == OK <==> may && (isAdmin || Admins(s.users) != {name}))
  {
    var name := Normalize(username);
    if IsAdmin(s.users, name) && |Admins(s.users)| <= 1 {
      OnlyAdmin(s.users, name);
    }
    assert |{name}| == 1 && (name in Admins(s.users) <==> IsAdmin(s.users, name));
    assert Admins(s.users) == {name} ==> IsAdmin(s.users, name) by {
      assert name in {name};
    }
  }

  lemma OnlyAdmin(users: map<string, UserRecord>, name: string)
    requires IsAdmin(users, name) && |Admins(users)| <= 1
    ensures Admins(users) == {name}
  {
    assert name in Admins(users);
    assert |Admins(users) - {name}| == 0;
  }

  /** After a promotion a user is an admin with all privileges, after a demotion none; nobody else is concerned. */
  lemma SetAdminSets(s: State, username: string, isAdmin: bool, requester: string)
    requires SetAdminAnswer(s, username, isAdmin, requester) == OK
    ensures var t, name := Apply(s, OpSetAdmin(username, isAdmin, requester)), Normalize(username);
            && name in t.users && t.users[name].isAdmin == isAdmin && t.users[name].passwordHash == s.users[name].passwordHash
            && (isAdmin ==> Effective(t.users[name]) == ADMIN_PRIVILEGES)
            && OthersKept(s, t, name) && t.retired == s.retired && t.sessions == s.sessions
  {
  }

  /** While the credential store is unavailable nothing is changed and nobody gets in. */
  lemma UnavailableRefuses(s: State, op: Op, key: string, now: int)
    requires s.unavailable
    ensures Apply(s, op) == s && !IsValid(s, key, now)
  {
  }

  /** Who must have asked for a change of the accounts. */
  predicate Authorized(s: State, op: Op) {
    !s.unavailable &&
    match op
    case OpCreate(_, _, _, who) => who.None? || who.value == "" || IsAdmin(s.users, Normalize(who.value))
    case OpSetPrivileges(_, _, who) => who.None? || who.value == "" || IsAdmin(s.users, Normalize(who.value))
    case OpDelete(u, who, tokens) => IsAdmin(s.users, who) && Normalize(u) != who && tokens == TokensRevoked
    case OpRename(_, _, who) => IsAdmin(s.users, Normalize(who))
    case OpRollback(_, _, who) => IsAdmin(s.users, Normalize(who))
    case OpSetAdmin(_, _, who) => IsAdmin(s.users, Normalize(who))
    case OpRetire(_) => true
    case _ => false
  }

  /** Accounts change only when an admin, or a call without a requester, asks for it. */
  lemma OnlyAuthorizedChange(s: State, op: Op)
    requires !Authorized(s, op)
    ensures Apply(s, op).users == s.users && Apply(s, op).retired == s.retired
  {
  }

  /** A name that becomes active was free; only a rollback makes a reserved or a retired one active. */
  lemma NewNameWasFree(s: State, op: Op, name: string)
    requires name !in s.users && name in Apply(s, op).users
    ensures op.OpRollback? || (op.OpCreate? && Normalize(op.username) == name) || (op.OpRename? && Normalize(op.newName) == name)
    ensures op.OpRollback? ==> Normalize(op.formerName) == name && name in s.retired
    ensures !op.OpRollback? ==> name != "" && name !in s.retired && !IsReserved(name)
  {
  }

  lemma {:induction false} LowerFront(s: string, n: nat)
    requires n <= |s|
    ensures Lower(s)[..n] == Lower(s[..n])
  {
  }

  /** Every spelling of a name with a reserved prefix is reserved. */
  lemma PrefixIsReserved(i: nat, rest: string)
    requires i < |RESERVED_PREFIXES|
    ensures IsReserved(RESERVED_PREFIXES[i] + rest)
  {
    var p := RESERVED_PREFIXES[i];
    var s := p + rest;
    assert !IsSpace(p[0]) && !IsSpace(p[|p| - 1]) && Lower(p) == p;
    var j := StripRightPrefix(s);
    assert s[|p| - 1] == p[|p| - 1];
    assert j >= |p|;
    assert StripLeft(s) == s;
    LowerFront(Strip(s), |p|);
    assert Strip(s)[..|p|] == p;
  }

  /** What ends the session of a token: its revocation, that of its user, their deletion, or a check too late. */
  predicate Ends(s: State, op: Op, key: string)
    requires key in s.sessions
  {
    var session := s.sessions[key];
    !s.unavailable &&
    match op
    case OpRevokeToken(k) => k == key
    case OpRevokeUser(u, except) => session.username == Normalize(u) && except != Some(key)
    case OpDelete(u, _, _) => session.username == Normalize(u) && Accepted(s, op)
    case OpValidate(k, now) => k == key && (now > session.expiry || session.username !in s.users)
    case _ => false
  }

  /** A session ends by nothing else, and keeps its expiry; only a rename or its rollback changes its user. */
  lemma SessionStep(s: State, op: Op, key: string)
    requires key in s.sessions && !(op.OpIssue? && op.key == key)
    ensures var t := Apply(s, op);
            && (key in t.sessions <==> !Ends(s, op, key))
            && (key in t.sessions ==> t.sessions[key].expiry == s.sessions[key].expiry)
            && (key in t.sessions && !op.OpRename? && !op.OpRollback? ==> t.sessions[key] == s.sessions[key])
  {
  }

  lemma AbsentStep(s: State, op: Op, key: string)
    requires key !in s.sessions && !(op.OpIssue? && op.key == key)
    ensures key !in Apply(s, op).sessions
  {
  }

  /** Some operation of the run ends the session. */
  predicate EndedIn(s: State, ops: seq<Op>, key: string) {
    && ops != []
    && var t, op := Exec(s, ops[..|ops| - 1]), ops[|ops| - 1];
       EndedIn(s, ops[..|ops| - 1], key) || (key in t.sessions && Ends(t, op, key))
  }

  lemma {:induction false} SessionLastsIff(s: State, ops: seq<Op>, key: string)
    requires key in s.sessions && NoneIssues(ops, key)
    ensures key in Exec(s, ops).sessions <==> !EndedIn(s, ops, key)
    ensures key in Exec(s, ops).sessions ==> Exec(s, ops).sessions[key].expiry == s.sessions[key].expiry
  {
    if ops != [] {
      var t, op := Exec(s, ops[..|ops| - 1]), ops[|ops| - 1];
      SessionLastsIff(s, ops[..|ops| - 1], key);
      if key in t.sessions { SessionStep(t, op, key); } else { AbsentStep(t, op, key); }
    }
  }

  lemma {:induction false} AbsentStays(s: State, ops: seq<Op>, key: string)
    requires key !in s.sessions && NoneIssues(ops, key)
    ensures key !in Exec(s, ops).sessions
  {
    if ops != [] {
      AbsentStays(s, ops[..|ops| - 1], key);
      AbsentStep(Exec(s, ops[..|ops| - 1]), ops[|ops| - 1], key);
    }
  }

  lemma {:induction false} RunKeepsAvailability(s: State, ops: seq<Op>)
    ensures Exec(s, ops).unavailable == s.unavailable
  {
    if ops != [] {
      RunKeepsAvailability(s, ops[..|ops| - 1]);
      ApplyKeepsAvailability(Exec(s, ops[..|ops| - 1]), ops[|ops| - 1]);
    }
  }

  lemma IssueAdds(s: State, username: string, key: string, expiry: int)
    requires !s.unavailable && Normalize(username) in s.users
    ensures var t := Apply(s, OpIssue(username, key, expiry));
            key in t.sessions && t.sessions[key] == Session(Normalize(username), expiry) && t.users == s.users && !t.unavailable
  {
  }

  /**
   A token issued to an active user authenticates, after any run of operations, exactly as long as it has not expired
   and no operation has ended its session.
   */
  lemma IssuedAuthenticatesIff(s: State, username: string, key: string, expiry: int, ops: seq<Op>, now: int)
    requires Good(s) && !s.unavailable && Normalize(username) in s.users && NoneIssues(ops, key)
    ensures var t := Apply(s, OpIssue(username, key, expiry));
            IsValid(Exec(t, ops), key, now) <==> now <= expiry && !EndedIn(t, ops, key)
  {
    var t := Apply(s, OpIssue(username, key, expiry));
    IssueAdds(s, username, key, expiry);
    ApplyKeepsGood(s, OpIssue(username, key, expiry));
    RunKeepsGood(t, ops);
    RunKeepsAvailability(t, ops);
    SessionLastsIff(t, ops, key);
  }

  /** A revoked token is refused from then on, whatever happens, until it is issued anew; no other session is concerned. */
  lemma RevokedIsRefused(s: State, key: string, ops: seq<Op>, now: int)
    requires NoneIssues(ops, key)
    ensures var t := Apply(s, OpRevokeToken(key));
            && !IsValid(Exec(t, ops), key, now)
            && (!s.unavailable ==> key !in Exec(t, ops).sessions)
            && t.users == s.users && t.retired == s.retired
            && forall k :: k != key ==> (k in t.sessions <==> k in s.sessions) && (k in s.sessions ==> t.sessions[k] == s.sessions[k])
  {
    var t := Apply(s, OpRevokeToken(key));
    RunKeepsAvailability(t, ops);
    if !s.unavailable { AbsentStays(t, ops, key); }
  }
}
