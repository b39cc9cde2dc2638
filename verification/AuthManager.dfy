/**
 The authentication manager's account and session operations, carried out in place on its three tables.  Each method
 is proved to do what the state machine of `Accounts` says, where the properties of whole runs are proved.
 */
module AuthManager {
  import opened Options
  import opened Privileges
  import opened Text
  import opened Accounts

  function SessionsOf(sessions: map<string, Session>, name: string): set<string> {
    set k | k in sessions && sessions[k].username == name
  }

  class Manager {
    var users: map<string, UserRecord>
    var retired: set<string>
    var sessions: map<string, Session>
    var authLoadFailed: bool

    function Now(): State
      reads this
    {
      State(users, retired, sessions, authLoadFailed)
    }

    constructor (users: map<string, UserRecord>, retired: set<string>, sessions: map<string, Session>, failed: bool)
      ensures Now() == State(users, retired, sessions, failed)
    {
      this.users, this.retired, this.sessions, this.authLoadFailed := users, retired, sessions, failed;
    }

    method CreateUser(username: string, passwordHash: string, isAdmin: bool, requester: Option<string>)
      returns (ok: bool)
      modifies this
      ensures ok == CanCreate(old(Now()), username, requester)
      ensures Now() == if ok then Create(old(Now()), username, passwordHash, isAdmin) else old(Now())
    {
      if authLoadFailed { return false; }
      var name := Normalize(username);
      if name == "" { return false; }
      if IsReserved(name) || name in retired { return false; }
      if name in users { return false; }
      if requester.Some? && requester.value != "" && !IsAdmin(users, Normalize(requester.value)) { return false; }
      var privileges := if isAdmin then ADMIN_PRIVILEGES else DEFAULT_PRIVILEGES;
      users := users[name := UserRecord(passwordHash, isAdmin, Some(privileges), None)];
      return true;
    }

    /** `for token in to_drop: self._sessions.pop(token, None)`, counting. */
    method PopSessions(keys: set<string>) returns (revoked: nat)
      requires keys <= sessions.Keys
      modifies this`sessions
      ensures sessions == old(sessions) - keys && revoked == |keys|
    {
      var before, toDrop := sessions, keys;
      ghost var dropped: set<string> := {};
      revoked := 0;
      while toDrop != {}
        invariant sessions == before - dropped
        invariant toDrop !! dropped && toDrop + dropped == keys && revoked == |dropped|
        decreases |toDrop|
      {
        var k :| k in toDrop;
        sessions := sessions - {k};
        toDrop := toDrop - {k};
        dropped := dropped + {k};
        revoked := revoked + 1;
        assert before - dropped == sessions;
      }
      assert dropped == keys;
    }

    /** `sess["username"] = to` for every session attributed to `from`. */
    method RenameSessions(from: string, to: string)
      modifies this`sessions
      ensures Now() == Reattribute(old(Now()), from, to)
    {
      var before := sessions;
      var todo := sessions.Keys;
      while todo != {}
        invariant todo <= before.Keys == sessions.Keys
        invariant forall k :: k in todo ==> sessions[k] == before[k]
        invariant forall k :: k in before.Keys && k !in todo ==> sessions[k] == HandedOver(before[k], from, to)
        decreases |todo|
      {
        var k :| k in todo;
        if Normalize(sessions[k].username) == from {
          sessions := sessions[k := sessions[k].(username := to)];
        }
        todo := todo - {k};
      }
      assert sessions == map k | k in before :: HandedOver(before[k], from, to);
    }

    method DeleteUser(username: string, requester: string, tokens: TokenStore) returns (ok: bool)
      modifies this
      ensures ok == CanDelete(old(Now()), username, requester, tokens)
      ensures Now() == if ok then Delete(old(Now()), username) else old(Now())
    {
      if authLoadFailed { return false; }
      var name := Normalize(username);
      if name !in users { return false; }
      if name == requester { return false; }
      if !IsAdmin(users, requester) { return false; }
      if tokens != TokensRevoked { return false; }
      users := users - {name};
      retired := retired + {name};
      var toDrop := SessionsOf(sessions, name);
      var _ := PopSessions(toDrop);
      assert Now().sessions == Delete(old(Now()), username).sessions;
      return true;
    }

    method RenameUser(oldName: string, newName: string, requester: string) returns (ok: bool)
      modifies this
      ensures ok == CanRename(old(Now()), oldName, newName, requester)
      ensures Now() == if ok then Rename(old(Now()), oldName, newName) else old(Now())
    {
      if authLoadFailed { return false; }
      var from, to := Normalize(oldName), Normalize(newName);
      if from == "" || to == "" { return false; }
      if IsReserved(to) || to in retired { return false; }
      if from !in users || to in users { return false; }
      if !IsAdmin(users, Normalize(requester)) { return false; }
      var user := users[from];
      users := users - {from};
      users := users[to := user];
      retired := retired + {from};
      RenameSessions(from, to);
      return true;
    }

    method RollbackUserRename(currentName: string, formerName: string, requester: string) returns (ok: bool)
      modifies this
      ensures ok == CanRollback(old(Now()), currentName, formerName, requester)
      ensures Now() == if ok then Rollback(old(Now()), currentName, formerName) else old(Now())
    {
      if authLoadFailed { return false; }
      var current, former := Normalize(currentName), Normalize(formerName);
      if current == "" || former == "" { return false; }
      if current !in users || former in users { return false; }
      if former !in retired { return false; }
      if !IsAdmin(users, Normalize(requester)) { return false; }
      var user := users[current];
      users := users - {current};
      users := users[former := user];
      retired := retired - {former};
      RenameSessions(current, former);
      return true;
    }

    method RetireUsername(username: string)
      modifies this
      ensures Now() == if CanRetire(old(Now()), username) then Retire(old(Now()), username) else old(Now())
    {
      if authLoadFailed { return; }
      var key := Normalize(username);
      if key == "" { return; }
      if key in users { return; }
      retired := retired + {key};
    }

    method CountAdmins() returns (n: nat)
      ensures n == |Admins(users)|
    {
      var todo := users.Keys;
      ghost var counted: set<string> := {};
      n := 0;
      while todo != {}
        invariant todo <= users.Keys && counted == (set u | u in users.Keys - todo && users[u].isAdmin)
        invariant n == |counted|
        decreases |todo|
      {
        var u :| u in todo;
        todo := todo - {u};
        if users[u].isAdmin {
          n := n + 1;
          counted := counted + {u};
        }
      }
      assert counted == Admins(users);
    }

    /** The fields of the record are written one at a time, in an order that lock-free readers rely on. */
    method Promote(name: string)
      requires name in users
      modifies this`users
      ensures users == old(users)[name := Promoted(old(users)[name])]
    {
      users := users[name := users[name].(isAdmin := true)];
      users := users[name := users[name].(stash := Some(OrDefault(users[name].privileges)))];
      users := users[name := users[name].(privileges := Some(ADMIN_PRIVILEGES))];
    }

    method Demote(name: string)
      requires name in users
      modifies this`users
      ensures users == old(users)[name := Demoted(old(users)[name])]
    {
      var stash := users[name].stash;
      users := users[name := users[name].(stash := None)];
      users := users[name := users[name].(privileges := Some(OrDefault(stash)))];
      users := users[name := users[name].(isAdmin := false)];
    }

    method SetAdmin(username: string, isAdmin: bool, requester: string) returns (r: SetAdminResult)
      modifies this
      ensures r == SetAdminAnswer(old(Now()), username, isAdmin, requester)
      ensures Now() == if r == OK then Accounts.SetAdmin(old(Now()), username, isAdmin) else old(Now())
    {
      if authLoadFailed { return NOT_AUTHORIZED; }
      var name := Normalize(username);
      if name !in users { return USER_NOT_FOUND; }
      if !IsAdmin(users, Normalize(requester)) { return NOT_AUTHORIZED; }
      var currentlyAdmin := users[name].isAdmin;
      if currentlyAdmin == isAdmin { return OK; }
      if currentlyAdmin && !isAdmin {
        var adminCount := CountAdmins();
        if adminCount <= 1 { return LAST_ADMIN; }
      }
      if isAdmin { Promote(name); } else { Demote(name); }
      return OK;
    }

    static lemma OverlayNext(base: PrivilegeMap, updates: PrivilegeMap, keys: set<string>, k: string)
      requires k in updates
      ensures base + Restricted(updates, keys + {k}) == (base + Restricted(updates, keys))[k := updates[k]]
    {
    }

    /** Copies the known keys of the request over `base`, in a loop. */
    static method Overlay(base: PrivilegeMap, updates: PrivilegeMap, known: set<string>)
      returns (current: PrivilegeMap)
      ensures current == base + Restricted(updates, known)
    {
      current := base;
      var todo := updates.Keys;
      assert Restricted(updates, known - todo) == map[];
      while todo != {}
        invariant todo <= updates.Keys
        invariant current == base + Restricted(updates, known - todo)
        decreases |todo|
      {
        var k :| k in todo;
        if k in known {
          OverlayNext(base, updates, known - todo, k);
          current := current[k := updates[k]];
          assert known - (todo - {k}) == known - todo + {k};
        } else {
          assert known - (todo - {k}) == known - todo;
        }
        todo := todo - {k};
      }
      assert known - todo == known;
    }

    method SetPrivileges(username: string, updates: PrivilegeMap, requester: Option<string>) returns (ok: bool)
      modifies this
      ensures ok == CanSetPrivileges(old(Now()), username, requester)
      ensures Now() == if ok then Accounts.SetPrivileges(old(Now()), username, updates) else old(Now())
    {
      if authLoadFailed { return false; }
      var name := Normalize(username);
      if requester.Some? && requester.value != "" && !IsAdmin(users, Normalize(requester.value)) { return false; }
      if name !in users { return false; }
      if users[name].isAdmin { return false; }
      var current := Overlay(Effective(users[name]), updates, DEFAULT_PRIVILEGES.Keys);
      users := users[name := users[name].(privileges := Some(current))];
      return true;
    }

    method CreateSessionTrusted(username: string, key: string, expiry: int) returns (ok: bool)
      modifies this
      ensures ok == CanIssue(old(Now()), username)
      ensures Now() == if ok then Issue(old(Now()), username, key, expiry) else old(Now())
    {
      if authLoadFailed { return false; }
      var name := Normalize(username);
      if name !in users { return false; }
      sessions := sessions[key := Session(name, expiry)];
      return true;
    }

    method ValidateToken(key: string, now: int) returns (ok: bool)
      modifies this
      ensures ok == IsValid(old(Now()), key, now)
      ensures Now() == Validate(old(Now()), key, now)
    {
      if authLoadFailed { return false; }
      if key !in sessions { return false; }
      var session := sessions[key];
      if now > session.expiry || session.username !in users {
        sessions := sessions - {key};
        return false;
      }
      return true;
    }

    method RevokeToken(key: string)
      modifies this
      ensures Now() == Accounts.RevokeToken(old(Now()), key)
    {
      if authLoadFailed { return; }
      sessions := sessions - {key};
    }

    /** Drops every session of a user but the one to keep. */
    method RevokeUserSessions(username: string, except: Option<string>) returns (revoked: nat)
      modifies this
      ensures Now() == Accounts.RevokeUserSessions(old(Now()), username, except)
      ensures revoked == |old(sessions)| - |sessions|
    {
      if authLoadFailed { return 0; }
      var name := Normalize(username);
      var toDrop := set k | k in sessions && Some(k) != except && sessions[k].username == name;
      revoked := PopSessions(toDrop);
      assert sessions.Keys == old(sessions).Keys - toDrop;
      assert Now().sessions == Accounts.RevokeUserSessions(old(Now()), username, except).sessions;
    }
  }
}
