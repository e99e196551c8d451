/**
 User accounts: two maps that index the same user objects, by name and by ID, role
 permissions, sessions, passwords and deactivation. Generated IDs are parameters, not
 used before.
 */
module Accounts {
  import opened ByteStrings
  import opened Outcomes

  datatype Role = UserRole | AdminRole | MerchantRole | ValidatorRole | OtherRole(name: string)

  datatype Permission = Read | Write | DeleteData | ManageUsers | ManageTokens | SystemConfig | ViewDashboard
                      | ManageMerchant

  datatype Error = MissingField | UsernameTaken | InvalidCredentials | AccountDisabled | InvalidSession | SessionExpired
                 | UserNotFound | InvalidRole | SessionNotFound

  const SESSION_SECONDS: int := 24 * 60 * 60

  predicate KnownRole(r: Role) { !r.OtherRole? }

  /** The permission table; an unknown role has none. */
  function RolePermissions(r: Role): seq<Permission> {
    match r
    case UserRole => [Read, Write, ViewDashboard]
    case MerchantRole => [Read, Write, ViewDashboard, ManageMerchant]
    case ValidatorRole => [Read, Write, ViewDashboard]
    case AdminRole => [Read, Write, DeleteData, ManageUsers, ManageTokens, SystemConfig, ViewDashboard, ManageMerchant]
    case OtherRole(_) => []
  }

  // ---------- passwords ----------

  const BCRYPT_LIMIT: nat := 72

  /** What a user record keeps of its password: a bcrypt hash, or the text itself. */
  datatype Stored = Hashed(key: Bytes) | Plain(text: Bytes)

  /**
   What bcrypt makes of a password: the first 72 bytes of the password and its closing
   NUL, repeated. Two hashes are taken to match exactly when these agree.
   */
  function KeyMaterial(password: Bytes): Bytes {
    seq(BCRYPT_LIMIT, i requires 0 <= i < BCRYPT_LIMIT => (password + [0])[i % (|password| + 1)])
  }

  /** bcrypt refuses to hash more than 72 bytes, and then the password itself is stored. */
  function HashPassword(password: Bytes): Stored {
    if |password| > BCRYPT_LIMIT then Plain(password) else Hashed(KeyMaterial(password))
  }

  /** Comparing against anything but a bcrypt hash fails. */
  predicate VerifyPassword(password: Bytes, stored: Stored) {
    stored.Hashed? && KeyMaterial(password) == stored.key
  }

  predicate NulFree(s: Bytes) { 0 !in s }

  lemma KeyMaterialAt(p: Bytes, i: nat)
    requires i < BCRYPT_LIMIT
    ensures i < |p| ==> KeyMaterial(p)[i] == p[i]
    ensures i == |p| ==> KeyMaterial(p)[i] == 0
  {
    if i <= |p| {
      assert i % (|p| + 1) == i;
    }
  }

  /** Among the first 72 bytes, the closing NUL is the first zero. */
  lemma FirstZero(p: Bytes, i: nat)
    requires NulFree(p) && i < BCRYPT_LIMIT && i <= |p|
    ensures KeyMaterial(p)[i] == 0 <==> i == |p|
  {
    KeyMaterialAt(p, i);
    assert i < |p| ==> p[i] in p;
  }

  /** Same key material, same password, except beyond the 72nd byte. */
  lemma SameMaterial(p: Bytes, q: Bytes)
    requires NulFree(p) && NulFree(q) && |p| <= BCRYPT_LIMIT && KeyMaterial(p) == KeyMaterial(q)
    ensures q == p || (|p| == BCRYPT_LIMIT && p <= q)
  {
    if |q| < |p| {
      FirstZero(p, |q|);
      FirstZero(q, |q|);
    } else {
      forall i | 0 <= i < |p| ensures q[i] == p[i] {
        KeyMaterialAt(p, i);
        KeyMaterialAt(q, i);
      }
      assert p == q[..|p|];
      if |p| < BCRYPT_LIMIT {
        FirstZero(p, |p|);
        FirstZero(q, |p|);
      }
    }
  }

  /** Two passwords without NUL bytes have the same key material iff they are equal or agree in 72 bytes. */
  lemma SameMaterialIff(p: Bytes, q: Bytes)
    requires NulFree(p) && NulFree(q)
    ensures VerifyPassword(q, HashPassword(p))
            <==> |p| <= BCRYPT_LIMIT && (q == p || (|p| == BCRYPT_LIMIT && p <= q))
  {
    if |p| <= BCRYPT_LIMIT {
      if KeyMaterial(p) == KeyMaterial(q) {
        SameMaterial(p, q);
      }
      if |p| == BCRYPT_LIMIT && p <= q {
        forall i | 0 <= i < BCRYPT_LIMIT ensures KeyMaterial(q)[i] == KeyMaterial(p)[i] {
          KeyMaterialAt(p, i);
          KeyMaterialAt(q, i);
          assert q[i] == p[i];
        }
      }
    }
  }

  /** The i-th byte of a password closed by NUL and repeated without end. */
  function Cycled(password: Bytes, i: nat): byte { (password + [0])[i % (|password| + 1)] }

  /**
   Which passwords verify against the record of p: none if p has more than 72 bytes;
   otherwise those that agree with p in the first 72 bytes when both are closed by NUL and
   repeated. Without NUL bytes that is p itself and, if p has exactly 72, its extensions.
   */
  lemma VerifiesIff(p: Bytes, q: Bytes)
    ensures VerifyPassword(q, HashPassword(p))
            <==> |p| <= 72 && forall i :: 0 <= i < 72 ==> Cycled(q, i) == Cycled(p, i)
    ensures NulFree(p) && NulFree(q) ==>
              (VerifyPassword(q, HashPassword(p)) <==> |p| <= 72 && (q == p || (|p| == 72 && p <= q)))
  {
    if NulFree(p) && NulFree(q) {
      SameMaterialIff(p, q);
    }
    assert forall i :: 0 <= i < BCRYPT_LIMIT ==>
             KeyMaterial(p)[i] == Cycled(p, i) && KeyMaterial(q)[i] == Cycled(q, i);
  }

  /** With a NUL byte inside, another short password verifies: a, NUL, a against the record of a. */
  lemma NulPasswordVerifies()
    ensures VerifyPassword([97, 0, 97], HashPassword([97]))
  {
    forall i | 0 <= i < BCRYPT_LIMIT ensures Cycled([97, 0, 97], i) == Cycled([97], i) {
      assert [97, 0, 97] + [0] == [97, 0, 97, 0] && [97] + [0] == [97, 0];
      assert i % 4 == 0 || i % 4 == 1 || i % 4 == 2 || i % 4 == 3;
      assert (i % 4) % 2 == i % 2;
    }
    VerifiesIff([97], [97, 0, 97]);
  }

  // ---------- accounts over values ----------

  datatype Account = Account(username: string, hash: Stored, role: Role, permissions: seq<Permission>, active: bool)

  datatype Session = Session(userID: string, expiresAt: int)

  /** names maps user names to IDs; accounts is indexed by ID. */
  datatype State = State(names: map<string, string>, accounts: map<string, Account>, sessions: map<string, Session>)

  datatype Op =
    | CreateUser(username: string, email: string, password: Bytes, role: Role, freshID: string)
    | Authenticate(username: string, password: Bytes, freshID: string, now: int)
    | UpdateRole(userID: string, role: Role)
    | Deactivate(userID: string)
    | Logout(sessionID: string)

  function CreateCheck(s: State, username: string, email: string, password: Bytes): Option<Error> {
    if username == "" || email == "" || password == [] then Some(MissingField)
    else if username in s.names then Some(UsernameTaken)
    else None
  }

  function LoginCheck(s: State, username: string, password: Bytes): Option<Error> {
    if username !in s.names || s.names[username] !in s.accounts then Some(InvalidCredentials)
    else if !s.accounts[s.names[username]].active then Some(AccountDisabled)
    else if !VerifyPassword(password, s.accounts[s.names[username]].hash) then Some(InvalidCredentials)
    else None
  }

  function ValidUser(s: State, sessionID: string, now: int): Result<string, Error> {
    if sessionID !in s.sessions then Err(InvalidSession)
    else
      var session := s.sessions[sessionID];
      if now > session.expiresAt then Err(SessionExpired)
      else if session.userID !in s.accounts then Err(UserNotFound)
      else if !s.accounts[session.userID].active then Err(AccountDisabled)
      else Ok(session.userID)
  }

  predicate Permitted(s: State, userID: string, p: Permission) {
    userID in s.accounts && s.accounts[userID].active && p in s.accounts[userID].permissions
  }

  function EffectiveRole(role: Role): Role { if KnownRole(role) then role else UserRole }

  function Next(s: State, op: Op): State {
    match op
    case CreateUser(username, email, password, role, id) =>
      if CreateCheck(s, username, email, password).Some? then s
      else
        var r := EffectiveRole(role);
        s.(names := s.names[username := id],
           accounts := s.accounts[id := Account(username, HashPassword(password), r, RolePermissions(r), true)])
    case Authenticate(username, password, id, now) =>
      if LoginCheck(s, username, password).Some? then s
      else s.(sessions := s.sessions[id := Session(s.names[username], now + SESSION_SECONDS)])
    case UpdateRole(userID, role) =>
      if userID in s.accounts && KnownRole(role) then
        s.(accounts := s.accounts[userID := s.accounts[userID].(role := role, permissions := RolePermissions(role))])
      else s
    case Deactivate(userID) =>
      if userID in s.accounts then s.(accounts := s.accounts[userID := s.accounts[userID].(active := false)]) else s
    case Logout(sessionID) => s.(sessions := s.sessions - {sessionID})
  }

  /** Generated IDs are new. */
  ghost predicate Fresh(s: State, op: Op) {
    && (op.CreateUser? ==> op.freshID !in s.accounts)
    && (op.Authenticate? ==> op.freshID !in s.sessions)
  }

  /** The two indexes are inverse to each other, and permissions are those of the role. */
  ghost predicate Consistent(s: State) {
    && (forall name :: name in s.names ==> s.names[name] in s.accounts && s.accounts[s.names[name]].username == name)
    && (forall id :: id in s.accounts ==> s.accounts[id].username in s.names && s.names[s.accounts[id].username] == id)
    && (forall id :: id in s.accounts ==>
          KnownRole(s.accounts[id].role) && s.accounts[id].permissions == RolePermissions(s.accounts[id].role))
  }

  // ---------- the account manager ----------

  class User {
    const id: string
    const username: string
    const email: string
    const passwordHash: Stored
    var role: Role
    var permissions: seq<Permission>
    var lastLogin: int
    var isActive: bool

    constructor (id: string, username: string, email: string, hash: Stored, role: Role, permissions: seq<Permission>)
      ensures this.id == id && this.username == username && this.email == email
      ensures Value() == Account(username, hash, role, permissions, true)
    {
      this.id, this.username, this.email, passwordHash := id, username, email, hash;
      this.role, this.permissions := role, permissions;
      lastLogin, isActive := 0, true;
    }

    function Value(): Account
      reads this
    {
      Account(username, passwordHash, role, permissions, isActive)
    }
  }

  class AccountManager {
    var users: map<string, User>
    var usersByID: map<string, User>
    var sessions: map<string, Session>

    ghost function Objects(): set<object>
      reads this
    {
      set id | id in usersByID :: usersByID[id] as object
    }

    ghost function View(): State
      reads this, Objects()
    {
      State(map name | name in users :: users[name].id, map id | id in usersByID :: usersByID[id].Value(), sessions)
    }

    /**
     Every object is in both maps, under its own name and its own ID. That the view is
     Consistent then follows from NextKeepsConsistent, since each method is a step of Next.
     */
    ghost predicate Valid()
      reads this
    {
      && (forall name :: name in users ==>
            users[name].username == name && users[name].id in usersByID && usersByID[users[name].id] == users[name])
      && (forall id :: id in usersByID ==>
            usersByID[id].id == id && usersByID[id].username in users && users[usersByID[id].username] == usersByID[id])
    }

    constructor ()
      ensures Valid() && View() == State(map[], map[], map[])
    {
      users, usersByID, sessions := map[], map[], map[];
    }

    /** Enter one object into both maps. */
    method Index(user: User)
      requires Valid() && user.id !in usersByID && user.username !in users
      modifies this`users, this`usersByID
      ensures Valid() && sessions == old(sessions)
      ensures users == old(users)[user.username := user] && usersByID == old(usersByID)[user.id := user]
      ensures View().names == old(View()).names[user.username := user.id]
      ensures View().accounts == old(View()).accounts[user.id := user.Value()]
    {
      users := users[user.username := user];
      usersByID := usersByID[user.id := user];
    }

    method CreateUser(username: string, email: string, password: Bytes, role: Role, freshID: string)
      returns (r: Result<User, Error>)
      requires Valid() && freshID !in usersByID
      modifies this
      ensures Valid() && View() == Next(old(View()), Op.CreateUser(username, email, password, role, freshID))
      ensures match CreateCheck(old(View()), username, email, password)
              case Some(e) => r == Err(e)
              case None => r.Ok? && fresh(r.value) && freshID in usersByID && usersByID[freshID] == r.value
      ensures r.Err? ==>
                r.error == if username == "" || email == "" || password == [] then MissingField else UsernameTaken
      ensures r.Ok? <==> username != "" && email != "" && password != [] && username !in old(users)
      ensures r.Ok? ==>
                && users == old(users)[username := r.value] && usersByID == old(usersByID)[freshID := r.value]
                && r.value.id == freshID && r.value.username == username && r.value.email == email && r.value.isActive
                && r.value.role == (if role.OtherRole? then UserRole else role)
    {
      if username == "" || email == "" || password == [] {
        return Err(MissingField);
      }
      if username in users {
        return Err(UsernameTaken);
      }
      var passwordHash := HashPassword(password);
      var known := KnownRole(role);
      var effective := if known then role else UserRole;
      var permissions := RolePermissions(effective);
      var user := new User(freshID, username, email, passwordHash, effective, permissions);
      assert View() == old(View());
      Index(user);
      assert usersByID[freshID] == user;
      assert user.Value() == Account(username, passwordHash, effective, permissions, true);
      return Ok(user);
    }

    method Authenticate(username: string, password: Bytes, freshID: string, now: int)
      returns (r: Result<Session, Error>)
      requires Valid()
      modifies this`sessions, Objects()
      ensures Valid() && View() == Next(old(View()), Op.Authenticate(username, password, freshID, now))
      ensures match LoginCheck(old(View()), username, password)
              case Some(e) => r == Err(e)
              case None => r == Ok(Session(old(View()).names[username], now + 86400))
      ensures r.Ok? ==> sessions == old(sessions)[freshID := r.value]
      ensures r.Err? ==> sessions == old(sessions)
      ensures r.Ok? ==> username in users && users[username].isActive && r.value.userID == users[username].id
    {
      if username !in users {
        return Err(InvalidCredentials);
      }
      var user := users[username];
      if !user.isActive {
        return Err(AccountDisabled);
      }
      if !VerifyPassword(password, user.passwordHash) {
        return Err(InvalidCredentials);
      }
      var session := Session(user.id, now + SESSION_SECONDS);
      sessions := sessions[freshID := session];
      user.lastLogin := now;
      assert View().accounts == old(View()).accounts && View().names == old(View()).names;
      return Ok(session);
    }

    method ValidateSession(sessionID: string, now: int) returns (r: Result<User, Error>)
      requires Valid()
      ensures match ValidUser(View(), sessionID, now)
              case Err(e) => r == Err(e)
              case Ok(id) => r.Ok? && id in usersByID && r.value == usersByID[id]
      ensures r.Ok? <==>
                && sessionID in sessions && now <= sessions[sessionID].expiresAt
                && sessions[sessionID].userID in usersByID && usersByID[sessions[sessionID].userID].isActive
      ensures r.Ok? ==> r.value == usersByID[sessions[sessionID].userID]
      ensures r == Err(SessionExpired) <==> sessionID in sessions && now > sessions[sessionID].expiresAt
    {
      if sessionID !in sessions {
        return Err(InvalidSession);
      }
      var session := sessions[sessionID];
      if now > session.expiresAt {
        return Err(SessionExpired);
      }
      if session.userID !in usersByID {
        return Err(UserNotFound);
      }
      var user := usersByID[session.userID];
      if !user.isActive {
        return Err(AccountDisabled);
      }
      return Ok(user);
    }

    method HasPermission(userID: string, permission: Permission) returns (allowed: bool)
      requires Valid()
      ensures allowed <==> Permitted(View(), userID, permission)
      ensures allowed <==> && userID in usersByID && usersByID[userID].isActive
                           && permission in usersByID[userID].permissions
    {
      if userID !in usersByID || !usersByID[userID].isActive {
        return false;
      }
      var perms := usersByID[userID].permissions;
      for i := 0 to |perms|
        invariant permission !in perms[..i]
      {
        if perms[i] == permission {
          return true;
        }
      }
      return false;
    }

    method UpdateUserRole(userID: string, newRole: Role) returns (r: Result<(), Error>)
      requires Valid()
      modifies Objects()
      ensures Valid() && View() == Next(old(View()), UpdateRole(userID, newRole))
      ensures r == if userID !in old(View()).accounts then Err(UserNotFound)
                   else if newRole.OtherRole? then Err(InvalidRole) else Ok(())
      ensures r.Ok? ==> usersByID[userID].role == newRole
    {
      if userID !in usersByID {
        return Err(UserNotFound);
      }
      var user := usersByID[userID];
      if !KnownRole(newRole) {
        return Err(InvalidRole);
      }
      user.role := newRole;
      user.permissions := RolePermissions(newRole);
      assert View().accounts == old(View()).accounts[userID := user.Value()];
      return Ok(());
    }

    method DeactivateUser(userID: string) returns (r: Result<(), Error>)
      requires Valid()
      modifies Objects()
      ensures Valid() && View() == Next(old(View()), Deactivate(userID))
      ensures r == if userID in old(View()).accounts then Ok(()) else Err(UserNotFound)
      ensures r.Ok? ==> !usersByID[userID].isActive
    {
      if userID !in usersByID {
        return Err(UserNotFound);
      }
      var user := usersByID[userID];
      user.isActive := false;
      assert View().accounts == old(View()).accounts[userID := user.Value()];
      return Ok(());
    }

    method LogoutSession(sessionID: string) returns (r: Result<(), Error>)
      requires Valid()
      modifies this`sessions
      ensures Valid() && View() == Next(old(View()), Logout(sessionID))
      ensures r == if sessionID in old(sessions) then Ok(()) else Err(SessionNotFound)
      ensures sessions == old(sessions) - {sessionID}
    {
      if sessionID !in sessions {
        assert sessions - {sessionID} == sessions;
        return Err(SessionNotFound);
      }
      sessions := sessions - {sessionID};
      assert View().accounts == old(View()).accounts;
      return Ok(());
    }
  }

  // ---------- whole runs ----------

  lemma CreateKeeps(s: State, op: Op)
    requires Consistent(s) && Fresh(s, op) && op.CreateUser?
    ensures Consistent(Next(s, op))
  {}

  lemma RoleKeeps(s: State, op: Op)
    requires Consistent(s) && (op.UpdateRole? || op.Deactivate?)
    ensures Consistent(Next(s, op))
  {}

  lemma NextKeepsConsistent(s: State, op: Op)
    requires Consistent(s) && Fresh(s, op)
    ensures Consistent(Next(s, op))
  {
    match op
    case CreateUser(_, _, _, _, _) => CreateKeeps(s, op);
    case UpdateRole(_, _) => RoleKeeps(s, op);
    case Deactivate(_) => RoleKeeps(s, op);
    case _ =>
  }

  ghost predicate FreshRun(s: State, ops: seq<Op>)
    decreases |ops|
  {
    ops == [] || (Fresh(s, ops[0]) && FreshRun(Next(s, ops[0]), ops[1..]))
  }

  function Run(s: State, ops: seq<Op>): State
    decreases |ops|
  {
    if ops == [] then s else Run(Next(s, ops[0]), ops[1..])
  }

  lemma {:induction false} RunKeepsConsistent(s: State, ops: seq<Op>)
    requires Consistent(s) && FreshRun(s, ops)
    ensures Consistent(Run(s, ops))
    decreases |ops|
  {
    if ops != [] {
      NextKeepsConsistent(s, ops[0]);
      RunKeepsConsistent(Next(s, ops[0]), ops[1..]);
    }
  }

  const START := State(map[], map[], map[])

  /** From the start, the indexes stay one-to-one and permissions stay those of the role. */
  lemma AlwaysConsistent(ops: seq<Op>, id: string)
    requires FreshRun(START, ops)
    ensures var s := Run(START, ops);
            && Consistent(s)
            && (id in s.accounts ==> s.names[s.accounts[id].username] == id
                                     && s.accounts[id].permissions == RolePermissions(s.accounts[id].role))
  {
    RunKeepsConsistent(START, ops);
  }

  ghost predicate Inactive(s: State, userID: string) { userID in s.accounts && !s.accounts[userID].active }

  /** An inactive account stays inactive, under the same name, in every continuation. */
  lemma {:induction false} InactiveForever(s: State, ops: seq<Op>, userID: string)
    requires Consistent(s) && FreshRun(s, ops) && Inactive(s, userID)
    ensures Inactive(Run(s, ops), userID)
    ensures Run(s, ops).accounts[userID].username == s.accounts[userID].username
    ensures Consistent(Run(s, ops))
    decreases |ops|
  {
    if ops != [] {
      NextKeepsConsistent(s, ops[0]);
      InactiveForever(Next(s, ops[0]), ops[1..], userID);
    }
  }

  /**
   After a successful deactivation, in every continuation: no log-in under the user's
   name, no session of the user, whenever it was opened, and no permission is honoured.
   */
  lemma DeactivationIsFinal(before: seq<Op>, after: seq<Op>, userID: string, sessionID: string, now: int, p: Permission,
                            password: Bytes)
    requires FreshRun(START, before)
    requires userID in Run(START, before).accounts
    requires FreshRun(Next(Run(START, before), Deactivate(userID)), after)
    ensures var s := Next(Run(START, before), Deactivate(userID));
            var end := Run(s, after);
            && LoginCheck(end, s.accounts[userID].username, password) == Some(AccountDisabled)
            && ValidUser(end, sessionID, now) != Ok(userID)
            && !Permitted(end, userID, p)
  {
    var s0 := Run(START, before);
    RunKeepsConsistent(START, before);
    NextKeepsConsistent(s0, Deactivate(userID));
    InactiveForever(Next(s0, Deactivate(userID)), after, userID);
  }

  // ---------- an account, read off its history ----------

  /** The role after some operations: that of the last update to a known role. */
  function RoleAfter(ops: seq<Op>, userID: string, initial: Role): Role
    decreases |ops|
  {
    if ops == [] then initial
    else
      var op := ops[|ops| - 1];
      if op.UpdateRole? && op.userID == userID && !op.role.OtherRole? then op.role
      else RoleAfter(ops[..|ops| - 1], userID, initial)
  }

  lemma {:induction false} RoleAfterFirst(ops: seq<Op>, userID: string, initial: Role)
    requires ops != []
    ensures var op := ops[0];
            RoleAfter(ops, userID, initial)
            == RoleAfter(ops[1..], userID,
                         if op.UpdateRole? && op.userID == userID && !op.role.OtherRole? then op.role else initial)
    decreases |ops|
  {
    if |ops| > 1 {
      var front := ops[..|ops| - 1];
      RoleAfterFirst(front, userID, initial);
      assert front[1..] == ops[1..][..|ops| - 2];
      assert ops[1..][|ops| - 2] == ops[|ops| - 1];
    }
  }

  /** What one operation may do to an account. */
  lemma AccountStep(s: State, op: Op, userID: string)
    requires Consistent(s) && Fresh(s, op) && userID in s.accounts
    ensures userID in Next(s, op).accounts
    ensures var was, now := s.accounts[userID], Next(s, op).accounts[userID];
            && now.username == was.username && now.hash == was.hash
            && (now.active <==> was.active && op != Deactivate(userID))
            && now.role == if op.UpdateRole? && op.userID == userID && !op.role.OtherRole? then op.role else was.role
  {}

  lemma {:induction false} AccountStory(s: State, ops: seq<Op>, userID: string)
    requires Consistent(s) && FreshRun(s, ops) && userID in s.accounts
    ensures Consistent(Run(s, ops)) && userID in Run(s, ops).accounts
    ensures var was, now := s.accounts[userID], Run(s, ops).accounts[userID];
            && now.username == was.username && now.hash == was.hash
            && (now.active <==> was.active && Deactivate(userID) !in ops)
            && now.role == RoleAfter(ops, userID, was.role)
    decreases |ops|
  {
    if ops != [] {
      NextKeepsConsistent(s, ops[0]);
      AccountStep(s, ops[0], userID);
      AccountStory(Next(s, ops[0]), ops[1..], userID);
      RoleAfterFirst(ops, userID, s.accounts[userID].role);
      assert ops == [ops[0]] + ops[1..];
    }
  }

  /** What a role may do. */
  predicate May(role: Role, p: Permission) {
    match p
    case Read => !role.OtherRole?
    case Write => !role.OtherRole?
    case ViewDashboard => !role.OtherRole?
    case ManageMerchant => role.MerchantRole? || role.AdminRole?
    case _ => role.AdminRole?
  }

  lemma TableSays(role: Role, p: Permission)
    ensures p in RolePermissions(role) <==> May(role, p)
  {}

  /**
   In every continuation after an account is created: it is active iff it has not been
   deactivated since, its role is that of the last update to a known role (at first the one
   asked for, or plain user if that is unknown), and it is permitted exactly what that role may
   do, while active.
   */
  lemma AccountIsItsHistory(before: seq<Op>, op: Op, after: seq<Op>, p: Permission)
    requires FreshRun(START, before) && op.CreateUser? && Fresh(Run(START, before), op)
    requires CreateCheck(Run(START, before), op.username, op.email, op.password).None?
    requires FreshRun(Next(Run(START, before), op), after)
    ensures var end := Run(Next(Run(START, before), op), after);
            var role := RoleAfter(after, op.freshID, if op.role.OtherRole? then UserRole else op.role);
            && op.username in end.names && end.names[op.username] == op.freshID && op.freshID in end.accounts
            && end.accounts[op.freshID].role == role
            && (end.accounts[op.freshID].active <==> Deactivate(op.freshID) !in after)
            && (Permitted(end, op.freshID, p) <==> Deactivate(op.freshID) !in after && May(role, p))
  {
    var s := Run(START, before);
    RunKeepsConsistent(START, before);
    NextKeepsConsistent(s, op);
    AccountStory(Next(s, op), after, op.freshID);
    TableSays(Run(Next(s, op), after).accounts[op.freshID].role, p);
  }

  /**
   Who gets in: in every continuation after an account is created, a log-in under its name
   succeeds iff the account has not been deactivated since and the password offered verifies;
   with the account's own password, iff not deactivated and that password has at most 72 bytes.
   */
  lemma LogInIff(before: seq<Op>, op: Op, after: seq<Op>, password: Bytes)
    requires FreshRun(START, before) && op.CreateUser? && Fresh(Run(START, before), op)
    requires CreateCheck(Run(START, before), op.username, op.email, op.password).None?
    requires FreshRun(Next(Run(START, before), op), after)
    ensures var end := Run(Next(Run(START, before), op), after);
            && (LoginCheck(end, op.username, password).None? <==>
                Deactivate(op.freshID) !in after && VerifyPassword(password, HashPassword(op.password)))
            && (LoginCheck(end, op.username, op.password).None? <==>
                Deactivate(op.freshID) !in after && |op.password| <= 72)
  {
    var s := Run(START, before);
    RunKeepsConsistent(START, before);
    NextKeepsConsistent(s, op);
    AccountStory(Next(s, op), after, op.freshID);
  }

  /** A 73-byte password. */
  const TOO_LONG: Bytes := seq(73, _ => 97)

  /** An account created with it is active, and nobody can ever log in to it, not even with that password. */
  lemma LongPasswordLocksOut(password: Bytes)
    ensures var s := Next(START, CreateUser("u", "e", TOO_LONG, UserRole, "id"));
            && "id" in s.accounts && s.accounts["id"].active && s.names["u"] == "id"
            && LoginCheck(s, "u", password) == Some(InvalidCredentials)
  {}

  // ---------- a session, read off its history ----------

  lemma {:induction false} SessionStays(s: State, ops: seq<Op>, sessionID: string)
    requires FreshRun(s, ops) && sessionID in s.sessions && Logout(sessionID) !in ops
    ensures sessionID in Run(s, ops).sessions && Run(s, ops).sessions[sessionID] == s.sessions[sessionID]
    decreases |ops|
  {
    if ops != [] {
      assert ops[0] in ops;
      SessionStays(Next(s, ops[0]), ops[1..], sessionID);
    }
  }

  lemma {:induction false} SessionStaysAway(s: State, ops: seq<Op>, sessionID: string)
    requires sessionID !in s.sessions
    requires forall op :: op in ops && op.Authenticate? ==> op.freshID != sessionID
    ensures sessionID !in Run(s, ops).sessions
    decreases |ops|
  {
    if ops != [] {
      assert ops[0] in ops;
      SessionStaysAway(Next(s, ops[0]), ops[1..], sessionID);
    }
  }

  /**
   A session in every continuation after the log-in that opened it, at any later time: while
   it is not logged out, validating it gives its user iff at most 24 hours (86400 seconds) have
   passed since the log-in and the account has not been deactivated; after that time it is
   refused as expired, and before it, if the account is deactivated, as disabled.
   */
  lemma SessionHonouredIff(before: seq<Op>, username: string, password: Bytes, sessionID: string, logInTime: int,
                           after: seq<Op>, later: int)
    requires FreshRun(START, before) && sessionID !in Run(START, before).sessions
    requires LoginCheck(Run(START, before), username, password).None?
    requires FreshRun(Next(Run(START, before), Authenticate(username, password, sessionID, logInTime)), after)
    requires Logout(sessionID) !in after
    ensures var s := Run(START, before);
            username in s.names &&
            var end := Run(Next(s, Authenticate(username, password, sessionID, logInTime)), after);
            ValidUser(end, sessionID, later)
            == if later > logInTime + 86400 then Err(SessionExpired)
               else if Deactivate(s.names[username]) in after then Err(AccountDisabled)
               else Ok(s.names[username])
  {
    var s := Run(START, before);
    var s1 := Next(s, Authenticate(username, password, sessionID, logInTime));
    RunKeepsConsistent(START, before);
    NextKeepsConsistent(s, Authenticate(username, password, sessionID, logInTime));
    AccountStory(s1, after, s.names[username]);
    SessionStays(s1, after, sessionID);
  }

  /** Once logged out, a session is refused in every continuation that does not use its ID again. */
  lemma LoggedOutForGood(s: State, after: seq<Op>, sessionID: string, later: int)
    requires forall op :: op in after && op.Authenticate? ==> op.freshID != sessionID
    ensures ValidUser(Run(Next(s, Logout(sessionID)), after), sessionID, later) == Err(InvalidSession)
  {
    SessionStaysAway(Next(s, Logout(sessionID)), after, sessionID);
  }
}
