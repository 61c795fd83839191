/** The `users` table (username -> passhash, role, created_at): its seeding
    in `ensureSchema` (index.js:50-70) and the checks of the login route
    (index.js:136-150) and of the add-user route (index.js:262-276). Password
    hashing (SHA-256 in hex) is a function parameter `hash`. */
module Users {
  import opened Wrappers
  import opened JsText
  import opened Api
  import opened Auth

  datatype UserRow = UserRow(passhash: string, role: string, createdAt: string)

  type UserTable = map<string, UserRow>

  /** The seeded accounts: "يوسف" (admin, password "2626") and "خالد" (staff, password "1234"). */
  const AdminName := "\U{064A}\U{0648}\U{0633}\U{0641}"
  const AdminPassword := "2626"
  const StaffName := "\U{062E}\U{0627}\U{0644}\U{062F}"
  const StaffPassword := "1234"

  /** Every row carries one of the two roles. */
  predicate RolesValid(users: UserTable) {
    forall u :: u in users ==> IsRole(users[u].role)
  }

  /** Every stored session belongs to an existing user and carries that user's role. */
  predicate SessionsOwned(sessions: SessionTable, users: UserTable) {
    forall t :: t in sessions ==>
      sessions[t].username in users && users[sessions[t].username].role == sessions[t].role
  }

  /** Dropping session entries keeps the rest owned. */
  lemma SessionsOwnedShrink(sessions: SessionTable, fewer: SessionTable, users: UserTable)
    requires SessionsOwned(sessions, users)
    requires fewer.Keys <= sessions.Keys && forall t :: t in fewer ==> fewer[t] == sessions[t]
    ensures SessionsOwned(fewer, users)
  {
  }

  /** The table after the two guarded inserts of `ensureSchema`: each
      default account is added only when its name is absent, and no existing
      row is touched. */
  function Seed(users: UserTable, hash: string -> string, now: string): (r: UserTable)
    ensures r.Keys == users.Keys + {AdminName, StaffName}
    ensures forall u :: u in users ==> r[u] == users[u]
    ensures AdminName !in users ==> r[AdminName] == UserRow(hash(AdminPassword), Admin, now)
    ensures StaffName !in users ==> r[StaffName] == UserRow(hash(StaffPassword), Staff, now)
    ensures RolesValid(users) ==> RolesValid(r)
  {
    assert AdminName != StaffName by { assert AdminName[0] != StaffName[0]; }
    var withAdmin := if AdminName in users then users
                     else users[AdminName := UserRow(hash(AdminPassword), Admin, now)];
    if StaffName in withAdmin then withAdmin
    else withAdmin[StaffName := UserRow(hash(StaffPassword), Staff, now)]
  }

  /** Seeding again changes nothing, whatever the time. */
  lemma SeedIdempotent(users: UserTable, hash: string -> string, now: string, later: string)
    ensures Seed(Seed(users, hash, now), hash, later) == Seed(users, hash, now)
  {
    var once := Seed(users, hash, now);
    var twice := Seed(once, hash, later);
    assert twice.Keys == once.Keys;
    forall u | u in once ensures twice[u] == once[u] {
    }
  }

  /** Seeding keeps every session's owner and role in place. */
  lemma SeedKeepsSessionsOwned(sessions: SessionTable, users: UserTable, hash: string -> string, now: string)
    requires SessionsOwned(sessions, users)
    ensures SessionsOwned(sessions, Seed(users, hash, now))
  {
  }

  // ----- login -----

  datatype LoginCheck = MissingCredentials | BadCredentials | Accepted(username: string, role: string)

  /** The decision of the login route: the trimmed username and the password
      must both be non-empty; then the user must exist and the hash of the
      password must equal the stored one. An unknown name and a wrong password
      end in the same BadCredentials. */
  function CheckLogin(users: UserTable, username: Option<string>, password: Option<string>,
                      hash: string -> string): (r: LoginCheck)
    ensures var name, pw := Trim(OrEmpty(username)), OrEmpty(password);
      && (r == MissingCredentials <==> name == "" || pw == "")
      && (r == BadCredentials <==>
            name != "" && pw != "" && (name !in users || hash(pw) != users[name].passhash))
      && (r.Accepted? <==> name != "" && pw != "" && name in users && hash(pw) == users[name].passhash)
      && (r.Accepted? ==> r.username == name && r.role == users[name].role)
  {
    var name := Trim(OrEmpty(username));
    var pw := OrEmpty(password);
    if name == "" || pw == "" then MissingCredentials
    else if name !in users then BadCredentials
    else if hash(pw) != users[name].passhash then BadCredentials
    else Accepted(name, users[name].role)
  }

  /** The two ways to get a login wrong cannot be told apart from the outcome. */
  lemma UniformLoginFailure(users: UserTable, hash: string -> string, name: string,
                            pw: string, wrong: string)
    requires name != "" && IsTrimmed(name) && pw != "" && wrong != ""
    requires name in users && hash(wrong) != users[name].passhash
    ensures var unknown := users - {name};
      CheckLogin(unknown, Some(name), Some(pw), hash) == CheckLogin(users, Some(name), Some(wrong), hash)
  {
    TrimPadded([], name, []);
    assert [] + name + [] == name;
  }

  // ----- adding a user -----

  datatype NewUser = NewUser(username: string, password: string, role: string)

  /** The checks of the add-user route, in the order the route makes them:
      missing fields first, then the role, then the name's uniqueness. */
  function CheckNewUser(users: UserTable, username: Option<string>, password: Option<string>,
                        role: Option<string>): (r: Result<NewUser, ErrorCode>)
    ensures var name, pw, rl := Trim(OrEmpty(username)), OrEmpty(password), Trim(OrEmpty(role));
      var missing := name == "" || pw == "" || rl == "";
      && (r == Failure(MissingFields) <==> missing)
      && (r == Failure(InvalidRole) <==> !missing && !IsRole(rl))
      && (r == Failure(UserExists) <==> !missing && IsRole(rl) && name in users)
      && (r.Success? <==> !missing && IsRole(rl) && name !in users)
      && (r.Success? ==> r.value == NewUser(name, pw, rl))
  {
    var name := Trim(OrEmpty(username));
    var pw := OrEmpty(password);
    var rl := Trim(OrEmpty(role));
    if name == "" || pw == "" || rl == "" then Failure(MissingFields)
    else if !(rl == Admin || rl == Staff) then Failure(InvalidRole)
    else if name in users then Failure(UserExists)
    else Success(NewUser(name, pw, rl))
  }

  /** The row the add-user route inserts once every check has passed. */
  function Insert(users: UserTable, nu: NewUser, hash: string -> string, now: string): (r: UserTable)
    requires nu.username !in users
    ensures r.Keys == users.Keys + {nu.username} && |r| == |users| + 1
    ensures forall u :: u in users ==> r[u] == users[u]
    ensures r[nu.username] == UserRow(hash(nu.password), nu.role, now)
  {
    users[nu.username := UserRow(hash(nu.password), nu.role, now)]
  }

  /** An accepted new user keeps the table's roles valid and every session's owner in place. */
  lemma InsertKeepsInvariants(users: UserTable, sessions: SessionTable, username: Option<string>,
                              password: Option<string>, role: Option<string>,
                              hash: string -> string, now: string)
    requires RolesValid(users) && SessionsOwned(sessions, users)
    requires CheckNewUser(users, username, password, role).Success?
    ensures var r := Insert(users, CheckNewUser(users, username, password, role).value, hash, now);
      RolesValid(r) && SessionsOwned(sessions, r)
  {
  }
}
