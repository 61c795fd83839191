/** The `QueueDO` Durable Object of do-worker/src/index.js: one instance
    owns the user table, the session entries and the queue document, and
    `fetch` answers each request by one read-validate-modify-write step. */
module Worker {
  import opened Wrappers
  import opened JsText
  import opened Api
  import opened Auth
  import opened Users
  import opened QueueState

  /** The JSON body fields the routes read; a field is None when it is absent
      (or, for `image`, not a string). */
  datatype Body = Body(
    username: Option<string>,
    password: Option<string>,
    role: Option<string>,
    number: Option<string>,
    gender: Option<string>,
    image: Option<string>)

  datatype Request = Request(verb: string, path: string, authorization: Option<string>, body: Body)

  /** A row of the user listing: everything but the password hash. */
  datatype UserView = UserView(username: string, role: string, createdAt: string)

  /** The JSON reply: `{ok: true}` with the route's payload, or `{ok: false, error}`. */
  datatype Reply =
    | Done
    | LoggedIn(token: string, username: string, role: string)
    | Snapshot(state: State)
    | Called(current: Option<Item>)
    | UserList(rows: seq<UserView>)
    | Fail(error: ErrorCode)

  function StatusOf(reply: Reply): (status: int)
    ensures status == 200 <==> !reply.Fail?
  {
    if reply.Fail? then Status(reply.error) else 200
  }

  /** The envelope's `error` field: present exactly on a failure. */
  function ErrorField(reply: Reply): (error: Option<string>)
    ensures error.None? <==> !reply.Fail?
    ensures error.Some? ==> error.value != []
  {
    if reply.Fail? then Some(Code(reply.error)) else None
  }

  /** The `error` field alone decides the HTTP status: two replies that
      carry the same one (or none) are sent with the same status. */
  lemma {:induction false} ErrorFieldDecidesStatus(a: Reply, b: Reply)
    requires ErrorField(a) == ErrorField(b)
    ensures StatusOf(a) == StatusOf(b)
  {
    if a.Fail? {
      CodesDistinct(a.error, b.error);
    }
  }

  datatype Route =
    | HealthRoute | LoginRoute | LogoutRoute | StateRoute | NextRoute | PrevRoute
    | ResetRoute | SetImageRoute | ClearImageRoute | ListUsersRoute | AddUserRoute
    | NotFoundRoute

  /** The HTTP method and path each route other than health (any method)
      and not-found answers. */
  function Endpoint(r: Route): (string, string)
    requires r != HealthRoute && r != NotFoundRoute
  {
    match r
    case LoginRoute => ("POST", "/api/login")
    case LogoutRoute => ("POST", "/api/logout")
    case StateRoute => ("GET", "/api/state")
    case NextRoute => ("POST", "/api/next")
    case PrevRoute => ("POST", "/api/prev")
    case ResetRoute => ("POST", "/api/queue/reset")
    case SetImageRoute => ("POST", "/api/center-image")
    case ClearImageRoute => ("DELETE", "/api/center-image")
    case ListUsersRoute => ("GET", "/api/users")
    case AddUserRoute => ("POST", "/api/users")
  }

  /** The branch of `fetch` a request reaches: the path and HTTP method (`verb`) tests in
      the order `fetch` makes them. */
  function RouteOf(verb: string, path: string): (r: Route)
    ensures r == HealthRoute <==> path == "/api/health"
    ensures r != HealthRoute && r != NotFoundRoute ==> Endpoint(r) == (verb, path)
  {
    if path == "/api/health" then HealthRoute
    else if path == "/api/login" && verb == "POST" then LoginRoute
    else if path == "/api/logout" && verb == "POST" then LogoutRoute
    else if path == "/api/state" && verb == "GET" then StateRoute
    else if path == "/api/next" && verb == "POST" then NextRoute
    else if path == "/api/prev" && verb == "POST" then PrevRoute
    else if path == "/api/queue/reset" && verb == "POST" then ResetRoute
    else if path == "/api/center-image" && verb == "POST" then SetImageRoute
    else if path == "/api/center-image" && verb == "DELETE" then ClearImageRoute
    else if path == "/api/users" && verb == "GET" then ListUsersRoute
    else if path == "/api/users" && verb == "POST" then AddUserRoute
    else NotFoundRoute
  }

  /** Each route's own method and path reach it: no earlier test in the
      chain shadows a later one. */
  lemma RouteOfEndpoint(r: Route)
    requires r != HealthRoute && r != NotFoundRoute
    ensures RouteOf(Endpoint(r).0, Endpoint(r).1) == r
  {
  }

  /** A request reaches the not-found branch exactly when its path is not
      the health check and no route has its method and path. */
  lemma {:induction false} NotFoundExactly(verb: string, path: string)
    ensures RouteOf(verb, path) == NotFoundRoute <==>
      path != "/api/health" && forall q :: q != HealthRoute && q != NotFoundRoute ==> Endpoint(q) != (verb, path)
  {
    if RouteOf(verb, path) == NotFoundRoute {
      forall q | q != HealthRoute && q != NotFoundRoute ensures Endpoint(q) != (verb, path) {
        RouteOfEndpoint(q);
      }
    }
  }

  /** Routes gated by mustRole(sess, "staff"). */
  predicate StaffRoute(r: Route) {
    r == NextRoute || r == PrevRoute
  }

  /** Routes gated by mustRole(sess, "admin"). */
  predicate AdminRoute(r: Route) {
    r == ResetRoute || r == SetImageRoute || r == ClearImageRoute || r == ListUsersRoute || r == AddUserRoute
  }

  /** Routes that may write the queue document. */
  predicate WritesState(r: Route) {
    StaffRoute(r) || r == ResetRoute || r == SetImageRoute || r == ClearImageRoute
  }

  // ----- the user listing -----

  /** The rows of the user listing: one per user, without the password hash. */
  function Listing(users: UserTable): (rows: set<UserView>)
    ensures forall v :: v in rows <==>
      v.username in users && v.role == users[v.username].role && v.createdAt == users[v.username].createdAt
    ensures forall u :: u in users ==> UserView(u, users[u].role, users[u].createdAt) in rows
  {
    set u | u in users :: UserView(u, users[u].role, users[u].createdAt)
  }

  /** `a` sorts no later than `b` under SQLite's default BINARY collation:
      the UTF-8 bytes compared one by one, which orders text as its code
      points do, a proper prefix first. */
  predicate TextLeq(a: string, b: string)
    decreases |a|
  {
    a == [] || (b != [] && (a[0] < b[0] || (a[0] == b[0] && TextLeq(a[1..], b[1..]))))
  }

  lemma {:induction false} TextLeqReflexive(a: string)
    ensures TextLeq(a, a)
    decreases |a|
  {
    if a != [] {
      TextLeqReflexive(a[1..]);
    }
  }

  lemma {:induction false} TextLeqTotal(a: string, b: string)
    ensures TextLeq(a, b) || TextLeq(b, a)
    decreases |a|
  {
    if a != [] && b != [] && a[0] == b[0] {
      TextLeqTotal(a[1..], b[1..]);
    }
  }

  lemma {:induction false} TextLeqTransitive(a: string, b: string, c: string)
    requires TextLeq(a, b) && TextLeq(b, c)
    ensures TextLeq(a, c)
    decreases |a|
  {
    if a != [] && a[0] == b[0] && b[0] == c[0] {
      TextLeqTransitive(a[1..], b[1..], c[1..]);
    }
  }

  /** `ORDER BY created_at DESC`: no row was created before a row after it. */
  predicate NewestFirst(rows: seq<UserView>) {
    forall i, j :: 0 <= i < j < |rows| ==> TextLeq(rows[j].createdAt, rows[i].createdAt)
  }

  /** `rows` with `v` put in front of the first row not created after it. */
  function InsertNewest(rows: seq<UserView>, v: UserView): (r: seq<UserView>)
    ensures |r| == |rows| + 1
    ensures forall w :: w in r <==> w in rows || w == v
    ensures multiset(r) == multiset(rows) + multiset{v}
    decreases |rows|
  {
    if rows == [] || TextLeq(rows[0].createdAt, v.createdAt) then [v] + rows
    else
      assert rows == [rows[0]] + rows[1..];
      [rows[0]] + InsertNewest(rows[1..], v)
  }

  /** Inserting keeps the rows newest first. */
  lemma {:induction false} InsertNewestKeepsOrder(rows: seq<UserView>, v: UserView)
    requires NewestFirst(rows)
    ensures NewestFirst(InsertNewest(rows, v))
    decreases |rows|
  {
    if rows == [] {
    } else if TextLeq(rows[0].createdAt, v.createdAt) {
      forall w | w in rows ensures TextLeq(w.createdAt, v.createdAt) {
        var k :| 0 <= k < |rows| && rows[k] == w;
        if k > 0 {
          TextLeqTransitive(w.createdAt, rows[0].createdAt, v.createdAt);
        }
      }
      FrontKeepsOrder(v, rows);
    } else {
      TextLeqTotal(rows[0].createdAt, v.createdAt);
      InsertNewestKeepsOrder(rows[1..], v);
      var rest := InsertNewest(rows[1..], v);
      forall w | w in rest ensures TextLeq(w.createdAt, rows[0].createdAt) {
        if w != v {
          var k :| 0 <= k < |rows[1..]| && rows[1..][k] == w;
          assert rows[k + 1] == w;
        }
      }
      FrontKeepsOrder(rows[0], rest);
    }
  }

  /** A row created no earlier than every row of a newest-first list may go in front of it. */
  lemma FrontKeepsOrder(v: UserView, rows: seq<UserView>)
    requires NewestFirst(rows)
    requires forall w :: w in rows ==> TextLeq(w.createdAt, v.createdAt)
    ensures NewestFirst([v] + rows)
  {
    var r := [v] + rows;
    forall i, j | 0 <= i < j < |r| ensures TextLeq(r[j].createdAt, r[i].createdAt) {
      if i == 0 {
        assert r[j] in rows;
      } else {
        assert r[i] == rows[i - 1] && r[j] == rows[j - 1];
      }
    }
  }

  /** What `SELECT username, role, created_at FROM users ORDER BY created_at
      DESC` returns: as many rows as users, each user's row, newest first
      (rows created at the same instant in no promised order). */
  ghost predicate IsListing(rows: seq<UserView>, users: UserTable) {
    && |rows| == |users|
    && (forall v :: v in rows <==> v in Listing(users))
    && NewestFirst(rows)
  }

  // ----- what each route answers -----

  /** The queue document slot once `ensureSchema` has run. */
  function Schema(stored: Option<State>): Option<State> {
    if stored.Some? then stored else Some(Initial())
  }

  /** `getState`: the stored document, or the initial one when there is none. */
  function Document(stored: Option<State>): (st: State)
    ensures stored.Some? ==> st == stored.value
    ensures stored.None? ==> st == Initial()
    ensures (stored.Some? ==> WellFormed(stored.value)) ==> WellFormed(st)
  {
    if stored.Some? then stored.value else Initial()
  }

  /** The session `readSession` finds for a request among the stored entries. */
  function Caller(sessions: SessionTable, req: Request, now: int): Option<ActiveSession> {
    Resolve(sessions, HeaderToken(OrEmpty(req.authorization)), now)
  }

  /** The login route: the reply, and the session entries `before` and `after` it. */
  ghost predicate LoginAnswer(users: UserTable, body: Body, hash: string -> string, now: int, token: string,
                              before: SessionTable, reply: Reply, after: SessionTable)
  {
    match CheckLogin(users, body.username, body.password, hash)
    case MissingCredentials => reply == Fail(MissingFields) && after == before
    case BadCredentials => reply == Fail(InvalidLogin) && after == before
    case Accepted(name, role) =>
      reply == LoggedIn(token, name, role) && after == before[token := Session(name, role, now + SessionLifetime)]
  }

  /** The call-next route: the reply, and the document slot `before` and `after` it. */
  ghost predicate NextAnswer(sess: Option<ActiveSession>, body: Body, nowIso: string,
                             before: Option<State>, reply: Reply, after: Option<State>)
  {
    if !MustRole(sess, Staff) then reply == Fail(Unauthorized) && after == before
    else
      var number, gender := Trim(OrEmpty(body.number)), Trim(OrEmpty(body.gender));
      if number == "" || gender == "" then reply == Fail(MissingFields) && after == before
      else
        var item := Item(number, gender, sess.value.username, nowIso);
        reply == Called(Some(item)) && after == Some(CallNext(Document(before), item))
  }

  /** The recall-previous route: ok in every authorised case; with fewer
      than two history entries nothing is written. */
  ghost predicate PrevAnswer(sess: Option<ActiveSession>, before: Option<State>, reply: Reply, after: Option<State>) {
    if !MustRole(sess, Staff) then reply == Fail(Unauthorized) && after == before
    else
      var st := Document(before);
      && reply == Called(Recall(st).current)
      && after == if |st.history| < 2 then before else Some(Recall(st))
  }

  ghost predicate ResetAnswer(sess: Option<ActiveSession>, before: Option<State>, reply: Reply, after: Option<State>) {
    if !MustRole(sess, Admin) then reply == Fail(Unauthorized) && after == before
    else reply == Done && after == Some(ResetQueue(Document(before)))
  }

  ghost predicate SetImageAnswer(sess: Option<ActiveSession>, body: Body,
                                 before: Option<State>, reply: Reply, after: Option<State>)
  {
    if !MustRole(sess, Admin) then reply == Fail(Unauthorized) && after == before
    else if !ValidImage(body.image) then reply == Fail(InvalidImage) && after == before
    else reply == Done && after == Some(WithCenterImage(Document(before), body.image))
  }

  ghost predicate ClearImageAnswer(sess: Option<ActiveSession>, before: Option<State>, reply: Reply, after: Option<State>) {
    if !MustRole(sess, Admin) then reply == Fail(Unauthorized) && after == before
    else reply == Done && after == Some(WithCenterImage(Document(before), None))
  }

  ghost predicate ListAnswer(sess: Option<ActiveSession>, users: UserTable, reply: Reply) {
    if !MustRole(sess, Admin) then reply == Fail(Unauthorized)
    else reply.UserList? && IsListing(reply.rows, users)
  }

  /** The add-user route: the first failing check decides the error; only
      when all pass is exactly one row inserted. */
  ghost predicate AddUserAnswer(sess: Option<ActiveSession>, body: Body, hash: string -> string, nowIso: string,
                                before: UserTable, reply: Reply, after: UserTable)
  {
    if !MustRole(sess, Admin) then reply == Fail(Unauthorized) && after == before
    else
      match CheckNewUser(before, body.username, body.password, body.role)
      case Failure(e) => reply == Fail(e) && after == before
      case Success(nu) => reply == Done && after == Insert(before, nu, hash, nowIso)
  }

  class QueueDO {
    var users: UserTable
    var sessions: SessionTable
    /** The storage slot "state"; None until `ensureSchema` first writes it. */
    var stored: Option<State>

    ghost predicate Valid()
      reads this
    {
      && RolesValid(users)
      && SessionsOwned(sessions, users)
      && (stored.Some? ==> WellFormed(stored.value))
    }

    /** A fresh object: empty storage. */
    constructor ()
      ensures Valid()
      ensures users == map[] && sessions == map[] && stored == None
    {
      users := map[];
      sessions := map[];
      stored := None;
    }

    /** `putState`: only well-formed documents are ever written. */
    method PutState(st: State)
      requires Valid() && WellFormed(st)
      modifies this
      ensures Valid()
      ensures stored == Some(st)
      ensures users == old(users) && sessions == old(sessions)
    {
      stored := Some(st);
    }

    /** `ensureSchema`: insert each default account that is missing, and the
      initial document when there is none. */
    method EnsureSchema(hash: string -> string, nowIso: string)
      requires Valid()
      modifies this
      ensures Valid()
      ensures users == Seed(old(users), hash, nowIso)
      ensures sessions == old(sessions)
      ensures stored == Schema(old(stored))
    {
      if AdminName !in users {
        users := users[AdminName := UserRow(hash(AdminPassword), Admin, nowIso)];
      }
      if StaffName !in users {
        users := users[StaffName := UserRow(hash(StaffPassword), Staff, nowIso)];
      }
      if stored.None? {
        stored := Some(Initial());
      }
    }

    /** `readSession`: the session named by the bearer token, if it is stored
      and not expired; an expired entry is deleted on the way. */
    method ReadSession(header: string, now: int) returns (sess: Option<ActiveSession>)
      requires Valid()
      modifies this
      ensures Valid()
      ensures sess == Resolve(old(sessions), HeaderToken(header), now)
      ensures sessions == Sweep(old(sessions), HeaderToken(header), now)
      ensures users == old(users) && stored == old(stored)
    {
      var bearer := HeaderToken(header);
      sess := LookupSession(bearer, now);
    }

    /** The storage half of `readSession`: look the token up, and delete the
      entry when it has expired. */
    method LookupSession(bearer: Option<string>, now: int) returns (sess: Option<ActiveSession>)
      requires Valid()
      modifies this
      ensures Valid()
      ensures sess == Resolve(old(sessions), bearer, now)
      ensures sessions == Sweep(old(sessions), bearer, now)
      ensures users == old(users) && stored == old(stored)
    {
      if bearer.None? {
        return None;
      }
      var token := bearer.value;
      if token !in sessions {
        return None;
      }
      var s := sessions[token];
      if s.exp != 0 && now > s.exp {
        sessions := sessions - {token};
        SessionsOwnedShrink(old(sessions), sessions, users);
        return None;
      }
      return Some(ActiveSession(token, s.username, s.role, s.exp));
    }

    /** The login route: on success exactly one session is stored under the
      fresh token, with the user's own name and role and a 7-day expiry. */
    method Login(body: Body, hash: string -> string, now: int, token: string) returns (reply: Reply)
      requires Valid()
      modifies this
      ensures Valid()
      ensures users == old(users) && stored == old(stored)
      ensures LoginAnswer(users, body, hash, now, token, old(sessions), reply, sessions)
    {
      var username := Trim(OrEmpty(body.username));
      var password := OrEmpty(body.password);
      if username == "" || password == "" {
        return Fail(MissingFields);
      }
      if username !in users {
        return Fail(InvalidLogin);
      }
      var row := users[username];
      if hash(password) != row.passhash {
        return Fail(InvalidLogin);
      }
      var exp := now + SessionLifetime;
      sessions := sessions[token := Session(username, row.role, exp)];
      return LoggedIn(token, username, row.role);
    }

    /** The logout route: always ok; the presented token's entry, if any, is gone afterwards. */
    method Logout(header: string, now: int) returns (reply: Reply)
      requires Valid()
      modifies this
      ensures Valid()
      ensures reply == Done
      ensures users == old(users) && stored == old(stored)
      ensures sessions == if HeaderToken(header).Some? then old(sessions) - {HeaderToken(header).value}
                          else old(sessions)
    {
      var sess := ReadSession(header, now);
      ghost var swept := sessions;
      if sess.Some? {
        sessions := sessions - {sess.value.token};
        SessionsOwnedShrink(swept, sessions, users);
      }
      SweepThenRevoke(old(sessions), HeaderToken(header), now);
      return Done;
    }

    /** The call-next route. */
    method Next(sess: Option<ActiveSession>, body: Body, nowIso: string) returns (reply: Reply)
      requires Valid()
      modifies this
      ensures Valid()
      ensures users == old(users) && sessions == old(sessions)
      ensures NextAnswer(sess, body, nowIso, old(stored), reply, stored)
    {
      if !MustRole(sess, Staff) {
        return Fail(Unauthorized);
      }
      var number := Trim(OrEmpty(body.number));
      var gender := Trim(OrEmpty(body.gender));
      if number == "" || gender == "" {
        return Fail(MissingFields);
      }
      var st := Document(stored);
      var item := Item(number, gender, sess.value.username, nowIso);
      st := st.(current := Some(item));
      st := st.(history := Prepend(item, st.history, HistoryCap));
      if gender == Female {
        st := st.(women := Prepend(item, st.women, LaneCap));
      } else {
        st := st.(men := Prepend(item, st.men, LaneCap));
      }
      assert st == CallNext(Document(old(stored)), item);
      PutState(st);
      return Called(Some(item));
    }

    /** The recall-previous route. */
    method Prev(sess: Option<ActiveSession>) returns (reply: Reply)
      requires Valid()
      modifies this
      ensures Valid()
      ensures users == old(users) && sessions == old(sessions)
      ensures PrevAnswer(sess, old(stored), reply, stored)
    {
      if !MustRole(sess, Staff) {
        return Fail(Unauthorized);
      }
      var st := Document(stored);
      var h := st.history;
      if |h| < 2 {
        return Called(st.current);
      }
      st := st.(current := Some(h[1]));
      assert st == Recall(Document(old(stored)));
      PutState(st);
      return Called(st.current);
    }

    /** The queue-reset route (admin only). */
    method ResetQueueRoute(sess: Option<ActiveSession>) returns (reply: Reply)
      requires Valid()
      modifies this
      ensures Valid()
      ensures users == old(users) && sessions == old(sessions)
      ensures ResetAnswer(sess, old(stored), reply, stored)
    {
      if !MustRole(sess, Admin) {
        return Fail(Unauthorized);
      }
      var st := Document(stored);
      st := st.(current := None, history := [], men := [], women := []);
      assert st == ResetQueue(Document(old(stored)));
      PutState(st);
      return Done;
    }

    /** The centre-image POST route (admin only). */
    method SetCenterImage(sess: Option<ActiveSession>, body: Body) returns (reply: Reply)
      requires Valid()
      modifies this
      ensures Valid()
      ensures users == old(users) && sessions == old(sessions)
      ensures SetImageAnswer(sess, body, old(stored), reply, stored)
    {
      if !MustRole(sess, Admin) {
        return Fail(Unauthorized);
      }
      var image := body.image;
      if image.None? || image.value == "" || !StartsWith(image.value, ImagePrefix) {
        return Fail(InvalidImage);
      }
      var st := Document(stored);
      st := st.(centerImage := image);
      assert st == WithCenterImage(Document(old(stored)), image);
      PutState(st);
      return Done;
    }

    /** The centre-image DELETE route (admin only). */
    method ClearCenterImage(sess: Option<ActiveSession>) returns (reply: Reply)
      requires Valid()
      modifies this
      ensures Valid()
      ensures users == old(users) && sessions == old(sessions)
      ensures ClearImageAnswer(sess, old(stored), reply, stored)
    {
      if !MustRole(sess, Admin) {
        return Fail(Unauthorized);
      }
      var st := Document(stored);
      st := st.(centerImage := None);
      assert st == WithCenterImage(Document(old(stored)), None);
      PutState(st);
      return Done;
    }

    /** The user-listing route (admin only); it changes nothing. The query's
      sort is modelled by inserting the users one at a time into a list kept
      newest first. */
    method ListUsers(sess: Option<ActiveSession>) returns (reply: Reply)
      ensures ListAnswer(sess, users, reply)
    {
      if !MustRole(sess, Admin) {
        return Fail(Unauthorized);
      }
      var rows: seq<UserView> := [];
      var left := users.Keys;
      while left != {}
        invariant left <= users.Keys
        invariant |rows| + |left| == |users|
        invariant forall v :: v in rows <==> v in Listing(users) && v.username !in left
        invariant NewestFirst(rows)
        decreases |left|
      {
        var u :| u in left;
        var v := UserView(u, users[u].role, users[u].createdAt);
        InsertNewestKeepsOrder(rows, v);
        rows := InsertNewest(rows, v);
        left := left - {u};
      }
      return UserList(rows);
    }

    /** The add-user route (admin only). */
    method AddUser(sess: Option<ActiveSession>, body: Body, hash: string -> string, nowIso: string)
      returns (reply: Reply)
      requires Valid()
      modifies this
      ensures Valid()
      ensures sessions == old(sessions) && stored == old(stored)
      ensures AddUserAnswer(sess, body, hash, nowIso, old(users), reply, users)
    {
      if !MustRole(sess, Admin) {
        return Fail(Unauthorized);
      }
      // missing fields, then the role, then the name's uniqueness
      var check := CheckNewUser(users, body.username, body.password, body.role);
      if check.Failure? {
        return Fail(check.error);
      }
      InsertKeepsInvariants(users, sessions, body.username, body.password, body.role, hash, nowIso);
      users := Insert(users, check.value, hash, nowIso);
      return Done;
    }

    /** `fetch`: seed the storage, then take the first branch whose path and
      method match. `now` is the request's instant in milliseconds and
      `nowIso` the same instant as an ISO string; `token` is the fresh random
      token a successful login hands out. Every route after logout answers
      for the session `readSession` finds, against the seeded tables. */
    method Fetch(req: Request, now: int, nowIso: string, hash: string -> string, token: string)
      returns (reply: Reply)
      requires Valid()
      modifies this
      ensures Valid()
      ensures forall u :: u in old(users) ==> u in users && users[u] == old(users)[u]
      ensures AdminName in users && StaffName in users && stored.Some?
      ensures reply == Fail(NotFound) <==> RouteOf(req.verb, req.path) == NotFoundRoute
      ensures RouteOf(req.verb, req.path) != AddUserRoute ==> users == Seed(old(users), hash, nowIso)
      ensures RouteOf(req.verb, req.path) != LoginRoute ==> sessions.Keys <= old(sessions).Keys
      ensures sessions.Keys <= old(sessions).Keys + {token}
      ensures !WritesState(RouteOf(req.verb, req.path)) ==> stored == Schema(old(stored))
      ensures var sess := Caller(old(sessions), req, now);
        && (StaffRoute(RouteOf(req.verb, req.path)) ==> (reply == Fail(Unauthorized) <==> !MustRole(sess, Staff)))
        && (AdminRoute(RouteOf(req.verb, req.path)) ==> (reply == Fail(Unauthorized) <==> !MustRole(sess, Admin)))
      ensures RouteOf(req.verb, req.path) == HealthRoute ==> reply == Done && sessions == old(sessions)
      ensures RouteOf(req.verb, req.path) == LoginRoute ==>
        LoginAnswer(Seed(old(users), hash, nowIso), req.body, hash, now, token, old(sessions), reply, sessions)
      ensures RouteOf(req.verb, req.path) == LogoutRoute ==>
        var bearer := HeaderToken(OrEmpty(req.authorization));
        reply == Done && sessions == if bearer.Some? then old(sessions) - {bearer.value} else old(sessions)
      ensures RouteOf(req.verb, req.path) !in {HealthRoute, LoginRoute, LogoutRoute} ==>
        sessions == Sweep(old(sessions), HeaderToken(OrEmpty(req.authorization)), now)
      ensures RouteOf(req.verb, req.path) == StateRoute ==> reply == Snapshot(Document(Schema(old(stored))))
      ensures RouteOf(req.verb, req.path) == NextRoute ==>
        NextAnswer(Caller(old(sessions), req, now), req.body, nowIso, Schema(old(stored)), reply, stored)
      ensures RouteOf(req.verb, req.path) == PrevRoute ==>
        PrevAnswer(Caller(old(sessions), req, now), Schema(old(stored)), reply, stored)
      ensures RouteOf(req.verb, req.path) == ResetRoute ==>
        ResetAnswer(Caller(old(sessions), req, now), Schema(old(stored)), reply, stored)
      ensures RouteOf(req.verb, req.path) == SetImageRoute ==>
        SetImageAnswer(Caller(old(sessions), req, now), req.body, Schema(old(stored)), reply, stored)
      ensures RouteOf(req.verb, req.path) == ClearImageRoute ==>
        ClearImageAnswer(Caller(old(sessions), req, now), Schema(old(stored)), reply, stored)
      ensures RouteOf(req.verb, req.path) == ListUsersRoute ==>
        ListAnswer(Caller(old(sessions), req, now), Seed(old(users), hash, nowIso), reply)
      ensures RouteOf(req.verb, req.path) == AddUserRoute ==>
        AddUserAnswer(Caller(old(sessions), req, now), req.body, hash, nowIso, Seed(old(users), hash, nowIso), reply, users)
    {
      EnsureSchema(hash, nowIso);
      var route := RouteOf(req.verb, req.path);
      if route == HealthRoute {
        return Done;
      }
      if route == LoginRoute {
        reply := Login(req.body, hash, now, token);
        return;
      }
      var header := OrEmpty(req.authorization);
      if route == LogoutRoute {
        reply := Logout(header, now);
        return;
      }
      // every later branch reads the session first, whether it needs one or not
      var sess := ReadSession(header, now);
      reply := Serve(route, sess, req.body, hash, nowIso);
    }

    /** The branches of `fetch` after the session has been read. */
    method Serve(route: Route, sess: Option<ActiveSession>, body: Body, hash: string -> string, nowIso: string)
      returns (reply: Reply)
      requires Valid()
      requires route != HealthRoute && route != LoginRoute && route != LogoutRoute
      modifies this
      ensures Valid()
      ensures sessions == old(sessions)
      ensures forall u :: u in old(users) ==> u in users && users[u] == old(users)[u]
      ensures route != AddUserRoute ==> users == old(users)
      ensures reply == Fail(NotFound) <==> route == NotFoundRoute
      ensures !WritesState(route) ==> stored == old(stored)
      ensures old(stored).Some? ==> stored.Some?
      ensures StaffRoute(route) ==> (reply == Fail(Unauthorized) <==> !MustRole(sess, Staff))
      ensures AdminRoute(route) ==> (reply == Fail(Unauthorized) <==> !MustRole(sess, Admin))
      ensures route == StateRoute ==> reply == Snapshot(Document(old(stored)))
      ensures route == NextRoute ==> NextAnswer(sess, body, nowIso, old(stored), reply, stored)
      ensures route == PrevRoute ==> PrevAnswer(sess, old(stored), reply, stored)
      ensures route == ResetRoute ==> ResetAnswer(sess, old(stored), reply, stored)
      ensures route == SetImageRoute ==> SetImageAnswer(sess, body, old(stored), reply, stored)
      ensures route == ClearImageRoute ==> ClearImageAnswer(sess, old(stored), reply, stored)
      ensures route == ListUsersRoute ==> ListAnswer(sess, users, reply)
      ensures route == AddUserRoute ==> AddUserAnswer(sess, body, hash, nowIso, old(users), reply, users)
    {
      if route == ListUsersRoute {
        reply := ListUsers(sess);
      } else if route == AddUserRoute {
        reply := AddUser(sess, body, hash, nowIso);
      } else if route == NotFoundRoute {
        reply := Fail(NotFound);
      } else {
        reply := ServeQueue(route, sess, body, nowIso);
      }
    }

    /** The branches of `fetch` that read or write the queue document. */
    method ServeQueue(route: Route, sess: Option<ActiveSession>, body: Body, nowIso: string)
      returns (reply: Reply)
      requires Valid()
      requires route == StateRoute || WritesState(route)
      modifies this
      ensures Valid()
      ensures sessions == old(sessions) && users == old(users)
      ensures reply != Fail(NotFound)
      ensures old(stored).Some? ==> stored.Some?
      ensures StaffRoute(route) ==> (reply == Fail(Unauthorized) <==> !MustRole(sess, Staff))
      ensures AdminRoute(route) ==> (reply == Fail(Unauthorized) <==> !MustRole(sess, Admin))
      ensures route == StateRoute ==> reply == Snapshot(Document(old(stored))) && stored == old(stored)
      ensures route == NextRoute ==> NextAnswer(sess, body, nowIso, old(stored), reply, stored)
      ensures route == PrevRoute ==> PrevAnswer(sess, old(stored), reply, stored)
      ensures route == ResetRoute ==> ResetAnswer(sess, old(stored), reply, stored)
      ensures route == SetImageRoute ==> SetImageAnswer(sess, body, old(stored), reply, stored)
      ensures route == ClearImageRoute ==> ClearImageAnswer(sess, old(stored), reply, stored)
    {
      match route {
        case StateRoute => reply := Snapshot(Document(stored));
        case NextRoute => reply := Next(sess, body, nowIso);
        case PrevRoute => reply := Prev(sess);
        case ResetRoute => reply := ResetQueueRoute(sess);
        case SetImageRoute => reply := SetCenterImage(sess, body);
        case ClearImageRoute => reply := ClearCenterImage(sess);
      }
    }
  }
}
