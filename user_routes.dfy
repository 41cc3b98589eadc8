/** The user routes: the four flows that issue, rotate and revoke refresh
    tokens (`/login`, `/signup`, `/refreshToken`, `/logout`) over the user
    collection, and the id checks of `GET /user/:id`.

    The foreign parts are parameters: the outcome of passport's local or
    JWT authentication is the principal it yields, `jwt.verify` is a total
    function from token to payload id (None where it throws), the tokens
    `getToken`/`getRefreshToken` sign are given by the caller, and each
    `save` or `User.register` outcome is a flag. */
module UserRoutes {
  import opened Values
  import opened SessionList

  /** A user's `_id`, drawn from the same ObjectId generator as the records. */
  type UserId = nat

  datatype User = User(username: JsValue, fullName: JsValue, sessions: seq<Session>)

  datatype TokenKind = AccessToken | RefreshToken

  /** One token signed by `getToken` (AccessToken) or `getRefreshToken` (RefreshToken)
      for the payload `{_id: subject}`. */
  datatype Grant = Grant(kind: TokenKind, subject: UserId, token: Token)

  /** What a handler answers. */
  datatype Reply =
    | Authorized(token: Token, refreshCookie: Token)  // 200, token in the body, refresh token in the cookie
    | LoggedOut                                       // 200 `{success: true}`, cookie cleared
    | FullNameError                                   // 500 `{name: "FullNameError"}`
    | RegisterError                                   // 500, the error of `User.register`
    | SaveError                                       // 500, the error of `user.save`
    | Unauthorized                                    // 401
    | NoReply                                         // the promise callback throws; nothing is sent

  /** The status a reply is sent with; None when nothing is sent. */
  function HttpStatus(r: Reply): Option<int>
  {
    match r
    case Authorized(_, _) => Some(200)
    case LoggedOut => Some(200)
    case FullNameError => Some(500)
    case RegisterError => Some(500)
    case SaveError => Some(500)
    case Unauthorized => Some(401)
    case NoReply => None
  }

  /** The access token, then the refresh token, signed for one user. */
  function Minted(u: UserId, access: Token, refresh: Token): seq<Grant>
  {
    [Grant(AccessToken, u, access), Grant(RefreshToken, u, refresh)]
  }

  function WithSessions(db: map<UserId, User>, u: UserId, ss: seq<Session>): map<UserId, User>
    requires u in db
  {
    db[u := db[u].(sessions := ss)]
  }

  /** The position `/logout` finds for the cookie; an absent cookie is
      `undefined`, which no stored token equals. */
  function LogoutIndex(ss: seq<Session>, cookie: Option<Token>): (k: int)
    ensures -1 <= k < |ss|
    ensures k == -1 <==> cookie == None || forall i | 0 <= i < |ss| :: ss[i].refreshToken != cookie.value
    ensures 0 <= k ==> ss[k].refreshToken == cookie.value
    ensures 0 <= k ==> forall i | 0 <= i < k :: ss[i].refreshToken != cookie.value
  {
    match cookie
    case None => -1
    case Some(t) => FindIndex(ss, t)
  }

  /** The list `/logout` leaves behind. */
  function AfterLogout(ss: seq<Session>, cookie: Option<Token>): (r: seq<Session>)
    ensures LogoutIndex(ss, cookie) == -1 ==> r == ss
    ensures LogoutIndex(ss, cookie) != -1 ==> |r| == |ss| - 1
  {
    var k := LogoutIndex(ss, cookie);
    if k == -1 then ss else RemoveAt(ss, k)
  }

  /** The invariant of one user's list: distinct `_id`s below the
      generator's next value, and every token one that `getRefreshToken`
      signed for that very user. */
  ghost predicate ValidSessions(u: UserId, ss: seq<Session>, bound: ObjectId, grants: seq<Grant>)
  {
    && DistinctIds(ss)
    && (forall i | 0 <= i < |ss| :: ss[i].id < bound)
    && (forall i | 0 <= i < |ss| :: Grant(RefreshToken, u, ss[i].refreshToken) in grants)
  }

  /** Taking out one record keeps a list's invariant. */
  lemma RemoveKeepsValid(u: UserId, ss: seq<Session>, k: nat, bound: ObjectId, grants: seq<Grant>)
    requires ValidSessions(u, ss, bound, grants)
    requires k < |ss|
    ensures ValidSessions(u, RemoveAt(ss, k), bound, grants)
  {
    var r := RemoveAt(ss, k);
    assert forall i | 0 <= i < |r| :: r[i] == if i < k then ss[i] else ss[i + 1];
  }

  /** The user collection as the handlers see it. */
  class Store {
    /** The persisted users, by `_id`. */
    var users: map<UserId, User>
    /** The ObjectId generator: the next `_id` Mongoose hands out. */
    var nextId: ObjectId
    /** Every token the issuer has signed, in order. */
    ghost var issued: seq<Grant>

    ghost predicate Valid()
      reads this
    {
      forall u | u in users :: u < nextId && ValidSessions(u, users[u].sessions, nextId, issued)
    }

    constructor ()
      ensures Valid()
      ensures users == map[] && nextId == 0 && issued == []
    {
      users := map[];
      nextId := 0;
      issued := [];
    }

    /** `POST /login`, after passport's local strategy: mint both tokens,
        append one record holding the refresh token, save. */
    method Login(principal: Option<UserId>, access: Token, refresh: Token, saved: bool) returns (reply: Reply)
      requires Valid()
      modifies this
      ensures Valid()
      ensures principal == None ==> reply == Unauthorized && unchanged(this)
      ensures principal.Some? && principal.value !in old(users) ==>
        && reply == NoReply
        && users == old(users) && nextId == old(nextId)
        && issued == old(issued) + Minted(principal.value, access, refresh)
      ensures principal.Some? && principal.value in old(users) ==>
        var u := principal.value;
        && issued == old(issued) + Minted(u, access, refresh)
        && nextId == old(nextId) + 1
        && (saved ==>
              && reply == Authorized(access, refresh)
              && users == WithSessions(old(users), u, old(users)[u].sessions + [Session(old(nextId), refresh)]))
        && (!saved ==> reply == SaveError && users == old(users))
      ensures HttpStatus(reply) == Some(401) <==> principal == None
      ensures HttpStatus(reply) == None <==> principal.Some? && principal.value !in old(users)
      ensures HttpStatus(reply) == Some(200) <==> principal.Some? && principal.value in old(users) && saved
      ensures HttpStatus(reply) == Some(500) <==> principal.Some? && principal.value in old(users) && !saved
    {
      if principal == None {
        return Unauthorized;
      }
      var u := principal.value;
      issued := issued + Minted(u, access, refresh);
      if u !in users {
        return NoReply;
      }
      var ss := users[u].sessions + [Session(nextId, refresh)];
      nextId := nextId + 1;
      if saved {
        users := WithSessions(users, u, ss);
        reply := Authorized(access, refresh);
      } else {
        reply := SaveError;
      }
    }

    /** `POST /signup`: reject a falsy `fullName`, register the user (which
        persists it with no sessions), mint both tokens, append one record,
        save. */
    method Signup(username: JsValue, fullName: JsValue, registered: bool, access: Token, refresh: Token, saved: bool)
      returns (reply: Reply)
      requires Valid()
      modifies this
      ensures Valid()
      ensures !Truthy(fullName) ==> reply == FullNameError && unchanged(this)
      ensures Truthy(fullName) && !registered ==> reply == RegisterError && unchanged(this)
      ensures Truthy(fullName) && registered ==>
        var u := old(nextId);
        && u !in old(users)
        && issued == old(issued) + Minted(u, access, refresh)
        && nextId == old(nextId) + 2
        && (saved ==>
              && reply == Authorized(access, refresh)
              && users == old(users)[u := User(username, fullName, [Session(u + 1, refresh)])])
        && (!saved ==> reply == SaveError && users == old(users)[u := User(username, fullName, [])])
      ensures HttpStatus(reply) == Some(200) <==> Truthy(fullName) && registered && saved
      ensures HttpStatus(reply) == Some(500) <==> !(Truthy(fullName) && registered && saved)
    {
      if !Truthy(fullName) {
        return FullNameError;
      }
      if !registered {
        return RegisterError;
      }
      var u := nextId;
      users := users[u := User(username, fullName, [])];
      nextId := nextId + 1;
      issued := issued + Minted(u, access, refresh);
      var ss := [Session(nextId, refresh)];
      nextId := nextId + 1;
      if saved {
        users := WithSessions(users, u, ss);
        reply := Authorized(access, refresh);
      } else {
        reply := SaveError;
      }
    }

    /** `POST /refreshToken`: the cookie must be present, verify, name an
        existing user and be found in that user's list; the first record
        holding it is then overwritten with a new record for the new
        refresh token. Every miss answers 401 and changes nothing. */
    method Refresh(cookie: Option<Token>, verify: Token -> Option<UserId>, access: Token, refresh: Token, saved: bool)
      returns (reply: Reply)
      requires Valid()
      modifies this
      ensures Valid()
      ensures cookie == None || cookie == Some("") ==> reply == Unauthorized && unchanged(this)
      ensures cookie.Some? && cookie.value != "" && verify(cookie.value) == None ==>
        reply == Unauthorized && unchanged(this)
      ensures cookie.Some? && cookie.value != "" && verify(cookie.value).Some? && verify(cookie.value).value !in old(users) ==>
        reply == Unauthorized && unchanged(this)
      ensures cookie.Some? && cookie.value != "" && verify(cookie.value).Some? && verify(cookie.value).value in old(users)
              && FindIndex(old(users)[verify(cookie.value).value].sessions, cookie.value) == -1 ==>
        reply == Unauthorized && unchanged(this)
      ensures cookie.Some? && cookie.value != "" && verify(cookie.value).Some? && verify(cookie.value).value in old(users)
              && FindIndex(old(users)[verify(cookie.value).value].sessions, cookie.value) != -1 ==>
        var t := cookie.value;
        var u := verify(t).value;
        var ss := old(users)[u].sessions;
        && Grant(RefreshToken, u, t) in old(issued)
        && issued == old(issued) + Minted(u, access, refresh)
        && nextId == old(nextId) + 1
        && (saved ==>
              && reply == Authorized(access, refresh)
              && users == WithSessions(old(users), u, ss[FindIndex(ss, t) := Session(old(nextId), refresh)]))
        && (!saved ==> reply == SaveError && users == old(users))
      ensures HttpStatus(reply) == Some(401) <==>
        !(cookie.Some? && cookie.value != "" && verify(cookie.value).Some? && verify(cookie.value).value in old(users)
          && FindIndex(old(users)[verify(cookie.value).value].sessions, cookie.value) != -1)
      ensures HttpStatus(reply) != Some(401) ==> HttpStatus(reply) == if saved then Some(200) else Some(500)
    {
      if cookie == None || cookie.value == "" {
        return Unauthorized;
      }
      var t := cookie.value;
      var payload := verify(t);
      if payload == None {
        return Unauthorized;
      }
      var u := payload.value;
      if u !in users {
        return Unauthorized;
      }
      var k := ScanForToken(users[u].sessions, t);
      if k == -1 {
        return Unauthorized;
      }
      assert users[u].sessions[k].refreshToken == t;
      issued := issued + Minted(u, access, refresh);
      var ss := users[u].sessions[k := Session(nextId, refresh)];
      nextId := nextId + 1;
      if saved {
        users := WithSessions(users, u, ss);
        reply := Authorized(access, refresh);
      } else {
        reply := SaveError;
      }
    }

    /** `GET /logout`, after passport's JWT strategy: pull the first record
        holding the cookie's token, if any, from the list of the access
        token's user, and save. Finding nothing is not an error. */
    method Logout(principal: Option<UserId>, cookie: Option<Token>, saved: bool) returns (reply: Reply)
      requires Valid()
      modifies this
      ensures Valid()
      ensures nextId == old(nextId) && issued == old(issued)
      ensures principal == None ==> reply == Unauthorized && users == old(users)
      ensures principal.Some? && principal.value !in old(users) ==> reply == NoReply && users == old(users)
      ensures principal.Some? && principal.value in old(users) ==>
        var u := principal.value;
        && (saved ==>
              && reply == LoggedOut
              && users == WithSessions(old(users), u, AfterLogout(old(users)[u].sessions, cookie)))
        && (!saved ==> reply == SaveError && users == old(users))
      ensures HttpStatus(reply) == Some(401) <==> principal == None
      ensures HttpStatus(reply) == None <==> principal.Some? && principal.value !in old(users)
      ensures HttpStatus(reply) == Some(200) <==> principal.Some? && principal.value in old(users) && saved
      ensures HttpStatus(reply) == Some(500) <==> principal.Some? && principal.value in old(users) && !saved
    {
      if principal == None {
        return Unauthorized;
      }
      var u := principal.value;
      if u !in users {
        return NoReply;
      }
      var ss := users[u].sessions;
      var k := -1;
      if cookie.Some? {
        k := ScanForToken(ss, cookie.value);
      }
      if k != -1 {
        PullRemovesOne(ss, k);
        RemoveKeepsValid(u, ss, k, nextId, issued);
        ss := WithoutId(ss, ss[k].id);
      }
      assert ss == AfterLogout(users[u].sessions, cookie);
      assert ValidSessions(u, ss, nextId, issued);
      if saved {
        users := WithSessions(users, u, ss);
        reply := LoggedOut;
      } else {
        reply := SaveError;
      }
    }
  }

  /** Logout is idempotent for a token held once: the second call finds
      nothing and leaves the list as the first call left it. */
  lemma LogoutTwice(ss: seq<Session>, t: Token)
    requires TokenCount(ss, t) == 1
    ensures |AfterLogout(ss, Some(t))| == |ss| - 1
    ensures AfterLogout(AfterLogout(ss, Some(t)), Some(t)) == AfterLogout(ss, Some(t))
  {
    RemovalRetires(ss, t);
  }

  /** What `GET /user/:id` answers: a status and, unless it is 200, the
      error it puts in the body. */
  datatype GetUserReply = GetUserReply(status: int, error: Option<string>)

  /** The checks of `GET /user/:id`, in order, then the lookup; `found`
      says whether `User.findOne` returns a document for the id. */
  function GetUserById(id: JsValue, found: string -> bool): (r: GetUserReply)
    ensures r.status == 400 <==> !(id.Str? && JsLength(id.s) == 24)
    ensures r.status == 204 <==> id.Str? && JsLength(id.s) == 24 && !found(id.s)
    ensures r.status == 200 <==> id.Str? && JsLength(id.s) == 24 && found(id.s)
    ensures r.error == None <==> r.status == 200
    ensures r.status == 204 ==> r.error == Some("Recipe not found")
  {
    if !Truthy(id) then GetUserReply(400, Some("Badly formatted ID"))
    else if !id.Str? then GetUserReply(400, Some("ID is not of type string"))
    else if JsLength(id.s) != 24 then GetUserReply(400, Some("ID is of wrong length"))
    else if !found(id.s) then GetUserReply(204, Some("Recipe not found"))
    else GetUserReply(200, None)
  }

  /** Which check rejects an id: the first that fails, so an empty string
      is "badly formatted" although it is a string of the wrong length. */
  lemma GetUserFirstFailure(id: JsValue, found: string -> bool)
    ensures GetUserById(id, found).error == Some("Badly formatted ID") <==> !Truthy(id)
    ensures GetUserById(id, found).error == Some("ID is not of type string") <==> Truthy(id) && !id.Str?
    ensures GetUserById(id, found).error == Some("ID is of wrong length")
        <==> id.Str? && id.s != "" && JsLength(id.s) != 24
  {
  }

  /** The length test counts UTF-16 code units: 23 characters of the Basic
      Multilingual Plane and one character outside it measure 25 and are
      rejected, 22 and one measure 24 and reach the lookup. */
  lemma GetUserCountsCodeUnits(a: string, c: char, found: string -> bool)
    requires forall i | 0 <= i < |a| :: a[i] as int < 0x10000
    requires c as int >= 0x10000
    ensures |a| == 23 ==> GetUserById(Str(a + [c]), found) == GetUserReply(400, Some("ID is of wrong length"))
    ensures |a| == 22 ==> GetUserById(Str(a + [c]), found).status != 400
  {
    JsLengthSnoc(a, c);
  }

  /** The lookup is consulted only for a string of 24 UTF-16 code units. */
  lemma GetUserLookupOnlyWhenWellFormed(id: JsValue, found1: string -> bool, found2: string -> bool)
    requires !(id.Str? && JsLength(id.s) == 24)
    ensures GetUserById(id, found1) == GetUserById(id, found2)
  {
  }

  /** A field of a JSON response body. */
  datatype Field = Field(name: string, value: JsValue)

  /** The value of the first field called `name`, as a client reads it. */
  function Get(body: seq<Field>, name: string): Option<JsValue>
  {
    if body == [] then None
    else if body[0].name == name then Some(body[0].value)
    else Get(body[1..], name)
  }

  /** The body signup sends with its token at line 67, where the flag is
      spelled "sucess". */
  function SignupBodyAsWritten(token: Token): (body: seq<Field>)
    ensures Get(body, "sucess") == Some(Bool(true))
    ensures Get(body, "token") == Some(Str(token))
  {
    [Field("sucess", Bool(true)), Field("token", Str(token))]
  }

  /** The body sent with an `Authorized` reply, as login and refresh write
      it and as signup evidently means it. */
  function TokenBody(token: Token): (body: seq<Field>)
    ensures Get(body, "success") == Some(Bool(true))
    ensures Get(body, "token") == Some(Str(token))
  {
    [Field("success", Bool(true)), Field("token", Str(token))]
  }

  /** A client that reads `success` from the signup body as written sees
      nothing, where the login body gives `true`. */
  lemma SignupBodyLacksSuccess(token: Token)
    ensures Get(SignupBodyAsWritten(token), "success") == None
    ensures Get(TokenBody(token), "success") == Some(Bool(true))
  {
    var body := SignupBodyAsWritten(token);
    assert |body[0].name| != |"success"|;
    assert body[1..][0].name[0] != "success"[0];
    assert body[1..][1..] == [];
    assert Get(body, "success") == Get(body[1..], "success") == Get(body[1..][1..], "success");
  }

  /** Two devices for one user: each login adds a session of its own. */
  method TwoDevicesScenario()
  {
    var store := new Store();
    var r := store.Signup(Str("alice"), Str("Alice A"), true, "a1", "r1", true);
    assert r == Authorized("a1", "r1");
    assert store.users[0].sessions == [Session(1, "r1")];
    r := store.Login(Some(0), "a2", "r2", true);
    assert r == Authorized("a2", "r2");
    assert store.users[0].sessions == [Session(1, "r1"), Session(2, "r2")];
  }

  /** Rotation: the old token is refused on reuse, the new one is taken. */
  method RotationScenario()
  {
    var store := new Store();
    var r := store.Signup(Str("alice"), Str("Alice A"), true, "a1", "r1", true);
    assert store.users[0].sessions == [Session(1, "r1")];
    var verify := (t: Token) => Some(0);
    r := store.Refresh(Some("r1"), verify, "a2", "r2", true);
    assert r == Authorized("a2", "r2");
    assert store.users[0].sessions == [Session(2, "r2")];
    r := store.Refresh(Some("r1"), verify, "a3", "r3", true);
    assert r == Unauthorized;
    r := store.Refresh(Some("r2"), verify, "a4", "r4", true);
    assert r == Authorized("a4", "r4");
  }

  /** Logging out twice with one token: both calls succeed, and the second
      finds nothing left to remove. */
  method LogoutScenario()
  {
    var store := new Store();
    var r := store.Signup(Str("alice"), Str("Alice A"), true, "a1", "r1", true);
    assert store.users[0].sessions == [Session(1, "r1")];
    r := store.Logout(Some(0), Some("r1"), true);
    assert r == LoggedOut;
    assert store.users[0].sessions == [];
    r := store.Logout(Some(0), Some("r1"), true);
    assert r == LoggedOut;
    assert store.users[0].sessions == [];
  }
}
