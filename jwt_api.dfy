/**
  The JWT-protected sensor REST API (17-jwt-rest-api/app.py): three in-memory
  dictionaries (users, sensors, telemetry), registration and login, the
  `token_required` decorator and the sensor endpoints.

  Password hashing (`hash_password`), token signing (`jwt.encode`) and token
  verification (`jwt.decode`, which also checks expiry against the clock) are
  parameters: the model knows only that they are functions. Timestamps are
  parameters too.
*/
module JwtApi {
  import opened Wrappers
  import opened PyJson
  import Decimal
  import Text

  /** `int(os.getenv('JWT_EXPIRATION_MINUTES', 30))` when the variable is unset. */
  const DefaultExpirationMinutes := 30
  const MinPasswordLength := 6

  const MissingRegisterFields := "Missing required fields: username, password, email"
  const UserExists := "User already exists"
  const PasswordTooShort := "Password must be at least 6 characters"
  const MissingCredentials := "Missing username or password"
  const InvalidCredentials := "Invalid credentials"
  const MissingHeader := "Missing Authorization header"
  const BadTokenFormat := "Invalid token format. Use: Bearer <token>"
  const TokenExpired := "Token has expired"
  const TokenInvalid := "Invalid token"
  const MissingSensorFields := "Missing required fields: name, type, location"
  const SensorNotFound := "Sensor not found"
  const AccessDenied := "Access denied"
  const MissingValue := "Missing required field: value"
  /**
    Stands for Flask's answer when a handler raises an exception it does not
    catch: status 500. Under `app.run(debug=True)` the body is the
    debugger's traceback page rather than this text.
  */
  const InternalError := "Internal server error"
  const DefaultUnit := JStr("unknown")

  datatype User = User(userId: nat, passwordHash: string, email: Json, createdAt: string)
  datatype Sensor = Sensor(sensorId: string, name: Json, kind: Json, location: Json, ownerId: Json, createdAt: string)
  datatype Point = Point(timestamp: string, value: Json, unit: Json)

  /** `users_db`, `sensors_db` and `telemetry_db`. */
  datatype Store = Store(users: map<Json, User>, sensors: map<string, Sensor>, telemetry: map<string, seq<Point>>)

  const EmptyStore := Store(map[], map[], map[])

  /** The JSON answer of an endpoint; `Code()` is its HTTP status. */
  datatype Reply =
    | Failure(status: int, message: string)
    | Registered(userId: nat, username: Json)
    | LoggedIn(token: string, expiresIn: int, username: Json)
    | SensorList(sensors: map<string, Sensor>, count: nat)
    | SensorCreated(sensor: Sensor)
    | SensorData(sensorId: string, sensorName: Json, points: seq<Point>, count: nat)
    | DataAdded(sensorId: string, point: Point)
  {
    function Code(): int {
      match this
      case Failure(status, _) => status
      case Registered(_, _) => 201
      case LoggedIn(_, _, _) => 200
      case SensorList(_, _) => 200
      case SensorCreated(_) => 201
      case SensorData(_, _, _, _) => 200
      case DataAdded(_, _) => 201
    }
  }

  /** The store after a request and the reply to it. */
  datatype Step = Step(after: Store, reply: Reply)

  /** The claims `generate_token` signs: user id, username, expiry and issue time (seconds). */
  datatype TokenClaims = TokenClaims(userId: nat, username: Json, exp: int, iat: int)

  /** The outcome of `jwt.decode` on a token. */
  datatype TokenCheck = Expired | Invalid | Decoded(payload: map<string, Json>)

  datatype CurrentUser = CurrentUser(userId: Json, username: Json)

  // ---------------------------------------------------------------------
  // Invariant of the three stores

  /** The key under which the `n`-th sensor is stored: `f"sensor_{n}"`. */
  function SensorKey(n: nat): (key: string)
    ensures |key| > 7 && key[..7] == "sensor_" && key[7..] == Decimal.FromNat(n)
  {
    "sensor_" + Decimal.FromNat(n)
  }

  lemma SensorKeyInjective(m: nat, n: nat)
    ensures SensorKey(m) == SensorKey(n) <==> m == n
  {
    if SensorKey(m) == SensorKey(n) {
      assert Decimal.FromNat(m) == SensorKey(m)[7..];
      Decimal.FromNatInjective(m, n);
    }
  }

  /** The keys sensor_1..sensor_n. */
  ghost function SensorKeys(n: nat): set<string> {
    if n == 0 then {} else SensorKeys(n - 1) + {SensorKey(n)}
  }

  ghost function UserIds(users: map<Json, User>): set<nat> {
    set u | u in users :: users[u].userId
  }

  /** The ids 1..n. */
  ghost function IdRange(n: nat): set<nat> {
    if n == 0 then {} else IdRange(n - 1) + {n}
  }

  /** The user ids are exactly 1..|users| and pairwise distinct. */
  ghost predicate UsersValid(users: map<Json, User>) {
    && UserIds(users) == IdRange(|users|)
    && forall u, v | u in users && v in users && u != v :: users[u].userId != users[v].userId
  }

  /** The sensors sit under sensor_1..sensor_|sensors|, each record repeating its own key. */
  ghost predicate SensorsValid(sensors: map<string, Sensor>) {
    && sensors.Keys == SensorKeys(|sensors|)
    && forall id | id in sensors :: sensors[id].sensorId == id
  }

  /**
    What registration and sensor creation maintain (nothing is ever deleted):
    dense user ids, dense sensor keys, and a telemetry list for every sensor
    and for nothing else.
  */
  ghost predicate Valid(st: Store) {
    && UsersValid(st.users)
    && SensorsValid(st.sensors)
    && st.telemetry.Keys == st.sensors.Keys
  }

  lemma EmptyStoreValid()
    ensures Valid(EmptyStore)
  {
    assert IdRange(0) == {};
    assert SensorKeys(0) == {};
  }

  /** A key numbered past n is not among sensor_1..sensor_n. */
  lemma {:induction false} LaterKeyAbsent(n: nat, m: nat)
    requires m > n
    ensures SensorKey(m) !in SensorKeys(n)
  {
    if n > 0 {
      LaterKeyAbsent(n - 1, m);
      SensorKeyInjective(m, n);
    }
  }

  /** The next sensor key is always fresh, because sensors are never deleted. */
  lemma NextSensorKeyFresh(sensors: map<string, Sensor>)
    requires SensorsValid(sensors)
    ensures SensorKey(|sensors| + 1) !in sensors
  {
    LaterKeyAbsent(|sensors|, |sensors| + 1);
  }

  // ---------------------------------------------------------------------
  // token_required (lines 71-101)

  /** What the decorator reads out of the `Authorization` header. */
  datatype HeaderToken = Absent | Malformed | Bearer(token: string)

  /**
    `auth_header.split(' ')[1]`: a header without a space has no second field
    (`IndexError`, "Invalid token format"); an empty second field is as good as
    no header at all ("Missing Authorization header").
  */
  function ParseAuthorization(header: Option<string>): (r: HeaderToken)
    ensures header.None? ==> r == Absent
    ensures header.Some? ==> (r == Malformed <==> ' ' !in header.value)
    ensures r.Bearer? ==> r.token != "" && ' ' !in r.token
  {
    match header
    case None => Absent
    case Some(h) =>
      var parts := Text.Split(h, ' ');
      Text.SplitHasSeveralFields(h, ' ');
      if |parts| < 2 then Malformed
      else if parts[1] == "" then Absent
      else Bearer(parts[1])
  }

  /**
    The token is the text between the first space and the next space (or the
    end); the word before the first space, normally "Bearer", is never looked at.
  */
  lemma TokenAfterFirstSpace(h: string, i: nat, j: nat)
    requires i < j <= |h| && h[i] == ' ' && ' ' !in h[..i]
    requires ' ' !in h[i + 1..j] && (j == |h| || h[j] == ' ')
    ensures ParseAuthorization(Some(h)) == if j == i + 1 then Absent else Bearer(h[i + 1..j])
  {
    Text.SplitAtFirst(h, ' ', i);
    var rest := h[i + 1..];
    if j < |h| {
      assert rest[j - i - 1] == ' ' && rest[..j - i - 1] == h[i + 1..j];
      Text.SplitAtFirst(rest, ' ', j - i - 1);
    } else {
      assert rest == h[i + 1..j];
      Text.SplitWithoutSeparator(rest, ' ');
    }
  }

  lemma SchemeWordIgnored(scheme1: string, scheme2: string, rest: string)
    requires ' ' !in scheme1 && ' ' !in scheme2
    ensures ParseAuthorization(Some(scheme1 + " " + rest)) == ParseAuthorization(Some(scheme2 + " " + rest))
  {
    var h1, h2 := scheme1 + " " + rest, scheme2 + " " + rest;
    Text.SplitAtFirst(h1, ' ', |scheme1|);
    Text.SplitAtFirst(h2, ' ', |scheme2|);
    assert h1[..|scheme1|] == scheme1 && h1[|scheme1| + 1..] == rest;
    assert h2[..|scheme2|] == scheme2 && h2[|scheme2| + 1..] == rest;
  }

  /** The decorator: the caller identified by a verified token, or the reply refusing the request. */
  datatype Auth = Authorized(user: CurrentUser) | Rejected(reply: Reply)

  function Authenticate(header: Option<string>, verify: string -> TokenCheck): (a: Auth)
    ensures a.Rejected? ==> a.reply.Failure?
    ensures a.Rejected? && a.reply.status != 401 ==> a.reply == Failure(500, InternalError)
    ensures header.None? ==> a == Rejected(Failure(401, MissingHeader))
    ensures ParseAuthorization(header).Absent? ==> a == Rejected(Failure(401, MissingHeader))
    ensures header.Some? && ' ' !in header.value ==> a == Rejected(Failure(401, BadTokenFormat))
    ensures a.Authorized? <==>
      && ParseAuthorization(header).Bearer?
      && verify(ParseAuthorization(header).token).Decoded?
      && "user_id" in verify(ParseAuthorization(header).token).payload
      && "username" in verify(ParseAuthorization(header).token).payload
    // the caller is the one the token names
    ensures a.Authorized? ==>
      var payload := verify(ParseAuthorization(header).token).payload;
      a.user == CurrentUser(payload["user_id"], payload["username"])
    // the two `jwt` exceptions the decorator catches
    ensures ParseAuthorization(header).Bearer? && verify(ParseAuthorization(header).token).Expired? ==>
      a == Rejected(Failure(401, TokenExpired))
    ensures ParseAuthorization(header).Bearer? && verify(ParseAuthorization(header).token).Invalid? ==>
      a == Rejected(Failure(401, TokenInvalid))
    // a token without both claims raises KeyError, which nothing catches
    ensures ParseAuthorization(header).Bearer? && verify(ParseAuthorization(header).token).Decoded? &&
            !("user_id" in verify(ParseAuthorization(header).token).payload &&
              "username" in verify(ParseAuthorization(header).token).payload) ==>
      a == Rejected(Failure(500, InternalError))
  {
    match ParseAuthorization(header)
    case Absent => Rejected(Failure(401, MissingHeader))
    case Malformed => Rejected(Failure(401, BadTokenFormat))
    case Bearer(token) =>
      match verify(token)
      case Expired => Rejected(Failure(401, TokenExpired))
      case Invalid => Rejected(Failure(401, TokenInvalid))
      case Decoded(payload) =>
        // payload['user_id'] and payload['username'] raise KeyError outside the except clauses
        if "user_id" in payload && "username" in payload then
          Authorized(CurrentUser(payload["user_id"], payload["username"]))
        else
          Rejected(Failure(500, InternalError))
  }

  // ---------------------------------------------------------------------
  // register (lines 132-163)

  function RegisterSpec(st: Store, body: Body, hash: string -> string, now: string): (r: Step)
    ensures r.reply.Failure? || r.reply.Registered?
    // a rejection leaves all three stores as they were
    ensures r.reply.Failure? ==> r.after == st
    // the order of the checks: fields, then an existing user, then the password
    ensures LacksAny(body, ["username", "password", "email"]) ==>
      r.reply == Failure(400, MissingRegisterFields)
    ensures !LacksAny(body, ["username", "password", "email"]) && Hashable(body.value["username"]) &&
            body.value["username"] in st.users ==>
      r.reply == Failure(409, UserExists)
    ensures !LacksAny(body, ["username", "password", "email"]) && Hashable(body.value["username"]) &&
            body.value["username"] !in st.users && body.value["password"].JStr? &&
            |body.value["password"].s| < MinPasswordLength ==>
      r.reply == Failure(400, PasswordTooShort)
    ensures r.reply.Registered? <==>
      && !LacksAny(body, ["username", "password", "email"])
      && Hashable(body.value["username"])
      && body.value["username"] !in st.users
      && body.value["password"].JStr?
      && |body.value["password"].s| >= MinPasswordLength
    // a success adds exactly one user, numbered one past the current count
    ensures r.reply.Registered? ==>
      var username, password := body.value["username"], body.value["password"];
      && r.reply == Registered(|st.users| + 1, username)
      && r.after.users.Keys == st.users.Keys + {username}
      && |r.after.users| == |st.users| + 1
      && r.after.users[username] == User(|st.users| + 1, hash(password.s), body.value["email"], now)
      && (forall u | u in st.users :: r.after.users[u] == st.users[u])
      && r.after.sensors == st.sensors && r.after.telemetry == st.telemetry
  {
    if LacksAny(body, ["username", "password", "email"]) then
      Step(st, Failure(400, MissingRegisterFields))
    else
      var data := body.value;
      var username, password, email := data["username"], data["password"], data["email"];
      if !Hashable(username) then
        Step(st, Failure(500, InternalError))   // `username in users_db` on a list or dict
      else if username in st.users then
        Step(st, Failure(409, UserExists))
      else
        match Len(password)
        case None => Step(st, Failure(500, InternalError))   // len() of a number, bool or null
        case Some(n) =>
          if n < MinPasswordLength then
            Step(st, Failure(400, PasswordTooShort))
          else if !password.JStr? then
            Step(st, Failure(500, InternalError))   // hash_password calls .encode(), which lists and dicts lack
          else
            var userId := |st.users| + 1;
            Step(st.(users := st.users[username := User(userId, hash(password.s), email, now)]),
                 Registered(userId, username))
  }

  lemma UserIdsAfterAdd(users: map<Json, User>, username: Json, user: User)
    requires username !in users
    ensures UserIds(users[username := user]) == UserIds(users) + {user.userId}
  {
    var users' := users[username := user];
    forall id | id in UserIds(users') ensures id in UserIds(users) + {user.userId} {
      var u :| u in users' && users'[u].userId == id;
      if u != username { assert u in users; }
    }
    forall id | id in UserIds(users) ensures id in UserIds(users') {
      var u :| u in users && users[u].userId == id;
      assert users'[u].userId == id;
    }
    assert users'[username].userId == user.userId;
  }

  /** Adding a user numbered one past the count keeps the ids exactly 1..|users|. */
  lemma {:induction false} NewUserKeepsValid(users: map<Json, User>, username: Json, user: User)
    requires UsersValid(users) && username !in users && user.userId == |users| + 1
    ensures UsersValid(users[username := user])
  {
    var n := |users|;
    var users' := users[username := user];
    assert |users'| == n + 1;
    assert UserIds(users') == IdRange(n + 1) by {
      UserIdsAfterAdd(users, username, user);
    }
    IdRangeBounds(n);
    forall u, v | u in users' && v in users' && u != v ensures users'[u].userId != users'[v].userId {
      if u == username {
        assert users[v].userId in UserIds(users);
      } else if v == username {
        assert users[u].userId in UserIds(users);
      } else {
        assert users'[u] == users[u] && users'[v] == users[v];
      }
    }
  }

  lemma {:induction false} IdRangeBounds(n: nat)
    ensures forall k | k in IdRange(n) :: 1 <= k <= n
  {
    if n > 0 { IdRangeBounds(n - 1); }
  }

  lemma RegisterPreservesValid(st: Store, body: Body, hash: string -> string, now: string)
    requires Valid(st)
    ensures Valid(RegisterSpec(st, body, hash, now).after)
  {
    var r := RegisterSpec(st, body, hash, now);
    if r.reply.Registered? {
      var username := body.value["username"];
      NewUserKeepsValid(st.users, username, r.after.users[username]);
      assert r.after == st.(users := st.users[username := r.after.users[username]]);
    }
  }

  // ---------------------------------------------------------------------
  // login (lines 184-210)

  /**
    Login: a token for the stored user when the password hashes to the stored
    hash. `now` is the issue time in seconds.
  */
  function Login(st: Store, body: Body, hash: string -> string, encode: TokenClaims -> string,
                 now: int, expirationMinutes: int): (r: Reply)
    ensures r.Failure? || r.LoggedIn?
    ensures LacksAny(body, ["username", "password"]) ==> r == Failure(400, MissingCredentials)
    ensures r.LoggedIn? <==>
      && !LacksAny(body, ["username", "password"])
      && Hashable(body.value["username"])
      && body.value["username"] in st.users
      && body.value["password"].JStr?
      && st.users[body.value["username"]].passwordHash == hash(body.value["password"].s)
    // an unknown user and a wrong password get the same answer
    ensures !LacksAny(body, ["username", "password"]) && Hashable(body.value["username"]) &&
            body.value["username"] !in st.users ==>
      r == Failure(401, InvalidCredentials)
    ensures !LacksAny(body, ["username", "password"]) && Hashable(body.value["username"]) &&
            body.value["username"] in st.users && body.value["password"].JStr? &&
            st.users[body.value["username"]].passwordHash != hash(body.value["password"].s) ==>
      r == Failure(401, InvalidCredentials)
    ensures r.Failure? && r.status == 401 ==> r.message == InvalidCredentials
    ensures r.LoggedIn? ==>
      var user := body.value["username"];
      && r.expiresIn == expirationMinutes * 60
      && r.username == user
      && r.token == encode(TokenClaims(st.users[user].userId, user, now + expirationMinutes * 60, now))
  {
    if LacksAny(body, ["username", "password"]) then
      Failure(400, MissingCredentials)
    else
      var username, password := body.value["username"], body.value["password"];
      if !Hashable(username) then
        Failure(500, InternalError)
      else if username !in st.users then
        Failure(401, InvalidCredentials)
      else if !password.JStr? then
        Failure(500, InternalError)   // hash_password(password) on a non-string
      else if st.users[username].passwordHash != hash(password.s) then
        Failure(401, InvalidCredentials)
      else
        var user := st.users[username];
        var lifetime := expirationMinutes * 60;
        LoggedIn(encode(TokenClaims(user.userId, username, now + lifetime, now)), lifetime, username)
  }

  /** A user who just registered can log in with the same password. */
  lemma RegisterThenLogin(st: Store, username: Json, password: string, email: Json, hash: string -> string,
                          encode: TokenClaims -> string, created: string, now: int, minutes: int)
    requires Hashable(username) && username !in st.users && |password| >= MinPasswordLength
    ensures
      var reg := RegisterSpec(st, Some(map["username" := username, "password" := JStr(password), "email" := email]), hash, created);
      && reg.reply == Registered(|st.users| + 1, username)
      && Login(reg.after, Some(map["username" := username, "password" := JStr(password)]), hash, encode, now, minutes).LoggedIn?
  {
    var body := map["username" := username, "password" := JStr(password), "email" := email];
    assert !LacksAny(Some(body), ["username", "password", "email"]);
    var creds := map["username" := username, "password" := JStr(password)];
    assert "username" in creds && "password" in creds;
    assert forall k | k in ["username", "password"] :: k in creds;
    assert !LacksAny(Some(creds), ["username", "password"]);
  }

  // ---------------------------------------------------------------------
  // get_sensors (lines 234-248)

  /** The dictionary comprehension of lines 239-243. */
  function OwnedSensors(sensors: map<string, Sensor>, owner: Json): (mine: map<string, Sensor>)
    ensures forall id :: id in mine <==> id in sensors && sensors[id].ownerId == owner
    ensures forall id | id in mine :: mine[id] == sensors[id]
  {
    map id | id in sensors && sensors[id].ownerId == owner :: sensors[id]
  }

  function GetSensors(st: Store, header: Option<string>, verify: string -> TokenCheck): (r: Reply)
    ensures Authenticate(header, verify).Rejected? ==> r == Authenticate(header, verify).reply
    ensures Authenticate(header, verify).Authorized? ==>
      var owner := Authenticate(header, verify).user.userId;
      && r.SensorList?
      && (forall id :: id in r.sensors <==> id in st.sensors && st.sensors[id].ownerId == owner)
      && (forall id | id in r.sensors :: r.sensors[id] == st.sensors[id])
      && r.count == |r.sensors|
  {
    match Authenticate(header, verify)
    case Rejected(reply) => reply
    case Authorized(user) =>
      var mine := OwnedSensors(st.sensors, user.userId);
      SensorList(mine, |mine|)
  }

  // ---------------------------------------------------------------------
  // create_sensor (lines 264-287)

  function CreateSensorSpec(st: Store, header: Option<string>, verify: string -> TokenCheck,
                            body: Body, now: string): (r: Step)
    ensures r.reply.Failure? ==> r.after == st
    ensures Authenticate(header, verify).Rejected? ==> r.reply == Authenticate(header, verify).reply
    ensures Authenticate(header, verify).Authorized? ==>
      if LacksAny(body, ["name", "type", "location"]) then
        r.reply == Failure(400, MissingSensorFields)
      else
        var id := SensorKey(|st.sensors| + 1);
        var data := body.value;
        && r.reply.SensorCreated?
        && r.reply.sensor == Sensor(id, data["name"], data["type"], data["location"],
                                   Authenticate(header, verify).user.userId, now)
        && r.after.sensors == st.sensors[id := r.reply.sensor]
        && r.after.telemetry == st.telemetry[id := []]
        && r.after.users == st.users
  {
    match Authenticate(header, verify)
    case Rejected(reply) => Step(st, reply)
    case Authorized(user) =>
      if LacksAny(body, ["name", "type", "location"]) then
        Step(st, Failure(400, MissingSensorFields))
      else
        var id := SensorKey(|st.sensors| + 1);
        var data := body.value;
        var sensor := Sensor(id, data["name"], data["type"], data["location"], user.userId, now);
        Step(Store(st.users, st.sensors[id := sensor], st.telemetry[id := []]), SensorCreated(sensor))
  }

  /** Storing a sensor under the next key adds a key without overwriting one and keeps the keys dense. */
  lemma {:induction false} NewSensorKeepsValid(sensors: map<string, Sensor>, sensor: Sensor)
    requires SensorsValid(sensors) && sensor.sensorId == SensorKey(|sensors| + 1)
    ensures sensor.sensorId !in sensors
    ensures SensorsValid(sensors[sensor.sensorId := sensor])
  {
    NextSensorKeyFresh(sensors);
    var sensors' := sensors[sensor.sensorId := sensor];
    assert |sensors'| == |sensors| + 1;
  }

  /** The step `create_sensor` takes for an authorized caller and a complete body, and the invariant after it. */
  lemma CreatedSensorStep(st: Store, header: Option<string>, verify: string -> TokenCheck,
                          body: Body, now: string, sensor: Sensor)
    requires Valid(st)
    requires Authenticate(header, verify).Authorized? && !LacksAny(body, ["name", "type", "location"])
    requires sensor == Sensor(SensorKey(|st.sensors| + 1), body.value["name"], body.value["type"],
                              body.value["location"], Authenticate(header, verify).user.userId, now)
    ensures var after := Store(st.users, st.sensors[sensor.sensorId := sensor], st.telemetry[sensor.sensorId := []]);
      && CreateSensorSpec(st, header, verify, body, now) == Step(after, SensorCreated(sensor))
      && Valid(after)
  {
    NewSensorKeepsValid(st.sensors, sensor);
  }

  /** In a valid store a new sensor is really new: nothing is overwritten and the count grows by one. */
  lemma CreateSensorAddsOne(st: Store, header: Option<string>, verify: string -> TokenCheck,
                            body: Body, now: string)
    requires Valid(st)
    ensures
      var r := CreateSensorSpec(st, header, verify, body, now);
      && Valid(r.after)
      && (r.reply.SensorCreated? ==>
            && r.reply.sensor.sensorId !in st.sensors
            && r.after.sensors.Keys == st.sensors.Keys + {r.reply.sensor.sensorId}
            && |r.after.sensors| == |st.sensors| + 1)
  {
    if Authenticate(header, verify).Authorized? && !LacksAny(body, ["name", "type", "location"]) {
      var sensor := Sensor(SensorKey(|st.sensors| + 1), body.value["name"], body.value["type"],
                           body.value["location"], Authenticate(header, verify).user.userId, now);
      CreatedSensorStep(st, header, verify, body, now, sensor);
      NextSensorKeyFresh(st.sensors);
    }
  }

  // ---------------------------------------------------------------------
  // get_sensor_data (lines 292-311) and add_sensor_data (lines 316-354)

  /** The checks both data endpoints make, in order: the sensor exists, then the caller owns it. */
  function SensorAccess(st: Store, user: CurrentUser, sensorId: string): (r: Option<Reply>)
    ensures r.Some? ==> r.value.Failure?
    ensures sensorId !in st.sensors ==> r == Some(Failure(404, SensorNotFound))
    ensures sensorId in st.sensors ==>
      (r == Some(Failure(403, AccessDenied)) <==> st.sensors[sensorId].ownerId != user.userId)
    ensures r.None? <==> sensorId in st.sensors && st.sensors[sensorId].ownerId == user.userId
  {
    if sensorId !in st.sensors then Some(Failure(404, SensorNotFound))
    else if st.sensors[sensorId].ownerId != user.userId then Some(Failure(403, AccessDenied))
    else None
  }

  function GetSensorData(st: Store, header: Option<string>, verify: string -> TokenCheck,
                         sensorId: string): (r: Reply)
    ensures Authenticate(header, verify).Rejected? ==> r == Authenticate(header, verify).reply
    ensures Authenticate(header, verify).Authorized? ==>
      var access := SensorAccess(st, Authenticate(header, verify).user, sensorId);
      && (access.Some? ==> r == access.value)
      && (access.None? ==>
            && r.SensorData?
            && r.sensorId == sensorId
            && r.sensorName == st.sensors[sensorId].name
            && r.points == (if sensorId in st.telemetry then st.telemetry[sensorId] else [])
            && r.count == |r.points|)
  {
    match Authenticate(header, verify)
    case Rejected(reply) => reply
    case Authorized(user) =>
      match SensorAccess(st, user, sensorId)
      case Some(denied) => denied
      case None =>
        var points := if sensorId in st.telemetry then st.telemetry[sensorId] else [];
        SensorData(sensorId, st.sensors[sensorId].name, points, |points|)
  }

  function AddSensorDataSpec(st: Store, header: Option<string>, verify: string -> TokenCheck,
                             sensorId: string, body: Body, now: string): (r: Step)
    ensures r.reply.Failure? ==> r.after == st
    ensures Authenticate(header, verify).Rejected? ==> r.reply == Authenticate(header, verify).reply
    ensures Authenticate(header, verify).Authorized? ==>
      var access := SensorAccess(st, Authenticate(header, verify).user, sensorId);
      && (access.Some? ==> r.reply == access.value)
      // the missing value is only reported to the owner of an existing sensor
      && (access.None? && (BodyMissing(body) || "value" !in body.value) ==>
            r.reply == Failure(400, MissingValue))
      && (access.None? && !BodyMissing(body) && "value" in body.value && sensorId in st.telemetry ==>
            var unit := if "unit" in body.value then body.value["unit"] else DefaultUnit;
            && r.reply == DataAdded(sensorId, Point(now, body.value["value"], unit))
            && r.after.telemetry == st.telemetry[sensorId := st.telemetry[sensorId] + [r.reply.point]]
            && r.after.users == st.users && r.after.sensors == st.sensors)
  {
    match Authenticate(header, verify)
    case Rejected(reply) => Step(st, reply)
    case Authorized(user) =>
      match SensorAccess(st, user, sensorId)
      case Some(denied) => Step(st, denied)
      case None =>
        if BodyMissing(body) || "value" !in body.value then
          Step(st, Failure(400, MissingValue))
        else if sensorId !in st.telemetry then
          Step(st, Failure(500, InternalError))   // telemetry_db[sensor_id] raises KeyError
        else
          var data := body.value;
          var point := Point(now, data["value"], if "unit" in data then data["unit"] else DefaultUnit);
          Step(st.(telemetry := st.telemetry[sensorId := st.telemetry[sensorId] + [point]]),
               DataAdded(sensorId, point))
  }

  /**
    In a valid store the `KeyError` branch cannot happen and a success appends
    exactly one point at the end of that sensor's list, leaving every other list alone.
  */
  lemma AddSensorDataAppendsOne(st: Store, header: Option<string>, verify: string -> TokenCheck,
                                sensorId: string, body: Body, now: string)
    requires Valid(st)
    ensures Valid(AddSensorDataSpec(st, header, verify, sensorId, body, now).after)
    ensures Authenticate(header, verify).Authorized? ==>
      AddSensorDataSpec(st, header, verify, sensorId, body, now).reply.Code() in {201, 400, 403, 404}
    ensures
      var r := AddSensorDataSpec(st, header, verify, sensorId, body, now);
      r.reply.DataAdded? ==>
        && |r.after.telemetry[sensorId]| == |st.telemetry[sensorId]| + 1
        && r.after.telemetry[sensorId][..|st.telemetry[sensorId]|] == st.telemetry[sensorId]
        && r.after.telemetry[sensorId][|st.telemetry[sensorId]|] == r.reply.point
        && (forall id | id in st.telemetry && id != sensorId :: r.after.telemetry[id] == st.telemetry[id])
  {
  }

  // ---------------------------------------------------------------------
  // The module-level dictionaries, updated in place by the three writing endpoints

  class Server {
    var users: map<Json, User>
    var sensors: map<string, Sensor>
    var telemetry: map<string, seq<Point>>
    /** `hash_password`. */
    const hash: string -> string

    function State(): Store
      reads this
    {
      Store(users, sensors, telemetry)
    }

    constructor (hash: string -> string)
      ensures State() == EmptyStore && Valid(State()) && this.hash == hash
    {
      users, sensors, telemetry := map[], map[], map[];
      this.hash := hash;
      EmptyStoreValid();
    }

    method Register(body: Body, now: string) returns (reply: Reply)
      requires Valid(State())
      modifies this
      ensures Valid(State())
      ensures Step(State(), reply) == RegisterSpec(old(State()), body, hash, now)
    {
      if LacksAny(body, ["username", "password", "email"]) {
        return Failure(400, MissingRegisterFields);
      }
      var data := body.value;
      var username, password, email := data["username"], data["password"], data["email"];
      if !Hashable(username) {
        return Failure(500, InternalError);
      }
      if username in users {
        return Failure(409, UserExists);
      }
      var length := Len(password);
      if length.None? {
        return Failure(500, InternalError);
      }
      if length.value < MinPasswordLength {
        return Failure(400, PasswordTooShort);
      }
      if !password.JStr? {
        return Failure(500, InternalError);
      }
      var userId := |users| + 1;
      var user := User(userId, hash(password.s), email, now);
      NewUserKeepsValid(users, username, user);
      users := users[username := user];
      reply := Registered(userId, username);
    }

    method CreateSensor(header: Option<string>, verify: string -> TokenCheck, body: Body, now: string)
      returns (reply: Reply)
      requires Valid(State())
      modifies this
      ensures Valid(State())
      ensures Step(State(), reply) == CreateSensorSpec(old(State()), header, verify, body, now)
    {
      ghost var st := State();
      var auth := Authenticate(header, verify);
      if auth.Rejected? {
        return auth.reply;
      }
      if LacksAny(body, ["name", "type", "location"]) {
        return Failure(400, MissingSensorFields);
      }
      var sensorId := SensorKey(|sensors| + 1);
      var data := body.value;
      var sensor := Sensor(sensorId, data["name"], data["type"], data["location"], auth.user.userId, now);
      CreatedSensorStep(st, header, verify, body, now, sensor);
      sensors := sensors[sensorId := sensor];
      telemetry := telemetry[sensorId := []];
      reply := SensorCreated(sensor);
      assert State() == Store(st.users, st.sensors[sensorId := sensor], st.telemetry[sensorId := []]);
    }

    method AddSensorData(header: Option<string>, verify: string -> TokenCheck, sensorId: string,
                         body: Body, now: string)
      returns (reply: Reply)
      requires Valid(State())
      modifies this
      ensures Valid(State())
      ensures Step(State(), reply) == AddSensorDataSpec(old(State()), header, verify, sensorId, body, now)
    {
      var auth := Authenticate(header, verify);
      if auth.Rejected? {
        return auth.reply;
      }
      if sensorId !in sensors {
        return Failure(404, SensorNotFound);
      }
      if sensors[sensorId].ownerId != auth.user.userId {
        return Failure(403, AccessDenied);
      }
      if BodyMissing(body) || "value" !in body.value {
        return Failure(400, MissingValue);
      }
      if sensorId !in telemetry {
        return Failure(500, InternalError);
      }
      var data := body.value;
      var point := Point(now, data["value"], if "unit" in data then data["unit"] else DefaultUnit);
      telemetry := telemetry[sensorId := telemetry[sensorId] + [point]];
      reply := DataAdded(sensorId, point);
    }
  }
}
