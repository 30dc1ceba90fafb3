/** The handlers of `authControllers.js`: `register`, `login`,
    `getProfile` and `updateProfile`, over the `users` table. Password
    hashing and comparison (bcrypt) and token signing (`jwt.sign`) are
    parameters or left out; `userId` is `req.user.userId`. */
module AuthControllers {
  import opened Wrappers
  import opened Json
  import opened Http
  import opened Tables
  import opened Text

  const AllRequired := "Todos los campos son obligatorios"
  const BadEmail := "Formato de email invalido"
  const ShortPassword := "La contraseña debe tener al menos 6 caracteres"
  const EmailRegistered := "El email ya está registrado"
  const UsernameTaken := "El nombre de usuario ya está en uso"
  const UserRegistered := "Usuario registrado exitosamente"
  const LoginRequired := "Email y contraseña son obligatorios"
  const BadCredentials := "Credenciales invalidas"
  const UserMissing := "Usuario no encontrado"
  const ProfileRequired := "Nombre y email son obligatorios"
  const EmailInUse := "El email ya esta en uso por otro usuario"
  const ProfileUpdated := "Perfil actualizado exitosamente"

  /** The shortest password `register` accepts. */
  const MinPasswordLength := 6

  /** A row of `users`; `password` holds the hash. */
  datatype User = User(id: int, username: Value, name: Value, email: string, password: string)

  // ---------------------------------------------------------------------
  // the e-mail pattern ^[a-zA-Z0-9._%+-]+@[a-zA-Z0-9.-]+\.[a-zA-Z]{2,}$

  predicate IsLetter(c: char)
  {
    'a' <= c <= 'z' || 'A' <= c <= 'Z'
  }

  predicate IsLocalChar(c: char)
  {
    IsLetter(c) || '0' <= c <= '9' || c == '.' || c == '_' || c == '%' || c == '+' || c == '-'
  }

  predicate IsDomainChar(c: char)
  {
    IsLetter(c) || '0' <= c <= '9' || c == '.' || c == '-'
  }

  /** `e` matches the pattern with its `@` at `at` and the dot before the
      top-level domain at `dot`: a non-empty local part, a non-empty domain
      part, and at least two letters after the dot. */
  predicate MatchesAt(e: string, at: int, dot: int)
  {
    && 1 <= at && at + 2 <= dot && dot + 3 <= |e|
    && e[at] == '@' && e[dot] == '.'
    && (forall i :: 0 <= i < at ==> IsLocalChar(e[i]))
    && (forall i :: at < i < dot ==> IsDomainChar(e[i]))
    && (forall i :: dot < i < |e| ==> IsLetter(e[i]))
  }

  /** What `emailRegex.test(e)` accepts: some choice of the `@` and of the
      last dot matches. */
  ghost predicate EmailPattern(e: string)
  {
    exists at, dot :: MatchesAt(e, at, dot)
  }

  /** The first index of `c` in `s`. */
  function FirstIndex(s: string, c: char): (r: Option<nat>)
    ensures r.None? <==> c !in s
    ensures r.Some? ==> r.value < |s| && s[r.value] == c && c !in s[..r.value]
    decreases |s|
  {
    if s == [] then None
    else if s[0] == c then Some(0)
    else match FirstIndex(s[1..], c)
      case None => None
      case Some(i) =>
        assert s[..i + 1] == [s[0]] + s[1..][..i];
        Some(i + 1)
  }

  /** The last index of `c` in `s`. */
  function LastIndex(s: string, c: char): (r: Option<nat>)
    ensures r.None? <==> c !in s
    ensures r.Some? ==> r.value < |s| && s[r.value] == c && c !in s[r.value + 1..]
    decreases |s|
  {
    if s == [] then None
    else if s[|s| - 1] == c then Some(|s| - 1)
    else match LastIndex(s[..|s| - 1], c)
      case None =>
        assert s == s[..|s| - 1] + [s[|s| - 1]];
        None
      case Some(i) =>
        assert s[i + 1..] == s[..|s| - 1][i + 1..] + [s[|s| - 1]];
        Some(i)
  }

  /** The e-mail test as a scan: the only `@` the pattern allows is the
      first one, and the only dot it can end on is the last one. */
  function IsEmail(e: string): bool
  {
    match (FirstIndex(e, '@'), LastIndex(e, '.'))
    case (Some(at), Some(dot)) => MatchesAt(e, at, dot)
    case _ => false
  }

  /** The scan accepts exactly what the pattern matches. */
  lemma IsEmailMatchesPattern(e: string)
    ensures IsEmail(e) <==> EmailPattern(e)
  {
    if EmailPattern(e) {
      var at, dot :| MatchesAt(e, at, dot);
      assert e[at] in e && e[dot] in e;
    }
  }

  /** Any non-empty local part, `@`, non-empty domain, `.` and a top-level
      domain of two letters or more make an address the pattern accepts. */
  lemma EmailOfParts(local: string, domain: string, tld: string)
    requires local != [] && forall i :: 0 <= i < |local| ==> IsLocalChar(local[i])
    requires domain != [] && forall i :: 0 <= i < |domain| ==> IsDomainChar(domain[i])
    requires |tld| >= 2 && forall i :: 0 <= i < |tld| ==> IsLetter(tld[i])
    ensures EmailPattern(local + "@" + domain + "." + tld)
  {
    var e := local + "@" + domain + "." + tld;
    var at := |local|;
    var dot := |local| + 1 + |domain|;
    assert forall i :: at < i < dot ==> e[i] == domain[i - at - 1];
    assert forall i :: dot < i < |e| ==> e[i] == tld[i - dot - 1];
    assert MatchesAt(e, at, dot);
  }

  /** An address with a second `@` is refused. */
  lemma SecondAtRefused(e: string, i: int, j: int)
    requires 0 <= i < j < |e| && e[i] == '@' && e[j] == '@'
    ensures !EmailPattern(e)
  {
    forall at, dot
      ensures !MatchesAt(e, at, dot)
    {
      var k := if i != at then i else j;
      assert e[k] == '@' && k != at;
    }
  }

  /** An address whose last dot is followed by fewer than two characters
      (a one-letter top-level domain) is refused. */
  lemma ShortTopLevelDomainRefused(e: string, k: int)
    requires 0 <= k < |e| && e[k] == '.' && k + 3 > |e|
    ensures !EmailPattern(e)
  {
    forall at, dot
      ensures !MatchesAt(e, at, dot)
    {
      assert e[k] == '.';
    }
  }

  /** `emailRegex.test(email)`: the value is turned into text first, and a
      number, a boolean or `null` never contains an `@`. */
  predicate EmailAccepted(v: Value)
  {
    v.Str? && IsEmail(v.s)
  }

  // ---------------------------------------------------------------------
  // the users table

  function EmailIs(email: Value): User -> bool
  {
    (u: User) => Str(u.email) == email
  }

  function UsernameIs(username: Value): User -> bool
  {
    (u: User) => u.username == username
  }

  /** `User.findByEmail`: the first account with that e-mail, or `null`. */
  function FindByEmail(users: map<int, User>, email: Value): (r: Option<User>)
    ensures r.None? <==> forall id :: id in users ==> Str(users[id].email) != email
    ensures r.Some? ==> r.value in users.Values && Str(r.value.email) == email
  {
    match Find(users, EmailIs(email))
    case None => None
    case Some(found) => assert found[0] in found; Some(found[0])
  }

  /** `User.findByUsername`: the first account with that username, or `null`. */
  function FindByUsername(users: map<int, User>, username: Value): (r: Option<User>)
    ensures r.None? <==> forall id :: id in users ==> users[id].username != username
    ensures r.Some? ==> r.value in users.Values && r.value.username == username
  {
    match Find(users, UsernameIs(username))
    case None => None
    case Some(found) => assert found[0] in found; Some(found[0])
  }

  /** No two accounts share an e-mail or a username. */
  ghost predicate UniqueAccounts(users: map<int, User>)
  {
    forall a, b :: a in users && b in users && a != b ==>
      users[a].email != users[b].email && users[a].username != users[b].username
  }

  /** `toJSON`: every column but the password hash. */
  function ToJson(u: User): (r: Object)
    ensures "password" !in r
    ensures "id" in r && r["id"] == Num(u.id) && "email" in r && r["email"] == Str(u.email)
    ensures "username" in r && r["username"] == u.username && "name" in r && r["name"] == u.name
    ensures r.Keys == {"id", "username", "name", "email"}
  {
    map["id" := Num(u.id), "username" := u.username, "name" := u.name, "email" := Str(u.email)]
  }

  /** The `users` table. */
  class UserStore {
    var users: map<int, User>
    var nextId: int

    ghost predicate Valid()
      reads this
    {
      nextId >= 1 && forall id :: id in users ==> users[id].id == id && id < nextId
    }

    constructor ()
      ensures Valid() && users == map[] && nextId == 1
    {
      users := map[];
      nextId := 1;
    }

    /** `User.create`: the account under the next id, the rest untouched. */
    method Create(username: Value, name: Value, email: string, password: string) returns (u: User)
      requires Valid()
      modifies this
      ensures Valid()
      ensures u == User(old(nextId), username, name, email, password) && u.id !in old(users)
      ensures users == old(users)[u.id := u]
    {
      u := User(nextId, username, name, email, password);
      users := users[u.id := u];
      nextId := nextId + 1;
    }

    /** `user.update({ name, email })`: both columns of one account, the
        rest of the table untouched. */
    method SetProfile(id: int, name: Value, email: string) returns (u: User)
      requires Valid() && id in users
      modifies this`users
      ensures Valid()
      ensures u == old(users)[id].(name := name, email := email)
      ensures users == old(users)[id := u]
    {
      u := users[id].(name := name, email := email);
      users := users[id := u];
    }
  }

  // ---------------------------------------------------------------------
  // register

  /** `register`'s checks, in order: all four fields, the e-mail pattern,
      the password length (only a text has one: a number passes; it counts
      UTF-16 code units), then an e-mail already registered, then a username already in use. */
  function RegisterCheck(users: map<int, User>, body: Object): (c: Check)
    ensures !(Given(body, "username") && Given(body, "name") && Given(body, "email") && Given(body, "password")) ==>
              c == Deny(400, AllRequired)
    ensures c == Pass <==>
              && Given(body, "username") && Given(body, "name") && Given(body, "email") && Given(body, "password")
              && EmailAccepted(body["email"])
              && !(body["password"].Str? && Utf16Length(body["password"].s) < MinPasswordLength)
              && FindByEmail(users, body["email"]).None? && FindByUsername(users, body["username"]).None?
    ensures c.Stop? && c.reply.status == 409 ==>
              (c.reply.message == EmailRegistered <==> FindByEmail(users, body["email"]).Some?)
    ensures c.Stop? ==> c.reply.status in {400, 409}
  {
    if !(Given(body, "username") && Given(body, "name") && Given(body, "email") && Given(body, "password")) then
      Deny(400, AllRequired)
    else if !EmailAccepted(body["email"]) then Deny(400, BadEmail)
    else if body["password"].Str? && Utf16Length(body["password"].s) < MinPasswordLength then Deny(400, ShortPassword)
    else if FindByEmail(users, body["email"]).Some? then Deny(409, EmailRegistered)
    else if FindByUsername(users, body["username"]).Some? then Deny(409, UsernameTaken)
    else Pass
  }

  /** The length check counts code units, not characters: three characters
      beyond U+FFFF make a password of length 6, which is long enough. */
  lemma AstralPasswordLongEnough(users: map<int, User>, body: Object)
    requires "password" in body && body["password"] == Str("\U{1F600}\U{1F600}\U{1F600}")
    ensures RegisterCheck(users, body) != Deny(400, ShortPassword)
  {
    var p := body["password"].s;
    assert p[1..][1..][1..] == [];
    assert Utf16Length(p) == 6;
  }

  /** `register`: after the checks, `User.create` stores the account with
      the hashed password under a fresh id; from then on `findByEmail`
      answers that account. */
  method Register(store: UserStore, body: Object, hash: Value -> string) returns (reply: Reply, created: Option<User>)
    requires store.Valid()
    modifies store
    ensures store.Valid()
    ensures RegisterCheck(old(store.users), body).Stop? ==>
              reply == RegisterCheck(old(store.users), body).reply && created.None? && unchanged(store)
    ensures RegisterCheck(old(store.users), body) == Pass ==>
              && reply == Reply(201, UserRegistered)
              && created.Some? && created.value.id !in old(store.users)
              && created.value == User(created.value.id, body["username"], body["name"], body["email"].s, hash(body["password"]))
              && store.users == old(store.users)[created.value.id := created.value]
              && FindByEmail(store.users, body["email"]) == Some(created.value)
  {
    var check := RegisterCheck(store.users, body);
    if check.Stop? {
      return check.reply, None;
    }
    assert EmailAccepted(body["email"]);
    var u := store.Create(body["username"], body["name"], body["email"].s, hash(body["password"]));
    FoundIsOnlyMatch(old(store.users), u);
    reply, created := Reply(201, UserRegistered), Some(u);
  }

  /** A new account whose e-mail no one has is the one `findByEmail` finds. */
  lemma FoundIsOnlyMatch(users: map<int, User>, u: User)
    requires FindByEmail(users, Str(u.email)).None?
    ensures FindByEmail(users[u.id := u], Str(u.email)) == Some(u)
  {
    var after := users[u.id := u];
    forall id | id in after && id != u.id
      ensures Str(after[id].email) != Str(u.email)
    {
      assert after[id] == users[id];
    }
    OnlyMatchFound(after, Str(u.email), u);
  }

  /** The one account with an e-mail is the one `findByEmail` finds. */
  lemma OnlyMatchFound(users: map<int, User>, email: Value, u: User)
    requires u.id in users && users[u.id] == u && Str(u.email) == email
    requires forall id :: id in users && id != u.id ==> Str(users[id].email) != email
    ensures FindByEmail(users, email) == Some(u)
  {
    var r := FindByEmail(users, email);
    var id :| id in users && users[id] == r.value;
  }

  /** `register` keeps e-mails and usernames unique. */
  lemma RegisterKeepsAccountsUnique(users: map<int, User>, body: Object, u: User)
    requires UniqueAccounts(users) && u.id !in users
    requires RegisterCheck(users, body) == Pass
    requires u.email == body["email"].s && u.username == body["username"]
    ensures UniqueAccounts(users[u.id := u])
  {
    var after := users[u.id := u];
    forall a, b | a in after && b in after && a != b
      ensures after[a].email != after[b].email && after[a].username != after[b].username
    {
      if a == u.id {
        assert Str(users[b].email) != body["email"];
      } else if b == u.id {
        assert Str(users[a].email) != body["email"];
      }
    }
  }

  // ---------------------------------------------------------------------
  // login, getProfile

  /** `login`, with `matches(hash, password)` standing for
      `bcrypt.compare`: an unknown e-mail and a wrong password get the same
      401, so the answer does not tell which accounts exist. */
  function Login(users: map<int, User>, body: Object, matches: (string, Value) -> bool): (r: Result<User, Reply>)
    ensures !(Given(body, "email") && Given(body, "password")) ==> r == Failure(Reply(400, LoginRequired))
    ensures Given(body, "email") && Given(body, "password") && r.Failure? ==> r.error == Reply(401, BadCredentials)
    ensures r.Success? <==>
              && Given(body, "email") && Given(body, "password")
              && FindByEmail(users, body["email"]).Some?
              && matches(FindByEmail(users, body["email"]).value.password, body["password"])
    ensures r.Success? ==> r.value in users.Values && Str(r.value.email) == body["email"]
  {
    if !(Given(body, "email") && Given(body, "password")) then Failure(Reply(400, LoginRequired))
    else match FindByEmail(users, body["email"])
      case None => Failure(Reply(401, BadCredentials))
      case Some(u) =>
        if !matches(u.password, body["password"]) then Failure(Reply(401, BadCredentials))
        else Success(u)
  }

  /** `getProfile`: the caller's account without its password, or 404. */
  function GetProfile(users: map<int, User>, userId: int): (r: Result<Object, Reply>)
    ensures r.Failure? <==> userId !in users
    ensures r.Failure? ==> r.error == Reply(404, UserMissing)
    ensures r.Success? ==> "password" !in r.value && "email" in r.value && r.value["email"] == Str(users[userId].email)
    ensures r.Success? ==> r.value == ToJson(users[userId])
  {
    if userId in users then Success(ToJson(users[userId])) else Failure(Reply(404, UserMissing))
  }

  // ---------------------------------------------------------------------
  // updateProfile

  /** `updateProfile`'s checks: `name` and `email`, the e-mail pattern, the
      caller's account (404), then an e-mail taken by someone else (409);
      keeping one's own e-mail is never a conflict. */
  function UpdateProfileCheck(users: map<int, User>, userId: int, body: Object): (c: Check)
    ensures !(Given(body, "name") && Given(body, "email")) ==> c == Deny(400, ProfileRequired)
    ensures c == Pass <==>
              && Given(body, "name") && Given(body, "email") && EmailAccepted(body["email"])
              && userId in users
              && (body["email"] == Str(users[userId].email) || FindByEmail(users, body["email"]).None?)
    ensures c.Stop? ==> c.reply.status in {400, 404, 409}
  {
    if !(Given(body, "name") && Given(body, "email")) then Deny(400, ProfileRequired)
    else if !EmailAccepted(body["email"]) then Deny(400, BadEmail)
    else if userId !in users then Deny(404, UserMissing)
    else if body["email"] != Str(users[userId].email) && FindByEmail(users, body["email"]).Some? then Deny(409, EmailInUse)
    else Pass
  }

  /** `updateProfile`: after the checks, `user.update({ name, email })`
      sets both columns of the caller's account and nothing else. */
  method UpdateProfile(store: UserStore, userId: int, body: Object) returns (reply: Reply, json: Option<Object>)
    requires store.Valid()
    modifies store`users
    ensures store.Valid()
    ensures UpdateProfileCheck(old(store.users), userId, body).Stop? ==>
              reply == UpdateProfileCheck(old(store.users), userId, body).reply && json.None? && unchanged(store)
    ensures UpdateProfileCheck(old(store.users), userId, body) == Pass ==>
              && reply == Reply(200, ProfileUpdated)
              && store.users == old(store.users)[userId := old(store.users)[userId].(name := body["name"], email := body["email"].s)]
              && json == Some(ToJson(store.users[userId]))
  {
    var check := UpdateProfileCheck(store.users, userId, body);
    if check.Stop? {
      return check.reply, None;
    }
    var u := store.SetProfile(userId, body["name"], body["email"].s);
    reply, json := Reply(200, ProfileUpdated), Some(ToJson(u));
  }

  /** `updateProfile` keeps e-mails and usernames unique. */
  lemma UpdateProfileKeepsAccountsUnique(users: map<int, User>, userId: int, body: Object)
    requires UniqueAccounts(users)
    requires UpdateProfileCheck(users, userId, body) == Pass
    ensures UniqueAccounts(users[userId := users[userId].(name := body["name"], email := body["email"].s)])
  {
    var after := users[userId := users[userId].(name := body["name"], email := body["email"].s)];
    forall a, b | a in after && b in after && a != b
      ensures after[a].email != after[b].email && after[a].username != after[b].username
    {
      if a == userId && body["email"] != Str(users[userId].email) {
        assert Str(users[b].email) != body["email"];
      } else if b == userId && body["email"] != Str(users[userId].email) {
        assert Str(users[a].email) != body["email"];
      }
    }
  }
}
