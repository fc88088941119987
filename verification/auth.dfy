/** Sign-up and log-in. Password hashing, hash comparison and token signing are functions the
    handlers are given: the model fixes what goes into them and what comes back out, not how
    they work. */
module Auth {
  import opened Wrappers
  import opened Seqs
  import opened Db
  import opened Http

  /** The role every sign-up gets; the request cannot choose another. */
  const UserRole := "user"

  /** `SELECT * FROM users WHERE email = ?`: the first user with that email, if any. */
  function UserByEmail(users: seq<User>, email: string): (r: Option<User>)
    ensures r.Some? ==> r.value in users && r.value.email == email
    ensures r.Some? ==> exists k :: 0 <= k < |users| && users[k] == r.value &&
                          forall j :: 0 <= j < k ==> users[j].email != email
    ensures r.None? <==> forall i :: 0 <= i < |users| ==> users[i].email != email
  {
    match Find(users, (u: User) => u.email == email)
    case None => None
    case Some(k) => Some(users[k])
  }

  /** What the token carries: the user's id, email and role as stored. */
  datatype TokenPayload = TokenPayload(id: int, email: string, role: string)

  /** The user part of a login reply; the password hash is never sent back. */
  datatype Account = Account(id: int, name: string, email: string, role: string)

  /** The body of a successful login. */
  datatype Session = Session(message: string, token: string, user: Account)

  /** POST /api/auth/login. An email no user has and a password the stored hash does not match
      get the same 401, so the reply does not tell which was wrong. Otherwise the token is signed
      over the stored row, and the reply carries it with the row's public fields. */
  function Login(s: Store, email: string, password: string,
                 compare: (string, string) -> bool, sign: TokenPayload -> string): (h: Handled<Session>)
    ensures h.store == s && h.destroyed == []
    ensures UserByEmail(s.users, email).None? ==> h.reply == Fail(401, "Invalid credentials")
    ensures h.reply.Ok? <==>
              UserByEmail(s.users, email).Some? &&
              compare(password, UserByEmail(s.users, email).value.password)
    ensures h.reply.Fail? ==> h.reply == Fail(401, "Invalid credentials")
    ensures h.reply.Ok? ==>
              var u := UserByEmail(s.users, email).value;
              h.reply.status == 200 &&
              h.reply.body == Session("Login successful", sign(TokenPayload(u.id, u.email, u.role)),
                                      Account(u.id, u.name, u.email, u.role))
  {
    match UserByEmail(s.users, email)
    case None => Refuse(s, 401, "Invalid credentials")
    case Some(u) =>
      if !compare(password, u.password) then Refuse(s, 401, "Invalid credentials")
      else
        var token := sign(TokenPayload(u.id, u.email, u.role));
        Handled(s, Ok(200, Session("Login successful", token, Account(u.id, u.name, u.email, u.role))), [])
  }

  /** `INSERT INTO users (name, email, password, role)` with the role fixed to `user`: one row
      with a fresh id and no image; nothing else changes. */
  function CreateUser(s: Store, name: string, email: string, hashed: string): (s': Store)
    ensures |s'.users| == |s.users| + 1
    ensures s' == s.(users := s.users + [s'.users[|s.users|]])
    ensures var u := s'.users[|s.users|];
      u.name == name && u.email == email && u.password == hashed && u.role == UserRole &&
      u.image.None? && forall i :: 0 <= i < |s.users| ==> s.users[i].id < u.id
  {
    var id := NextId(s.users, (u: User) => u.id);
    s.(users := s.users + [User(id, name, email, hashed, UserRole, None)])
  }

  /** POST /api/auth/signup. A taken email is refused with 400; otherwise the password is hashed
      and the user stored with the plain role. */
  function Signup(s: Store, name: string, email: string, password: string,
                  hash: string -> string): (h: Handled<string>)
    ensures h.destroyed == []
    ensures UserByEmail(s.users, email).Some? ==> h == Refuse(s, 400, "Email already registered")
    ensures h.reply.Ok? <==> UserByEmail(s.users, email).None?
    ensures h.reply.Ok? ==>
              h.reply == Ok(201, "Signup successful") && h.store == CreateUser(s, name, email, hash(password))
  {
    match UserByEmail(s.users, email)
    case Some(_) => Refuse(s, 400, "Email already registered")
    case None => Handled(CreateUser(s, name, email, hash(password)), Ok(201, "Signup successful"), [])
  }

  /** No two users share an email. */
  predicate EmailsUnique(users: seq<User>) {
    forall i, j :: 0 <= i < |users| && 0 <= j < |users| && i != j ==> users[i].email != users[j].email
  }

  /** Sign-up keeps emails unique, and everyone it adds has the plain role. */
  lemma SignupKeepsEmailsUnique(s: Store, name: string, email: string, password: string,
                                hash: string -> string)
    requires EmailsUnique(s.users)
    ensures var h := Signup(s, name, email, password, hash);
      EmailsUnique(h.store.users) &&
      forall i :: |s.users| <= i < |h.store.users| ==> h.store.users[i].role == UserRole
  {
  }

  /** Whoever signs up can then log in with the same password, as long as the comparison accepts
      a password against its own hash, and the session is for the new account with the plain
      role. */
  lemma SignupThenLogin(s: Store, name: string, email: string, password: string,
                        hash: string -> string, compare: (string, string) -> bool,
                        sign: TokenPayload -> string)
    requires Signup(s, name, email, password, hash).reply.Ok?
    requires compare(password, hash(password))
    ensures var s' := Signup(s, name, email, password, hash).store;
      var h := Login(s', email, password, compare, sign);
      var u := s'.users[|s.users|];
      h.reply.Ok? && h.reply.body.user == Account(u.id, name, email, UserRole)
  {
    var s' := Signup(s, name, email, password, hash).store;
    var u := s'.users[|s.users|];
    assert forall i :: 0 <= i < |s.users| ==> s'.users[i] == s.users[i];
    assert UserByEmail(s'.users, email) == Some(u);
  }

  /** A failed login says the same whichever check failed. */
  lemma LoginHidesWhichCheckFailed(s: Store, email: string, password: string,
                                   compare: (string, string) -> bool, sign: TokenPayload -> string,
                                   email': string, password': string)
    requires Login(s, email, password, compare, sign).reply.Fail?
    requires Login(s, email', password', compare, sign).reply.Fail?
    ensures Login(s, email, password, compare, sign) == Login(s, email', password', compare, sign)
  {
  }
}
