/** Registration and login: field, email-shape and password-length validation, the
    unique-email rule, the inserted user, the uniform login failure and the
    `lastSignedIn` stamp. Hashing and comparison are the oracles `hash` and `verify`;
    the UUID of a new user is the parameter `freshId`. */
module AuthController {
  import opened Values
  import opened Strings
  import opened Database

  const RegisterRequiredMessage := "Nome, email e senha são obrigatórios"
  const InvalidEmailMessage := "Email inválido"
  const ShortPasswordMessage := "A senha deve ter no mínimo 6 caracteres"
  const EmailTakenMessage := "Email já cadastrado"
  const RegisterFailedMessage := "Erro ao criar usuário"
  const LoginRequiredMessage := "Email e senha são obrigatórios"
  const LoginFailedMessage := "Email ou senha incorretos"
  const LoginErrorMessage := "Erro ao fazer login"

  // ---------------------------------------------------------------- email shape

  /** A character of the class `[^\s@]`. */
  predicate Plain(c: char) {
    !IsWhitespace(c) && c != '@'
  }

  predicate AllPlain(s: string) {
    forall i :: 0 <= i < |s| ==> Plain(s[i])
  }

  /** `[^\s@]+\.[^\s@]+` as a whole string: plain characters with a dot that has at
      least one character on each side. */
  predicate Domain(d: string) {
    AllPlain(d) && exists k | 0 < k < |d| - 1 :: d[k] == '.'
  }

  /** `/^[^\s@]+@[^\s@]+\.[^\s@]+$/` read as a pattern: some `@` splits the text into
      a non-empty plain local part and a domain. */
  ghost predicate EmailPattern(s: string) {
    exists a | 0 < a < |s| :: s[a] == '@' && AllPlain(s[..a]) && Domain(s[a + 1..])
  }

  /** The test as the handler performs it on `String(email)`: exactly one `@`, with a
      non-empty plain part before it and a domain after it. */
  predicate IsEmail(s: string) {
    var parts := Split(s, '@');
    |parts| == 2 && parts[0] != [] && AllPlain(parts[0]) && Domain(parts[1])
  }

  /** The check accepts exactly the texts the pattern matches. */
  lemma EmailMatchesPattern(s: string)
    ensures IsEmail(s) <==> EmailPattern(s)
  {
    if IsEmail(s) {
      AcceptedMatchesPattern(s);
    }
    if EmailPattern(s) {
      PatternIsAccepted(s);
    }
  }

  lemma AcceptedMatchesPattern(s: string)
    requires IsEmail(s)
    ensures EmailPattern(s)
  {
    var parts := Split(s, '@');
    JoinSplit(s, '@');
    assert parts == [parts[0]] + [parts[1]];
    JoinCons(parts[0], [parts[1]], '@');
    assert s == parts[0] + ['@'] + parts[1];
    var a := |parts[0]|;
    assert s[..a] == parts[0] && s[a] == '@' && s[a + 1..] == parts[1];
  }

  lemma PatternIsAccepted(s: string)
    requires EmailPattern(s)
    ensures IsEmail(s)
  {
    var a :| 0 < a < |s| && s[a] == '@' && AllPlain(s[..a]) && Domain(s[a + 1..]);
    var local, domain := s[..a], s[a + 1..];
    assert Split(s, '@') == [local] + [domain] by {
      assert s == local + ['@'] + domain;
      PlainHasNoAt(local);
      PlainHasNoAt(domain);
      SplitAtSep(local, '@', domain);
      SplitNoSep(domain, '@');
    }
  }

  lemma PlainHasNoAt(x: string)
    requires AllPlain(x)
    ensures '@' !in x
  {
    forall i | 0 <= i < |x| ensures x[i] != '@' { assert Plain(x[i]); }
  }

  /** An ordinary address matches. */
  lemma AddressAccepted()
    ensures EmailPattern("ana@crm.com")
  {
    var s := "ana@crm.com";
    assert s[..3] == "ana" && s[4..] == "crm.com";
    assert "crm.com"[3] == '.';
  }

  /** A second `@` fails, whichever `@` is taken as the separator. */
  lemma SecondAtRejected()
    ensures !EmailPattern("a@b@c.com")
  {
    var s := "a@b@c.com";
    forall a | 0 < a < |s| && s[a] == '@' ensures !(AllPlain(s[..a]) && Domain(s[a + 1..])) {
      if a == 1 {
        assert s[a + 1..][1] == '@';
      } else {
        assert s[..a][1] == '@';
      }
    }
  }

  /** A domain without a dot between two characters fails. */
  lemma DotlessDomainRejected()
    ensures !EmailPattern("ana@crm.")
  {
    var s := "ana@crm.";
    forall a | 0 < a < |s| && s[a] == '@' ensures !Domain(s[a + 1..]) {
      assert a == 3;
      var d := s[a + 1..];
      assert d == "crm.";
      forall k | 0 < k < |d| - 1 ensures d[k] != '.' {
      }
    }
  }

  // ---------------------------------------------------------------- register

  /** `password.length`: a string's length in UTF-16 code units, an array's number of
      items; any other value reads it as undefined, and `undefined < 6` is false. */
  function PasswordLength(v: Value): Option<nat> {
    match v
    case Str(s) => Some(Utf16Length(s))
    case List(items) => Some(|items|)
    case _ => None
  }

  predicate TooShort(v: Value) {
    var n := PasswordLength(v);
    n.Some? && n.value < 6
  }

  /** The length rule counts code units: three characters outside the Basic
      Multilingual Plane make six units and pass, while three ASCII letters do not. */
  lemma LengthCountsCodeUnits()
    ensures PasswordLength(Str("\U{1F600}\U{1F600}\U{1F600}")) == Some(6)
    ensures !TooShort(Str("\U{1F600}\U{1F600}\U{1F600}"))
    ensures TooShort(Str("abc"))
  {
    var astral := "\U{1F600}\U{1F600}\U{1F600}";
    assert astral[1..][1..][1..] == [];
    assert Utf16Length(astral[1..][1..][1..]) == 0;
    assert "abc"[1..][1..][1..] == [];
  }

  predicate EmailTaken(users: map<string, User>, email: Value) {
    exists u :: u in users && users[u].email == email
  }

  /** What the handler returns for a new user: the columns it reads back, without
      the password. */
  datatype PublicUser = PublicUser(id: string, name: Value, email: Value, role: string, createdAt: int)

  function PublicView(u: User): (p: PublicUser)
    ensures p.id == u.id && p.name == u.name && p.email == u.email && p.role == u.role
  {
    PublicUser(u.id, u.name, u.email, u.role, u.createdAt)
  }

  /** The row register inserts. */
  function NewUser(id: string, name: Value, email: Value, hashed: string, now: int): (u: User)
    ensures u.role == "user" && u.lastSignedIn.None? && u.password == hashed
  {
    User(id, name, email, hashed, "user", now, None)
  }

  /** Whether validation lets the request through to the email lookup. */
  predicate PassesValidation(body: Body) {
    Truthy(Field(body, "name")) && Truthy(Field(body, "email")) && Truthy(Field(body, "password")) &&
    IsEmail(ToText(Field(body, "email"))) && !TooShort(Field(body, "password"))
  }

  /** register, in the handler's order: 400 for a missing field, for a malformed
      email and for a short password; 409 for a taken email; 500 when hashing
      throws (a password that is not a string) or the UUID is already in use. None
      of these writes. Otherwise one user is added, with role `user`. */
  method Register(db: Db, body: Body, hash: string -> string, freshId: string, now: int)
    returns (r: Response<PublicUser>)
    requires db.Valid()
    modifies db`users
    ensures db.Valid()
    ensures var name, email, password := Field(body, "name"), Field(body, "email"), Field(body, "password");
      (!Truthy(name) || !Truthy(email) || !Truthy(password) ==> r == BadRequest(RegisterRequiredMessage)) &&
      (Truthy(name) && Truthy(email) && Truthy(password) && !IsEmail(ToText(email)) ==> r == BadRequest(InvalidEmailMessage)) &&
      (Truthy(name) && Truthy(email) && Truthy(password) && IsEmail(ToText(email)) && TooShort(password) ==>
         r == BadRequest(ShortPasswordMessage))
    ensures PassesValidation(body) && EmailTaken(old(db.users), Field(body, "email")) ==> r == Conflict(EmailTakenMessage)
    ensures (PassesValidation(body) && !EmailTaken(old(db.users), Field(body, "email")) &&
             (!Field(body, "password").Str? || freshId in old(db.users))) ==> r == ServerError(RegisterFailedMessage)
    ensures !r.Created? ==> db.users == old(db.users)
    ensures r.Created? <==> (PassesValidation(body) && !EmailTaken(old(db.users), Field(body, "email")) &&
                             Field(body, "password").Str? && freshId !in old(db.users))
    ensures r.Created? ==>
      var u := NewUser(freshId, Field(body, "name"), Field(body, "email"), hash(Field(body, "password").s), now);
      db.users == old(db.users)[freshId := u] && r.value == PublicView(u)
  {
    var name, email, password := Field(body, "name"), Field(body, "email"), Field(body, "password");
    if !Truthy(name) || !Truthy(email) || !Truthy(password) {
      return BadRequest(RegisterRequiredMessage);
    }
    if !IsEmail(ToText(email)) {
      return BadRequest(InvalidEmailMessage);
    }
    if TooShort(password) {
      return BadRequest(ShortPasswordMessage);
    }
    if exists u :: u in db.users && db.users[u].email == email {
      return Conflict(EmailTakenMessage);
    }
    if !password.Str? || freshId in db.users {
      return ServerError(RegisterFailedMessage);
    }
    var u := NewUser(freshId, name, email, hash(password.s), now);
    db.users := db.users[freshId := u];
    r := Created(PublicView(u));
  }

  // ---------------------------------------------------------------- login

  /** The user login returns: every column of the row as read, except the password. */
  datatype SignedInUser = SignedInUser(id: string, name: Value, email: Value, role: string,
                                       createdAt: int, lastSignedIn: Option<int>)

  function WithoutPassword(u: User): (s: SignedInUser)
    ensures s.id == u.id && s.name == u.name && s.email == u.email && s.role == u.role
    ensures s.createdAt == u.createdAt && s.lastSignedIn == u.lastSignedIn
  {
    SignedInUser(u.id, u.name, u.email, u.role, u.createdAt, u.lastSignedIn)
  }

  /** login: 400 for a missing field; the same 401 for an unknown email and for a
      wrong password; 500 when the comparison throws (a password that is not a
      string); none of these writes. Otherwise only that user's `lastSignedIn`
      changes, and the user is returned as read before the stamp, without the
      password. */
  method Login(db: Db, body: Body, verify: (string, string) -> bool, now: int) returns (r: Response<SignedInUser>)
    requires db.Valid()
    modifies db`users
    ensures db.Valid()
    ensures var email, password := Field(body, "email"), Field(body, "password");
      (!Truthy(email) || !Truthy(password) ==> r == BadRequest(LoginRequiredMessage) && db.users == old(db.users)) &&
      (Truthy(email) && Truthy(password) && !EmailTaken(old(db.users), email) ==>
         r == Unauthorized(LoginFailedMessage) && db.users == old(db.users))
    ensures var email, password := Field(body, "email"), Field(body, "password");
      forall id :: id in old(db.users) && old(db.users)[id].email == email && Truthy(email) && Truthy(password) ==>
        var u := old(db.users)[id];
        (!password.Str? ==> r == ServerError(LoginErrorMessage) && db.users == old(db.users)) &&
        (password.Str? && !verify(password.s, u.password) ==> r == Unauthorized(LoginFailedMessage) && db.users == old(db.users)) &&
        (password.Str? && verify(password.s, u.password) ==>
           db.users == old(db.users)[id := u.(lastSignedIn := Some(now))] && r == Ok(WithoutPassword(u)))
  {
    var email, password := Field(body, "email"), Field(body, "password");
    if !Truthy(email) || !Truthy(password) {
      return BadRequest(LoginRequiredMessage);
    }
    if !exists u :: u in db.users && db.users[u].email == email {
      return Unauthorized(LoginFailedMessage);
    }
    var id :| id in db.users && db.users[id].email == email;
    var user := db.users[id];
    if !password.Str? {
      return ServerError(LoginErrorMessage);
    }
    if !verify(password.s, user.password) {
      return Unauthorized(LoginFailedMessage);
    }
    db.users := db.users[id := user.(lastSignedIn := Some(now))];
    r := Ok(WithoutPassword(user));
  }
}
