/**
 Registration and login. Password hashing is a collaborator: `hash` turns a
 password into the stored hash and `verify` checks a password against a
 stored hash; nothing is assumed about either unless a lemma says so.
 */
module Auth {
  import opened Outcomes
  import opened Text
  import opened Models
  import opened Queries

  /** The email a registration or login form names, stripped. */
  function FormEmail(form: Form): string {
    Trim(Field(form, "email"))
  }

  /** The password a form carries, deliberately not stripped. */
  function FormPassword(form: Form): string {
    Field(form, "password")
  }

  /** POST /register. Blank credentials are refused first, then an email
      that is already registered; otherwise exactly one user is added, under
      the next user id, with no login recorded yet. */
  function Register(st: Store, form: Form, hash: string -> string): (r: Step<UserId>)
    requires Valid(st)
    ensures Valid(r.store)
    ensures FormEmail(form) == [] || FormPassword(form) == [] ==>
              r == Step(Err(CredentialsRequired), st)
    ensures FormEmail(form) != [] && FormPassword(form) != []
            && (exists u :: u in st.users && st.users[u].email == FormEmail(form)) ==>
              r == Step(Err(EmailTaken), st)
    ensures r.result.Ok? <==>
              && FormEmail(form) != [] && FormPassword(form) != []
              && forall u :: u in st.users ==> st.users[u].email != FormEmail(form)
    ensures r.result.Ok? ==>
              && r.result.value !in st.users
              && r.store.users.Keys == st.users.Keys + {r.result.value}
              && r.store.users[r.result.value] == User(FormEmail(form), hash(FormPassword(form)), None)
              && (forall u :: u in st.users ==> r.store.users[u] == st.users[u])
              && r.store.(users := st.users, nextUser := st.nextUser) == st
  {
    var email := FormEmail(form);
    var password := FormPassword(form);
    if email == [] || password == [] then Step(Err(CredentialsRequired), st)
    else if UserByEmail(st, email).Some? then Step(Err(EmailTaken), st)
    else
      var uid := st.nextUser;
      AddUserValid(st, User(email, hash(password), None));
      Step(Ok(uid), st.(users := st.users[uid := User(email, hash(password), None)], nextUser := uid + 1))
  }

  /** POST /login. The user registered under the stripped email, if the
      password verifies against that user's hash, gets `lastLogin := now`
      and becomes the session's user. Any other form is refused with one and
      the same error, and the store is left as it was. */
  function Login(st: Store, form: Form, verify: (string, string) -> bool, now: Timestamp): (r: Step<UserId>)
    requires Valid(st)
    ensures Valid(r.store)
    ensures r.result.Ok? <==>
              exists u :: u in st.users && st.users[u].email == FormEmail(form)
                          && verify(st.users[u].passwordHash, FormPassword(form))
    ensures r.result.Err? ==> r == Step(Err(InvalidCredentials), st)
    ensures r.result.Ok? ==>
              && r.result.value in st.users
              && st.users[r.result.value].email == FormEmail(form)
              && r.store.users.Keys == st.users.Keys
              && r.store.users[r.result.value] == st.users[r.result.value].(lastLogin := Some(now))
              && (forall u :: u in st.users && u != r.result.value ==> r.store.users[u] == st.users[u])
              && r.store.(users := st.users) == st
  {
    match UserByEmail(st, FormEmail(form))
    case Some(uid) =>
      var user := st.users[uid];
      if verify(user.passwordHash, FormPassword(form)) then
        UpdateUserValid(st, uid, user.(lastLogin := Some(now)));
        Step(Ok(uid), st.(users := st.users[uid := user.(lastLogin := Some(now))]))
      else
        Step(Err(InvalidCredentials), st)
    case None => Step(Err(InvalidCredentials), st)
  }

  /** GET /logout: the session forgets its user, whoever it was; the store
      is not touched, so the result is only the new session. */
  function Logout(st: Store, caller: Option<UserId>): (session: Option<UserId>)
    ensures !Authenticated(st, session)
  {
    None
  }

  /** A freshly registered user can log in with the same form, provided the
      hasher accepts a password against its own hash. */
  lemma RegisterThenLogin(st: Store, form: Form, hash: string -> string,
                          verify: (string, string) -> bool, now: Timestamp)
    requires Valid(st)
    requires Register(st, form, hash).result.Ok?
    requires verify(hash(FormPassword(form)), FormPassword(form))
    ensures var reg := Register(st, form, hash);
            Login(reg.store, form, verify, now).result == Ok(reg.result.value)
  {
    var reg := Register(st, form, hash);
    var uid := reg.result.value;
    assert reg.store.users[uid].email == FormEmail(form);
  }

  /** A second registration with the same email is refused, so the user set
      keeps one account per email. */
  lemma RegisterTwiceRefused(st: Store, form: Form, other: Form, hash: string -> string)
    requires Valid(st)
    requires Register(st, form, hash).result.Ok?
    requires FormEmail(other) == FormEmail(form) && FormPassword(other) != []
    ensures var reg := Register(st, form, hash);
            Register(reg.store, other, hash) == Step(Err(EmailTaken), reg.store)
  {
    var reg := Register(st, form, hash);
    assert reg.store.users[reg.result.value].email == FormEmail(other);
  }
}
