/** Accounts (auth.js): registration, login, logout, the page guard and the profile merge,
    over the stored user list and the logged-in user. Users are plain objects, because the
    profile update spreads arbitrary fields over them. The verdict of the global
    validateForm of the page is a parameter (that validator is not part of this model);
    Date.now() and the ISO timestamp are parameters too. Passwords are compared as stored,
    in plain text; nothing here is a security property. */
module Auth {
  import opened Text
  import opened Js
  import opened Seqs

  /** The two stored values: the user list and the current user (null is None). */
  datatype AuthState = AuthState(users: seq<Record>, current: Option<Record>)

  /** What a handler reports: success, a form the validator refused, or a refusal with
      the message shown next to the field. */
  datatype Reply = Accepted | Invalid | Refused(message: string)

  /** The fields of the registration form as FormData.get returns them. */
  datatype RegisterForm = RegisterForm(firstName: Value, lastName: Value, email: Value, password: Value, confirmPassword: Value)

  /** `user => user.email === email` */
  function EmailIs(email: Value): Record -> bool {
    (user: Record) => StrictEq(Get(user, "email"), Some(email))
  }

  /** No two users share an email. */
  predicate EmailsUnique(users: seq<Record>) {
    forall i, j :: 0 <= i < j < |users| ==> !StrictEq(Get(users[i], "email"), Get(users[j], "email"))
  }

  /** Every id equals itself (none is NaN) and no two users share one. */
  predicate IdsUnique(users: seq<Record>) {
    (forall i :: 0 <= i < |users| ==> StrictEq(Get(users[i], "id"), Get(users[i], "id")))
    && forall i, j :: 0 <= i < j < |users| ==> !StrictEq(Get(users[i], "id"), Get(users[j], "id"))
  }

  /** The logged-in user, when there is one, is an entry of the list. */
  predicate CurrentIsStored(st: AuthState) {
    st.current.Some? ==> st.current.value in st.users
  }

  /** The record a registration stores: the id, the names, the email, the password and the
      creation time; the confirmation and the terms box are not kept. */
  function NewUser(form: RegisterForm, now: nat, nowIso: string): (u: Record)
    ensures u.Keys == {"id", "firstName", "lastName", "email", "password", "createdAt"}
    ensures u["email"] == form.email && u["password"] == form.password
    ensures u["id"] == Num(Fin(now as real))
  {
    map["id" := Num(Fin(now as real)), "firstName" := form.firstName, "lastName" := form.lastName,
        "email" := form.email, "password" := form.password, "createdAt" := Str(nowIso)]
  }

  /** handleRegister: an invalid form, a confirmation that differs from the password, or an
      email already in the list leaves everything as it was; otherwise the new user is
      appended and becomes the current user. */
  function Register(st: AuthState, form: RegisterForm, formValid: bool, now: nat, nowIso: string): (r: (AuthState, Reply))
    ensures !formValid ==> r == (st, Invalid)
    ensures formValid && !StrictEq(Some(form.password), Some(form.confirmPassword)) ==>
      r == (st, Refused("Passwords do not match"))
    ensures (formValid && StrictEq(Some(form.password), Some(form.confirmPassword))
             && exists i :: 0 <= i < |st.users| && EmailIs(form.email)(st.users[i])) ==>
      r == (st, Refused("An account with this email already exists"))
    ensures r.1 == Accepted <==> (formValid && StrictEq(Some(form.password), Some(form.confirmPassword))
                                  && forall i :: 0 <= i < |st.users| ==> !EmailIs(form.email)(st.users[i]))
    ensures r.1 == Accepted ==>
      r.0.users == st.users + [NewUser(form, now, nowIso)] && r.0.current == Some(NewUser(form, now, nowIso))
  {
    if !formValid then (st, Invalid)
    else if !StrictEq(Some(form.password), Some(form.confirmPassword)) then (st, Refused("Passwords do not match"))
    else if FindIndex(st.users, EmailIs(form.email)) != -1 then
      (st, Refused("An account with this email already exists"))
    else
      var u := NewUser(form, now, nowIso);
      (AuthState(st.users + [u], Some(u)), Accepted)
  }

  /** handleLogin: an invalid form changes nothing; then the first user with the email is
      looked up ('No account found ...' when there is none) and its password compared
      ('Incorrect password'); only then does that user become the current user. */
  function Login(st: AuthState, email: Value, password: Value, formValid: bool): (r: (AuthState, Reply))
    ensures r.1 != Accepted ==> r.0 == st
    ensures !formValid ==> r.1 == Invalid
    ensures formValid && (forall i :: 0 <= i < |st.users| ==> !EmailIs(email)(st.users[i])) ==>
      r.1 == Refused("No account found with this email address")
  {
    if !formValid then (st, Invalid)
    else
      var i := FindIndex(st.users, EmailIs(email));
      if i == -1 then (st, Refused("No account found with this email address"))
      else if !StrictEq(Get(st.users[i], "password"), Some(password)) then (st, Refused("Incorrect password"))
      else
        (AuthState(st.users, Some(st.users[i])), Accepted)
  }

  /** A login that reaches the user list is decided by the first user with the email: its
      password either matches, and that user is logged in, or the login is refused as an
      incorrect password. */
  lemma LoginFirstMatch(st: AuthState, email: Value, password: Value, i: nat)
    requires i < |st.users| && EmailIs(email)(st.users[i])
    requires forall j :: 0 <= j < i ==> !EmailIs(email)(st.users[j])
    ensures StrictEq(Get(st.users[i], "password"), Some(password)) ==>
      Login(st, email, password, true) == (AuthState(st.users, Some(st.users[i])), Accepted)
    ensures !StrictEq(Get(st.users[i], "password"), Some(password)) ==>
      Login(st, email, password, true) == (st, Refused("Incorrect password"))
  {
    assert FindIndex(st.users, EmailIs(email)) == i;
  }

  /** An accepted login logs in a stored user whose email and password match. */
  lemma LoginAccepts(st: AuthState, email: Value, password: Value, formValid: bool)
    requires Login(st, email, password, formValid).1 == Accepted
    ensures exists i :: (0 <= i < |st.users| && EmailIs(email)(st.users[i])
      && StrictEq(Get(st.users[i], "password"), Some(password))
      && Login(st, email, password, formValid).0 == AuthState(st.users, Some(st.users[i])))
  {
    var i := FindIndex(st.users, EmailIs(email));
    assert EmailIs(email)(st.users[i]);
  }

  /** clearCurrentUser (and handleLogout): nobody is logged in; the list is kept. */
  function ClearCurrentUser(st: AuthState): (r: AuthState)
    ensures r.current.None? && r.users == st.users
  {
    AuthState(st.users, None)
  }

  /** checkAuth: false (redirect to the login page) only when nobody is logged in and the
      path names the dashboard page. */
  function CheckAuth(st: AuthState, pathname: string): (ok: bool)
    ensures !ok <==> st.current.None? && Includes(pathname, "dashboard.html")
  {
    !(st.current.None? && Includes(pathname, "dashboard.html"))
  }

  /** `u => u.id === currentUser.id` */
  function SameId(user: Record): Record -> bool {
    (u: Record) => StrictEq(Get(u, "id"), Get(user, "id"))
  }

  /** updateUserProfile: false and no change with nobody logged in or when no stored user
      has the current user's id; otherwise the first such user gets the data spread over it
      (new keys win), becomes the current user, and every other user is unchanged. */
  function UpdateUserProfile(st: AuthState, updatedData: Record): (r: (AuthState, bool))
    ensures !r.1 ==> r.0 == st
    ensures r.1 <==> st.current.Some? && exists i :: 0 <= i < |st.users| && SameId(st.current.value)(st.users[i])
    ensures r.1 ==> exists i :: (0 <= i < |st.users| && SameId(st.current.value)(st.users[i])
      && (forall j :: 0 <= j < i ==> !SameId(st.current.value)(st.users[j]))
      && r.0.users == st.users[i := st.users[i] + updatedData]
      && r.0.current == Some(st.users[i] + updatedData))
  {
    if st.current.None? then (st, false)
    else
      var i := FindIndex(st.users, SameId(st.current.value));
      if i == -1 then (st, false)
      else
        var merged := st.users[i] + updatedData;
        var r := (AuthState(st.users[i := merged], Some(merged)), true);
        assert 0 <= i < |st.users| && SameId(st.current.value)(st.users[i])
          && (forall j :: 0 <= j < i ==> !SameId(st.current.value)(st.users[j]))
          && r.0.users == st.users[i := merged] && r.0.current == Some(merged);
        r
  }

  /** Registration keeps emails unique, since a taken email is refused. */
  lemma RegisterKeepsEmailsUnique(st: AuthState, form: RegisterForm, formValid: bool, now: nat, nowIso: string)
    requires EmailsUnique(st.users)
    ensures EmailsUnique(Register(st, form, formValid, now, nowIso).0.users)
  {
    var r := Register(st, form, formValid, now, nowIso);
    if r.1 == Accepted {
      var users := r.0.users;
      var u := NewUser(form, now, nowIso);
      forall i, j | 0 <= i < j < |users|
        ensures !StrictEq(Get(users[i], "email"), Get(users[j], "email"))
      {
        if j == |st.users| {
          assert users[j] == u && users[i] == st.users[i];
          assert !EmailIs(form.email)(st.users[i]);
        } else {
          assert users[i] == st.users[i] && users[j] == st.users[j];
        }
      }
    }
  }

  /** Every handler keeps the current user an entry of the list. */
  lemma HandlersKeepCurrentStored(st: AuthState, form: RegisterForm, email: Value, password: Value,
                                  formValid: bool, now: nat, nowIso: string, data: Record)
    requires CurrentIsStored(st)
    ensures CurrentIsStored(Register(st, form, formValid, now, nowIso).0)
    ensures CurrentIsStored(Login(st, email, password, formValid).0)
    ensures CurrentIsStored(ClearCurrentUser(st))
    ensures CurrentIsStored(UpdateUserProfile(st, data).0)
  {
    assert CurrentIsStored(Register(st, form, formValid, now, nowIso).0);
    LoginKeepsCurrentStored(st, email, password, formValid);
    UpdateKeepsCurrentStored(st, data);
  }

  lemma LoginKeepsCurrentStored(st: AuthState, email: Value, password: Value, formValid: bool)
    requires CurrentIsStored(st)
    ensures CurrentIsStored(Login(st, email, password, formValid).0)
  {
    var r := Login(st, email, password, formValid);
    if r.1 == Accepted {
      LoginAccepts(st, email, password, formValid);
      var i :| 0 <= i < |st.users| && r.0 == AuthState(st.users, Some(st.users[i]));
    }
  }

  lemma UpdateKeepsCurrentStored(st: AuthState, data: Record)
    requires CurrentIsStored(st)
    ensures CurrentIsStored(UpdateUserProfile(st, data).0)
  {
    var r := UpdateUserProfile(st, data);
    if r.1 {
      var i := FindIndex(st.users, SameId(st.current.value));
      assert r.0.users[i] == r.0.current.value;
    }
  }

  /** A fresh registration can log in again with the same email and password, and the
      login picks the registered user. */
  lemma RegisterThenLogin(st: AuthState, form: RegisterForm, now: nat, nowIso: string)
    requires form.password == form.confirmPassword && form.password.Str? && form.email.Str?
    requires forall i :: 0 <= i < |st.users| ==> !EmailIs(form.email)(st.users[i])
    ensures var reg := Register(st, form, true, now, nowIso);
      reg.1 == Accepted
      && Login(reg.0, form.email, form.password, true) == (reg.0, Accepted)
  {
    var reg := Register(st, form, true, now, nowIso);
    var u := NewUser(form, now, nowIso);
    assert reg.0.users == st.users + [u];
    assert EmailIs(form.email)(reg.0.users[|st.users|]);
    assert FindIndex(reg.0.users, EmailIs(form.email)) == |st.users|;
  }

  /** Two profile updates in a row are one update with both sets of fields, the later
      winning, provided the first does not change the id. */
  lemma UpdateTwice(st: AuthState, a: Record, b: Record)
    requires "id" !in a
    requires UpdateUserProfile(st, a).1
    ensures UpdateUserProfile(UpdateUserProfile(st, a).0, b) == UpdateUserProfile(st, a + b)
  {
    var i := FindIndex(st.users, SameId(st.current.value));
    var once := UpdateUserProfile(st, a).0;
    var both := st.users[i] + (a + b);
    UpdateFindsSamePosition(st, a);
    MergeAssociates(st.users[i], a, b);
    assert once.users[i := st.users[i] + a + b] == st.users[i := both];
    assert UpdateUserProfile(once, b) == (AuthState(st.users[i := both], Some(both)), true);
    assert UpdateUserProfile(st, a + b) == (AuthState(st.users[i := both], Some(both)), true);
  }

  /** An update that leaves the id alone is found again at the same position. */
  lemma UpdateFindsSamePosition(st: AuthState, a: Record)
    requires "id" !in a
    requires UpdateUserProfile(st, a).1
    ensures var i := FindIndex(st.users, SameId(st.current.value));
      var once := UpdateUserProfile(st, a).0;
      0 <= i < |st.users| && once.users == st.users[i := st.users[i] + a] && once.current == Some(st.users[i] + a)
      && FindIndex(once.users, SameId(once.current.value)) == i
  {
    var i := FindIndex(st.users, SameId(st.current.value));
    var once := UpdateUserProfile(st, a).0;
    var merged := st.users[i] + a;
    assert once.users == st.users[i := merged] && once.current == Some(merged);
    assert Get(merged, "id") == Get(st.users[i], "id");
    assert SameId(merged)(once.users[i]);
    forall j | 0 <= j < i
      ensures !SameId(merged)(once.users[j])
    {
      assert once.users[j] == st.users[j];
      assert !SameId(st.current.value)(st.users[j]);
    }
  }

  /** Spreading a and then b is spreading their merge, b winning. */
  lemma MergeAssociates(x: Record, a: Record, b: Record)
    ensures x + a + b == x + (a + b)
  {
    var l, r := x + a + b, x + (a + b);
    assert l.Keys == r.Keys;
    forall k | k in r ensures l[k] == r[k] {}
  }

  /** With unique ids, the lookup by the current user's id finds the current user itself. */
  lemma CurrentFoundById(st: AuthState)
    requires st.current.Some? && CurrentIsStored(st) && IdsUnique(st.users)
    ensures var k := FindIndex(st.users, SameId(st.current.value));
      0 <= k < |st.users| && st.users[k] == st.current.value
  {
    var cur := st.current.value;
    var m :| 0 <= m < |st.users| && st.users[m] == cur;
    assert SameId(cur)(st.users[m]);
  }
}
