/** The sign-in form: trimmed field edits, a counter of failed attempts that
    locks the form at five, two input checks, and the credential lookup
    against the stored accounts. */
module Login {
  import opened Js
  import opened Entities
  import opened Storage
  import PasswordHash
  import Register

  datatype Field = Email | Password

  datatype LoginForm = LoginForm(email: string, password: string)

  const EmptyForm: LoginForm := LoginForm("", "")

  function FieldValue(f: LoginForm, field: Field): string {
    match field
    case Email => f.email
    case Password => f.password
  }

  /** `{ ...prev, [name]: value }`. */
  function WithField(f: LoginForm, field: Field, value: string): (r: LoginForm)
    ensures FieldValue(r, field) == value
    ensures forall other :: other != field ==> FieldValue(r, other) == FieldValue(f, other)
  {
    match field
    case Email => f.(email := value)
    case Password => f.(password := value)
  }

  /** Every field holds its own trim. */
  predicate AllTrimmed(f: LoginForm) {
    Trim(f.email) == f.email && Trim(f.password) == f.password
  }

  /** A trimmed edit keeps every field trimmed. */
  lemma TrimmedEdit(f: LoginForm, field: Field, value: string)
    requires AllTrimmed(f)
    ensures AllTrimmed(WithField(f, field, Trim(value)))
  {
    Register.TrimIdempotent(value);
  }

  /** The submission after which the form refuses every further one. */
  const MaxAttempts: nat := 5

  const LockedMessage: string := "Too many login attempts. Please try again later."
  const FillAllMessage: string := "Please fill in all fields"
  const ShortPasswordMessage: string := "Password must be at least 6 characters"
  const InvalidMessage: string := "Invalid email or password"

  /** `users.find(u => u.email === email && u.passwordHash === hash)`: the first
      account with both. */
  function FindUser(users: seq<StoredUser>, email: string, hash: string): (r: Option<StoredUser>)
    ensures r.Some? <==> exists i :: 0 <= i < |users| && users[i].email == email && users[i].passwordHash == hash
    ensures r.Some? ==>
      (exists i :: 0 <= i < |users| && users[i] == r.value
        && r.value.email == email && r.value.passwordHash == hash
        && forall k :: 0 <= k < i ==> !(users[k].email == email && users[k].passwordHash == hash))
  {
    if users == [] then None
    else if users[0].email == email && users[0].passwordHash == hash then Some(users[0])
    else
      var r := FindUser(users[1..], email, hash);
      assert forall i :: 0 < i < |users| ==> users[i] == users[1..][i - 1];
      r
  }

  /** What one submission does, before any state changes. */
  datatype Outcome = Locked | Incomplete | ShortPassword | Rejected | Accepted(user: SessionUser)

  /** `handleSubmit`, as a decision on the counter, the form and the stored
      accounts: the lock is checked first, then the inputs, then the lookup. */
  function Decide(attempts: nat, f: LoginForm, users: seq<StoredUser>): (r: Outcome)
    ensures attempts >= MaxAttempts ==> r == Locked
    ensures attempts < MaxAttempts && (f.email == "" || f.password == "") ==> r == Incomplete
    ensures attempts < MaxAttempts && f.email != "" && f.password != "" && |f.password| < 6 ==> r == ShortPassword
    ensures attempts < MaxAttempts && f.email != "" && |f.password| >= 6 ==>
      var found := FindUser(users, f.email, PasswordHash.Hash(f.password));
      (found.None? ==> r == Rejected) && (found.Some? ==> r == Accepted(Register.SessionOf(found.value)))
  {
    if attempts >= MaxAttempts then Locked
    else if f.email == "" || f.password == "" then Incomplete
    else if |f.password| < 6 then ShortPassword
    else
      var found := FindUser(users, f.email, PasswordHash.Hash(f.password));
      if found.None? then Rejected else Accepted(Register.SessionOf(found.value))
  }

  /** The counter after a submission: a failed lookup adds one, a success
      resets it, anything else leaves it. */
  function AttemptsAfter(attempts: nat, outcome: Outcome): nat {
    match outcome
    case Rejected => attempts + 1
    case Accepted(_) => 0
    case _ => attempts
  }

  /** One submission never takes the counter past five. */
  lemma AttemptsStayBounded(attempts: nat, f: LoginForm, users: seq<StoredUser>)
    requires attempts <= MaxAttempts
    ensures AttemptsAfter(attempts, Decide(attempts, f, users)) <= MaxAttempts
  {
  }

  /** The counter after a run of submissions, one after another. */
  function AttemptsAfterAll(attempts: nat, forms: seq<LoginForm>, users: seq<StoredUser>): nat
    decreases |forms|
  {
    if forms == [] then attempts
    else AttemptsAfterAll(AttemptsAfter(attempts, Decide(attempts, forms[0], users)), forms[1..], users)
  }

  /** However many submissions follow one another, the counter never exceeds five. */
  lemma {:induction false} AttemptsNeverExceedFive(attempts: nat, forms: seq<LoginForm>, users: seq<StoredUser>)
    requires attempts <= MaxAttempts
    ensures AttemptsAfterAll(attempts, forms, users) <= MaxAttempts
    decreases |forms|
  {
    if forms != [] {
      AttemptsStayBounded(attempts, forms[0], users);
      AttemptsNeverExceedFive(AttemptsAfter(attempts, Decide(attempts, forms[0], users)), forms[1..], users);
    }
  }

  /** Five failed lookups in a row lock the form. */
  lemma FiveFailuresLock(f: LoginForm, users: seq<StoredUser>)
    requires f.email != "" && |f.password| >= 6
    requires FindUser(users, f.email, PasswordHash.Hash(f.password)).None?
    ensures AttemptsAfterAll(0, [f, f, f, f, f], users) == MaxAttempts
    ensures Decide(MaxAttempts, f, users) == Locked
  {
    assert AttemptsAfterAll(5, [], users) == 5;
    assert [f][1..] == [];
    assert AttemptsAfterAll(4, [f], users) == 5;
    assert [f, f][1..] == [f];
    assert AttemptsAfterAll(3, [f, f], users) == 5;
    assert [f, f, f][1..] == [f, f];
    assert AttemptsAfterAll(2, [f, f, f], users) == 5;
    assert [f, f, f, f][1..] == [f, f, f];
    assert AttemptsAfterAll(1, [f, f, f, f], users) == 5;
    assert [f, f, f, f, f][1..] == [f, f, f, f];
  }

  /** A freshly registered account can sign in with the password it
      registered with: both sides hash with the same function, and the new
      e-mail was not taken, so the lookup finds the new account. */
  lemma RegisteredUserCanLogIn(users: seq<StoredUser>, form: Register.RegisterForm, now: int, weight: real)
    requires !Register.EmailTaken(users, form.email)
    requires form.email != "" && |form.password| >= 6
    ensures var u := Register.NewUser(form, now, weight);
      Decide(0, LoginForm(form.email, form.password), users + [u]) == Accepted(Register.SessionOf(u))
  {
    var u := Register.NewUser(form, now, weight);
    var all := users + [u];
    var found := FindUser(all, form.email, PasswordHash.Hash(form.password));
    assert all[|users|] == u;
    if found.Some? {
      var i :| 0 <= i < |all| && all[i] == found.value && found.value.email == form.email
        && found.value.passwordHash == PasswordHash.Hash(form.password);
      if i < |users| {
        assert false;
      }
    }
  }

  class Login {
    var formData: LoginForm
    var loginAttempts: nat
    var error: string
    const storage: LocalStorage

    ghost predicate Valid()
      reads this
    {
      loginAttempts <= MaxAttempts && AllTrimmed(formData)
    }

    constructor (storage: LocalStorage)
      ensures this.storage == storage
      ensures formData == EmptyForm && loginAttempts == 0 && error == ""
      ensures Valid()
    {
      this.storage := storage;
      formData := EmptyForm;
      loginAttempts := 0;
      error := "";
    }

    /** `handleChange`: the named field takes the trimmed value. */
    method HandleChange(field: Field, value: string)
      requires Valid()
      modifies this
      ensures formData == WithField(old(formData), field, Trim(value))
      ensures loginAttempts == old(loginAttempts) && error == old(error)
      ensures Valid()
    {
      TrimmedEdit(formData, field, value);
      formData := WithField(formData, field, Trim(value));
    }

    /** `handleSubmit`: the outcome `Decide` gives, the matching message, the
        counter moved as `AttemptsAfter` says, and the session payload on
        success. The stored accounts are only read. */
    method HandleSubmit() returns (session: Option<SessionUser>)
      requires Valid()
      modifies this
      ensures formData == old(formData)
      ensures var outcome := Decide(old(loginAttempts), formData, StoredUsers(storage.items));
        loginAttempts == AttemptsAfter(old(loginAttempts), outcome)
        && (outcome.Accepted? <==> session.Some?)
        && (outcome.Accepted? ==> session == Some(outcome.user) && error == "")
        && (outcome == Locked ==> error == LockedMessage)
        && (outcome == Incomplete ==> error == FillAllMessage)
        && (outcome == ShortPassword ==> error == ShortPasswordMessage)
        && (outcome == Rejected ==> error == InvalidMessage)
      ensures Valid()
    {
      error := "";
      session := None;
      if loginAttempts >= MaxAttempts {
        error := LockedMessage;
        return;
      }
      if formData.email == "" || formData.password == "" {
        error := FillAllMessage;
        return;
      }
      if |formData.password| < 6 {
        error := ShortPasswordMessage;
        return;
      }
      var users := StoredUsers(storage.items);
      var hashedPassword := PasswordHash.SimpleHash(formData.password);
      var user := FindUser(users, formData.email, hashedPassword);
      if user.Some? {
        session := Some(Register.SessionOf(user.value));
        loginAttempts := 0;
      } else {
        error := InvalidMessage;
        loginAttempts := loginAttempts + 1;
      }
    }
  }
}
