/** The registration form: trimmed field edits, the ordered validation chain,
    and a submit that refuses a taken e-mail or appends one account to the
    stored users and hands back the session payload. */
module Register {
  import opened Js
  import opened Entities
  import opened Storage
  import Helpers
  import PasswordHash

  datatype Field = Name | Email | Password | ConfirmPassword | Weight

  datatype RegisterForm = RegisterForm(
    name: string, email: string, password: string, confirmPassword: string, weight: string)

  const EmptyForm: RegisterForm := RegisterForm("", "", "", "", "")

  function FieldValue(f: RegisterForm, field: Field): string {
    match field
    case Name => f.name
    case Email => f.email
    case Password => f.password
    case ConfirmPassword => f.confirmPassword
    case Weight => f.weight
  }

  /** `{ ...prev, [name]: value }`. */
  function WithField(f: RegisterForm, field: Field, value: string): (r: RegisterForm)
    ensures FieldValue(r, field) == value
    ensures forall other :: other != field ==> FieldValue(r, other) == FieldValue(f, other)
  {
    match field
    case Name => f.(name := value)
    case Email => f.(email := value)
    case Password => f.(password := value)
    case ConfirmPassword => f.(confirmPassword := value)
    case Weight => f.(weight := value)
  }

  /** Every field holds its own trim. */
  predicate AllTrimmed(f: RegisterForm) {
    Trim(f.name) == f.name && Trim(f.email) == f.email && Trim(f.password) == f.password
    && Trim(f.confirmPassword) == f.confirmPassword && Trim(f.weight) == f.weight
  }

  /** Trimming what is already trimmed changes nothing. */
  lemma TrimIdempotent(s: string)
    ensures Trim(Trim(s)) == Trim(s)
  {
  }

  /** A trimmed edit keeps every field trimmed. */
  lemma TrimmedEdit(f: RegisterForm, field: Field, value: string)
    requires AllTrimmed(f)
    ensures AllTrimmed(WithField(f, field, Trim(value)))
  {
    TrimIdempotent(value);
  }

  const RequiredMessage: string := "Please fill in all required fields"
  const NameMessage: string := "Name must be at least 2 characters"
  const EmailMessage: string := "Please enter a valid email address"
  const PasswordMessage: string := "Password must be at least 6 characters"
  const MismatchMessage: string := "Passwords do not match"
  const WeightMessage: string := "Please enter a valid weight"
  const DuplicateMessage: string := "User with this email already exists"
  const SuccessMessage: string := "Account created successfully!"

  predicate HasRequired(f: RegisterForm) {
    f.name != "" && f.email != "" && f.password != ""
  }

  /** `validateForm`, with `weightInvalid` standing for the floating-point
      test on the weight text (not a number or negative), which is only made
      on a non-empty weight.
      `None` is success; otherwise the message of the first check, in order,
      that fails. */
  function ValidateForm(f: RegisterForm, weightInvalid: bool): (r: Option<string>)
    requires weightInvalid ==> f.weight != ""
    ensures r == Some(RequiredMessage) <==> !HasRequired(f)
    ensures r == Some(NameMessage) <==> HasRequired(f) && |f.name| < 2
    ensures r == Some(EmailMessage) <==>
      HasRequired(f) && |f.name| >= 2 && !Helpers.IsValidEmail(f.email)
    ensures r == Some(PasswordMessage) <==>
      HasRequired(f) && |f.name| >= 2 && Helpers.IsValidEmail(f.email) && |f.password| < 6
    ensures r == Some(MismatchMessage) <==>
      HasRequired(f) && |f.name| >= 2 && Helpers.IsValidEmail(f.email) && |f.password| >= 6
      && f.password != f.confirmPassword
    ensures r == Some(WeightMessage) <==>
      HasRequired(f) && |f.name| >= 2 && Helpers.IsValidEmail(f.email) && |f.password| >= 6
      && f.password == f.confirmPassword && weightInvalid
    ensures r.None? <==>
      HasRequired(f) && |f.name| >= 2 && Helpers.IsValidEmail(f.email) && |f.password| >= 6
      && f.password == f.confirmPassword && !weightInvalid
  {
    if !HasRequired(f) then Some(RequiredMessage)
    else if |f.name| < 2 then Some(NameMessage)
    else if !Helpers.IsValidEmail(f.email) then Some(EmailMessage)
    else if |f.password| < 6 then Some(PasswordMessage)
    else if f.password != f.confirmPassword then Some(MismatchMessage)
    else if weightInvalid then Some(WeightMessage)
    else None
  }

  /** Some stored account already uses `email`: `users.find(u => u.email === email)`. */
  predicate EmailTaken(users: seq<StoredUser>, email: string) {
    exists i :: 0 <= i < |users| && users[i].email == email
  }

  /** No two stored accounts share an e-mail. */
  predicate EmailsUnique(users: seq<StoredUser>) {
    forall i, j :: 0 <= i < j < |users| ==> users[i].email != users[j].email
  }

  /** The account a successful submit stores; `weight` is `parseFloat(weight) || 0`. */
  function NewUser(f: RegisterForm, now: int, weight: real): (u: StoredUser)
    ensures u.passwordHash == PasswordHash.Hash(f.password)
    ensures u.id == DecimalString(now) && u.createdAt == now
    ensures u.name == f.name && u.email == f.email && u.weight == weight
  {
    StoredUser(DecimalString(now), f.name, f.email, PasswordHash.Hash(f.password), weight, now)
  }

  /** The session payload: the account without its password hash. */
  function SessionOf(u: StoredUser): (s: SessionUser)
    ensures s.id == u.id && s.name == u.name && s.email == u.email && s.weight == u.weight
  {
    SessionUser(u.id, u.name, u.email, u.weight)
  }

  /** Appending an account whose e-mail is not taken keeps e-mails unique. */
  lemma AppendKeepsEmailsUnique(users: seq<StoredUser>, u: StoredUser)
    requires EmailsUnique(users) && !EmailTaken(users, u.email)
    ensures EmailsUnique(users + [u])
  {
    var all := users + [u];
    forall i, j | 0 <= i < j < |all| ensures all[i].email != all[j].email {
      if j == |users| {
        assert all[i] == users[i];
      }
    }
  }

  class Register {
    var formData: RegisterForm
    var error: string
    var success: string
    const storage: LocalStorage

    ghost predicate Valid()
      reads this
    {
      AllTrimmed(formData)
    }

    constructor (storage: LocalStorage)
      ensures this.storage == storage
      ensures formData == EmptyForm && error == "" && success == ""
      ensures Valid()
    {
      this.storage := storage;
      formData := EmptyForm;
      error := "";
      success := "";
    }

    /** `handleChange`: the named field takes the trimmed value. */
    method HandleChange(field: Field, value: string)
      requires Valid()
      modifies this
      ensures formData == WithField(old(formData), field, Trim(value))
      ensures error == old(error) && success == old(success)
      ensures Valid()
    {
      TrimmedEdit(formData, field, value);
      formData := WithField(formData, field, Trim(value));
    }

    /** `handleSubmit`: validate, refuse a taken e-mail, otherwise append the
        new account to the stored users and return its session payload. */
    method HandleSubmit(now: int, weightInvalid: bool, weight: real) returns (session: Option<SessionUser>)
      requires weightInvalid ==> formData.weight != ""
      modifies this, storage
      ensures formData == old(formData)
      ensures var check := ValidateForm(formData, weightInvalid);
        check.Some? ==> session.None? && error == check.value && storage.items == old(storage.items)
      ensures var users := StoredUsers(old(storage.items));
        ValidateForm(formData, weightInvalid).None? && EmailTaken(users, formData.email) ==>
          session.None? && error == DuplicateMessage && storage.items == old(storage.items)
      ensures var users := StoredUsers(old(storage.items));
        ValidateForm(formData, weightInvalid).None? && !EmailTaken(users, formData.email) ==>
          var u := NewUser(formData, now, weight);
          session == Some(SessionOf(u)) && error == "" && success == SuccessMessage
          && storage.items == old(storage.items)[UsersKey := UserList(users + [u])]
      ensures EmailsUnique(StoredUsers(old(storage.items))) ==> EmailsUnique(StoredUsers(storage.items))
    {
      error := "";
      success := "";
      var check := ValidateForm(formData, weightInvalid);
      if check.Some? {
        error := check.value;
        return None;
      }
      var users := StoredUsers(storage.items);
      if EmailTaken(users, formData.email) {
        error := DuplicateMessage;
        return None;
      }
      var digest := PasswordHash.SimpleHash(formData.password);
      var u := StoredUser(DecimalString(now), formData.name, formData.email, digest, weight, now);
      if EmailsUnique(users) {
        AppendKeepsEmailsUnique(users, u);
      }
      storage.SetItem(UsersKey, UserList(users + [u]));
      success := SuccessMessage;
      session := Some(SessionOf(u));
    }
  }
}
