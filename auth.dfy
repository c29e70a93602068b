/**
 * Accounts: the custom user manager, the user and profile rows, the signup,
 * login, activation, password and contact views, the full-name split of the
 * profile form and the two social-login pipeline steps. Users are keyed by a
 * counter standing in for their UUID; a user's profile is keyed by the user.
 * Password hashing, token HMACs, e-mail normalisation, password validation
 * and `authenticate` are outside the model: the hash is the stored password
 * itself, and the others are oracles or caller-supplied verdicts.
 */
module Auth {
  import opened Options
  import opened Text

  type UserId = nat

  /** `password` is what `set_password` stored; `None` is Django's unusable password (`set_password(None)`). */
  datatype User = User(email: string, username: string, password: Option<string>, isActive: bool, isStaff: bool, isSuperuser: bool)

  datatype UserProfile = UserProfile(
    firstName: Option<string>,
    lastName: Option<string>,
    gender: Option<string>,
    phoneNumber: Option<string>,
    profileImage: Option<string>)

  /** The row the profile signal creates: every field empty. */
  const EmptyProfile: UserProfile := UserProfile(None, None, None, None, None)

  datatype ContactMessage = ContactMessage(name: string, email: string, message: string)

  // ---------------------------------------------------------------- upload size

  /** 2 MiB in bytes. */
  const UploadLimit: nat := 2 * 1024 * 1024

  /** `validate_file_size`: a file is accepted up to and including 2 MiB. */
  function ValidateFileSize(size: nat): (accepted: bool)
    ensures accepted <==> size <= 2097152
  {
    !(size > UploadLimit)
  }

  // ---------------------------------------------------------------- manager flags

  /** The `is_staff`, `is_superuser` and `is_active` entries of `**extra_fields`, each absent or given. */
  datatype ExtraFields = ExtraFields(isStaff: Option<bool>, isSuperuser: Option<bool>, isActive: Option<bool>)

  /** The three `setdefault(..., True)` calls of `create_superuser`. */
  function SuperuserDefaults(f: ExtraFields): (r: ExtraFields)
    ensures r.isStaff == (if f.isStaff.None? then Some(true) else f.isStaff)
    ensures r.isSuperuser == (if f.isSuperuser.None? then Some(true) else f.isSuperuser)
    ensures r.isActive == (if f.isActive.None? then Some(true) else f.isActive)
    ensures r.isStaff.Some? && r.isSuperuser.Some? && r.isActive.Some?
  {
    ExtraFields(
      Some(f.isStaff.GetOr(true)),
      Some(f.isSuperuser.GetOr(true)),
      Some(f.isActive.GetOr(true)))
  }

  /** `setdefault` never overrides a value the caller gave, so applying it twice changes nothing. */
  lemma SuperuserDefaultsIdempotent(f: ExtraFields)
    ensures SuperuserDefaults(SuperuserDefaults(f)) == SuperuserDefaults(f)
  {
  }

  // ---------------------------------------------------------------- the full-name split

  /**
   * The name split of `update_profile`: the stripped full name is split on
   * whitespace; the first word is the first name, the others joined by single
   * spaces the last name. A blank full name gives two empty names.
   */
  function SplitFullName(fullName: string): (r: (string, string))
    ensures AllSpace(fullName) ==> r == ("", "")
    ensures !AllSpace(fullName) ==>
      var parts := Words(Trim(fullName));
      |parts| >= 1 && r.0 == parts[0] && IsWord(r.0) && r.1 == Join(parts[1..], " ")
  {
    var full := Trim(fullName);
    if full == "" then ("", "")
    else
      var parts := Words(full);
      assert !AllSpace(full) by { assert !IsSpace(full[0]); }
      (parts[0], if |parts| > 1 then Join(parts[1..], " ") else "")
  }

  /** Text that starts and ends with a non-blank is left alone by `strip()`. */
  lemma {:induction false} TrimKeeps(s: string)
    requires s != [] && !IsSpace(s[0]) && !IsSpace(s[|s| - 1])
    ensures Trim(s) == s
  {
    assert TrimStart(s) == s;
    assert TrimEnd(s) == s;
  }

  /** Words joined by single spaces are first and last name again: the first word, and the rest re-joined. */
  lemma {:induction false} SplitFullNameOfWords(ws: seq<string>)
    requires |ws| >= 1 && forall k :: 0 <= k < |ws| ==> IsWord(ws[k])
    ensures SplitFullName(Join(ws, " ")) == (ws[0], Join(ws[1..], " "))
    ensures Words(SplitFullName(Join(ws, " ")).1) == ws[1..]
  {
    var s := Join(ws, " ");
    JoinEnds(ws);
    TrimKeeps(s);
    WordsOfJoin(ws);
    WordsOfJoin(ws[1..]);
    assert !AllSpace(s) by { assert !IsSpace(s[0]); }
  }

  /** A join of words starts with the first word's first letter and ends with the last word's last letter. */
  lemma {:induction false} JoinEnds(ws: seq<string>)
    requires |ws| >= 1 && forall k :: 0 <= k < |ws| ==> IsWord(ws[k])
    decreases |ws|
    ensures var s := Join(ws, " "); s != [] && !IsSpace(s[0]) && !IsSpace(s[|s| - 1])
  {
    if |ws| > 1 {
      JoinEnds(ws[1..]);
      var rest := Join(ws[1..], " ");
      assert Join(ws, " ") == ws[0] + " " + rest;
      assert ws[0][0] == (ws[0] + " " + rest)[0];
      assert rest[|rest| - 1] == (ws[0] + " " + rest)[|ws[0] + " " + rest| - 1];
    } else {
      assert !IsSpace(ws[0][|ws[0]| - 1]);
    }
  }

  // ---------------------------------------------------------------- login redirect

  datatype Target = Dashboard | NextUrl(url: string)

  /**
   * Where a successful login goes: `next` from the form, else from the
   * query string (Python `or`: an empty value falls through), used unless it
   * is empty or "/".
   */
  function AfterLogin(postNext: Option<string>, getNext: Option<string>): (t: Target)
    ensures t.NextUrl? ==> t.url != "" && t.url != "/"
    ensures t.NextUrl? ==> (postNext.Some? && postNext.value != "" && t.url == postNext.value)
                           || ((postNext.None? || postNext.value == "") && getNext == Some(t.url))
    ensures postNext.Some? && postNext.value != "" && postNext.value != "/" ==> t == NextUrl(postNext.value)
    ensures postNext == Some("/") ==> t == Dashboard
    ensures (postNext.None? || postNext.value == "") && getNext.Some? && getNext.value != "" && getNext.value != "/" ==>
      t == NextUrl(getNext.value)
    ensures (postNext.None? || postNext.value == "") && (getNext.None? || getNext.value == "" || getNext.value == "/") ==>
      t == Dashboard
  {
    var next := if postNext.Some? && postNext.value != "" then postNext else getNext;
    if next.Some? && next.value != "" && next.value != "/" then NextUrl(next.value) else Dashboard
  }

  // ---------------------------------------------------------------- outcomes

  /** How `create_user` ends: the ValueError, the NOT NULL and unique violations of the insert, or the new user. */
  datatype CreateUserOutcome = EmptyEmail | NullUsername | DuplicateEmail | DuplicateUsername | UserCreated(id: UserId)
  datatype SuperuserOutcome = NotStaff | NotSuperuser | SuperuserResult(created: CreateUserOutcome)
  /** `PasswordCrash` is the TypeError the length validator raises on an absent password. */
  datatype SignupOutcome =
    | EmailTaken | PasswordMismatch | UsernameTaken | PasswordCrash | PasswordRejected
    | CreateFailed(why: CreateUserOutcome) | SignedUp(id: UserId)

  /** Python truthiness of a form value: present and not empty. */
  predicate Filled(s: Option<string>) {
    s.Some? && s.value != ""
  }
  datatype LoginOutcome = AlreadyLoggedIn | LoginForm(next: string) | MissingCredentials | InvalidCredentials | NotVerified | LoggedIn(target: Target)
  datatype ResetOutcome = ResetLinkInvalid | ResetForm | ResetMismatch | PasswordReset
  datatype UpdatePasswordOutcome = UpdateUserNotFound | UpdateProfileMissing | UpdatePasswordForm | UpdateMismatch | PasswordUpdated
  datatype ContactOutcome = ContactPage | ContactIncomplete | ContactStored
  datatype ProfileOutcome = ProfileMissing | ProfileForm | ProfileUpdated
  datatype PipelineOutcome = NoUser | FullnameMissing | SingleToken | ProfileSaved

  class UserStore {
    /** `BaseUserManager.normalize_email`, not part of this model. */
    const normalizeEmail: string -> string
    /** `account_activation_token.check_token`, not part of this model. */
    const activationTokenOk: (User, string) -> bool
    /** `password_reset_token.check_token`, not part of this model. */
    const resetTokenOk: (User, string) -> bool

    var users: map<UserId, User>
    var profiles: map<UserId, UserProfile>
    var contacts: seq<ContactMessage>
    var nextUserId: nat

    /** Ids come from the sequence, e-mail addresses and usernames are unique, and every profile belongs to a user. */
    ghost predicate Valid()
      reads this
    {
      && (forall u :: u in users ==> u < nextUserId)
      && (forall a, b :: a in users && b in users && users[a].email == users[b].email ==> a == b)
      && (forall a, b :: a in users && b in users && users[a].username == users[b].username ==> a == b)
      && (forall u :: u in profiles ==> u in users)
    }

    constructor (normalizeEmail: string -> string, activationTokenOk: (User, string) -> bool, resetTokenOk: (User, string) -> bool)
      ensures Valid()
      ensures this.normalizeEmail == normalizeEmail && this.activationTokenOk == activationTokenOk && this.resetTokenOk == resetTokenOk
      ensures users == map[] && profiles == map[] && contacts == []
    {
      this.normalizeEmail := normalizeEmail;
      this.activationTokenOk := activationTokenOk;
      this.resetTokenOk := resetTokenOk;
      users, profiles, contacts, nextUserId := map[], map[], [], 1;
    }

    function Emails(): set<string>
      reads this
    {
      set u | u in users :: users[u].email
    }

    function Usernames(): set<string>
      reads this
    {
      set u | u in users :: users[u].username
    }

    /**
     * `CustomUserManager.create_user`: an absent or empty e-mail is refused;
     * the address is normalised; flags not given default to false. The
     * insert then fails on an absent username (NOT NULL), else on a duplicate
     * e-mail, else on a duplicate username (the unique columns). The profile
     * signal adds an empty profile for the new user.
     */
    method CreateUser(email: Option<string>, username: Option<string>, password: Option<string>, extra: ExtraFields)
      returns (r: CreateUserOutcome)
      requires Valid()
      modifies this`users, this`profiles, this`nextUserId
      ensures Valid()
      ensures r == EmptyEmail <==> !Filled(email)
      ensures r == NullUsername <==> Filled(email) && username.None?
      ensures r == DuplicateEmail <==> Filled(email) && username.Some? && normalizeEmail(email.value) in old(Emails())
      ensures r == DuplicateUsername <==>
        Filled(email) && username.Some? && normalizeEmail(email.value) !in old(Emails()) && username.value in old(Usernames())
      ensures !r.UserCreated? ==> users == old(users) && profiles == old(profiles)
      ensures r.UserCreated? ==>
        && r.id !in old(users)
        && users == old(users)[r.id := User(normalizeEmail(email.value), username.value, password,
             extra.isActive.GetOr(false), extra.isStaff.GetOr(false), extra.isSuperuser.GetOr(false))]
        && profiles == old(profiles)[r.id := EmptyProfile]
    {
      if !Filled(email) {
        return EmptyEmail;
      }
      var normalised := normalizeEmail(email.value);
      if username.None? {
        return NullUsername;
      }
      var name := username.value;
      if normalised in Emails() {
        return DuplicateEmail;
      }
      if name in Usernames() {
        return DuplicateUsername;
      }
      var id := nextUserId;
      nextUserId := nextUserId + 1;
      var user := User(normalised, name, password, extra.isActive.GetOr(false), extra.isStaff.GetOr(false), extra.isSuperuser.GetOr(false));
      forall u | u in users ensures users[u].email != normalised && users[u].username != name {
        assert users[u].email in Emails() && users[u].username in Usernames();
      }
      users := users[id := user];
      profiles := profiles[id := EmptyProfile];
      r := UserCreated(id);
    }

    /**
     * `CustomUserManager.create_superuser`: the three flags default to true;
     * a staff or superuser flag that is then not exactly true is refused;
     * otherwise `create_user` is called with the flags.
     */
    method CreateSuperuser(email: Option<string>, username: Option<string>, password: Option<string>, extra: ExtraFields)
      returns (r: SuperuserOutcome)
      requires Valid()
      modifies this`users, this`profiles, this`nextUserId
      ensures Valid()
      ensures var f := SuperuserDefaults(extra);
        && (r == NotStaff <==> f.isStaff != Some(true))
        && (r == NotSuperuser <==> f.isStaff == Some(true) && f.isSuperuser != Some(true))
      ensures r.SuperuserResult? ==>
        && (r.created == EmptyEmail <==> !Filled(email))
        && (r.created == NullUsername <==> Filled(email) && username.None?)
        && (r.created == DuplicateEmail <==> Filled(email) && username.Some? && normalizeEmail(email.value) in old(Emails()))
        && (r.created == DuplicateUsername <==>
              Filled(email) && username.Some? && normalizeEmail(email.value) !in old(Emails()) && username.value in old(Usernames()))
      ensures !(r.SuperuserResult? && r.created.UserCreated?) ==> users == old(users) && profiles == old(profiles)
      ensures r.SuperuserResult? && r.created.UserCreated? ==>
        && r.created.id !in old(users)
        && users == old(users)[r.created.id := User(normalizeEmail(email.value), username.value, password,
             SuperuserDefaults(extra).isActive.value, true, true)]
        && profiles == old(profiles)[r.created.id := EmptyProfile]
    {
      var f := SuperuserDefaults(extra);
      if f.isStaff != Some(true) {
        return NotStaff;
      }
      if f.isSuperuser != Some(true) {
        return NotSuperuser;
      }
      var created := CreateUser(email, username, password, f);
      r := SuperuserResult(created);
    }

    /**
     * `signup` (POST), each field absent or present as posted. The checks
     * run in this order and the first failure wins: e-mail already
     * registered (compared as typed; an absent one matches no row),
     * passwords differ (an absent one differs from an empty one), username
     * taken, then password validation, which raises on an absent password
     * and otherwise gives the verdict `passwordValid`. Then `create_user`
     * runs, whose failures pass through, and the user is stored inactive.
     */
    method Signup(username: Option<string>, email: Option<string>, password: Option<string>, confirm: Option<string>, passwordValid: bool)
      returns (r: SignupOutcome)
      requires Valid()
      modifies this`users, this`profiles, this`nextUserId
      ensures Valid()
      ensures r == EmailTaken <==> email.Some? && email.value in old(Emails())
      ensures var newEmail := !(email.Some? && email.value in old(Emails()));
        && (r == PasswordMismatch <==> newEmail && password != confirm)
        && (r == UsernameTaken <==> newEmail && password == confirm && username.Some? && username.value in old(Usernames()))
      ensures var checked := !(email.Some? && email.value in old(Emails())) && password == confirm
                             && !(username.Some? && username.value in old(Usernames()));
        && (r == PasswordCrash <==> checked && password.None?)
        && (r == PasswordRejected <==> checked && password.Some? && !passwordValid)
        && (checked && password.Some? && passwordValid ==>
              && (!Filled(email) ==> r == CreateFailed(EmptyEmail))
              && (Filled(email) && username.None? ==> r == CreateFailed(NullUsername))
              && (Filled(email) && username.Some? && normalizeEmail(email.value) in old(Emails()) ==> r == CreateFailed(DuplicateEmail))
              && (Filled(email) && username.Some? && normalizeEmail(email.value) !in old(Emails()) ==> r.SignedUp?))
      ensures !r.SignedUp? ==> users == old(users) && profiles == old(profiles)
      ensures r.SignedUp? ==>
        && r.id !in old(users)
        && users == old(users)[r.id := User(normalizeEmail(email.value), username.value, password, false, false, false)]
        && profiles == old(profiles)[r.id := EmptyProfile]
    {
      if email.Some? && email.value in Emails() {
        return EmailTaken;
      }
      if password != confirm {
        return PasswordMismatch;
      }
      if username.Some? && username.value in Usernames() {
        return UsernameTaken;
      }
      if password.None? {
        return PasswordCrash;
      }
      if !passwordValid {
        return PasswordRejected;
      }
      var created := CreateUser(email, username, password, ExtraFields(None, None, None));
      if !created.UserCreated? {
        return CreateFailed(created);
      }
      r := SignedUp(created.id);
    }

    /** Some stored user has this e-mail address and is active; with unique addresses, the user of that address is active. */
    predicate ActiveWithEmail(email: string)
      reads this
    {
      exists u :: u in users && users[u].email == email && users[u].isActive
    }

    /**
     * `login`: a logged-in visitor goes to the dashboard; a GET shows the form
     * with the query's `next`; a POST needs both fields, a known address and
     * an active account, in that order, before the password is checked (the
     * verdict `passwordOk` of `authenticate`).
     */
    function Login(loggedIn: bool, isPost: bool, email: string, password: string,
                   postNext: Option<string>, getNext: Option<string>, passwordOk: bool): (r: LoginOutcome)
      reads this
      ensures loggedIn ==> r == AlreadyLoggedIn
      ensures !loggedIn && !isPost ==> r == LoginForm(getNext.GetOr(""))
      ensures !loggedIn && isPost ==>
        && (r == MissingCredentials <==> email == "" || password == "")
        && (r == InvalidCredentials <==> email != "" && password != "" && (email !in Emails() || (ActiveWithEmail(email) && !passwordOk)))
        && (r == NotVerified <==> email != "" && password != "" && email in Emails() && !ActiveWithEmail(email))
        && (r.LoggedIn? <==> email != "" && password != "" && ActiveWithEmail(email) && passwordOk)
        && (r.LoggedIn? ==> r.target == AfterLogin(postNext, getNext))
    {
      if loggedIn then AlreadyLoggedIn
      else if !isPost then LoginForm(getNext.GetOr(""))
      else if email == "" || password == "" then MissingCredentials
      else if email !in Emails() then InvalidCredentials
      else if !ActiveWithEmail(email) then NotVerified
      else if passwordOk then LoggedIn(AfterLogin(postNext, getNext))
      else InvalidCredentials
    }

    /** An account is never logged in before it is verified, whatever the password. */
    lemma InactiveNeverLogsIn(email: string, password: string, postNext: Option<string>, getNext: Option<string>, passwordOk: bool)
      requires Valid()
      requires exists u :: u in users && users[u].email == email && !users[u].isActive
      ensures !Login(false, true, email, password, postNext, getNext, passwordOk).LoggedIn?
    {
      var u :| u in users && users[u].email == email && !users[u].isActive;
      assert forall v :: v in users && users[v].email == email ==> v == u;
    }

    /**
     * `activate`: the account is activated only when the decoded id (`None`
     * when decoding fails) names a user and the token checks for that user.
     */
    method Activate(uid: Option<UserId>, token: string) returns (ok: bool)
      requires Valid()
      modifies this`users
      ensures Valid()
      ensures ok <==> uid.Some? && uid.value in old(users) && activationTokenOk(old(users)[uid.value], token)
      ensures ok ==> users == old(users)[uid.value := old(users)[uid.value].(isActive := true)]
      ensures !ok ==> users == old(users)
    {
      if uid.None? || uid.value !in users || !activationTokenOk(users[uid.value], token) {
        return false;
      }
      var u := uid.value;
      users := users[u := users[u].(isActive := true)];
      ok := true;
    }

    /**
     * `reset_password`: an unknown id or a bad token is refused; a GET shows
     * the form; a POST whose confirmation differs changes nothing; otherwise
     * the new password is stored.
     */
    method ResetPassword(uid: Option<UserId>, token: string, isPost: bool, password: Option<string>, confirm: Option<string>)
      returns (r: ResetOutcome)
      requires Valid()
      modifies this`users
      ensures Valid()
      ensures r == ResetLinkInvalid <==> !(uid.Some? && uid.value in old(users) && resetTokenOk(old(users)[uid.value], token))
      ensures r == ResetForm <==> r != ResetLinkInvalid && !isPost
      ensures r == ResetMismatch <==> r != ResetLinkInvalid && isPost && password != confirm
      ensures r != PasswordReset ==> users == old(users)
      ensures r == PasswordReset ==> users == old(users)[uid.value := old(users)[uid.value].(password := password)]
    {
      if uid.None? || uid.value !in users || !resetTokenOk(users[uid.value], token) {
        return ResetLinkInvalid;
      }
      if !isPost {
        return ResetForm;
      }
      if password != confirm {
        return ResetMismatch;
      }
      var u := uid.value;
      users := users[u := users[u].(password := password)];
      r := PasswordReset;
    }

    /**
     * `update_password`: the user is looked up by the id in the URL and must
     * have a profile; a POST whose confirmation differs changes nothing;
     * otherwise the password of that user is replaced. The view does not
     * compare the id with the logged-in user's.
     */
    method UpdatePassword(id: UserId, isPost: bool, password: Option<string>, confirm: Option<string>) returns (r: UpdatePasswordOutcome)
      requires Valid()
      modifies this`users
      ensures Valid()
      ensures r == UpdateUserNotFound <==> id !in old(users)
      ensures r == UpdateProfileMissing <==> id in old(users) && id !in profiles
      ensures r == UpdatePasswordForm <==> id in old(users) && id in profiles && !isPost
      ensures r == UpdateMismatch <==> id in old(users) && id in profiles && isPost && password != confirm
      ensures r != PasswordUpdated ==> users == old(users)
      ensures r == PasswordUpdated ==> users == old(users)[id := old(users)[id].(password := password)]
    {
      if id !in users {
        return UpdateUserNotFound;
      }
      if id !in profiles {
        return UpdateProfileMissing;
      }
      if !isPost {
        return UpdatePasswordForm;
      }
      if password != confirm {
        return UpdateMismatch;
      }
      users := users[id := users[id].(password := password)];
      r := PasswordUpdated;
    }

    /** `contact` (POST): a message is stored only when name, e-mail and message are all present and non-empty. */
    method Contact(isPost: bool, name: Option<string>, email: Option<string>, message: Option<string>) returns (r: ContactOutcome)
      modifies this`contacts
      ensures !isPost ==> r == ContactPage
      ensures r == ContactStored <==>
        isPost && name.Some? && name.value != "" && email.Some? && email.value != "" && message.Some? && message.value != ""
      ensures r == ContactStored ==> contacts == old(contacts) + [ContactMessage(name.value, email.value, message.value)]
      ensures r != ContactStored ==> contacts == old(contacts)
    {
      if !isPost {
        return ContactPage;
      }
      if name.Some? && name.value != "" && email.Some? && email.value != "" && message.Some? && message.value != "" {
        contacts := contacts + [ContactMessage(name.value, email.value, message.value)];
        return ContactStored;
      }
      r := ContactIncomplete;
    }

    /**
     * `update_profile` (POST) on the requester's profile (an error when the
     * requester has none): names from the split full name, gender and phone
     * as posted, the image only when one is uploaded.
     */
    method UpdateProfile(user: UserId, isPost: bool, fullName: string, gender: Option<string>, phone: Option<string>, image: Option<string>)
      returns (r: ProfileOutcome)
      requires Valid()
      modifies this`profiles
      ensures Valid()
      ensures r == ProfileMissing <==> user !in old(profiles)
      ensures r == ProfileForm <==> user in old(profiles) && !isPost
      ensures r != ProfileUpdated ==> profiles == old(profiles)
      ensures r == ProfileUpdated ==>
        var p := old(profiles)[user];
        var names := SplitFullName(fullName);
        profiles == old(profiles)[user := UserProfile(Some(names.0), Some(names.1), gender, phone,
          if image.Some? then image else p.profileImage)]
    {
      if user !in profiles {
        return ProfileMissing;
      }
      if !isPost {
        return ProfileForm;
      }
      var names := SplitFullName(fullName);
      var p := profiles[user];
      profiles := profiles[user := UserProfile(Some(names.0), Some(names.1), gender, phone,
        if image.Some? then image else p.profileImage)];
      r := ProfileUpdated;
    }

    /**
     * `save_profile`: nothing without a user. The profile is fetched or
     * created; a first or last name is filled in when the profile is new or
     * that name is empty, from the first and second pieces of the full name
     * split on " ". A missing full name or one without a second piece raises
     * before the save, though a new profile row has already been inserted.
     */
    method SaveProfile(user: Option<UserId>, fullname: Option<string>) returns (r: PipelineOutcome)
      requires Valid()
      requires user.Some? ==> user.value in users
      modifies this`profiles
      ensures Valid()
      ensures r == NoUser <==> user.None?
      ensures r == NoUser ==> profiles == old(profiles)
      ensures user.Some? ==>
        var u := user.value;
        var created := u !in old(profiles);
        var p := if created then EmptyProfile else old(profiles)[u];
        var fillFirst := created || p.firstName.None? || p.firstName == Some("");
        var fillLast := created || p.lastName.None? || p.lastName == Some("");
        && (r == FullnameMissing <==> (fillFirst || fillLast) && fullname.None?)
        && (r == SingleToken <==> fillLast && fullname.Some? && |SplitOn(fullname.value, ' ')| < 2)
        && (r != ProfileSaved ==> profiles == old(profiles)[u := p])
        && (r == ProfileSaved ==> profiles == old(profiles)[u := p.(
              firstName := if fillFirst then Some(SplitOn(fullname.value, ' ')[0]) else p.firstName,
              lastName := if fillLast then Some(SplitOn(fullname.value, ' ')[1]) else p.lastName)])
    {
      if user.None? {
        return NoUser;
      }
      var u := user.value;
      var created := u !in profiles;
      if created {
        profiles := profiles[u := EmptyProfile];
      }
      var p := profiles[u];
      var fillFirst := created || p.firstName.None? || p.firstName == Some("");
      var fillLast := created || p.lastName.None? || p.lastName == Some("");
      if fillFirst {
        if fullname.None? {
          return FullnameMissing;
        }
        p := p.(firstName := Some(SplitOn(fullname.value, ' ')[0]));
      }
      if fillLast {
        if fullname.None? {
          return FullnameMissing;
        }
        var pieces := SplitOn(fullname.value, ' ');
        if |pieces| < 2 {
          return SingleToken;
        }
        p := p.(lastName := Some(pieces[1]));
      }
      profiles := profiles[u := p];
      r := ProfileSaved;
    }

    /**
     * `activate_google_user`: only for the "google-oauth2" backend and a
     * present user; an inactive user is activated and saved, an active one
     * is left alone. Returns whether a save happened.
     */
    method ActivateGoogleUser(backend: string, user: Option<UserId>) returns (saved: bool)
      requires Valid()
      requires user.Some? ==> user.value in users
      modifies this`users
      ensures Valid()
      ensures saved <==> backend == "google-oauth2" && user.Some? && !old(users)[user.value].isActive
      ensures saved ==> users == old(users)[user.value := old(users)[user.value].(isActive := true)]
      ensures !saved ==> users == old(users)
    {
      if backend == "google-oauth2" && user.Some? {
        var u := user.value;
        if !users[u].isActive {
          users := users[u := users[u].(isActive := true)];
          return true;
        }
      }
      saved := false;
    }
  }
}
