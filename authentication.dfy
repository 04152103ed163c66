/** The authentication slice: the session state (`user`, `isLoggedIn`), the
    session cookie and the user table it reads and writes. Each asynchronous
    thunk is one atomic step that is either rejected, leaving everything as it
    was, or fulfilled with the effects listed in its contract. */
module Authentication {
  import opened Common
  import opened Storage

  /** `SignInPayload`: what the signup form submits. */
  datatype SignInPayload = SignInPayload(
    firstName: string,
    lastName: string,
    email: string,
    country: string,
    password: string)

  /** `LoginPayload`: the credentials the login dialog submits. */
  datatype LoginPayload = LoginPayload(email: string, password: string)

  /** The argument of `updatePassword`. */
  datatype PasswordPayload = PasswordPayload(email: string, password: string)

  /** `UserInfo`: the public part of a record, held in the session state. It
      has no password field. */
  datatype UserInfo = UserInfo(
    firstName: string,
    lastName: string,
    email: string,
    country: string)

  /** Why a thunk was rejected: the email is taken ("Usuário já cadastrado"),
      the credentials are wrong ("Usuário ou senha incorretos"), or no record
      has the email ("Usuário não encontrado"). */
  datatype AuthError = AlreadyRegistered | WrongCredentials | UserNotFound

  datatype Outcome = Fulfilled | Rejected(error: AuthError)

  /** The record signIn stores: the payload as it is, without preferences. */
  function NewRecord(p: SignInPayload): UserRecord {
    UserRecord(p.firstName, p.lastName, p.email, p.country, p.password, None)
  }

  /** The four public fields of a record. */
  function PublicInfo(r: UserRecord): UserInfo {
    UserInfo(r.firstName, r.lastName, r.email, r.country)
  }

  /** `{...currentUser, country, email, firstName, lastName}`: the stored
      record with the profile fields of `info`, password and preferences kept. */
  function WithProfile(r: UserRecord, info: UserInfo): UserRecord {
    r.(firstName := info.firstName, lastName := info.lastName,
       email := info.email, country := info.country)
  }

  class AuthenticationSlice {
    var user: Option<UserInfo>
    var isLoggedIn: bool
    /** The value of the authentication-token cookie, when one is set. */
    var cookie: Option<string>
    const table: UsersTable

    /** Logged in implies a user is held. */
    ghost predicate Valid()
      reads this
    {
      isLoggedIn ==> user.Some?
    }

    /** The slice's `initialState`, over an existing table and cookie jar. */
    constructor (table: UsersTable, cookie: Option<string>)
      ensures Valid()
      ensures user == None && !isLoggedIn
      ensures this.table == table && this.cookie == cookie
    {
      this.table := table;
      this.cookie := cookie;
      user := None;
      isLoggedIn := false;
    }

    /** `signIn`: register a fresh email, then log the new user in. */
    method SignIn(p: SignInPayload) returns (outcome: Outcome)
      requires Valid()
      modifies this, table
      ensures Valid()
      ensures outcome.Fulfilled? <==> old(table.GetUniqueUserByEmail(p.email)).None?
      ensures outcome.Rejected? ==>
        outcome.error == AlreadyRegistered && unchanged(this) && unchanged(table)
      ensures outcome.Fulfilled? ==>
        table.stored == List(Saved(old(table.Users()), NewRecord(p))) &&
        cookie == Some(p.email) && isLoggedIn && user == Some(PublicInfo(NewRecord(p)))
      ensures outcome.Fulfilled? && old(UniqueEmails(table.Users())) ==>
        table.Users() == old(table.Users()) + [NewRecord(p)]
    {
      ghost var before := table.Users();
      var existing := table.GetUniqueUserByEmail(p.email);
      if existing.Some? {
        return Rejected(AlreadyRegistered);
      }
      var record := NewRecord(p);
      table.Save(record);
      if UniqueEmails(before) {
        SaveAppends(before, record);
      }
      var response := PublicInfo(record);
      cookie := Some(response.email);
      isLoggedIn := true;
      user := Some(response);
      outcome := Fulfilled;
    }

    /** `login`: succeeds exactly when a stored record has the email and an
        equal password; never writes the table. */
    method Login(p: LoginPayload) returns (outcome: Outcome)
      requires Valid()
      modifies this
      ensures Valid()
      ensures var found := table.GetUniqueUserByEmail(p.email);
        (outcome.Fulfilled? <==> found.Some? && found.value.password == p.password) &&
        (outcome.Fulfilled? ==>
          isLoggedIn && user == Some(PublicInfo(found.value)) && cookie == Some(p.email))
      ensures outcome.Rejected? ==> outcome.error == WrongCredentials && unchanged(this)
    {
      var found := table.GetUniqueUserByEmail(p.email);
      if found.None? || found.value.password != p.password {
        return Rejected(WrongCredentials);
      }
      var response := PublicInfo(found.value);
      cookie := Some(response.email);
      isLoggedIn := true;
      user := Some(response);
      outcome := Fulfilled;
    }

    /** `logout`: clear the cookie and the session, whatever the prior state. */
    method Logout()
      modifies this
      ensures Valid()
      ensures cookie == None && !isLoggedIn && user == None
    {
      cookie := None;
      isLoggedIn := false;
      user := None;
    }

    /** `currentUser`: restore the session from the cookie. */
    method CurrentUser()
      modifies this
      ensures Valid() && cookie == old(cookie)
      ensures !HasToken(cookie) ==> !isLoggedIn && user == None
      ensures HasToken(cookie) ==>
        match table.GetUniqueUserByEmail(cookie.value)
        case None => !isLoggedIn && user == None
        case Some(r) => isLoggedIn && user == Some(PublicInfo(r))
    {
      var response: Option<UserInfo> := None;
      if HasToken(cookie) {
        var found := table.GetUniqueUserByEmail(cookie.value);
        if found.Some? {
          response := Some(PublicInfo(found.value));
        }
      }
      if response.None? {
        isLoggedIn := false;
        user := None;
      } else {
        isLoggedIn := true;
        user := response;
      }
    }

    /** `updateProfile`: merge the profile fields into the stored record and
        hold the given info; `isLoggedIn` and the cookie are untouched. */
    method UpdateProfile(info: UserInfo) returns (outcome: Outcome)
      requires Valid()
      modifies this, table
      ensures Valid()
      ensures isLoggedIn == old(isLoggedIn) && cookie == old(cookie)
      ensures outcome.Fulfilled? <==> old(table.GetUniqueUserByEmail(info.email)).Some?
      ensures outcome.Rejected? ==>
        outcome.error == UserNotFound && unchanged(this) && unchanged(table)
      ensures outcome.Fulfilled? ==>
        table.stored ==
          List(Saved(old(table.Users()), WithProfile(old(table.GetUniqueUserByEmail(info.email)).value, info))) &&
        user == Some(info)
      ensures outcome.Fulfilled? && old(UniqueEmails(table.Users())) ==>
        forall i | 0 <= i < |old(table.Users())| && old(table.Users())[i].email == info.email ::
          table.Users() == old(table.Users())[i := WithProfile(old(table.Users())[i], info)]
    {
      ghost var before := table.Users();
      var current := table.GetUniqueUserByEmail(info.email);
      if current.None? {
        return Rejected(UserNotFound);
      }
      table.Save(WithProfile(current.value, info));
      forall i | 0 <= i < |before| && before[i].email == info.email && UniqueEmails(before)
        ensures table.Users() == before[i := WithProfile(before[i], info)]
      {
        FindUnique(before, i);
        SaveReplacesInPlace(before, WithProfile(before[i], info), i);
      }
      user := Some(info);
      outcome := Fulfilled;
    }

    /** `updatePassword`: only the stored password changes. */
    method UpdatePassword(p: PasswordPayload) returns (outcome: Outcome)
      requires Valid()
      modifies table
      ensures outcome.Fulfilled? <==> old(table.GetUniqueUserByEmail(p.email)).Some?
      ensures outcome.Rejected? ==> outcome.error == UserNotFound && unchanged(table)
      ensures outcome.Fulfilled? ==>
        table.stored ==
          List(Saved(old(table.Users()), old(table.GetUniqueUserByEmail(p.email)).value.(password := p.password)))
      ensures outcome.Fulfilled? && old(UniqueEmails(table.Users())) ==>
        forall i | 0 <= i < |old(table.Users())| && old(table.Users())[i].email == p.email ::
          table.Users() == old(table.Users())[i := old(table.Users())[i].(password := p.password)]
    {
      ghost var before := table.Users();
      var current := table.GetUniqueUserByEmail(p.email);
      if current.None? {
        return Rejected(UserNotFound);
      }
      table.Save(current.value.(password := p.password));
      forall i | 0 <= i < |before| && before[i].email == p.email && UniqueEmails(before)
        ensures table.Users() == before[i := before[i].(password := p.password)]
      {
        FindUnique(before, i);
        SaveReplacesInPlace(before, before[i].(password := p.password), i);
      }
      outcome := Fulfilled;
    }

    /** `changeTheme`: store `{theme}` as the preferences of the held user's
        record; nothing happens without a held user or without that record. */
    method ChangeTheme(theme: string)
      modifies table
      ensures user.None? || old(table.GetUniqueUserByEmail(user.value.email)).None? ==>
        unchanged(table)
      ensures user.Some? && old(table.GetUniqueUserByEmail(user.value.email)).Some? ==>
        table.stored ==
          List(Saved(old(table.Users()),
                     old(table.GetUniqueUserByEmail(user.value.email)).value.(preferences := Some(Preferences(theme))))) &&
        SelectUserTheme() == theme
    {
      if user.None? {
        return;
      }
      var found := table.GetUniqueUserByEmail(user.value.email);
      if found.None? {
        return;
      }
      var updated := found.value.(preferences := Some(Preferences(theme)));
      table.Save(updated);
    }

    /** `selectUser`: the held user, present whenever logged in. */
    function SelectUser(): (u: Option<UserInfo>)
      reads this
      ensures Valid() && isLoggedIn ==> u.Some?
    {
      user
    }

    /** `selectUserTheme`: the stored theme of the held user, "system" when
        there is no user, no record or no preferences. */
    function SelectUserTheme(): (theme: string)
      reads this, table
      ensures user.None? ==> theme == "system"
      ensures theme != "system" ==>
        user.Some? && table.GetUniqueUserByEmail(user.value.email).Some? &&
        table.GetUniqueUserByEmail(user.value.email).value.preferences == Some(Preferences(theme))
      ensures user.Some? && table.GetUniqueUserByEmail(user.value.email).Some? &&
              table.GetUniqueUserByEmail(user.value.email).value.preferences.Some? ==>
        theme == table.GetUniqueUserByEmail(user.value.email).value.preferences.value.theme
    {
      if user.None? then "system"
      else
        var found := table.GetUniqueUserByEmail(user.value.email);
        if found.None? || found.value.preferences.None? then "system"
        else found.value.preferences.value.theme
    }
  }
}
