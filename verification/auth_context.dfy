/** The web client's session: the error text shown after a failed login or
    registration, and the signed-in state that login, the user refresh and
    logout change. */
module AuthContext {
  import opened Common
  import opened Strings

  /** One entry of a validation-error array; either field may be absent. */
  datatype ValidationError = ValidationError(msg: Option<string>, message: Option<string>)

  /** A JavaScript string value is truthy when present and not empty. */
  predicate Truthy(s: Option<string>) {
    s.Some? && s.value != ""
  }

  /** `err.msg || err.message`, as `join` renders it: an absent value becomes
      the empty string. */
  function ErrorText(e: ValidationError): (t: string)
    ensures Truthy(e.msg) ==> t == e.msg.value
    ensures !Truthy(e.msg) ==> t == if e.message.Some? then e.message.value else ""
  {
    if Truthy(e.msg) then e.msg.value
    else if e.message.Some? then e.message.value
    else ""
  }

  function ErrorTexts(errors: seq<ValidationError>): (r: seq<string>)
    ensures |r| == |errors|
    ensures forall i :: 0 <= i < |errors| ==> r[i] == ErrorText(errors[i])
  {
    seq(|errors|, i requires 0 <= i < |errors| => ErrorText(errors[i]))
  }

  /** The body of an error reply. `errors` is `Some` only when it is an array. */
  datatype ErrorData = ErrorData(message: Option<string>, errors: Option<seq<ValidationError>>, error: Option<string>)

  /** A failed request: the reply body, when the server answered, and the
      error's own message. */
  datatype Failure = Failure(data: Option<ErrorData>, message: Option<string>)

  /** Whether the reply body offers a text of its own. */
  predicate HasServerText(d: ErrorData) {
    Truthy(d.message) || d.errors.Some? || Truthy(d.error)
  }

  /** The text taken from a reply body: its message, else the validation
      errors joined by ", ", else its error, else the fallback. */
  function TextFromData(d: ErrorData, fallback: string): (t: string)
    ensures Truthy(d.message) ==> t == d.message.value
    ensures !Truthy(d.message) && d.errors.Some? ==> t == Join(ErrorTexts(d.errors.value), ", ")
    ensures !Truthy(d.message) && d.errors.None? && Truthy(d.error) ==> t == d.error.value
    ensures !HasServerText(d) ==> t == fallback
  {
    if Truthy(d.message) then d.message.value
    else if d.errors.Some? then Join(ErrorTexts(d.errors.value), ", ")
    else if Truthy(d.error) then d.error.value
    else fallback
  }

  /** The fallback is used only when the body offers nothing: whenever it
      does, any two fallbacks give the same text. */
  lemma FallbackOnlyWithoutServerText(d: ErrorData, fallback: string, other: string)
    ensures HasServerText(d) ==> TextFromData(d, fallback) == TextFromData(d, other)
    ensures !HasServerText(d) ==> TextFromData(d, fallback) == fallback
  {
  }

  /** A single validation error is shown as its own text, with no separator. */
  lemma SingleValidationError(d: ErrorData, fallback: string)
    requires !Truthy(d.message) && d.errors.Some? && |d.errors.value| == 1
    ensures TextFromData(d, fallback) == ErrorText(d.errors.value[0])
  {
  }

  const LoginFailed := "Login failed"
  const RegistrationFailed := "Registration failed"

  /** The text of a failed login: from the reply body when there is one,
      otherwise the default. The error's own message is never used. */
  function LoginError(f: Failure): (t: string)
    ensures f.data.Some? ==> t == TextFromData(f.data.value, LoginFailed)
    ensures f.data.None? ==> t == LoginFailed
  {
    if f.data.Some? then TextFromData(f.data.value, LoginFailed) else LoginFailed
  }

  /** The text of a failed registration: from the reply body when there is
      one, otherwise the error's own message when it has one, otherwise the
      default. */
  function RegisterError(f: Failure): (t: string)
    ensures f.data.Some? ==> t == TextFromData(f.data.value, RegistrationFailed)
    ensures f.data.None? && Truthy(f.message) ==> t == f.message.value
    ensures f.data.None? && !Truthy(f.message) ==> t == RegistrationFailed
  {
    if f.data.Some? then TextFromData(f.data.value, RegistrationFailed)
    else if Truthy(f.message) then f.message.value
    else RegistrationFailed
  }

  /** Login and registration report a reply body the same way; they differ
      only in the default, and in the error's own message, which only
      registration shows. */
  lemma LoginAndRegisterAgreeOnServerText(f: Failure)
    ensures f.data.Some? && HasServerText(f.data.value) ==> LoginError(f) == RegisterError(f)
    ensures f.data.None? && Truthy(f.message) ==> LoginError(f) == LoginFailed && RegisterError(f) == f.message.value
  {
    if f.data.Some? {
      FallbackOnlyWithoutServerText(f.data.value, LoginFailed, RegistrationFailed);
    }
  }

  /** The signed-in user, as the client stores it. */
  datatype User = User(id: UserId, username: string)

  /** What a login or registration reports to the form. */
  datatype AuthResult = Success | Failed(error: string)

  /** A login or registration request's outcome, supplied from outside. */
  datatype AuthOutcome = Granted(token: string, user: User) | Denied(failure: Failure)

  /** The session state together with the two entries it keeps in local
      storage and whether the socket is connected. */
  class Session {
    var user: Option<User>
    var loading: bool
    var isAuthenticated: bool
    var storedToken: Option<string>
    var storedUser: Option<User>
    var socketConnected: bool

    /** Signed in exactly when a user is held. */
    ghost predicate Valid()
      reads this
    {
      isAuthenticated <==> user.Some?
    }

    /** The state on mount, before local storage is read. */
    constructor (storedToken: Option<string>, storedUser: Option<User>)
      ensures Valid()
      ensures user == None && loading && !isAuthenticated && !socketConnected
      ensures this.storedToken == storedToken && this.storedUser == storedUser
    {
      user, loading, isAuthenticated := None, true, false;
      this.storedToken, this.storedUser := storedToken, storedUser;
      socketConnected := false;
    }

    /** `logout`: whatever the server answers, the stored token and user are
        removed, the session is signed out and the socket disconnected. */
    method Logout()
      modifies this`user, this`isAuthenticated, this`storedToken, this`storedUser, this`socketConnected
      ensures Valid()
      ensures user == None && !isAuthenticated && storedToken == None && storedUser == None && !socketConnected
    {
      storedToken, storedUser := None, None;
      user, isAuthenticated := None, false;
      socketConnected := false;
    }

    /** `fetchUser`: the refreshed user signs the session in and is stored, and
        loading ends; a failure logs out, leaving `loading` as it was. */
    method FetchUser(me: Option<User>)
      modifies this`user, this`isAuthenticated, this`storedToken, this`storedUser, this`socketConnected, this`loading
      ensures Valid()
      ensures me.Some? ==>
        && user == me && isAuthenticated && storedUser == me && !loading
        && storedToken == old(storedToken) && socketConnected == old(socketConnected)
      ensures me.None? ==>
        && user == None && !isAuthenticated && storedToken == None && storedUser == None && !socketConnected
        && loading == old(loading)
    {
      if me.Some? {
        user, isAuthenticated := me, true;
        storedUser := me;
        loading := false;
      } else {
        Logout();
      }
    }

    /** The mount effect: with both a stored token and a stored user the
        session is restored from storage, the socket connected and the user
        refreshed; otherwise loading just ends. */
    method Mount(me: Option<User>)
      requires Valid()
      modifies this`user, this`isAuthenticated, this`storedToken, this`storedUser, this`socketConnected, this`loading
      ensures Valid()
      ensures old(storedToken).Some? && old(storedUser).Some? && me.Some? ==>
        user == me && isAuthenticated && socketConnected && storedToken == old(storedToken) && storedUser == me && !loading
      ensures old(storedToken).Some? && old(storedUser).Some? && me.None? ==>
        && user == None && !isAuthenticated && !socketConnected && storedToken == None && storedUser == None
        && loading == old(loading)
      ensures !(old(storedToken).Some? && old(storedUser).Some?) ==>
        && !loading && user == old(user) && isAuthenticated == old(isAuthenticated)
        && storedToken == old(storedToken) && storedUser == old(storedUser) && socketConnected == old(socketConnected)
    {
      if storedToken.Some? && storedUser.Some? {
        user, isAuthenticated := storedUser, true;
        socketConnected := true;
        FetchUser(me);
      } else {
        loading := false;
      }
    }

    /** `login` and `register` share their success path: store the token and
        user, sign in and connect. A failure changes nothing. */
    method SignIn(outcome: AuthOutcome, registering: bool) returns (result: AuthResult)
      requires Valid()
      modifies this`user, this`isAuthenticated, this`storedToken, this`storedUser, this`socketConnected
      ensures Valid()
      ensures outcome.Granted? ==>
        && result == Success
        && storedToken == Some(outcome.token) && storedUser == Some(outcome.user)
        && user == Some(outcome.user) && isAuthenticated && socketConnected
      ensures outcome.Denied? ==>
        && result == Failed(if registering then RegisterError(outcome.failure) else LoginError(outcome.failure))
        && unchanged(this`user, this`isAuthenticated, this`storedToken, this`storedUser, this`socketConnected)
    {
      match outcome
      case Granted(token, u) =>
        storedToken, storedUser := Some(token), Some(u);
        user, isAuthenticated := Some(u), true;
        socketConnected := true;
        result := Success;
      case Denied(failure) =>
        result := Failed(if registering then RegisterError(failure) else LoginError(failure));
    }

    method Login(outcome: AuthOutcome) returns (result: AuthResult)
      requires Valid()
      modifies this`user, this`isAuthenticated, this`storedToken, this`storedUser, this`socketConnected
      ensures Valid()
      ensures outcome.Granted? ==> result == Success && user == Some(outcome.user) && isAuthenticated
                                   && storedToken == Some(outcome.token) && storedUser == Some(outcome.user)
                                   && socketConnected
      ensures outcome.Denied? ==> result == Failed(LoginError(outcome.failure))
                                  && unchanged(this`user, this`isAuthenticated, this`storedToken, this`storedUser, this`socketConnected)
    {
      result := SignIn(outcome, false);
    }

    method Register(outcome: AuthOutcome) returns (result: AuthResult)
      requires Valid()
      modifies this`user, this`isAuthenticated, this`storedToken, this`storedUser, this`socketConnected
      ensures Valid()
      ensures outcome.Granted? ==> result == Success && user == Some(outcome.user) && isAuthenticated
                                   && storedToken == Some(outcome.token) && storedUser == Some(outcome.user)
                                   && socketConnected
      ensures outcome.Denied? ==> result == Failed(RegisterError(outcome.failure))
                                  && unchanged(this`user, this`isAuthenticated, this`storedToken, this`storedUser, this`socketConnected)
    {
      result := SignIn(outcome, true);
    }
  }
}
