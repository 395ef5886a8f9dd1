/** The login form's submit handler, with the account-type lookup it calls. */
module Login {
  import opened Common

  /** The message shown for an error code raised during login. */
  function AuthErrorMessage(code: string): (m: string)
    ensures m == "Email does not exist." <==> code == "auth/user-not-found"
    ensures m == "Incorrect password." <==> code == "auth/wrong-password"
    ensures m == "Input your correct credential." <==> code != "auth/user-not-found" && code != "auth/wrong-password"
  {
    if code == "auth/user-not-found" then "Email does not exist."
    else if code == "auth/wrong-password" then "Incorrect password."
    else "Input your correct credential."
  }

  /** What signing in yields: a rejection with its code, or the signed-in
      user's id (`""` when there is none). */
  datatype SignIn = SignInRejected(code: string) | SignedIn(uid: string)

  /** The read of the `users` document for that id. */
  datatype UserLookup = LookupFailed(code: string) | NoUserDoc | UserDoc(department: Option<string>)

  /** `getLoginType`: `null` without a users document, otherwise the
      document's department, `undefined` when it has none; `None` when the
      read throws. */
  datatype LoginType = NullType | UndefinedType | DepartmentType(name: string)

  function LoginTypeOf(doc: UserLookup): (t: Option<LoginType>)
    ensures t.None? <==> doc.LookupFailed?
    ensures t == Some(NullType) <==> doc.NoUserDoc?
    ensures t == Some(UndefinedType) <==> doc == UserDoc(None)
    ensures t.Some? && t.value.DepartmentType? <==> doc.UserDoc? && doc.department.Some?
    ensures t.Some? && t.value.DepartmentType? ==> t.value.name == doc.department.value
  {
    match doc
    case LookupFailed(_) => None
    case NoUserDoc => Some(NullType)
    case UserDoc(d) => if d.Some? then Some(DepartmentType(d.value)) else Some(UndefinedType)
  }

  datatype Toast = LoginSuccessful | NotAStudent

  datatype LoginResult = LoginResult(error: Option<string>, toast: Option<Toast>, navigateHome: bool, loading: bool)

  /** `handleSubmit`. Only an account whose type compares loosely equal to
      `undefined` (no users document, or one without a department) is let
      in; staff accounts carry a department. */
  function HandleLogin(signIn: SignIn, lookup: UserLookup): (r: LoginResult)
    ensures !r.loading
    ensures r.navigateHome <==> r.toast == Some(LoginSuccessful)
    ensures r.navigateHome <==>
              signIn.SignedIn? && signIn.uid != "" && (lookup.NoUserDoc? || lookup == UserDoc(None))
    ensures r.toast == Some(NotAStudent) <==>
              signIn.SignedIn? && signIn.uid != "" && lookup.UserDoc? && lookup.department.Some?
    ensures signIn.SignInRejected? ==> r.error == Some(AuthErrorMessage(signIn.code))
    ensures signIn.SignedIn? && signIn.uid != "" && lookup.LookupFailed? ==> r.error == Some(AuthErrorMessage(lookup.code))
    ensures r.error.Some? <==> signIn.SignInRejected? || (signIn.uid != "" && lookup.LookupFailed?)
    ensures r.error.Some? ==> r.toast.None?
  {
    match signIn
    case SignInRejected(code) => LoginResult(Some(AuthErrorMessage(code)), None, false, false)
    case SignedIn(uid) =>
      if uid == "" then LoginResult(None, None, false, false)
      else
        match LoginTypeOf(lookup)
        case None => LoginResult(Some(AuthErrorMessage(lookup.code)), None, false, false)
        case Some(NullType) => LoginResult(None, Some(LoginSuccessful), true, false)
        case Some(UndefinedType) => LoginResult(None, Some(LoginSuccessful), true, false)
        case Some(DepartmentType(_)) => LoginResult(None, Some(NotAStudent), false, false)
  }

  /** An account with a department never reaches the home page, whatever
      the department's name. */
  lemma DepartmentAccountsStayOut(uid: string, department: string)
    ensures !HandleLogin(SignedIn(uid), UserDoc(Some(department))).navigateHome
  {
  }
}
