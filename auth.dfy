/**
 * The authentication context: one mutable field, the signed-in account, set
 * by `login` from the chosen role alone and cleared by `logout`.
 */
module Auth {
  import opened Wrappers
  import opened HealthcareTypes

  /** The doctor fixture account. */
  const DoctorAccount: Account :=
    Account("u1", "Dr. Sarah Chen", "sarah.chen@shms.com", Doctor, None, Some("Cardiology"), Some("Cardiology"))

  /** The fixed account `login` signs in for each role. */
  function AccountFor(role: Role): (a: Account)
    ensures a.role == role
  {
    match role
    case Doctor => DoctorAccount
    case Admin => Account("admin1", "System Admin", "admin@shms.com", Admin, None, None, Some("Administration"))
    case Patient => Account("p1", "James Wilson", "james@email.com", Patient, None, None, None)
    case Nurse => Account("n1", "Maria Garcia", "maria@shms.com", Nurse, None, None, Some("General"))
  }

  /** Different roles sign in different accounts. */
  lemma AccountsDistinct(r1: Role, r2: Role)
    requires r1 != r2
    ensures AccountFor(r1) != AccountFor(r2) && AccountFor(r1).id != AccountFor(r2).id
  {
  }

  const MissingProvider: string := "useAuth must be used within AuthProvider"

  /** The provider's state. */
  class AuthSession {
    var user: Option<Account>

    constructor ()
      ensures user == None
    {
      user := None;
    }

    /** Signs in the fixed account of `role`; the email and password are not looked at. */
    method Login(email: string, password: string, role: Role)
      modifies this
      ensures user == Some(AccountFor(role))
    {
      user := Some(AccountFor(role));
    }

    method Logout()
      modifies this
      ensures user == None
    {
      user := None;
    }

    function IsAuthenticated(): (b: bool)
      reads this
      ensures b <==> user.Some?
    {
      user.Some?
    }
  }

  /** `useAuth`: the provider's session, or the error thrown outside a provider. */
  function UseAuth(provider: AuthSession?): (r: Result<AuthSession, string>)
    ensures provider == null <==> r.Failure?
    ensures r.Success? ==> r.value == provider
    ensures r.Failure? ==> r.error == MissingProvider
  {
    if provider == null then Failure(MissingProvider) else Success(provider)
  }
}
