/** The admin sign-in flag, kept in browser storage. */
module AdminAuth {

  /** The one password that is accepted. */
  const AdminPassword: string := "your-secret-password"

  /** `useAdminAuth`. */
  class AdminAuth {
    var isAuthenticated: bool

    /** A fresh browser has the flag off. */
    constructor()
      ensures !isAuthenticated
    {
      isAuthenticated := false;
    }

    /** `login`: the right password turns the flag on and reports success;
        any other leaves the flag alone. */
    method Login(password: string) returns (ok: bool)
      modifies this
      ensures ok <==> password == AdminPassword
      ensures isAuthenticated == (ok || old(isAuthenticated))
    {
      if password == AdminPassword {
        isAuthenticated := true;
        return true;
      }
      return false;
    }

    /** `logout`. */
    method Logout()
      modifies this
      ensures !isAuthenticated
    {
      isAuthenticated := false;
    }
  }

  /** Signing in twice with the right password is the same as once. */
  method LoginIsIdempotent(auth: AdminAuth)
    modifies auth
    ensures auth.isAuthenticated
  {
    var first := auth.Login(AdminPassword);
    var second := auth.Login(AdminPassword);
    assert first && second;
  }

  /** A wrong password after signing out leaves the admin signed out. */
  method WrongPasswordAfterLogout(auth: AdminAuth, password: string)
    requires password != AdminPassword
    modifies auth
    ensures !auth.isAuthenticated
  {
    auth.Logout();
    var ok := auth.Login(password);
    assert !ok;
  }
}
