/**
 * The lax form script: the same two handlers with only the empty-field,
 * credential and password-repetition checks.
 */
module HomeScript {
  import opened JsString
  import opened Alerts

  /** The one hardcoded account (this script keeps its own copy). */
  const ValidUser: string := "sebas"
  const ValidPassword: string := "12345"

  /** The login handler: the empty-field check, then the credential
      comparison; there are no length checks. */
  function Login(usuario: string, contrasena: string): (r: Alert)
    ensures r == MissingFields || r == Welcome || r == WrongCredentials
    ensures r == MissingFields <==> Trim(usuario) == [] || Trim(contrasena) == []
    ensures r == Welcome <==> Trim(usuario) == ValidUser && Trim(contrasena) == ValidPassword
  {
    var u := Trim(usuario);
    var p := Trim(contrasena);
    if u == [] || p == [] then MissingFields
    else if u == ValidUser && p == ValidPassword then Welcome
    else WrongCredentials
  }

  /** The registration handler: the empty-field check, then the password
      repetition; nothing else is checked, not even the hardcoded user. */
  function Register(usuario: string, email: string, contrasena: string, repetirContrasena: string): (r: Alert)
    ensures r == MissingRegistrationFields || r == PasswordMismatch || r.Registered?
    ensures r == MissingRegistrationFields <==>
      Trim(usuario) == [] || Trim(email) == [] || Trim(contrasena) == [] || Trim(repetirContrasena) == []
    ensures r == PasswordMismatch <==>
      && Trim(usuario) != [] && Trim(email) != [] && Trim(contrasena) != [] && Trim(repetirContrasena) != []
      && Trim(contrasena) != Trim(repetirContrasena)
    ensures r.Registered? <==>
      && Trim(usuario) != [] && Trim(email) != [] && Trim(contrasena) != []
      && Trim(contrasena) == Trim(repetirContrasena)
    ensures r.Registered? ==> r.usuario == Trim(usuario)
  {
    var u := Trim(usuario);
    var e := Trim(email);
    var p := Trim(contrasena);
    var q := Trim(repetirContrasena);
    if u == [] || e == [] || p == [] || q == [] then MissingRegistrationFields
    else if p != q then PasswordMismatch
    else Registered(u)
  }

  /** Whitespace around the hardcoded credentials still logs in. */
  lemma PaddedCredentialsWelcome(pre1: string, post1: string, pre2: string, post2: string)
    requires AllSpace(pre1) && AllSpace(post1) && AllSpace(pre2) && AllSpace(post2)
    ensures Login(pre1 + ValidUser + post1, pre2 + ValidPassword + post2) == Welcome
  {
    TrimPadded(pre1, ValidUser, post1);
    TrimPadded(pre2, ValidPassword, post2);
    TrimOfTrimmed(ValidUser);
    TrimOfTrimmed(ValidPassword);
  }

  /** Whitespace around either login field never changes the alert. */
  lemma LoginIgnoresPadding(usuario: string, contrasena: string, pre1: string, post1: string, pre2: string, post2: string)
    requires AllSpace(pre1) && AllSpace(post1) && AllSpace(pre2) && AllSpace(post2)
    ensures Login(pre1 + usuario + post1, pre2 + contrasena + post2) == Login(usuario, contrasena)
  {
    TrimPadded(pre1, usuario, post1);
    TrimPadded(pre2, contrasena, post2);
  }

  /** The registration alert depends only on the trimmed fields. */
  lemma RegisterSeesTrimmed(usuario: string, email: string, contrasena: string, repetirContrasena: string)
    ensures Register(usuario, email, contrasena, repetirContrasena)
         == Register(Trim(usuario), Trim(email), Trim(contrasena), Trim(repetirContrasena))
  {
    TrimIdempotent(usuario);
    TrimIdempotent(email);
    TrimIdempotent(contrasena);
    TrimIdempotent(repetirContrasena);
  }
}
