/**
 * How the strict script (login.js) and the lax script (home.js) relate: the
 * strict handlers only add checks to the lax ones.
 */
module Variants {
  import opened JsString
  import opened Alerts
  import Strict = LoginScript
  import Lax = HomeScript

  /** The two login handlers agree except that the lax one reports the
      strict one's length errors as wrong credentials; in particular they
      accept exactly the same inputs. */
  lemma LoginVariantsAgree(usuario: string, contrasena: string)
    ensures Lax.Login(usuario, contrasena) ==
      var s := Strict.Login(usuario, contrasena);
      if s == UserTooShort || s == PasswordTooShort then WrongCredentials else s
  {
  }

  /** Every registration the strict handler accepts, the lax one accepts
      with the same alert. */
  lemma StrictRegistrationAcceptedByLax(usuario: string, email: string, contrasena: string, repetirContrasena: string)
    requires Strict.Register(usuario, email, contrasena, repetirContrasena).Registered?
    ensures Lax.Register(usuario, email, contrasena, repetirContrasena)
         == Strict.Register(usuario, email, contrasena, repetirContrasena)
  {
  }

  /** Both handlers report the empty-field error on the same inputs, and a
      mismatch the strict handler reports the lax one reports too. */
  lemma RegistrationRejectionsAgree(usuario: string, email: string, contrasena: string, repetirContrasena: string)
    ensures Lax.Register(usuario, email, contrasena, repetirContrasena) == MissingRegistrationFields
        <==> Strict.Register(usuario, email, contrasena, repetirContrasena) == MissingRegistrationFields
    ensures Strict.Register(usuario, email, contrasena, repetirContrasena) == PasswordMismatch
        ==> Lax.Register(usuario, email, contrasena, repetirContrasena) == PasswordMismatch
  {
  }

  /** The lax handler registers the hardcoded user again, with any e-mail
      text and any matching password, where the strict one never does. */
  lemma OnlyLaxRegistersValidUser(email: string, contrasena: string)
    requires Trim(email) != [] && Trim(contrasena) != []
    ensures Lax.Register(Lax.ValidUser, email, contrasena, contrasena) == Registered(Lax.ValidUser)
    ensures !Strict.Register(Strict.ValidUser, email, contrasena, contrasena).Registered?
  {
    TrimOfTrimmed(Lax.ValidUser);
    TrimOfTrimmed(Strict.ValidUser);
  }

  /** A two-letter user name is too short for the strict login handler and
      merely wrong for the lax one. */
  lemma ShortUserExample()
    ensures Strict.Login("ab", "abcd") == UserTooShort
    ensures Lax.Login("ab", "abcd") == WrongCredentials
  {
    TrimOfTrimmed("ab");
    TrimOfTrimmed("abcd");
  }
}
