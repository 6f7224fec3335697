/**
 * The outcome of a form submission. Each handler ends by showing exactly one
 * alert; there is one constructor per distinct alert text, so two handlers
 * that show the same text share a constructor.
 */
module Alerts {

  datatype Alert =
    /** Login form: some field is empty. */
    | MissingFields
    /** Registration form: some field is empty (a different text from the
        login form's). */
    | MissingRegistrationFields
    /** The user name is shorter than four characters. */
    | UserTooShort
    /** The login password is shorter than four characters. */
    | PasswordTooShort
    /** Login succeeded; the text greets the hardcoded user. */
    | Welcome
    /** Login failed: not the hardcoded credential. */
    | WrongCredentials
    /** The e-mail address does not have the expected shape. */
    | InvalidEmail
    /** The password lacks length, a letter or a digit. */
    | WeakPassword
    /** The two registration passwords differ. */
    | PasswordMismatch
    /** The user name is the hardcoded one. */
    | UserTaken
    /** Registration succeeded; the text names the (trimmed) user. */
    | Registered(usuario: string)

  /** The alerts a login handler can show. */
  predicate IsLoginAlert(a: Alert) {
    a in {MissingFields, UserTooShort, PasswordTooShort, Welcome, WrongCredentials}
  }

  /** The alerts a registration handler can show. */
  predicate IsRegisterAlert(a: Alert) {
    || a in {MissingRegistrationFields, UserTooShort, InvalidEmail, WeakPassword, PasswordMismatch, UserTaken}
    || a.Registered?
  }

  /** The only alert text the login and the registration handlers share is
      the user-too-short one. */
  lemma SharedAlerts(a: Alert)
    ensures IsLoginAlert(a) && IsRegisterAlert(a) <==> a == UserTooShort
  {
  }
}
