/**
 * The strict form script: login and registration handlers with length,
 * e-mail and password-strength checks. Each handler trims its inputs, runs
 * an ordered chain of checks, and shows the alert of the first check that
 * fails, or the success alert.
 */
module LoginScript {
  import opened JsString
  import opened Alerts

  /** The one hardcoded account. */
  const ValidUser: string := "sebas"
  const ValidPassword: string := "12345"

  // ---------------------------------------------------------------------
  // The e-mail pattern  ^[^\s@]+@[^\s@]+\.[^\s@]+$
  // ---------------------------------------------------------------------

  /** A character of the class [^\s@]. */
  predicate EmailChar(c: char) {
    !IsSpace(c) && c != '@'
  }

  /** One or more characters of the class [^\s@]. */
  predicate EmailPart(s: string) {
    |s| > 0 && forall k :: 0 <= k < |s| ==> EmailChar(s[k])
  }

  /** The input matches the e-mail pattern: an '@' at i and a '.' at j
      split it into three non-empty runs of [^\s@]. Any of the runs may
      itself contain dots, since '.' belongs to [^\s@]. */
  predicate EsCorreoValido(correo: string)
    ensures EsCorreoValido(correo) ==>
      |correo| >= 5 && EmailChar(correo[0]) && EmailChar(correo[|correo| - 1])
  {
    exists i, j | 0 < i < j < |correo| - 1 ::
      && correo[i] == '@' && correo[j] == '.'
      && EmailPart(correo[..i]) && EmailPart(correo[i + 1..j]) && EmailPart(correo[j + 1..])
  }

  /** Every a@b.c built from three runs of [^\s@] is accepted. */
  lemma EmailOfParts(a: string, b: string, c: string)
    requires EmailPart(a) && EmailPart(b) && EmailPart(c)
    ensures EsCorreoValido(a + "@" + b + "." + c)
  {
    var s := a + "@" + b + "." + c;
    var i, j := |a|, |a| + 1 + |b|;
    assert s[i] == '@' && s[j] == '.';
    assert s[..i] == a && s[i + 1..j] == b && s[j + 1..] == c;
  }

  /** Every accepted address is some a@b.c built from three runs of [^\s@]. */
  lemma EmailParts(correo: string) returns (a: string, b: string, c: string)
    requires EsCorreoValido(correo)
    ensures EmailPart(a) && EmailPart(b) && EmailPart(c)
    ensures correo == a + "@" + b + "." + c
  {
    var i, j :| 0 < i < j < |correo| - 1 && correo[i] == '@' && correo[j] == '.'
      && EmailPart(correo[..i]) && EmailPart(correo[i + 1..j]) && EmailPart(correo[j + 1..]);
    a, b, c := correo[..i], correo[i + 1..j], correo[j + 1..];
    SplitAt(correo, i, j);
  }

  /** Cutting a string around positions i and j and putting the pieces back
      gives the string again. */
  lemma SplitAt(s: string, i: nat, j: nat)
    requires i < j < |s|
    ensures s == s[..i] + [s[i]] + s[i + 1..j] + [s[j]] + s[j + 1..]
  {
    assert s == s[..i] + s[i..j] + s[j..];
    assert s[i..j] == [s[i]] + s[i + 1..j];
    assert s[j..] == [s[j]] + s[j + 1..];
  }

  /** Number of occurrences of x in s. */
  function Occurrences(s: string, x: char): (n: nat)
    ensures n <= |s|
  {
    if s == [] then 0 else (if s[0] == x then 1 else 0) + Occurrences(s[1..], x)
  }

  lemma {:induction false} OccurrencesConcat(s: string, t: string, x: char)
    ensures Occurrences(s + t, x) == Occurrences(s, x) + Occurrences(t, x)
  {
    if s != [] {
      assert (s + t)[0] == s[0];
      assert (s + t)[1..] == s[1..] + t;
      OccurrencesConcat(s[1..], t, x);
    } else {
      assert s + t == t;
    }
  }

  lemma {:induction false} NoAtInPart(s: string)
    requires forall k :: 0 <= k < |s| ==> EmailChar(s[k])
    ensures Occurrences(s, '@') == 0
  {
    if s != [] {
      NoAtInPart(s[1..]);
    }
  }

  /** An accepted address has exactly one '@'. */
  lemma ValidEmailHasOneAt(correo: string)
    requires EsCorreoValido(correo)
    ensures Occurrences(correo, '@') == 1
  {
    var a, b, c := EmailParts(correo);
    NoAtInPart(a);
    NoAtInPart(b);
    NoAtInPart(c);
    OccurrencesConcat(a, "@", '@');
    OccurrencesConcat(a + "@", b, '@');
    OccurrencesConcat(a + "@" + b, ".", '@');
    OccurrencesConcat(a + "@" + b + ".", c, '@');
  }

  /** An accepted address contains no whitespace at all, so trimming it
      changes nothing. */
  lemma ValidEmailHasNoSpace(correo: string)
    requires EsCorreoValido(correo)
    ensures forall k :: 0 <= k < |correo| ==> !IsSpace(correo[k])
    ensures Trim(correo) == correo
  {
    var a, b, c := EmailParts(correo);
    forall k | 0 <= k < |correo|
      ensures !IsSpace(correo[k])
    {
      if k < |a| {
        assert correo[k] == a[k];
      } else if k == |a| {
        assert correo[k] == '@';
      } else if k < |a| + 1 + |b| {
        assert correo[k] == b[k - |a| - 1];
      } else if k == |a| + 1 + |b| {
        assert correo[k] == '.';
      } else {
        assert correo[k] == c[k - |a| - 2 - |b|];
      }
    }
    TrimOfTrimmed(correo);
  }

  /** A sample accepted address. */
  lemma AcceptedEmailExample()
    ensures EsCorreoValido("sebas@mail.com")
  {
    EmailOfParts("sebas", "mail", "com");
    assert "sebas" + "@" + "mail" + "." + "com" == "sebas@mail.com";
  }

  /** Dots may appear in the run before the '@' and in the run between the
      '@' and the last dot. */
  lemma DottedEmailExample()
    ensures EsCorreoValido("s.p@a.b.co")
  {
    EmailOfParts("s.p", "a.b", "co");
    assert "s.p" + "@" + "a.b" + "." + "co" == "s.p@a.b.co";
  }

  /** Sample refused addresses: a second '@', no dot after the '@'. */
  lemma RefusedEmailExamples()
    ensures !EsCorreoValido("a@b@c.d")
    ensures !EsCorreoValido("sebas@mail")
  {
    if EsCorreoValido("a@b@c.d") {
      ValidEmailHasOneAt("a@b@c.d");
      assert false;
    }
    var s := "sebas@mail";
    assert forall j | 0 <= j < |s| :: s[j] != '.';
  }

  // ---------------------------------------------------------------------
  // The password pattern  ^(?=.*[A-Za-z])(?=.*\d)[A-Za-z\d]{5,}$
  // ---------------------------------------------------------------------

  predicate IsAsciiLetter(c: char) {
    ('A' <= c <= 'Z') || ('a' <= c <= 'z')
  }

  /** The class \d of a regular expression without the u flag. */
  predicate IsAsciiDigit(c: char) {
    '0' <= c <= '9'
  }

  /** The characters that '.' does not match. */
  predicate IsLineTerminator(c: char) {
    c == '\n' || c == '\r' || c == '\U{2028}' || c == '\U{2029}'
  }

  /** The lookahead (?=.*[A-Za-z]) at the start of the input. */
  predicate LetterAhead(s: string) {
    exists k | 0 <= k < |s| :: IsAsciiLetter(s[k]) && forall m | 0 <= m < k :: !IsLineTerminator(s[m])
  }

  /** The lookahead (?=.*\d) at the start of the input. */
  predicate DigitAhead(s: string) {
    exists k | 0 <= k < |s| :: IsAsciiDigit(s[k]) && forall m | 0 <= m < k :: !IsLineTerminator(s[m])
  }

  /** The input matches the password pattern: both lookaheads succeed and
      the whole input is five or more of [A-Za-z\d]. */
  predicate EsContrasenaSegura(contrasena: string)
    ensures EsContrasenaSegura(contrasena) ==>
      forall k | 0 <= k < |contrasena| :: !IsSpace(contrasena[k]) && contrasena[k] as int < 0x80
  {
    && LetterAhead(contrasena)
    && DigitAhead(contrasena)
    && |contrasena| >= 5
    && forall k | 0 <= k < |contrasena| :: IsAsciiLetter(contrasena[k]) || IsAsciiDigit(contrasena[k])
  }

  /** The password pattern accepts exactly the strings of five or more ASCII
      letters and digits with at least one of each. */
  lemma SecurePasswordIff(s: string)
    ensures EsContrasenaSegura(s) <==>
      && |s| >= 5
      && (forall k | 0 <= k < |s| :: IsAsciiLetter(s[k]) || IsAsciiDigit(s[k]))
      && (exists k | 0 <= k < |s| :: IsAsciiLetter(s[k]))
      && (exists k | 0 <= k < |s| :: IsAsciiDigit(s[k]))
  {
    if && (forall k | 0 <= k < |s| :: IsAsciiLetter(s[k]) || IsAsciiDigit(s[k]))
       && (exists k | 0 <= k < |s| :: IsAsciiLetter(s[k]))
       && (exists k | 0 <= k < |s| :: IsAsciiDigit(s[k]))
    {
      var l :| 0 <= l < |s| && IsAsciiLetter(s[l]);
      var d :| 0 <= d < |s| && IsAsciiDigit(s[d]);
      assert forall m | 0 <= m < |s| :: !IsLineTerminator(s[m]);
      assert IsAsciiLetter(s[l]) && forall m | 0 <= m < l :: !IsLineTerminator(s[m]);
      assert IsAsciiDigit(s[d]) && forall m | 0 <= m < d :: !IsLineTerminator(s[m]);
    }
  }

  /** A secure password is ASCII, so its length property counts its
      characters, and it has no surrounding whitespace. */
  lemma SecurePasswordIsPlain(s: string)
    requires EsContrasenaSegura(s)
    ensures Utf16Length(s) == |s|
    ensures forall k | 0 <= k < |s| :: !IsSpace(s[k])
    ensures Trim(s) == s
  {
    Utf16LengthOfBmp(s);
    TrimOfTrimmed(s);
  }

  /** The hardcoded account's own password, all digits, would not pass the
      registration strength check. */
  lemma ValidPasswordIsWeak()
    ensures !EsContrasenaSegura(ValidPassword)
  {
    forall k | 0 <= k < |ValidPassword|
      ensures !IsAsciiLetter(ValidPassword[k])
    {
      assert ValidPassword[k] in "12345";
    }
  }

  // ---------------------------------------------------------------------
  // The submit handlers
  // ---------------------------------------------------------------------

  /** The login handler. The empty-field check runs first, then the user
      length, then the password length, so a short user with a short
      password reports the user. Lengths are JavaScript lengths (UTF-16
      code units). */
  function Login(usuario: string, contrasena: string): (r: Alert)
    ensures IsLoginAlert(r)
    ensures r == MissingFields <==> Trim(usuario) == [] || Trim(contrasena) == []
    ensures r == UserTooShort <==>
      Trim(usuario) != [] && Trim(contrasena) != [] && Utf16Length(Trim(usuario)) < 4
    ensures r == PasswordTooShort <==>
      Trim(contrasena) != [] && Utf16Length(Trim(usuario)) >= 4 && Utf16Length(Trim(contrasena)) < 4
    ensures r == Welcome <==> Trim(usuario) == ValidUser && Trim(contrasena) == ValidPassword
    ensures r == WrongCredentials <==>
      && Utf16Length(Trim(usuario)) >= 4 && Utf16Length(Trim(contrasena)) >= 4
      && !(Trim(usuario) == ValidUser && Trim(contrasena) == ValidPassword)
  {
    var u := Trim(usuario);
    var p := Trim(contrasena);
    if u == [] || p == [] then MissingFields
    else if Utf16Length(u) < 4 then UserTooShort
    else if Utf16Length(p) < 4 then PasswordTooShort
    else if u == ValidUser && p == ValidPassword then Welcome
    else WrongCredentials
  }

  /** The registration handler. Checks run in this order: empty field, user
      length, e-mail shape, password strength, password repetition, user
      already taken; the first that fails decides the alert. */
  function Register(usuario: string, email: string, contrasena: string, repetirContrasena: string): (r: Alert)
    ensures IsRegisterAlert(r)
    ensures r == MissingRegistrationFields <==>
      Trim(usuario) == [] || Trim(email) == [] || Trim(contrasena) == [] || Trim(repetirContrasena) == []
    ensures r == UserTooShort <==>
      && Trim(usuario) != [] && Trim(email) != [] && Trim(contrasena) != [] && Trim(repetirContrasena) != []
      && Utf16Length(Trim(usuario)) < 4
    ensures r == InvalidEmail <==>
      && Utf16Length(Trim(usuario)) >= 4 && Trim(email) != [] && Trim(contrasena) != [] && Trim(repetirContrasena) != []
      && !EsCorreoValido(Trim(email))
    ensures r == WeakPassword <==>
      && Utf16Length(Trim(usuario)) >= 4 && EsCorreoValido(Trim(email))
      && Trim(contrasena) != [] && Trim(repetirContrasena) != [] && !EsContrasenaSegura(Trim(contrasena))
    ensures r == PasswordMismatch <==>
      && Utf16Length(Trim(usuario)) >= 4 && EsCorreoValido(Trim(email)) && EsContrasenaSegura(Trim(contrasena))
      && Trim(repetirContrasena) != [] && Trim(contrasena) != Trim(repetirContrasena)
    ensures r == UserTaken <==>
      && Trim(usuario) == ValidUser && EsCorreoValido(Trim(email)) && EsContrasenaSegura(Trim(contrasena))
      && Trim(contrasena) == Trim(repetirContrasena)
    ensures r.Registered? <==>
      && Utf16Length(Trim(usuario)) >= 4 && EsCorreoValido(Trim(email)) && EsContrasenaSegura(Trim(contrasena))
      && Trim(contrasena) == Trim(repetirContrasena) && Trim(usuario) != ValidUser
    ensures r.Registered? ==> r.usuario == Trim(usuario)
  {
    var u := Trim(usuario);
    var e := Trim(email);
    var p := Trim(contrasena);
    var q := Trim(repetirContrasena);
    if u == [] || e == [] || p == [] || q == [] then MissingRegistrationFields
    else if Utf16Length(u) < 4 then UserTooShort
    else if !EsCorreoValido(e) then InvalidEmail
    else if !EsContrasenaSegura(p) then WeakPassword
    else if p != q then PasswordMismatch
    else if u == ValidUser then UserTaken
    else Registered(u)
  }

  /** A successful registration passed every check. */
  lemma RegisteredPassedEveryCheck(usuario: string, email: string, contrasena: string, repetirContrasena: string)
    requires Register(usuario, email, contrasena, repetirContrasena).Registered?
    ensures Trim(usuario) != [] && Trim(email) != [] && Trim(contrasena) != [] && Trim(repetirContrasena) != []
    ensures Utf16Length(Trim(usuario)) >= 4
    ensures EsCorreoValido(Trim(email)) && Occurrences(Trim(email), '@') == 1
    ensures EsContrasenaSegura(Trim(contrasena)) && |Trim(contrasena)| >= 5
    ensures Trim(contrasena) == Trim(repetirContrasena)
    ensures Trim(usuario) != ValidUser
  {
    ValidEmailHasOneAt(Trim(email));
  }

  /** Whitespace around either login field never changes the alert. */
  lemma LoginIgnoresPadding(usuario: string, contrasena: string, pre1: string, post1: string, pre2: string, post2: string)
    requires AllSpace(pre1) && AllSpace(post1) && AllSpace(pre2) && AllSpace(post2)
    ensures Login(pre1 + usuario + post1, pre2 + contrasena + post2) == Login(usuario, contrasena)
  {
    TrimPadded(pre1, usuario, post1);
    TrimPadded(pre2, contrasena, post2);
  }

  /** The login alert depends only on the trimmed fields. */
  lemma LoginSeesTrimmed(usuario: string, contrasena: string)
    ensures Login(usuario, contrasena) == Login(Trim(usuario), Trim(contrasena))
  {
    TrimIdempotent(usuario);
    TrimIdempotent(contrasena);
  }

  /** The registration alert depends only on the trimmed fields, so
      whitespace around any of them never changes it. */
  lemma RegisterSeesTrimmed(usuario: string, email: string, contrasena: string, repetirContrasena: string)
    ensures Register(usuario, email, contrasena, repetirContrasena)
         == Register(Trim(usuario), Trim(email), Trim(contrasena), Trim(repetirContrasena))
  {
    TrimIdempotent(usuario);
    TrimIdempotent(email);
    TrimIdempotent(contrasena);
    TrimIdempotent(repetirContrasena);
  }

  /** Two characters above U+FFFF count as four: the user-length check lets
      them through. */
  lemma AstralUserLength()
    ensures Login("\U{1F600}\U{1F600}", "abcd") == WrongCredentials
  {
    TrimOfTrimmed("\U{1F600}\U{1F600}");
    TrimOfTrimmed("abcd");
  }

  /** A user name shorter than four code units wins over a short password. */
  lemma ShortUserReportedFirst(usuario: string, contrasena: string)
    requires Trim(usuario) != [] && Trim(contrasena) != []
    requires Utf16Length(Trim(usuario)) < 4 && Utf16Length(Trim(contrasena)) < 4
    ensures Login(usuario, contrasena) == UserTooShort
  {
  }
}
