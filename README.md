# Login and registration form validation

This project models the submit handlers of the two form scripts of a small
client-side social-feed demo, JS/login.js and JS/home.js. Each handler reads
its text fields, trims them, runs an ordered chain of early-return checks and
shows exactly one alert. The model lifts each chain out of its DOM wrapper as
a pure function from the raw field values to the alert it would show
(`Alerts.Alert`, one constructor per distinct alert text).

- `JsString`: JavaScript's `String.prototype.trim`, the whitespace set it
  strips (which is also the set the regular-expression class `\s` matches),
  and the `length` property, which counts UTF-16 code units.
- `LoginScript` (JS/login.js, the strict script): the hardcoded account
  `sebas` / `12345`, the e-mail pattern `^[^\s@]+@[^\s@]+\.[^\s@]+$` as
  `EsCorreoValido`, the password pattern
  `^(?=.*[A-Za-z])(?=.*\d)[A-Za-z\d]{5,}$` as `EsContrasenaSegura`, and the
  login and registration handlers.
- `HomeScript` (JS/home.js, the lax script): the same two handlers with only
  the empty-field, credential and repetition checks.
- `Variants`: how the strict handlers relate to the lax ones.

Modelling choices:

- Whitespace is the exact ECMAScript set: the WhiteSpace code points (tab,
  vertical tab, form feed, space, no-break space, byte-order mark, Unicode
  category Zs) and the LineTerminator code points (LF, CR, U+2028, U+2029).
- `usuario.length < 4` is modelled with `Utf16Length`: a code point above
  U+FFFF counts twice, as in JavaScript, so a user name of two emoji passes
  the four-character check (`LoginScript.AstralUserLength`).
- Each regular expression is written as an explicit predicate that reads like
  the pattern. The password lookaheads keep the detail that `.` does not match
  a line terminator; `LoginScript.SecurePasswordIff` shows that this detail
  never matters, because the whole password must be ASCII letters and digits.
- Neither pattern has the `u` flag, so JavaScript matches them over UTF-16
  code units while the predicates here work over code points. The answers
  agree: both halves of a surrogate pair belong to `[^\s@]`, just as the code
  point they encode does, and neither half nor the code point belongs to
  `[A-Za-z\d]`.

## Model

| member | source | states |
|---|---|---|
| JsString.IsSpace | JS/login.js:27 | the whitespace set of `trim` and `\s`; every member lies below U+10000 (so it is one code unit) and is neither '@' nor '.' |
| Alerts.SharedAlerts | JS/login.js:44-112 | the only alert text both handlers of a script can show is the user-too-short one; every other outcome belongs to one handler |
| JsString.TrimStart | JS/login.js:39-40 | the result has no leading whitespace and is no longer than the input |
| JsString.TrimEnd | JS/login.js:39-40 | the result has no trailing whitespace, keeps the first character, and is no longer than the input |
| JsString.Trim | JS/login.js:71-74 | the trimmed value has whitespace at neither end |
| JsString.TrimStartSplit | JS/login.js:39-40 | what the leading trim removes is a whitespace prefix: input = prefix + result |
| JsString.TrimEndSplit | JS/login.js:39-40 | what the trailing trim removes is a whitespace suffix: input = result + suffix |
| JsString.TrimSplit | JS/login.js:71-74 | every input is whitespace, then its trim, then whitespace |
| JsString.TrimEmptyIffAllSpace | JS/login.js:43 | a field trims to the empty string exactly when it is all whitespace |
| JsString.TrimStartSkipsSpace | JS/home.js:35-36 | a whitespace prefix does not change the leading trim |
| JsString.TrimEndSkipsSpace | JS/home.js:35-36 | a whitespace suffix does not change the trailing trim |
| JsString.TrimStartKeepsTail | JS/home.js:35-36 | once a non-space character exists, what follows it survives the leading trim unchanged |
| JsString.TrimPadded | JS/home.js:63-66 | adding whitespace on either side of a value never changes its trim |
| JsString.TrimOfTrimmed | JS/home.js:63-66 | a value with no surrounding whitespace is its own trim |
| JsString.TrimIdempotent | JS/login.js:71-74 | trimming twice is trimming once |
| JsString.TrimUnique | JS/login.js:71-74 | the trim is the only whitespace-free-ended value the input surrounds with whitespace |
| JsString.Utf16Length | JS/login.js:49 | the length property lies between the number of code points and twice that |
| JsString.Utf16LengthOfBmp | JS/login.js:53 | for code points below U+10000 the length property equals the number of characters |
| LoginScript.EsCorreoValido | JS/login.js:25-28 | the e-mail pattern as a predicate; an accepted address has at least 5 characters and starts and ends with a character of `[^\s@]`; EmailOfParts and EmailParts characterise it in both directions |
| LoginScript.EmailOfParts | JS/login.js:27 | every a@b.c built from three non-empty runs without whitespace or '@' matches the e-mail pattern |
| LoginScript.EmailParts | JS/login.js:27 | every match of the e-mail pattern is such an a@b.c |
| LoginScript.ValidEmailHasOneAt | JS/login.js:27 | an accepted address contains exactly one '@' |
| LoginScript.ValidEmailHasNoSpace | JS/login.js:27 | an accepted address contains no whitespace, so trimming it changes nothing |
| LoginScript.AcceptedEmailExample | JS/login.js:25-28 | sebas@mail.com is accepted |
| LoginScript.DottedEmailExample | JS/login.js:25-28 | dots before the '@' and several dots after it are accepted |
| LoginScript.RefusedEmailExamples | JS/login.js:25-28 | a second '@' or no dot after the '@' is refused |
| LoginScript.EsContrasenaSegura | JS/login.js:31-33 | the password pattern as a predicate, written as its two lookaheads and its repeated class; an accepted password is ASCII with no whitespace; SecurePasswordIff characterises it in both directions |
| LoginScript.SecurePasswordIff | JS/login.js:32 | the password pattern accepts exactly five or more ASCII letters and digits with at least one letter and one digit |
| LoginScript.SecurePasswordIsPlain | JS/login.js:31-33 | an accepted password contains no whitespace anywhere, is its own trim, and its length property counts its characters |
| LoginScript.ValidPasswordIsWeak | JS/login.js:32 | the hardcoded password 12345 would fail the strength check |
| LoginScript.Login | JS/login.js:36-65 | empty-field alert iff a trimmed field is empty; user-too-short iff both filled and the user has fewer than 4 code units; password-too-short iff the user passed and the password is short; welcome iff the trimmed fields are exactly sebas / 12345; wrong credentials for every other input that passes the length checks |
| LoginScript.ShortUserReportedFirst | JS/login.js:49-56 | a short user with a short password reports the user |
| LoginScript.AstralUserLength | JS/login.js:49-52 | two characters above U+FFFF pass the four-character user check |
| LoginScript.LoginIgnoresPadding | JS/login.js:39-40 | whitespace around either login field never changes the alert |
| LoginScript.LoginSeesTrimmed | JS/login.js:39-40 | the login alert depends only on the trimmed fields |
| LoginScript.Register | JS/login.js:68-114 | each of the seven alerts is characterised by an iff that fixes the check order empty fields, user length, e-mail, password strength, repetition, user taken: empty-field iff any trimmed field is empty; user-too-short, invalid-email, weak-password, mismatch and user-taken each exactly when every earlier check passed and theirs fails; success iff the user has at least 4 code units, the e-mail and password match their patterns, the passwords agree and the user is not sebas, and then the alert names the trimmed user |
| LoginScript.RegisteredPassedEveryCheck | JS/login.js:77-112 | a successful registration had four non-empty fields, a long enough user, an e-mail with one '@', a secure password of at least 5 characters, equal passwords and a new user name |
| LoginScript.RegisterSeesTrimmed | JS/login.js:71-74 | the registration alert depends only on the trimmed fields |
| HomeScript.Login | JS/home.js:28-55 | only three alerts: empty-field iff a trimmed field is empty, welcome iff the trimmed fields are sebas / 12345, otherwise wrong credentials |
| HomeScript.Register | JS/home.js:59-84 | only three alerts: empty-field iff a trimmed field is empty, mismatch iff all filled and the passwords differ, success naming the trimmed user iff all filled and the passwords agree |
| HomeScript.PaddedCredentialsWelcome | JS/home.js:35-46 | whitespace around the hardcoded credentials still logs in |
| HomeScript.LoginIgnoresPadding | JS/home.js:35-36 | whitespace around either login field never changes the alert |
| HomeScript.RegisterSeesTrimmed | JS/home.js:63-66 | the registration alert depends only on the trimmed fields |
| Variants.LoginVariantsAgree | JS/home.js:39-54 | the lax login shows the strict login's alert, except that the strict length errors become wrong credentials; both accept the same inputs |
| Variants.StrictRegistrationAcceptedByLax | JS/home.js:69-82 | every registration the strict handler accepts, the lax one accepts with the same alert |
| Variants.RegistrationRejectionsAgree | JS/home.js:69-77 | both report missing fields on the same inputs; a strict mismatch is a lax mismatch |
| Variants.OnlyLaxRegistersValidUser | JS/home.js:69-82 | the lax handler registers the hardcoded user again, the strict one never does |
| Variants.ShortUserExample | JS/home.js:46-54 | a two-letter user is too short for the strict login and merely wrong for the lax one |

## Left out

- DOM plumbing: element lookups, event listeners, `preventDefault`, the
  `alert` call itself (the model returns which alert would be shown, not its
  text) and `registerForm.reset()`.
- Nothing persists: a successful registration does not add an account; the
  only account is the hardcoded constant, as in both scripts.
- The feed store (posts, likes, delete) and its renderer: no code for them is
  part of this model, because none of it is in the two form scripts.
- Strings are sequences of Unicode scalar values; a lone UTF-16 surrogate,
  which a JavaScript string can hold, cannot be represented.
- Regular expressions in general: only the two patterns the scripts use are
  modelled, each as an explicit predicate.
