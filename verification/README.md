# MyFolio in Dafny

MyFolio is a portfolio site. Users register, sign in, reset a forgotten
password, and edit their profile, profile image and projects on three
settings pages. Each user also has a public portfolio page. This project
models two parts of it and proves properties of the model:

- **The Spring backend.** The user, project, authentication and email
  services; the input guards of the authentication controller; the global
  exception handler; and the `ApiError` body it returns.
- **The React frontend.** The HTTP client with its bearer-token
  interceptor; the validation schemas and submit/reply handlers of every
  page; the settings layout; and the default avatar.

Modelling choices:

- Stores are immutable maps from id to record. Java nulls and JavaScript
  null/undefined are `Option`s or explicit `JsValue` cases.
- An operation that throws returns `Err`.
- A repository query that must match at most one row returns `Lookup`:
  no row, one row, or several.
- Anything the code gets from outside is a parameter:
  - the password encoder, the JWT generator and the authentication
    manager's verdict;
  - `new URL(...)`, `UUID.randomUUID()` and the clock;
  - the mail sender's outcome;
  - Yup's email and URL tests, `JSON.parse` and `window.confirm`;
  - the server's reply to each call.

Files and modules:

| file | module | what it holds |
|---|---|---|
| wrappers.dfy | Wrappers | `Option`, `Result`, `Lookup` |
| text.dfy | Text | Java `trim`, `lastIndexOf`, `toLowerCase`; JavaScript `split`, `join`, `toUpperCase` |
| js.dfy | Js | JavaScript values, truthiness, property access, `String(v)` |
| exceptions.dfy | Exceptions | HTTP statuses and exception kinds |
| api_error.dfy | ApiErrors | `ApiError` and its constructors |
| exception_handler.dfy | ExceptionHandler | `GlobalExceptionHandler` |
| entities.dfy | Entities | users, projects, repository queries |
| user_service.dfy | UserService | `UserService` |
| project_service.dfy | ProjectService | `ProjectService` |
| email_service.dfy | EmailService | `EmailService` |
| auth_service.dfy | AuthService | `AuthenticationService` |
| auth_controller.dfy | AuthController | `AuthController` |
| session.dfy | Session | `localStorage` |
| api.dfy | Api | `services/api.js` |
| validation.dfy | Validation | Yup schemas and Formik validity |
| ui.dfy | Ui | form state, effects, shared page helpers |
| login_page.dfy … portfolio_page.dfy | one per page | the pages |
| settings_layout.dfy | SettingsLayout | `SettingsLayout.js` |
| default_avatar.dfy | DefaultAvatar | `DefaultAvatar.js` |

## Model

| member | source | states |
|---|---|---|
| Wrappers.Unique | MyFolio_BE/src/main/java/com/bluecyber/MyFolio_BE/repository/UserRepository.java:11-13 | a single-row query finds nothing exactly when no row matches, names the matching row when exactly one does, and reports several rows otherwise |
| Entities.Save | MyFolio_BE/src/main/java/com/bluecyber/MyFolio_BE/service/UserService.java:44-46 | saving a user replaces the row under its id and keeps every other row |
| Entities.FindByEmail | MyFolio_BE/src/main/java/com/bluecyber/MyFolio_BE/repository/UserRepository.java:11 | no row iff no user has the email; a single row found has that email and is the only user with it |
| Entities.FindByResetToken | MyFolio_BE/src/main/java/com/bluecyber/MyFolio_BE/repository/UserRepository.java:13 | no row iff no user holds the token; a single row found is the only holder |
| Entities.UniqueEmailFindsOne | MyFolio_BE/src/main/java/com/bluecyber/MyFolio_BE/repository/UserRepository.java:11 | with unique emails, a user's own email finds exactly that user |
| Entities.SoleHolderFound | MyFolio_BE/src/main/java/com/bluecyber/MyFolio_BE/repository/UserRepository.java:13 | the only user holding a reset token is the one the token lookup returns |
| Text.Trim | MyFolio_BE/src/main/java/com/bluecyber/MyFolio_BE/controller/AuthController.java:47 | the result is an infix of the input; only characters up to U+0020 are removed, and only from the ends |
| Text.BlankIffAllTrimmable | MyFolio_BE/src/main/java/com/bluecyber/MyFolio_BE/controller/AuthController.java:42 | `s.trim().isEmpty()` holds exactly when every character is at most U+0020, the empty string included |
| Text.TrimExact | MyFolio_BE/src/main/java/com/bluecyber/MyFolio_BE/controller/AuthController.java:47 | when the first and last non-whitespace characters sit at i and j-1, the trimmed text is exactly the characters between them |
| Text.TrimPad | MyFolio_BE/src/main/java/com/bluecyber/MyFolio_BE/controller/AuthController.java:47 | whitespace added around a non-blank string is trimmed away again |
| Text.PaddedTrimBounds | MyFolio_BE/src/main/java/com/bluecyber/MyFolio_BE/controller/AuthController.java:47 | one leading and one trailing whitespace character move the trimmed bounds of a text out by one position, with whitespace still all around |
| Text.LastIndexOf | MyFolio_BE/src/main/java/com/bluecyber/MyFolio_BE/service/UserService.java:93 | -1 exactly when the character is absent; otherwise the position of the character with no later occurrence |
| Text.Lower | MyFolio_BE/src/main/java/com/bluecyber/MyFolio_BE/service/UserService.java:93 | same length; each character is mapped on its own |
| Text.Upper | myfolio_fe/src/components/common/DefaultAvatar.js:22 | same length; each character is mapped on its own |
| Text.Split | myfolio_fe/src/components/common/DefaultAvatar.js:19 | never empty; no piece contains the separator |
| Text.JoinSplit | myfolio_fe/src/components/common/DefaultAvatar.js:19-21 | splitting on a separator and joining on it again gives back the original string |
| Text.Utf16Length | myfolio_fe/src/pages/ResetPassword.js:137 | JavaScript's `length`: at least the number of characters and at most twice it |
| Text.Utf16LengthIsCountIffBmp | myfolio_fe/src/pages/ResetPassword.js:137 | `length` equals the number of characters iff no character lies outside the Basic Multilingual Plane |
| Text.Utf16LengthAppend | myfolio_fe/src/pages/ResetPassword.js:137 | `length` is additive over concatenation |
| ApiErrors.OfStatus | MyFolio_BE/src/main/java/com/bluecyber/MyFolio_BE/exception/ApiError.java:27-30 | only the status and the timestamp are set; the sub-error list starts empty |
| ApiErrors.OfMessage | MyFolio_BE/src/main/java/com/bluecyber/MyFolio_BE/exception/ApiError.java:32-36 | status and message are set; there is no debug message |
| ApiErrors.OfThrowable | MyFolio_BE/src/main/java/com/bluecyber/MyFolio_BE/exception/ApiError.java:38-43 | the message is the generic "Unexpected error"; the debug message is the cause's message |
| ApiErrors.OfMessageAndThrowable | MyFolio_BE/src/main/java/com/bluecyber/MyFolio_BE/exception/ApiError.java:45-50 | the given message, and the cause's message as debug message |
| ApiErrors.AddSubError | MyFolio_BE/src/main/java/com/bluecyber/MyFolio_BE/exception/ApiError.java:52-57 | a null list is created first; the element is appended; nothing else changes |
| ApiErrors.AddSubErrorsAppends | MyFolio_BE/src/main/java/com/bluecyber/MyFolio_BE/exception/ApiError.java:52-57 | repeated adds keep earlier entries, append the new ones in order, and change nothing else |
| ApiErrors.FreshErrorCollectsExactly | MyFolio_BE/src/main/java/com/bluecyber/MyFolio_BE/exception/ApiError.java:52-57 | starting from a constructed error, the list ends up exactly as the sequence added |
| ExceptionHandler.Build | MyFolio_BE/src/main/java/com/bluecyber/MyFolio_BE/exception/GlobalExceptionHandler.java:104-106 | the response status is the body's status |
| Exceptions.Exception.Message | MyFolio_BE/src/main/java/com/bluecyber/MyFolio_BE/exception/GlobalExceptionHandler.java:100 | `getMessage()`: a `ResponseStatusException` gives its status text and the quoted reason; a null-pointer error gives its detail, absent only when thrown by hand; every other kind gives the message it was built with |
| ExceptionHandler.FieldErrorMap | MyFolio_BE/src/main/java/com/bluecyber/MyFolio_BE/exception/GlobalExceptionHandler.java:65-70 | the map's keys are exactly the fields that have errors |
| ExceptionHandler.FieldErrorMapKeepsLast | MyFolio_BE/src/main/java/com/bluecyber/MyFolio_BE/exception/GlobalExceptionHandler.java:65-70 | a field with several errors carries the message of the last one |
| ExceptionHandler.Handle | MyFolio_BE/src/main/java/com/bluecyber/MyFolio_BE/exception/GlobalExceptionHandler.java:94-102 | a kind no dedicated handler matches, `ResponseStatusException` included, gets 500 "An unexpected error occurred" with the exception's own message as debug message; every reply has the body's status, the given time and an empty sub-error list |
| ExceptionHandler.Reply | MyFolio_BE/src/main/java/com/bluecyber/MyFolio_BE/exception/GlobalExceptionHandler.java:25-27 | the reply carries the chosen status in both the response and the body, the message and debug message given, and no sub-errors |
| ExceptionHandler.DedicatedHandlers | MyFolio_BE/src/main/java/com/bluecyber/MyFolio_BE/exception/GlobalExceptionHandler.java:22-92 | each of the eight dedicated handlers gives its status (409, 401, 404, 401, 401, 400, 400, 400), its message, and for the two validation handlers the debug message |
| ExceptionHandler.ServerErrorIffCatchAll | MyFolio_BE/src/main/java/com/bluecyber/MyFolio_BE/exception/GlobalExceptionHandler.java:22-102 | the reply is 500 exactly when no dedicated handler matches |
| ExceptionHandler.ServiceStatusBecomesServerError | MyFolio_BE/src/main/java/com/bluecyber/MyFolio_BE/exception/GlobalExceptionHandler.java:94-102 | as written, any `ResponseStatusException` reaches the client as 500 with the generic message |
| ExceptionHandler.WrongPasswordIsReportedAs500 | MyFolio_BE/src/main/java/com/bluecyber/MyFolio_BE/exception/GlobalExceptionHandler.java:94-102 | as written, a wrong current password is answered with 500 and without its reason |
| ExceptionHandler.HandleRespectingStatus | MyFolio_BE/src/main/java/com/bluecyber/MyFolio_BE/exception/GlobalExceptionHandler.java:94-102 | corrected mapping: a `ResponseStatusException` keeps its status and reason; every other kind is handled as before |
| ExceptionHandler.IntendedKeepsClientErrors | MyFolio_BE/src/main/java/com/bluecyber/MyFolio_BE/exception/GlobalExceptionHandler.java:94-102 | under the corrected mapping, a client error from a service never becomes a server error |
| UserService.GetCurrentUser | MyFolio_BE/src/main/java/com/bluecyber/MyFolio_BE/service/UserService.java:33-37 | a result is a stored user with the principal's email; 404 "User not found" exactly when no user has it |
| UserService.CurrentUserFound | MyFolio_BE/src/main/java/com/bluecyber/MyFolio_BE/service/UserService.java:33-37 | with unique emails, a user's own email always finds that user |
| UserService.GetUserById | MyFolio_BE/src/main/java/com/bluecyber/MyFolio_BE/service/UserService.java:39-42 | succeeds iff the id is stored, with that row; otherwise 404 |
| UserService.UpdateProfile | MyFolio_BE/src/main/java/com/bluecyber/MyFolio_BE/service/UserService.java:48-54 | name, job title and bio become the request's; every other field and every other user is unchanged; the lookup error is passed on |
| UserService.RemoveImage | MyFolio_BE/src/main/java/com/bluecyber/MyFolio_BE/service/UserService.java:56-69 | afterwards there is no image; a user without one is returned unsaved |
| UserService.DeleteProfileImage | MyFolio_BE/src/main/java/com/bluecyber/MyFolio_BE/service/UserService.java:56-69 | the lookup error is passed on unchanged; a user with an image is saved with the image cleared, every other field and row untouched; a user without one leaves the store as it was |
| UserService.ExtensionOf | MyFolio_BE/src/main/java/com/bluecyber/MyFolio_BE/service/UserService.java:92-93 | as written: a null name gives ""; a name with a '.' gives the lower-cased suffix from its last '.'; a name without one throws an index error reporting begin -1 and the name's `length()` in UTF-16 code units |
| UserService.EmojiNameLengthInCodeUnits | MyFolio_BE/src/main/java/com/bluecyber/MyFolio_BE/service/UserService.java:93 | a name that is one emoji reports "begin -1, end 2, length 2" |
| UserService.PlainNameLengthInCodeUnits | MyFolio_BE/src/main/java/com/bluecyber/MyFolio_BE/service/UserService.java:93 | the name "photo" reports "begin -1, end 5, length 5" |
| UserService.DecideImage | MyFolio_BE/src/main/java/com/bluecyber/MyFolio_BE/service/UserService.java:76-96 | as written: no file or an empty one means removal; over 10 MB is refused with 400 whatever the name; for an in-range upload, an extension error (a dotless name) is thrown as it is, a disallowed extension gets 400 "Only JPG, PNG and GIF files are allowed", and an allowed one is accepted |
| UserService.SizeCheckedBeforeName | MyFolio_BE/src/main/java/com/bluecyber/MyFolio_BE/service/UserService.java:87-96 | an oversize upload is refused for its size whatever its name; exactly 10 MB is accepted |
| UserService.NamelessAndDotlessUploads | MyFolio_BE/src/main/java/com/bluecyber/MyFolio_BE/service/UserService.java:93 | as written, a null name gets the 400 extension error, but a name without '.' gets an index error instead |
| UserService.ExtensionOfCorrected | MyFolio_BE/src/main/java/com/bluecyber/MyFolio_BE/service/UserService.java:92-93 | corrected rule: agrees with the code whenever the name has a '.'; no name or no '.' gives "" |
| UserService.DecideImageCorrected | MyFolio_BE/src/main/java/com/bluecyber/MyFolio_BE/service/UserService.java:76-96 | corrected checks: every refusal is a 400; an in-range upload that is refused gets the extension message; agrees with the code except on dotless names |
| UserService.DotlessRejectedWith400 | MyFolio_BE/src/main/java/com/bluecyber/MyFolio_BE/service/UserService.java:94-96 | under the corrected rule, a dotless name gets the 400 extension message |
| UserService.UpdateProfileImageCorrected | MyFolio_BE/src/main/java/com/bluecyber/MyFolio_BE/service/UserService.java:71-128 | corrected operation: every refusal of a found user is a 400; it agrees with the code on every upload except a named one without '.' |
| UserService.DotlessUploadOutcomes | MyFolio_BE/src/main/java/com/bluecyber/MyFolio_BE/service/UserService.java:93 | a 1-byte upload named "photo" ends in an index error as written and in the 400 extension message once corrected |
| UserService.UpdateProfileImage | MyFolio_BE/src/main/java/com/bluecyber/MyFolio_BE/service/UserService.java:71-128 | as written: the lookup error is passed on; removal equals the delete operation; a refusal, the index error of a dotless name included, is thrown; an accepted file is stored under the random name plus its extension |
| UserService.Store | MyFolio_BE/src/main/java/com/bluecyber/MyFolio_BE/service/UserService.java:76-121 | removal clears the image, a refusal is thrown, an acceptance saves the user with the new file name and nothing else changed |
| UserService.EmptyUploadIsDelete | MyFolio_BE/src/main/java/com/bluecyber/MyFolio_BE/service/UserService.java:76-84 | uploading nothing or an empty file is the same operation as deleting the image |
| UserService.ChangePassword | MyFolio_BE/src/main/java/com/bluecyber/MyFolio_BE/service/UserService.java:130-146 | the current password is checked before the confirmation; either failure leaves the store as it was; success changes only the encoded password |
| ProjectService.GetUserProjects | MyFolio_BE/src/main/java/com/bluecyber/MyFolio_BE/service/ProjectService.java:23-36 | never fails; an unknown user has no projects; a known user gets exactly the stored projects they own |
| ProjectService.ValidateUrl | MyFolio_BE/src/main/java/com/bluecyber/MyFolio_BE/service/ProjectService.java:38-47 | accepted iff null, empty or parseable; a refusal is 400 naming the field |
| ProjectService.ValidateUrls | MyFolio_BE/src/main/java/com/bluecyber/MyFolio_BE/service/ProjectService.java:67-68 | the demo URL is checked first; only when it passes does the repository URL's verdict count |
| ProjectService.SaveProject | MyFolio_BE/src/main/java/com/bluecyber/MyFolio_BE/entity/Project.java:22-23 | the save succeeds iff the name is present and not blank once trimmed (`@NotBlank`), storing the row under its id; otherwise it throws Bean Validation's constraint violation |
| ProjectService.AddProject | MyFolio_BE/src/main/java/com/bluecyber/MyFolio_BE/service/ProjectService.java:49-64 | URLs are checked before the user lookup, whose error is passed on; with valid URLs and a found user the add succeeds iff the name is not blank, and a blank name is Bean Validation's refusal; a new row gets the request's four fields and the signed-in user as owner, and nothing else changes |
| ProjectService.UpdateProject | MyFolio_BE/src/main/java/com/bluecyber/MyFolio_BE/service/ProjectService.java:66-85 | checked in order: URLs, then 404, then the user lookup's error, then 403 for a non-owner; for the owner with valid URLs it succeeds iff the name is not blank; success changes exactly the four editable fields of that project |
| ProjectService.DeleteProject | MyFolio_BE/src/main/java/com/bluecyber/MyFolio_BE/service/ProjectService.java:87-98 | 404 when absent, then the user lookup's error, then 403 when not owned; the owner's delete succeeds and removes exactly that project |
| ProjectService.AddedProjectIsListed | MyFolio_BE/src/main/java/com/bluecyber/MyFolio_BE/service/ProjectService.java:49-64 | an added project appears in its owner's listing, which grows by exactly one |
| ProjectService.DeletedProjectIsUnlisted | MyFolio_BE/src/main/java/com/bluecyber/MyFolio_BE/service/ProjectService.java:87-98 | a deleted project leaves every listing, and nothing else leaves |
| ProjectService.UpdatedProjectStaysListed | MyFolio_BE/src/main/java/com/bluecyber/MyFolio_BE/service/ProjectService.java:66-85 | after an update every listing holds the same projects, the updated one with its new fields |
| EmailService.Link | MyFolio_BE/src/main/java/com/bluecyber/MyFolio_BE/service/EmailService.java:65 | the link is the fixed prefix followed by exactly the token |
| EmailService.TokenInLink | MyFolio_BE/src/main/java/com/bluecyber/MyFolio_BE/service/EmailService.java:65 | reading a link back succeeds iff it starts with the prefix, and gives what follows it |
| EmailService.LinkCarriesToken | MyFolio_BE/src/main/java/com/bluecyber/MyFolio_BE/service/EmailService.java:32 | reading a built link back gives exactly the token it was built with |
| EmailService.WithVerificationToken | MyFolio_BE/src/main/java/com/bluecyber/MyFolio_BE/service/EmailService.java:35-36 | sets the token and an expiry one hour from now, and nothing else |
| EmailService.WithResetToken | MyFolio_BE/src/main/java/com/bluecyber/MyFolio_BE/service/EmailService.java:68-69 | sets the reset token and an expiry one hour from now, and nothing else |
| EmailService.SendVerificationEmail | MyFolio_BE/src/main/java/com/bluecyber/MyFolio_BE/service/EmailService.java:29-59 | the token is saved whatever happens; success iff delivered; a messaging failure is rethrown with a fixed text; a sender failure escapes as it is |
| EmailService.SendPasswordResetEmail | MyFolio_BE/src/main/java/com/bluecyber/MyFolio_BE/service/EmailService.java:62-130 | the token is saved whatever happens; success iff delivered; each failure kind is rethrown with its own fixed text |
| EmailService.ResetTokenSurvivesMailFailure | MyFolio_BE/src/main/java/com/bluecyber/MyFolio_BE/service/EmailService.java:68-70 | the store after a failed send equals the store after a delivered one, and holds the token |
| AuthService.NewUser | MyFolio_BE/src/main/java/com/bluecyber/MyFolio_BE/service/AuthenticationService.java:34-38 | the new row has the request's name and email, the encoded password, and no profile or reset data |
| AuthService.Register | MyFolio_BE/src/main/java/com/bluecyber/MyFolio_BE/service/AuthenticationService.java:29-53 | refused iff the email is taken; success adds exactly one row, with the request's data and a verification token valid for one hour, leaves other rows alone, and returns the token the JWT service issues for that saved row |
| AuthService.RegisterIgnoresMailFailure | MyFolio_BE/src/main/java/com/bluecyber/MyFolio_BE/service/AuthenticationService.java:42-47 | registration gives the same result whatever the mail sender does |
| AuthService.RegisterKeepsEmailsUnique | MyFolio_BE/src/main/java/com/bluecyber/MyFolio_BE/service/AuthenticationService.java:30-32 | registration preserves the invariant that no two users share an email |
| AuthService.Authenticate | MyFolio_BE/src/main/java/com/bluecyber/MyFolio_BE/service/AuthenticationService.java:55-68 | the manager's exception is passed on; an unknown email is "User not found"; a single matching row gets the JWT service's token for it, and a token is issued only for a stored user with that email |
| AuthService.InitiatePasswordReset | MyFolio_BE/src/main/java/com/bluecyber/MyFolio_BE/service/AuthenticationService.java:70-86 | an unknown email returns normally with nothing changed; a known one gets a fresh reset token; a failed send is rethrown with a fixed text and the token stays |
| AuthService.ResetPassword | MyFolio_BE/src/main/java/com/bluecyber/MyFolio_BE/service/AuthenticationService.java:88-100 | an unknown token or an expiry before now is refused; a held token without an expiry fails unboxing, with the JVM's message naming the null expiry; otherwise the encoded new password is stored and the token and expiry are cleared |
| AuthService.NullExpiryReportedWithDetail | MyFolio_BE/src/main/java/com/bluecyber/MyFolio_BE/service/AuthenticationService.java:88-92 | a held token without an expiry reaches the client through the catch-all as a 500 whose debug message is the JVM's text naming the null expiry |
| AuthService.IssuedTokenValidForOneHour | MyFolio_BE/src/main/java/com/bluecyber/MyFolio_BE/service/AuthenticationService.java:92-93 | an issued reset token works exactly while at most one hour has passed, the boundary included, and then sets the new password |
| AuthService.TokenWorksOnce | MyFolio_BE/src/main/java/com/bluecyber/MyFolio_BE/service/AuthenticationService.java:96-99 | after one successful reset the same token is refused as invalid |
| AuthService.OnlyLatestTokenWorks | MyFolio_BE/src/main/java/com/bluecyber/MyFolio_BE/service/EmailService.java:68-70 | issuing a new reset token makes the previous one invalid |
| AuthController.ForgotPassword | MyFolio_BE/src/main/java/com/bluecyber/MyFolio_BE/controller/AuthController.java:38-55 | a missing or blank email is refused with 400 and no service call; otherwise the trimmed email is passed on, with the same 200 text for every non-failing outcome and a 500 text for any exception |
| AuthController.ForgotPasswordHidesAccounts | MyFolio_BE/src/main/java/com/bluecyber/MyFolio_BE/controller/AuthController.java:47-49 | a known address and an unknown one get the same reply when the known address's mail goes out |
| AuthController.MailFailureRevealsAccount | MyFolio_BE/src/main/java/com/bluecyber/MyFolio_BE/controller/AuthController.java:47-53 | when the known address's mail fails, it gets 500 while an unknown address gets 200 |
| AuthController.ForgotPasswordTrimsEmail | MyFolio_BE/src/main/java/com/bluecyber/MyFolio_BE/controller/AuthController.java:47 | whitespace around the email makes no difference to the outcome |
| AuthController.ResetPassword | MyFolio_BE/src/main/java/com/bluecyber/MyFolio_BE/controller/AuthController.java:57-71 | the token is checked before the password, and both must be non-blank; the service gets the trimmed token and the password as sent; success is an empty 200 |
| AuthController.AnyNonBlankPasswordAccepted | MyFolio_BE/src/main/java/com/bluecyber/MyFolio_BE/controller/AuthController.java:65-70 | with a valid token, any non-blank password is accepted and stored encoded exactly as sent |
| AuthController.PassesTokenAndPassword | MyFolio_BE/src/main/java/com/bluecyber/MyFolio_BE/controller/AuthController.java:69-70 | with both values present and the token trimmed, the endpoint answers as the service does |
| AuthController.ServiceAcceptsHolder | MyFolio_BE/src/main/java/com/bluecyber/MyFolio_BE/service/AuthenticationService.java:88-100 | the only holder of an unexpired token gets the new password stored |
| AuthController.VerifyEmail | MyFolio_BE/src/main/java/com/bluecyber/MyFolio_BE/controller/AuthController.java:73-84 | success is 200 with a fixed text; a failure is 400 with its message, except a failure without a message, which escapes as a null-pointer error |
| Session.GetItem | myfolio_fe/src/services/api.js:13 | null exactly when the key is absent, otherwise the stored text |
| Session.SetItem | myfolio_fe/src/pages/Login.js:169 | the key now holds the text of the value stored ("undefined" for undefined); every other key is kept |
| Session.RemoveItem | myfolio_fe/src/components/layout/SettingsLayout.js:146 | removes exactly one key |
| Session.StoreThenRead | myfolio_fe/src/pages/Login.js:169 | a stored value reads back as its text, a removed key reads as null, and other keys are unaffected |
| Api.Endpoint | myfolio_fe/src/services/api.js:33-88 | the verb, path and body of the auth calls, the image upload and the project listing; only an upload with a file is sent as multipart |
| Api.UserAndProjectEndpoints | myfolio_fe/src/services/api.js:48-87 | the verb, path and body of the other seven `user` and `projects` calls |
| Api.ProjectsPathUniform | myfolio_fe/src/services/api.js:75-78 | both branches of `getUserProjects` put the id's text after "/user/projects/" |
| Api.Intercept | myfolio_fe/src/services/api.js:12-19 | a non-empty stored token becomes the Bearer header; no other part of the request changes |
| Api.BearerCredentials | myfolio_fe/src/services/api.js:15 | the server's reading of the header: defined iff it starts with "Bearer ", and gives what follows |
| Api.StoredTokenReachesServer | myfolio_fe/src/services/api.js:12-19 | for every call, the server recovers exactly the stored token; with none stored there is no header |
| Api.Settle | myfolio_fe/src/services/api.js:22-31 | a reply resolves iff its status is 2xx, and is otherwise rejected as it came |
| Api.Exchange | myfolio_fe/src/services/api.js:11-31 | the request is the call's own verb, path and body and carries a stored token for the server to read back; the reply resolves iff it is a 2xx and otherwise rejects with that reply; storage is the same after every reply, a 401 included |
| Api.UnauthorizedKeepsToken | myfolio_fe/src/services/api.js:27-30 | a 401 neither removes the token nor changes the next request |
| Api.FailureText | myfolio_fe/src/pages/Register.js:180 | the server's message when it is truthy, else the fallback |
| Api.ServerMessage | myfolio_fe/src/pages/Register.js:180 | `error.response?.data?.message`: the reply body's message when the failure carries a response whose body has one, and undefined otherwise |
| Api.FailureTextCases | myfolio_fe/src/pages/Register.js:180 | the message shows when present and non-empty; the fallback shows for an empty message, a null body, no response, or a script error |
| Validation.Failing | myfolio_fe/src/pages/Register.js:149-161 | exactly the checks that fail, kept in schema order |
| Validation.EmptyFailsOnlyRequired | myfolio_fe/src/pages/Register.js:149-161 | an empty or missing field fails its `required` checks and nothing else |
| Validation.ValidIffAllPass | myfolio_fe/src/pages/Register.js:149-161 | a form is valid iff every check passes |
| Validation.ValidIffAllPassInOrder | myfolio_fe/src/pages/Register.js:149-161 | validity equals checking front to back |
| Validation.FieldErrors | myfolio_fe/src/pages/Register.js:149-161 | a message is listed for a field iff some failing check on that field carries it |
| Validation.SoleMessageShownIffFails | myfolio_fe/src/pages/Register.js:158-160 | a message only one check of its field carries is listed iff that check fails |
| Js.Get | myfolio_fe/src/pages/ProfileSettings.js:250-253 | `v.key` throws a TypeError iff `v` is undefined or null; on an object it is the property, or undefined when absent |
| Ui.Start | myfolio_fe/src/pages/Login.js:161-164 | a new form holds its initial values and is not dirty |
| Ui.SetValues | myfolio_fe/src/pages/ProfileSettings.js:257 | replaces the values and keeps the initial ones; dirty iff the new values differ from them |
| Ui.Reset | myfolio_fe/src/pages/ProjectSettings.js:223 | back to the initial values, not dirty |
| Ui.CleanFormCannotSubmit | myfolio_fe/src/pages/AccountSettings.js:186 | a fresh or reset form cannot be submitted; an enabled button means not busy and edited |
| Ui.Field | myfolio_fe/src/pages/Login.js:168 | a field in the form is its text; a missing one is undefined |
| Ui.ValuesObject | myfolio_fe/src/pages/AccountSettings.js:114-124 | the request body has exactly the form's keys, each mapped to its text |
| Ui.TextOr | myfolio_fe/src/pages/ProfileSettings.js:250-253 | a falsy value shows as "", a text as itself |
| Ui.Submit | myfolio_fe/src/pages/Login.js:166-175 | the submit handler runs iff the schema passes |
| Ui.ImageUrl | myfolio_fe/src/pages/ProfileSettings.js:232-237 | null iff the name is falsy; otherwise the base URL, the images path and the name |
| Ui.ImageUrlRecoversName | myfolio_fe/src/pages/Portfolio.js:132-137 | the stored name is recovered from its URL by dropping the fixed prefix |
| LoginPage.LoginRules | myfolio_fe/src/pages/Login.js:149-155 | valid iff the email is non-empty and looks like an address and the password is non-empty |
| LoginPage.OnSubmit | myfolio_fe/src/pages/Login.js:166-168 | a call is made iff the form is valid, and carries exactly the two values |
| LoginPage.OnReply | myfolio_fe/src/pages/Login.js:166-175 | success stores the reply's token and goes to the profile settings; any failure stores nothing and shows the server's message or the fallback |
| LoginPage.SignedInCallsCarryToken | myfolio_fe/src/pages/Login.js:169 | after a sign-in, every later call presents the received token |
| LoginPage.MissingTokenStoredAsText | myfolio_fe/src/pages/Login.js:169 | a success reply without a token stores the text "undefined" |
| RegisterPage.ConfirmMustMatch | myfolio_fe/src/pages/Register.js:158-160 | "Passwords must match" is shown iff the confirmation is filled in and differs from the password |
| RegisterPage.RegisterRules | myfolio_fe/src/pages/Register.js:149-161 | valid iff there is a name, a well-formed email, a password whose JavaScript `length` (UTF-16 code units) is at least 8, and a matching confirmation |
| RegisterPage.RegisterChecksInOrder | myfolio_fe/src/pages/Register.js:149-161 | the same conditions, for the checks run front to back |
| RegisterPage.OnSubmit | myfolio_fe/src/pages/Register.js:174-176 | a call is made iff the form is valid; its body has name, email and password, never the confirmation |
| RegisterPage.OnReply | myfolio_fe/src/pages/Register.js:174-182 | only a success navigates, to the sign-in page; a failure shows the server's message or the fallback |
| RegisterPage.TokenReplyShowsFixedText | myfolio_fe/src/pages/Register.js:177 | the backend's token-only reply shows the fixed success text |
| ForgotPasswordPage.ForgotRules | myfolio_fe/src/pages/ForgotPassword.js:83-87 | valid iff the email is non-empty and looks like an address |
| ForgotPasswordPage.OnSubmit | myfolio_fe/src/pages/ForgotPassword.js:95-97 | a call is made iff the form is valid, with the email as typed |
| ForgotPasswordPage.OnReply | myfolio_fe/src/pages/ForgotPassword.js:95-102 | a success toast iff the call resolved, with a fixed text; a failure shows the server's message or the fallback |
| ForgotPasswordPage.SuccessIgnoresReply | myfolio_fe/src/pages/ForgotPassword.js:98 | every successful reply produces the same toast |
| ResetPasswordPage.ResetRules | myfolio_fe/src/pages/ResetPassword.js:97-108 | valid iff the password is strong (at least 8 UTF-16 code units, and a lowercase letter, an uppercase letter, a digit and another character) and the confirmation repeats it |
| ResetPasswordPage.ResetChecksInOrder | myfolio_fe/src/pages/ResetPassword.js:97-108 | the same conditions, for the checks run front to back |
| ResetPasswordPage.ConfirmChecksInOrder | myfolio_fe/src/pages/ResetPassword.js:104-107 | the last three checks pass iff a password is given and the confirmation repeats it |
| ResetPasswordPage.Checklist | myfolio_fe/src/pages/ResetPassword.js:132-139 | five requirement lines, all met iff the password is strong; the length line counts UTF-16 code units, as `password.length` does |
| ResetPasswordPage.ChecklistMirrorsSchema | myfolio_fe/src/pages/ResetPassword.js:132-139 | each line is met iff the password is not empty and the check it mirrors passes; for an empty password every mirrored check passes while no line is met |
| ResetPasswordPage.StrongExample | myfolio_fe/src/pages/ResetPassword.js:132-139 | "Abcdef1!" meets every requirement |
| ResetPasswordPage.AstralPasswordMeetsMinimum | myfolio_fe/src/pages/ResetPassword.js:132-139 | "aA1!" followed by two characters outside the Basic Multilingual Plane (two emoji) is six characters but eight UTF-16 code units, so it is strong and meets every line |
| ResetPasswordPage.WeakExample | myfolio_fe/src/pages/ResetPassword.js:132-139 | "abc" meets only the lowercase requirement |
| ResetPasswordPage.OnSubmit | myfolio_fe/src/pages/ResetPassword.js:113-123 | a call is made iff the link carries a non-empty token and the form is valid; it sends that token and the password |
| ResetPasswordPage.OnReply | myfolio_fe/src/pages/ResetPassword.js:121-129 | success shows a fixed text and goes to the sign-in page; failure shows the server's message or the fallback |
| ResetPasswordPage.AcceptedPasswordReachesService | myfolio_fe/src/pages/ResetPassword.js:97-104 | a password the page accepts is never refused by the server as missing |
| AccountSettingsPage.AccountRules | myfolio_fe/src/pages/AccountSettings.js:93-102 | valid iff there is a current password, a new one of at least 8 UTF-16 code units, and the same new one again |
| AccountSettingsPage.AccountChecksInOrder | myfolio_fe/src/pages/AccountSettings.js:93-102 | the same three conditions hold exactly when the schema's checks pass one after the other, front to back |
| AccountSettingsPage.Initial | myfolio_fe/src/pages/AccountSettings.js:108-112 | not busy; the form holds the initial values and is not dirty |
| AccountSettingsPage.OnSubmit | myfolio_fe/src/pages/AccountSettings.js:114-118 | a valid form marks the page busy and sends the whole values object; an invalid one changes nothing |
| AccountSettingsPage.OnReply | myfolio_fe/src/pages/AccountSettings.js:114-124 | the page stops being busy; success empties the form; failure keeps what was typed and shows the server's message or the fallback |
| AccountSettingsPage.SubmitButtonAfterReply | myfolio_fe/src/pages/AccountSettings.js:186 | after success the button stays disabled; after failure it is enabled exactly as it was before the submit |
| AccountSettingsPage.RequestOf | MyFolio_BE/src/main/java/com/bluecyber/MyFolio_BE/service/UserService.java:130-139 | the server reads the three submitted values unchanged |
| AccountSettingsPage.ValidFormPassesConfirmation | MyFolio_BE/src/main/java/com/bluecyber/MyFolio_BE/service/UserService.java:139-141 | a form the page accepts is never refused by the server for a mismatched confirmation |
| ProfileSettingsPage.Initial | myfolio_fe/src/pages/ProfileSettings.js:221-230 | no image, no user id, not busy, no image error; a clean form |
| ProfileSettingsPage.ProfileRules | myfolio_fe/src/pages/ProfileSettings.js:210-217 | valid iff the name is present and non-empty |
| ProfileSettingsPage.ProfileValues | myfolio_fe/src/pages/ProfileSettings.js:249-254 | exactly the four profile fields, each with falsy values shown as "" |
| ProfileSettingsPage.Load | myfolio_fe/src/pages/ProfileSettings.js:240-267 | a failed call or a missing profile body changes nothing and shows a toast; otherwise the form is filled; the id and image are set only if the id body is present |
| ProfileSettingsPage.LoadedFormIsDirty | myfolio_fe/src/pages/ProfileSettings.js:256-257 | after a load the form counts as edited, because it holds an email field the initial values lack |
| ProfileSettingsPage.OnSubmit | myfolio_fe/src/pages/ProfileSettings.js:279-283 | a valid form marks the page busy and sends every form value |
| ProfileSettingsPage.OnSaved | myfolio_fe/src/pages/ProfileSettings.js:282-289 | the page stops being busy and nothing else changes; the toast reports the outcome with a fixed text |
| ProfileSettingsPage.ChooseImage | myfolio_fe/src/pages/ProfileSettings.js:293-304 | uploads iff a file was chosen and it is at most 10 MB; a larger file is refused with a toast |
| ProfileSettingsPage.BrowserBoundIsServerBound | myfolio_fe/src/pages/ProfileSettings.js:297 | the page uploads a file iff the server would not refuse it for its size |
| ProfileSettingsPage.EmptyFileRemovesImage | MyFolio_BE/src/main/java/com/bluecyber/MyFolio_BE/service/UserService.java:76 | an empty file passes the page, and the server treats it as a removal |
| ProfileSettingsPage.OnUploaded | myfolio_fe/src/pages/ProfileSettings.js:304-311 | success shows the returned file's URL; any failure leaves the state unchanged |
| ProfileSettingsPage.OnImageError | myfolio_fe/src/pages/ProfileSettings.js:346-358 | sets the error flag and nothing else; the avatar is drawn from then on |
| ProfileSettingsPage.ImageErrorIsSticky | myfolio_fe/src/pages/ProfileSettings.js:306 | once an image has failed to display, even a successful new upload leaves the avatar |
| ProfileSettingsPage.OnRemoved | myfolio_fe/src/pages/ProfileSettings.js:314-322 | success clears the image; failure changes nothing |
| ProfileSettingsPage.RemovalShowsAvatar | myfolio_fe/src/pages/ProfileSettings.js:316-317 | removal uses the server's delete route, and a successful removal shows the avatar |
| ProfileSettingsPage.ViewPortfolio | myfolio_fe/src/pages/ProfileSettings.js:324-328 | navigates iff the user id is known, to that user's portfolio |
| ProjectSettingsPage.Initial | myfolio_fe/src/pages/ProjectSettings.js:166-211 | no projects, nothing being edited, a clean form |
| ProjectSettingsPage.ProjectRules | myfolio_fe/src/pages/ProjectSettings.js:154-163 | valid iff name and description are non-empty and each URL is empty or well-formed |
| ProjectSettingsPage.NormalisePayload | myfolio_fe/src/pages/ProjectSettings.js:179-195 | an array is kept; a text is parsed and kept only if it is an array; anything else is the empty list |
| ProjectSettingsPage.TextAndArrayAgree | myfolio_fe/src/pages/ProjectSettings.js:182-188 | a list sent as JSON text shows exactly like the same list sent as an array |
| ProjectSettingsPage.OnFetched | myfolio_fe/src/pages/ProjectSettings.js:173-203 | only the list changes; a failure empties it and shows a toast |
| ProjectSettingsPage.Copied | myfolio_fe/src/pages/ProjectSettings.js:234 | a null or missing value leaves the field undefined; anything else is copied as text |
| ProjectSettingsPage.HandleEdit | myfolio_fe/src/pages/ProjectSettings.js:231-239 | the card becomes the one being edited; the URLs get falsy values as ""; name and description are present iff the project has them and then hold their text; no other field is set |
| ProjectSettingsPage.OnSubmit | myfolio_fe/src/pages/ProjectSettings.js:213-220 | a valid form updates the project being edited, by its id, or else adds a new one |
| ProjectSettingsPage.OnSaved | myfolio_fe/src/pages/ProjectSettings.js:214-227 | success leaves edit mode, empties the form, toasts and reloads; failure changes nothing |
| ProjectSettingsPage.Cancel | myfolio_fe/src/pages/ProjectSettings.js:306-309 | leaves edit mode and resets the form |
| ProjectSettingsPage.EditTargetsThatProject | myfolio_fe/src/pages/ProjectSettings.js:215-218 | submitting after an edit updates that card's project; after a save or a cancel the next submit adds a project |
| ProjectSettingsPage.FetchIsOwnList | myfolio_fe/src/pages/ProjectSettings.js:175 | the reload fetches the signed-in user's own list |
| ProjectSettingsPage.Delete | myfolio_fe/src/pages/ProjectSettings.js:241-245 | a delete call is sent iff the dialog is confirmed |
| ProjectSettingsPage.OnDeleted | myfolio_fe/src/pages/ProjectSettings.js:244-250 | success toasts and reloads; failure shows a fixed text |
| ProjectSettingsPage.RequestOf | MyFolio_BE/src/main/java/com/bluecyber/MyFolio_BE/entity/Project.java:25-27 | a URL arrives as null iff the form has no value for it, and otherwise as typed |
| ProjectSettingsPage.ValidFormPassesServerUrlChecks | MyFolio_BE/src/main/java/com/bluecyber/MyFolio_BE/service/ProjectService.java:38-47 | when the browser's URL test accepts only what the server's parser accepts, an accepted form passes the server's URL checks |
| ProjectSettingsPage.BlankNamePassesPageButNotServer | MyFolio_BE/src/main/java/com/bluecyber/MyFolio_BE/entity/Project.java:22-23 | a form the page accepts whose name is blank is refused by the server's save with a constraint violation |
| ProjectSettingsPage.SpacesAreBlankButRequiredPasses | myfolio_fe/src/pages/ProjectSettings.js:155-156 | a name of three spaces passes the page's `required` check and is blank for `@NotBlank` |
| PortfolioPage.Initial | myfolio_fe/src/pages/Portfolio.js:128-130 | no profile yet, an empty project list, no image error |
| PortfolioPage.Calls | myfolio_fe/src/pages/Portfolio.js:142-145 | fetches the profile and the projects of the user id in the route |
| PortfolioPage.OnLoaded | myfolio_fe/src/pages/Portfolio.js:140-151 | both bodies are taken unchecked, or neither is and a toast is shown |
| PortfolioPage.EmptyOrFailedLoadKeepsLoading | myfolio_fe/src/pages/Portfolio.js:162-164 | a failed load or an empty profile body leaves the page loading |
| PortfolioPage.Contact | myfolio_fe/src/pages/Portfolio.js:156-160 | a mailto link iff the profile has an email |
| PortfolioPage.ContactAddressRecovered | myfolio_fe/src/pages/Portfolio.js:158 | the address is recovered from the link by dropping the scheme |
| PortfolioPage.ImageSource | myfolio_fe/src/pages/Portfolio.js:170-172 | the image is drawn iff the profile has one and it has not failed, from the file's URL |
| PortfolioPage.OnImageError | myfolio_fe/src/pages/Portfolio.js:174-178 | sets the error flag and keeps the loaded data |
| PortfolioPage.AvatarAfterImageError | myfolio_fe/src/pages/Portfolio.js:170-182 | after an image error the avatar is drawn |
| SettingsLayout.Logout | myfolio_fe/src/components/layout/SettingsLayout.js:145-148 | the token is gone, every other key is kept, and the page goes to sign-in |
| SettingsLayout.LoggedOutCallsCarryNoToken | myfolio_fe/src/components/layout/SettingsLayout.js:146 | after signing out no call carries a bearer token |
| SettingsLayout.ToggleMenu | myfolio_fe/src/components/layout/SettingsLayout.js:150-152 | the menu flips state |
| SettingsLayout.ToggleTwiceRestores | myfolio_fe/src/components/layout/SettingsLayout.js:150-152 | toggling twice restores the menu |
| SettingsLayout.NavLinks | myfolio_fe/src/components/layout/SettingsLayout.js:170-187 | three links in order; each is highlighted iff it is the current path |
| SettingsLayout.OneLinkHighlighted | myfolio_fe/src/components/layout/SettingsLayout.js:170-187 | exactly one link is highlighted on a settings page, none elsewhere |
| DefaultAvatar.FirstChars | myfolio_fe/src/components/common/DefaultAvatar.js:20-21 | at most one character per word |
| DefaultAvatar.FirstCharsAreWordStarts | myfolio_fe/src/components/common/DefaultAvatar.js:18-21 | splitting on spaces and taking first characters gives exactly the characters that start a word |
| DefaultAvatar.Initials | myfolio_fe/src/components/common/DefaultAvatar.js:16-23 | defined iff the name is absent or a text; an absent name gives ""; at most two characters |
| DefaultAvatar.InitialsAreFirstWordStarts | myfolio_fe/src/components/common/DefaultAvatar.js:18-23 | the initials are the first two word starts, upper-cased |
| DefaultAvatar.Shown | myfolio_fe/src/components/common/DefaultAvatar.js:27 | never empty; "?" exactly when there are no initials (or the only initial is "?") |
| DefaultAvatar.InitialsFromStarts | myfolio_fe/src/components/common/DefaultAvatar.js:18-27 | the avatar shows the first two upper-cased word starts, or "?" when there are none |
| DefaultAvatar.ExampleStarts | myfolio_fe/src/components/common/DefaultAvatar.js:18-21 | the word starts of "ab  c d" are a, c and d |
| DefaultAvatar.ThreeWordsGiveTwoInitials | myfolio_fe/src/components/common/DefaultAvatar.js:18-23 | a name whose words start with a, c and d, however spaced, shows "AC": the third word is cut |
| DefaultAvatar.NoNameShowsQuestionMark | myfolio_fe/src/components/common/DefaultAvatar.js:16-27 | a blank or absent name shows "?"; a null name throws |

## Left out

- Files on disk are not modelled: only the stored image name is. So the
  `IOException` paths of `deleteProfileImage` and `updateProfileImage`
  (the 500 "Could not delete file" / "Could not store file") are left out.
- Mail content and the SMTP exchange are not modelled. The sender's
  result is the `MailOutcome` parameter.
- `@Async` on the mail methods is not modelled: they run synchronously,
  as their try/catch blocks are written. One consequence: in the model a
  mail failure for a known address makes the forgot-password reply a 500
  (`AuthController.MailFailureRevealsAccount`), so the reply reveals the
  account. The deployed program runs the mail asynchronously
  (`@EnableAsync` at MyFolio_BE/src/main/java/com/bluecyber/MyFolio_BE/MyFolioBeApplication.java:8), so there a mail failure
  cannot reach the reply.
- The JWT service, Spring Security's authentication manager, URL
  parsing, UUIDs and the clock are foreign code. Each is a parameter.
- The JPA repositories are replaced by maps keyed by id. Of the persistence
  provider's behaviour, only the entity's `@NotBlank` check on a project's
  name is modelled (`ProjectService.SaveProject`); its report text is the
  parameter `report`.
- ProjectService.UpdateProject: the name check is modelled as a constraint
  violation raised by the save. When the provider flushes the change only
  at commit, the violation can reach the handler wrapped in a transaction
  failure, which the catch-all makes a 500; that wrapping is not modelled.
- ProjectService.AddProject: `ProjectRequest`, the request body the
  controller validates with `@Valid`, is not part of this model, so any
  constraints it declares are not modelled; only the entity's are.
- `AuthController.verifyEmail` calls a service operation that is not part
  of this model. Its outcome is a parameter of `AuthController.VerifyEmail`.
- The register and login endpoints only forward to the service. Their
  bean validation and the `UserController` routes are not modelled, and
  neither are the configuration classes.
- Yup's email and URL regular expressions are not modelled: they are the
  two predicates in `Validation.Formats`.
- Formik's `touched` state is not modelled. Which one of several
  messages for a field is displayed is not modelled either: the model
  computes every failing check, after Formik's step that turns an empty
  text into undefined.
- Rendering, styling, routing, console logging and toasts' timing are not
  modelled.
- The mount effects' `Promise.all` is modelled as two settled replies.
- JSON null in a request body is modelled as an absent key. Non-string
  JavaScript values reach text through `Js.ToText`.
- Case mapping in `Text.Lower` and `Text.Upper` covers ASCII letters only.
- Numbers in JavaScript values are integers only.
- ProfileSettingsPage.Load: the `formData` copy kept for the avatar's
  name is modelled, but it is never refreshed after a save. The source
  behaves the same way.
- PortfolioPage.OnLoaded: the projects body is stored unchecked, as the
  source does. What the project list renders from it is not modelled.
- ExceptionHandler.Handle is the as-written mapping. Of the other members,
  only `AuthService.NullExpiryReportedWithDetail` routes through `Handle`,
  and none routes through `HandleRespectingStatus`.
- AuthService.ResetPassword: the text of the JVM's message for the null
  expiry is stated as the one its helpful null-pointer diagnostics build
  for that dereference. The JVM computes it from the compiled code, which
  is not part of this model.
- DefaultAvatar.FirstChars: `word[0]` takes the first UTF-16 code unit,
  which for a word starting outside the Basic Multilingual Plane is a lone
  surrogate. The model's strings hold whole characters, so such a word
  contributes its whole first character instead.
- DefaultAvatar.Initials: `.slice(0, 2)` counts UTF-16 code units. The model
  counts whole characters, so initials that contain a character outside the
  Basic Multilingual Plane keep up to two characters where the source keeps
  up to two code units.

## Findings

| source | as written | input that shows it | evidently intended | confidence | as-written member | corrected member |
|---|---|---|---|---|---|---|
| MyFolio_BE/src/main/java/com/bluecyber/MyFolio_BE/exception/GlobalExceptionHandler.java:94-102 | the catch-all handler for `Exception` also catches the `ResponseStatusException`s the services throw, so their 400/403/404 reach the client as 500 with "An unexpected error occurred" | `changePassword` with a wrong current password: the service throws 400 "Current password is incorrect" and the client gets 500 | the status and reason chosen by the service reach the client | medium, not executed | ExceptionHandler.Handle, ExceptionHandler.ServiceStatusBecomesServerError, ExceptionHandler.WrongPasswordIsReportedAs500 | ExceptionHandler.HandleRespectingStatus, ExceptionHandler.IntendedKeepsClientErrors |
| MyFolio_BE/src/main/java/com/bluecyber/MyFolio_BE/service/UserService.java:93 | `substring(lastIndexOf("."))` is evaluated for a name without '.', where `lastIndexOf` returns -1 and `substring` throws | a 1-byte upload named "photo" gets an index error, which the handler makes a 500, instead of the 400 extension message | a name without an extension is refused with 400 "Only JPG, PNG and GIF files are allowed", like a null name | high, not executed | UserService.ExtensionOf, UserService.DecideImage, UserService.UpdateProfileImage, UserService.NamelessAndDotlessUploads, UserService.DotlessUploadOutcomes | UserService.ExtensionOfCorrected, UserService.DecideImageCorrected, UserService.UpdateProfileImageCorrected, UserService.DotlessRejectedWith400 |
