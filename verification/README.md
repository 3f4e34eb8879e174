# User-account service: decision logic in Dafny

This project models the core of a small Spring user-account service. The
service registers a user together with phone records, issues a bearer token
for a stored email, and checks a login attempt against the stored password and
a presented token. The model covers the decision logic only:

- the Bean Validation constraints on the `User` entity (`@NotBlank` name,
  `@Pattern` email, `@Pattern` password), written as hand-coded predicates
  over `seq<char>`;
- the JPA lifecycle hooks `createdAt` (`@PrePersist`) and `updatedAt`
  (`@PreUpdate`);
- the four service operations `findAll`, `registerUser` (with
  `persistUser`), `getToken` and `login`.

The repositories (`UserDao`, `PhoneDao`) become a `Store` value: the users
table and the phones table as sequences. `findByEmail` is a first-match lookup.
The token utility becomes a `Codec` value with two uninterpreted functions.
`generate` maps a user to a token. `validate` answers `Valid`, `Invalid` or
`Malformed`; `Malformed` stands for the `MalformedJwtException` case. Every
workflow returns a `Run`: the HTTP status, the body, and the trace of
collaborator calls it made (lookups, saves, token calls). Properties about
what is written, in which order, and which collaborator is consulted are
stated over that trace. `Apply` replays a trace's saves onto a `Store`. The
clock and the UUID generator are parameters (`now`, `freshId`).

Modules, leaf first: `Wrappers` (Option), `Strings` (`IndexOf`,
`String.trim`), `UserEntity` (entities and hooks), `EmailRule`,
`PasswordRule`, `UserValidation`, `Dto`, `Collaborators`, `Responses`,
`UserService` (the workflows), `LoginGates` (an independent statement of the
login rule), `WorkflowProperties` (properties across calls), and
`ServiceScenarios` (the unit-test cases).

Repeated `findAll` calls on an unchanged store return identical results:
`FindAll` is a function of the store, and its trace holds a single read, so
replaying it leaves the store as it was (`FindAllWritesNothing`).

Behaviour of the code worth calling out, because it is easy to misread:

- A name is blank when `trim()` leaves nothing, so a name made only of
  characters up to U+0020 (spaces, control characters) is rejected
  (`User.java:29-30`).
- The password must consist of ASCII letters and digits only; besides length
  and the three required kinds of character, any other character fails the
  final class of the pattern (`User.java:34`).
- Violations come out of a `Set`, so the message list has no defined order
  (`UserServiceImpl.java:136-141`).
- A null email or password passes validation, because `@Pattern` accepts
  null (`User.java:31-34`).
- Looking up the `authorization` header is an exact-key `Map.get`
  (`UserServiceImpl.java:116`).
- A stored user without a password makes `login` throw, because the stored
  password is the receiver of `equals` (`UserServiceImpl.java:112`).

## Model

| member | source | states |
|---|---|---|
| UserEntity.CreatedAt | src/main/java/com/jencys/entrevista/data/entity/User.java:45-51 | after `@PrePersist`: `created` is `now`, `lastLogin` equals `created`, `modified` becomes `created` only if it was null and is otherwise kept, and no other field changes |
| UserEntity.UpdatedAt | src/main/java/com/jencys/entrevista/data/entity/User.java:53-56 | after `@PreUpdate`: `modified` is `now`; `created`, `lastLogin`, `id` and every other field are unchanged |
| UserEntity.FirstPersistStampsAllThree | src/main/java/com/jencys/entrevista/data/entity/User.java:45-51 | a user with no `modified` stamp leaves its first save with `created`, `modified` and `lastLogin` all equal to the save instant |
| UserEntity.UpdateAfterPersist | src/main/java/com/jencys/entrevista/data/entity/User.java:45-56 | persist then update: `created` and `lastLogin` keep the persist instant, `modified` holds the update instant, and nothing else changes |
| UserEntity.RepersistKeepsModified | src/main/java/com/jencys/entrevista/data/entity/User.java:49-50 | a second `@PrePersist` moves `created` and `lastLogin` but keeps the `modified` set by the first |
| UserEntity.LastUpdateWins | src/main/java/com/jencys/entrevista/data/entity/User.java:53-56 | two updates in a row leave the user as the last update alone would |
| Strings.TrimNonEmptyIffVisible | src/main/java/com/jencys/entrevista/data/entity/User.java:29-30 | `trim()` leaves a non-empty string exactly when some character is above U+0020, which is the test `@NotBlank` applies |
| UserValidation.NameRule | src/main/java/com/jencys/entrevista/data/entity/User.java:29-30 | a name is valid iff it is present and holds a character that `trim` keeps |
| EmailRule.EmailValidIffMatches | src/main/java/com/jencys/entrevista/data/entity/User.java:31 | the hand-written email check (split at the first '@', split the domain at dots) accepts exactly the strings the regular expression's grammar generates: a non-empty local part over the literal class, '@', then labels joined by dots |
| EmailRule.DomainShape | src/main/java/com/jencys/entrevista/data/entity/User.java:31 | a domain is valid iff it is non-empty, drawn from `[a-zA-Z0-9-.]`, and has no leading, trailing or doubled dot |
| EmailRule.ExactlyOneAt | src/main/java/com/jencys/entrevista/data/entity/User.java:31 | a valid email contains exactly one '@' |
| UserValidation.EmailFieldRule | src/main/java/com/jencys/entrevista/data/entity/User.java:31 | the email field passes iff it is null or matches the pattern |
| PasswordRule.PatternIffValid | src/main/java/com/jencys/entrevista/data/entity/User.java:34 | the literal pattern, with lookaheads whose `.` stops at line terminators, holds iff the password has at least 8 characters, only ASCII letters and digits, and at least one lowercase letter, one uppercase letter and one digit |
| PasswordRule.MatchPassword | src/main/java/com/jencys/entrevista/data/entity/User.java:34 | a one-pass scanner answers true exactly when the password pattern matches |
| PasswordRule.ForeignCharRejects | src/main/java/com/jencys/entrevista/data/entity/User.java:34 | one character outside `[a-zA-Z0-9]`, such as '-', makes a password invalid |
| PasswordRule.ShortRejects | src/main/java/com/jencys/entrevista/data/entity/User.java:34 | a password shorter than 8 characters is invalid |
| UserValidation.PasswordFieldRule | src/main/java/com/jencys/entrevista/data/entity/User.java:34 | the password field passes iff it is null or meets the plain-words rule |
| UserValidation.Validate | src/main/java/com/jencys/entrevista/data/entity/User.java:29-35 | the violation set holds the name, email and password violations exactly when each field's own rule fails, and is empty iff all three pass |
| UserValidation.ValidateReadsOnlyAnnotatedFields | src/main/java/com/jencys/entrevista/data/entity/User.java:28-43 | two users that agree on name, email and password get the same violations, whatever their other fields |
| UserValidation.FieldsIndependent | src/main/java/com/jencys/entrevista/domain/service/impl/UserServiceImpl.java:135-137 | changing one field changes at most that field's violation: the rules do not short-circuit or interact |
| Collaborators.FindByEmail | src/main/java/com/jencys/entrevista/data/dao/UserDao.java:9 | the lookup returns a stored user with that email, and returns nothing iff no stored user has it |
| Collaborators.FindByEmailUnique | src/main/java/com/jencys/entrevista/data/entity/User.java:31-32 | under the unique-email constraint, the lookup returns the one user holding the email |
| UserService.FindAll | src/main/java/com/jencys/entrevista/domain/service/impl/UserServiceImpl.java:35-41 | an empty store gives NO_CONTENT with no body; otherwise OK with exactly the stored list; one repository read either way |
| UserService.ToPhone | src/main/java/com/jencys/entrevista/domain/service/impl/UserServiceImpl.java:49-53 | `number` is copied, `citycode` becomes `cityCode`, `contrycode` becomes `countryCode`; the phone has no id and no owner yet |
| UserService.MapPhones | src/main/java/com/jencys/entrevista/domain/service/impl/UserServiceImpl.java:46-54 | a null phone list becomes empty; otherwise the result has the same length and order, element by element the renamed phone |
| UserService.BuildUser | src/main/java/com/jencys/entrevista/domain/service/impl/UserServiceImpl.java:56-62 | the assembled user carries the request's name, email, password and phones, is active, and has no id and no timestamps |
| UserService.SaveNew | src/main/java/com/jencys/entrevista/domain/service/impl/UserServiceImpl.java:143 | the saved row has the generated id and is, apart from the id, what `@PrePersist` makes of the user |
| UserService.LinkPhones | src/main/java/com/jencys/entrevista/domain/service/impl/UserServiceImpl.java:144-147 | one save per phone, in list order, each phone carrying the saved user's id as owner |
| UserService.FormatViolationInjective | src/main/java/com/jencys/entrevista/domain/service/impl/UserServiceImpl.java:140 | two different violations never format to the same `Error en el campo: <path>, <message>` line |
| UserService.ViolationMessages | src/main/java/com/jencys/entrevista/domain/service/impl/UserServiceImpl.java:138-142 | the error list has one line per violation, and its lines are exactly the formatted violations |
| UserService.PersistUser | src/main/java/com/jencys/entrevista/domain/service/impl/UserServiceImpl.java:133-150 | any violation gives BAD_REQUEST with the formatted violations and no call at all; no violation saves the user first and then each of its phones linked to it, and answers CREATED with the saved row, whose phones are exactly the linked phones the loop saved |
| UserService.RegisterUser | src/main/java/com/jencys/entrevista/domain/service/impl/UserServiceImpl.java:44-82 | BAD_REQUEST iff validation fails, and then nothing is written and each violation is listed once; otherwise CREATED, the user is saved exactly once and first, then exactly one owned phone per request phone and nothing else, and the answer is the saved row's id, created, modified, lastLogin and isActive (fresh id, `now` three times, true) |
| UserService.GetToken | src/main/java/com/jencys/entrevista/domain/service/impl/UserServiceImpl.java:85-98 | a null email or password gives "Email o contrasena invalidos" with no lookup; an unknown email gives "Email invalido"; otherwise OK with exactly the codec's token for the found user; never any other status |
| UserService.Login | src/main/java/com/jencys/entrevista/domain/service/impl/UserServiceImpl.java:101-131 | gate by gate: null fields give "Email y contrasena son campos requeridos" with no lookup; an unknown email gives "Email enviado no existe"; a stored null password throws; a different password gives "Email o contrasena invalidos"; a missing header gives "bearer token es un campo necesario"; otherwise the header value goes to the codec verbatim, and the result is OK "Te has logueado ;D" iff the codec says valid, "token invalido" otherwise; the codec is only called once every earlier gate has passed |
| LoginGates.LoginIsFirstFailingGate | src/main/java/com/jencys/entrevista/domain/service/impl/UserServiceImpl.java:101-131 | against five gates each judged on its own (fields present, email known, password equal, header present, token valid), login answers the message of the first failing gate in that order, and succeeds iff all five pass |
| WorkflowProperties.FindAllWritesNothing | src/main/java/com/jencys/entrevista/domain/service/impl/UserServiceImpl.java:35-41 | listing users only reads the repository, so replaying its calls leaves the store unchanged |
| WorkflowProperties.GetTokenWritesNothing | src/main/java/com/jencys/entrevista/domain/service/impl/UserServiceImpl.java:85-98 | token issuance only looks the account up and asks for a token; it never saves, so the store is unchanged |
| WorkflowProperties.LoginWritesNothing | src/main/java/com/jencys/entrevista/domain/service/impl/UserServiceImpl.java:101-131 | login only looks the account up and validates the bearer token; it never saves (the token it reports is not stored), so the store is unchanged |
| WorkflowProperties.GetTokenIgnoresPassword | src/main/java/com/jencys/entrevista/domain/service/impl/UserServiceImpl.java:85-98 | the token answer and calls are the same for any two non-null passwords |
| WorkflowProperties.MalformedLooksLikeInvalid | src/main/java/com/jencys/entrevista/domain/service/impl/UserServiceImpl.java:120-127 | two codecs that agree on which tokens are valid give identical logins, so a malformed token and a rejected one are indistinguishable |
| WorkflowProperties.WrongPasswordIgnoresToken | src/main/java/com/jencys/entrevista/domain/service/impl/UserServiceImpl.java:111-114 | a password that differs from the stored one is refused with "Email o contrasena invalidos" whatever the headers and codec, after a single lookup |
| WorkflowProperties.PasswordlessAccountBreaksLogin | src/main/java/com/jencys/entrevista/domain/service/impl/UserServiceImpl.java:112 | a found account whose stored password is null makes login fail with a server error |
| WorkflowProperties.RegisterAnswerHidesRequest | src/main/java/com/jencys/entrevista/domain/service/impl/UserServiceImpl.java:70-81 | any two accepted requests get the same answer for the same id and instant: name, email, password and phones never reach the response |
| WorkflowProperties.NameAloneIsEnough | src/main/java/com/jencys/entrevista/data/entity/User.java:29-35 | a request with a non-blank name and null email and password is created |
| WorkflowProperties.BlankNameRefused | src/main/java/com/jencys/entrevista/domain/service/impl/UserServiceImpl.java:135-142 | a blank or null name gives BAD_REQUEST, nothing is written, and the answer contains "Error en el campo: name, " followed by the `@NotBlank` message |
| WorkflowProperties.LinkedPhonesStored | src/main/java/com/jencys/entrevista/domain/service/impl/UserServiceImpl.java:144-147 | replaying the phone loop appends each phone, in order and owned by the given id, and touches no user row |
| WorkflowProperties.AcceptedRegistrationTrace | src/main/java/com/jencys/entrevista/domain/service/impl/UserServiceImpl.java:143-147 | an accepted registration's calls are the saved user, then the phone loop for the mapped phones |
| WorkflowProperties.AggregateStored | src/main/java/com/jencys/entrevista/domain/service/impl/UserServiceImpl.java:143-147 | saving a user and then its phones adds one user row and one row per phone, and the count of phones owned by the id grows by the number of phones |
| WorkflowProperties.RegistrationStoresAggregate | src/main/java/com/jencys/entrevista/domain/service/impl/UserServiceImpl.java:143-147 | after an accepted registration, the store holds the new user row and exactly one row per request phone owned by the new id, and earlier rows are untouched |
| WorkflowProperties.RegisteredUserGetsToken | src/main/java/com/jencys/entrevista/domain/service/impl/UserServiceImpl.java:92-97 | once registered under an unused email, the user gets OK and the codec's token for its stored row from the token request, with any password |
| WorkflowProperties.RegisteredUserLogsIn | src/main/java/com/jencys/entrevista/domain/service/impl/UserServiceImpl.java:107-130 | once registered under an unused email with a password, the user logs in with that password and a header the codec accepts |
| ServiceScenarios.FindAllScenarios | src/test/java/com/jencys/entrevista/domain/service/impl/UserServiceImplTest.java:45-76 | an empty store lists as NO_CONTENT with no body, and a one-user store as OK with one element |
| ServiceScenarios.RegisterScenarios | src/test/java/com/jencys/entrevista/domain/service/impl/UserServiceImplTest.java:78-108 | a well-formed request with one phone is created and leaves one phone owned by the new user; the same request with an empty name is refused with messages and writes nothing |
| ServiceScenarios.GetTokenScenarios | src/test/java/com/jencys/entrevista/domain/service/impl/UserServiceImplTest.java:110-157 | a known email gets the codec's token, an unknown one "Email invalido", null fields "Email o contrasena invalidos" |
| ServiceScenarios.LoginScenarios | src/test/java/com/jencys/entrevista/domain/service/impl/UserServiceImplTest.java:159-289 | each login test ends at its gate: valid token OK; malformed or false token, wrong password, null fields, unknown email and missing header each give their BAD_REQUEST message; the codec receives "Bearer any-bearer-token-123" verbatim |

## Left out

- HTTP routing, `ResponseEntity` headers, and the `Location` URIs of the CREATED answers. Responses are a status plus a body, and the web layer is not part of this model.
- Logging, and building a validator factory on every call. Neither changes an outcome.
- `@Transactional` and atomicity. The annotated method is called from inside the same class, so no transaction proxy applies. A phone save that fails after the user row was written is not modelled: saves always succeed.
- The database's `unique = true` constraint on email. The database enforces it, not the service. `Collaborators.EmailsUnique` states it, and `FindByEmailUnique` shows what the lookup returns under it.
- Collaborators.FindByEmail: returns the first match. The repository would throw if two rows shared an email, which the unique constraint rules out.
- Store-assigned phone ids (`GenerationType.IDENTITY`). Saved phones keep `id = None`.
- JPA cascading. `User.phones` cascades every operation (`User.java:36`), so saving the user already inserts its phones with no owner, and each later phone save updates that row. The trace records the repository calls as the service makes them. `Apply` replays them as appends: one user row and one row per phone save. The phones table after a registration matches the program's: one owned row per phone. The intermediate tables, with the cascade insert and the later update, are not modelled.
- Collaborators.Apply: the stored user row keeps its phone list as it was when the user was saved, with no owners and no ids. In the program, the phone loop links those same phone objects in place (`UserServiceImpl.java:145`), so a later lookup of the user sees its phones owned. `GetToken` and `Login` therefore hand the codec a user whose phone list is unlinked, where the program's would be linked. The service's own decisions never read the phone list.
- UserService.PersistUser: takes its phone list from the user, because the only caller passes the very list the user was built with (`UserServiceImpl.java:60,64`). A call with a separate list, whose phones the answered user would not see linked, is not modelled.
- UUID generation and the wall clock. Both are parameters (`freshId`, `now`).
- `JwtTokenUtil`, which is not part of this model. Signing, claims and expiry are behind the uninterpreted `Codec` functions. Exceptions from the codec other than `MalformedJwtException` are not modelled.
- Java runtime failures other than the stored null password. Headers are a `map<string, string>`, so the `(String)` cast cannot fail. The codec answers one of three values, so a null `Boolean` cannot be unboxed.
- The locale-dependent default `@NotBlank` message. The constant `NotBlankMessage` holds the default English text; other locales are not modelled.
- UserService.ViolationMessages: lists violations in field order (name, email, password). The source iterates a hash set with no defined order, so the contract states the lines' contents and count, not their order.
- Strings are Dafny `string`s, sequences of Unicode scalar values. Java strings are sequences of UTF-16 code units, so a lone surrogate that a JSON `\uD800` escape can produce has no counterpart here. Every string the model can hold gets the same outcome.
- `PhonesItem`'s three fields are taken from the getters the service calls (`UserServiceImpl.java:50-52`); the class's other members, if any, are not modelled.
