/** The four workflows of the account service: list, register, issue a token,
    log in. The repositories and the token utility are reached only through
    `Store`, `Codec` and the returned event trace. */
module UserService {
  import opened Wrappers
  import opened UserEntity
  import opened UserValidation
  import opened Dto
  import opened Collaborators
  import opened Responses

  const TokenCredentialsMissing: string := "Email o contrasena invalidos"
  const TokenEmailUnknown: string := "Email invalido"
  const LoginFieldsRequired: string := "Email y contrasena son campos requeridos"
  const LoginEmailUnknown: string := "Email enviado no existe"
  const LoginPasswordMismatch: string := "Email o contrasena invalidos"
  const LoginBearerMissing: string := "bearer token es un campo necesario"
  const LoginTokenInvalid: string := "token invalido"
  const LoginSucceeded: string := "Te has logueado ;D"

  /** The request header that carries the bearer token, looked up by exact key. */
  const AuthorizationHeader: string := "authorization"

  // ---------------------------------------------------------------- findAll

  function FindAll(store: Store): (r: Run)
    ensures r.events == [FindAllUsers]
    ensures |store.users| == 0 <==> r.response.status == NoContent
    ensures |store.users| == 0 ==> r.response.body == NoBody
    ensures |store.users| > 0 ==> r.response == Response(Ok, UserList(store.users))
  {
    var users := store.users;
    if |users| == 0 then Run(Response(NoContent, NoBody), [FindAllUsers])
    else Run(Response(Ok, UserList(users)), [FindAllUsers])
  }

  // ----------------------------------------------------------- registration

  /** One request phone as an unsaved, unowned `Phone`, renaming `citycode`
      to `cityCode` and `contrycode` to `countryCode`. */
  function ToPhone(item: PhonesItem): (p: Phone)
    ensures p.number == item.number
    ensures p.cityCode == item.citycode
    ensures p.countryCode == item.contrycode
    ensures p.id.None? && p.owner.None?
  {
    Phone(None, item.number, item.citycode, item.contrycode, None)
  }

  function MapItems(items: seq<PhonesItem>): (r: seq<Phone>)
    ensures |r| == |items|
    ensures forall i :: 0 <= i < |items| ==> r[i] == ToPhone(items[i])
    decreases |items|
  {
    if |items| == 0 then [] else [ToPhone(items[0])] + MapItems(items[1..])
  }

  /** The request's phone list, a missing list read as empty. */
  function MapPhones(items: Option<seq<PhonesItem>>): (r: seq<Phone>)
    ensures items.None? ==> r == []
    ensures items.Some? ==> |r| == |items.value|
    ensures items.Some? ==> forall i :: 0 <= i < |r| ==> r[i] == ToPhone(items.value[i])
  {
    match items
    case None => []
    case Some(xs) => MapItems(xs)
  }

  /** The unsaved user assembled from the request. */
  function BuildUser(dto: UserDto, phones: seq<Phone>): (u: User)
    ensures u.name == dto.name && u.email == dto.email && u.password == dto.password
    ensures u.phones == phones
    ensures u.isActive == Some(true)
    ensures u.id.None? && u.token.None?
    ensures u.created.None? && u.modified.None? && u.lastLogin.None?
  {
    User(None, dto.name, dto.email, dto.password, phones, Some(true), None, None, None, None)
  }

  /** `userDao.save` of a new user: the `@PrePersist` hook runs at `now` and
      the store generates the id `freshId`. */
  function SaveNew(u: User, freshId: string, now: Timestamp): (r: User)
    ensures r.id == Some(freshId)
    ensures r.(id := u.id) == CreatedAt(u, now)
  {
    CreatedAt(u, now).(id := Some(freshId))
  }

  /** The phone loop: each phone gets its owner set, then is saved. */
  function LinkPhones(phones: seq<Phone>, ownerId: Option<string>): (r: seq<Event>)
    ensures |r| == |phones|
    ensures forall i :: 0 <= i < |r| ==> r[i] == SavePhone(phones[i].(owner := ownerId))
    decreases |phones|
  {
    if |phones| == 0 then []
    else [SavePhone(phones[0].(owner := ownerId))] + LinkPhones(phones[1..], ownerId)
  }

  /** `"Error en el campo: %s, %s"` applied to one violation. */
  function FormatViolation(v: Violation): string {
    "Error en el campo: " + v.PropertyPath() + ", " + v.Message()
  }

  /** Different violations read differently. */
  lemma FormatViolationInjective(a: Violation, b: Violation)
    requires FormatViolation(a) == FormatViolation(b)
    ensures a == b
  {
    var prefix := "Error en el campo: ";
    assert FormatViolation(a)[|prefix|] == a.PropertyPath()[0];
    assert FormatViolation(b)[|prefix|] == b.PropertyPath()[0];
  }

  /** The violations in the order the message list lists them. The validator
      returns a hash set, whose order the source leaves unspecified; the model
      fixes field order, and no contract depends on it. */
  function Enumerate(vs: set<Violation>): (r: seq<Violation>)
    ensures forall v :: v in r <==> v in vs
    ensures |r| == |vs|
  {
    var name := if BlankName in vs then [BlankName] else [];
    var email := if InvalidEmail in vs then [InvalidEmail] else [];
    var password := if InvalidPassword in vs then [InvalidPassword] else [];
    CountFieldViolations(vs);
    name + email + password
  }

  /** A violation set has one member per failing field. */
  lemma CountFieldViolations(vs: set<Violation>)
    ensures |vs| == (if BlankName in vs then 1 else 0)
                  + (if InvalidEmail in vs then 1 else 0)
                  + (if InvalidPassword in vs then 1 else 0)
    ensures vs <= {BlankName, InvalidEmail, InvalidPassword}
  {
    var named := if BlankName in vs then {BlankName} else {};
    var emailed := if InvalidEmail in vs then {InvalidEmail} else {};
    var passworded := if InvalidPassword in vs then {InvalidPassword} else {};
    forall v | v in vs
      ensures v in named + emailed + passworded
    {
      match v
      case BlankName =>
      case InvalidEmail =>
      case InvalidPassword =>
    }
    assert vs == named + emailed + passworded;
    assert |named + emailed| == |named| + |emailed|;
  }

  function FormatAll(vs: seq<Violation>): (r: seq<string>)
    ensures |r| == |vs|
    ensures forall i :: 0 <= i < |vs| ==> r[i] == FormatViolation(vs[i])
    decreases |vs|
  {
    if |vs| == 0 then [] else [FormatViolation(vs[0])] + FormatAll(vs[1..])
  }

  /** The body of a rejected registration: one line per violation. */
  function ViolationMessages(vs: set<Violation>): (r: seq<string>)
    ensures |r| == |vs|
    ensures forall m :: m in r <==> exists v :: v in vs && m == FormatViolation(v)
  {
    var order := Enumerate(vs);
    FormattedLines(order, vs);
    FormatAll(order)
  }

  /** Formatting a listing of `vs` yields exactly the formatted members of `vs`. */
  lemma FormattedLines(order: seq<Violation>, vs: set<Violation>)
    requires forall v :: v in order <==> v in vs
    ensures forall m :: m in FormatAll(order) <==> exists v :: v in vs && m == FormatViolation(v)
  {
    var r := FormatAll(order);
    forall m | m in r
      ensures exists v :: v in vs && m == FormatViolation(v)
    {
      var i :| 0 <= i < |r| && r[i] == m;
      assert order[i] in vs;
    }
    forall v | v in vs
      ensures FormatViolation(v) in r
    {
      var i :| 0 <= i < |order| && order[i] == v;
      assert r[i] == FormatViolation(v);
    }
  }

  /** The user's phone list after the loop has pointed each phone at `ownerId`. */
  function OwnedPhones(phones: seq<Phone>, ownerId: Option<string>): (r: seq<Phone>)
    ensures |r| == |phones|
    ensures forall i :: 0 <= i < |phones| ==> r[i] == phones[i].(owner := ownerId)
    decreases |phones|
  {
    if |phones| == 0 then [] else [phones[0].(owner := ownerId)] + OwnedPhones(phones[1..], ownerId)
  }

  /** `persistUser`: validate, then save the user and each of its phones. The
      phone list is the user's own, as at the only call site; the loop links
      those very phone objects, so the answered user sees them owned. */
  function PersistUser(u: User, freshId: string, now: Timestamp): (r: Run)
    ensures Validate(u) != {} ==> r == Run(Response(BadRequest, ErrorMessage(ViolationMessages(Validate(u)))), [])
    ensures Validate(u) == {} ==> r.events == [SaveUser(SaveNew(u, freshId, now))] + LinkPhones(u.phones, Some(freshId))
    // the answer is the saved row, whose phones are the ones the loop saved
    ensures Validate(u) == {} ==>
      && r.response.status == Created
      && r.response.body.PersistedUser?
      && r.response.body.user.(phones := u.phones) == SaveNew(u, freshId, now)
      && |r.response.body.user.phones| == |u.phones|
      && (forall i :: 0 <= i < |u.phones| ==> r.events[1 + i] == SavePhone(r.response.body.user.phones[i]))
      && (forall i :: 0 <= i < |u.phones| ==> r.response.body.user.phones[i].owner == Some(freshId))
  {
    var violations := Validate(u);
    if violations != {} then
      Run(Response(BadRequest, ErrorMessage(ViolationMessages(violations))), [])
    else
      var saved := SaveNew(u, freshId, now);
      var linked := saved.(phones := OwnedPhones(u.phones, saved.id));
      Run(Response(Created, PersistedUser(linked)), [SaveUser(saved)] + LinkPhones(u.phones, saved.id))
  }

  /** The user `registerUser` hands to validation. */
  function Candidate(dto: UserDto): User {
    BuildUser(dto, MapPhones(dto.phones))
  }

  /** `registerUser`: map the phones, build the user, persist it, and project
      the stored row into the registration response. */
  function RegisterUser(dto: UserDto, freshId: string, now: Timestamp): (r: Run)
    // a rejected request writes nothing and lists each violation once
    ensures Validate(Candidate(dto)) != {} <==> r.response.status == BadRequest
    ensures Validate(Candidate(dto)) != {} ==> r.events == []
    ensures Validate(Candidate(dto)) != {} ==>
      && r.response.body.ErrorMessage?
      && |r.response.body.mensaje| == |Validate(Candidate(dto))|
      && forall m :: m in r.response.body.mensaje <==> exists v :: v in Validate(Candidate(dto)) && m == FormatViolation(v)
    // an accepted request saves the user once, first, then one owned phone per request phone
    ensures Validate(Candidate(dto)) == {} ==>
      && r.response.status == Created
      && |r.events| == 1 + |MapPhones(dto.phones)|
      && r.events[0].SaveUser?
      && r.events[0].user.id == Some(freshId)
      && (forall i :: 1 <= i < |r.events| ==>
            && r.events[i].SavePhone?
            && r.events[i].phone.owner == Some(freshId)
            && r.events[i].phone == MapPhones(dto.phones)[i - 1].(owner := Some(freshId)))
    // and answers with the stored row's identity and timestamps only
    ensures Validate(Candidate(dto)) == {} ==>
      var saved := r.events[0].user;
      && r.response.body == Registered(UserApiResponse(saved.id, saved.created, saved.modified, saved.lastLogin, saved.isActive))
      && r.response.body.info == UserApiResponse(Some(freshId), Some(now), Some(now), Some(now), Some(true))
  {
    var phones := MapPhones(dto.phones);
    var user := BuildUser(dto, phones);
    var persisted := PersistUser(user, freshId, now);
    if persisted.response.status.IsError() then persisted
    else match persisted.response.body
      case PersistedUser(body) =>
        assert body.(phones := phones) == SaveNew(user, freshId, now) == persisted.events[0].user;
        assert persisted.events[1..] == LinkPhones(phones, Some(freshId));
        var info := UserApiResponse(body.id, body.created, body.modified, body.lastLogin, body.isActive);
        Run(Response(Created, Registered(info)), persisted.events)
      case _ =>
        // the cast to `User` cannot fail: a successful persist carries the user
        Run(Response(InternalServerError, NoBody), persisted.events)
  }

  // ---------------------------------------------------------- token issuance

  /** `getToken`: issue a token for the user with the given email. The
      password is required to be present but is never compared. */
  function GetToken(creds: UserPassword, store: Store, codec: Codec): (r: Run)
    ensures creds.email.None? || creds.password.None? ==> r == Run(Rejected(TokenCredentialsMissing), [])
    ensures creds.email.Some? && creds.password.Some? ==>
      var email := creds.email.value;
      match FindByEmail(store.users, email)
      case None => r == Run(Rejected(TokenEmailUnknown), [FindUserByEmail(email)])
      case Some(user) =>
        r == Run(Response(Ok, TokenResponse(codec.generate(user))), [FindUserByEmail(email), GenerateToken(user)])
    ensures r.response.status == Ok || r.response.status == BadRequest
  {
    if creds.email.None? || creds.password.None? then Run(Rejected(TokenCredentialsMissing), [])
    else
      var email := creds.email.value;
      var lookup := [FindUserByEmail(email)];
      match FindByEmail(store.users, email)
      case None => Run(Rejected(TokenEmailUnknown), lookup)
      case Some(user) =>
        var token := codec.generate(user);
        Run(Response(Ok, TokenResponse(token)), lookup + [GenerateToken(user)])
  }

  // ------------------------------------------------------------------- login

  /** `login`: five gates in a fixed order; the first that fails decides the
      message. A stored user without a password makes the comparison throw. */
  function Login(creds: UserPassword, headers: map<string, string>, store: Store, codec: Codec): (r: Run)
    // gate 1: both fields present, else the store is not consulted
    ensures creds.email.None? || creds.password.None? ==> r == Run(Rejected(LoginFieldsRequired), [])
    // gate 2: the email is known
    ensures creds.email.Some? && creds.password.Some? ==>
      && |r.events| > 0
      && r.events[0] == FindUserByEmail(creds.email.value)
      && (FindByEmail(store.users, creds.email.value).None? ==> r.response == Rejected(LoginEmailUnknown))
    ensures creds.email.Some? && creds.password.Some? && FindByEmail(store.users, creds.email.value).Some? ==>
      var user := FindByEmail(store.users, creds.email.value).value;
      // the comparison throws on a stored null password
      && (user.password.None? ==> r.response.status == InternalServerError)
      // gate 3: exact password equality
      && (user.password.Some? && user.password != creds.password ==> r.response == Rejected(LoginPasswordMismatch))
      // gate 4: a bearer header is present
      && (user.password == creds.password && AuthorizationHeader !in headers ==> r.response == Rejected(LoginBearerMissing))
      // gate 5: the codec accepts the header value exactly as sent
      && (user.password == creds.password && AuthorizationHeader in headers ==>
            var bearer := headers[AuthorizationHeader];
            && r.events == [FindUserByEmail(creds.email.value), ValidateToken(bearer, user)]
            && r.response == (if codec.validate(bearer, user) == Valid
                              then Response(Ok, ErrorMessage([LoginSucceeded]))
                              else Rejected(LoginTokenInvalid)))
    // the codec is only asked once every earlier gate has passed
    ensures (exists i :: 0 <= i < |r.events| && r.events[i].ValidateToken?) ==>
      && creds.email.Some? && creds.password.Some?
      && FindByEmail(store.users, creds.email.value).Some?
      && FindByEmail(store.users, creds.email.value).value.password == creds.password
      && AuthorizationHeader in headers
  {
    if creds.password.None? || creds.email.None? then Run(Rejected(LoginFieldsRequired), [])
    else
      var email := creds.email.value;
      var lookup := [FindUserByEmail(email)];
      match FindByEmail(store.users, email)
      case None => Run(Rejected(LoginEmailUnknown), lookup)
      case Some(user) =>
        if user.password.None? then Run(Response(InternalServerError, NoBody), lookup)
        else if user.password.value != creds.password.value then Run(Rejected(LoginPasswordMismatch), lookup)
        else if AuthorizationHeader !in headers then Run(Rejected(LoginBearerMissing), lookup)
        else
          var bearer := headers[AuthorizationHeader];
          var events := lookup + [ValidateToken(bearer, user)];
          match codec.validate(bearer, user)
          case Valid => Run(Response(Ok, ErrorMessage([LoginSucceeded])), events)
          case Invalid => Run(Rejected(LoginTokenInvalid), events)
          case Malformed => Run(Rejected(LoginTokenInvalid), events)
  }
}
