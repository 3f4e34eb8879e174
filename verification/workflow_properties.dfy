/** Properties that relate several calls: what the read-only workflows leave
    behind, what a registration leaves in the database, and what a
    registered user can do next. */
module WorkflowProperties {
  import opened Wrappers
  import opened Strings
  import opened UserEntity
  import opened UserValidation
  import opened Dto
  import opened Collaborators
  import opened Responses
  import opened UserService

  // ------------------------------------------------------- read-only calls

  /** Listing, issuing a token and logging in make no save, so replaying
      their calls leaves the store as it was. */
  lemma FindAllWritesNothing(store: Store)
    ensures !FindAll(store).Writes()
    ensures Apply(store, FindAll(store).events) == store
  {
  }

  lemma GetTokenWritesNothing(creds: UserPassword, store: Store, codec: Codec)
    ensures !GetToken(creds, store, codec).Writes()
    ensures Apply(store, GetToken(creds, store, codec).events) == store
  {
  }

  lemma LoginWritesNothing(creds: UserPassword, headers: map<string, string>, store: Store, codec: Codec)
    ensures !Login(creds, headers, store, codec).Writes()
    ensures Apply(store, Login(creds, headers, store, codec).events) == store
  {
  }

  // ------------------------------------------------------------ token issue

  /** The token answer never depends on which (non-null) password was sent. */
  lemma GetTokenIgnoresPassword(email: Option<string>, p1: string, p2: string, store: Store, codec: Codec)
    ensures GetToken(UserPassword(email, Some(p1)), store, codec) == GetToken(UserPassword(email, Some(p2)), store, codec)
  {
  }

  // ------------------------------------------------------------------ login

  /** A malformed token and a rejected one are indistinguishable: two codecs
      that agree on which tokens are valid give the same login answer. */
  lemma MalformedLooksLikeInvalid(creds: UserPassword, headers: map<string, string>, store: Store, c1: Codec, c2: Codec)
    requires forall t, u :: (c1.validate(t, u) == Valid) == (c2.validate(t, u) == Valid)
    ensures Login(creds, headers, store, c1) == Login(creds, headers, store, c2)
  {
  }

  /** A wrong password is refused whatever the headers and the codec say,
      and the codec is never asked. */
  lemma WrongPasswordIgnoresToken(creds: UserPassword, h1: map<string, string>, h2: map<string, string>, store: Store, c1: Codec, c2: Codec)
    requires creds.email.Some? && creds.password.Some?
    requires FindByEmail(store.users, creds.email.value).Some?
    requires FindByEmail(store.users, creds.email.value).value.password.Some?
    requires FindByEmail(store.users, creds.email.value).value.password != creds.password
    ensures Login(creds, h1, store, c1) == Login(creds, h2, store, c2)
    ensures Login(creds, h1, store, c1).response == Rejected(LoginPasswordMismatch)
    ensures Login(creds, h1, store, c1).events == [FindUserByEmail(creds.email.value)]
  {
  }

  /** An account registered without a password, which validation allows,
      makes every login attempt on it throw. */
  lemma PasswordlessAccountBreaksLogin(creds: UserPassword, headers: map<string, string>, store: Store, codec: Codec)
    requires creds.email.Some? && creds.password.Some?
    requires FindByEmail(store.users, creds.email.value).Some?
    requires FindByEmail(store.users, creds.email.value).value.password.None?
    ensures Login(creds, headers, store, codec).response.status == InternalServerError
  {
  }

  // ----------------------------------------------------------- registration

  /** The registration answer shows nothing of what was registered: any two
      accepted requests get the same answer for the same id and instant. */
  lemma RegisterAnswerHidesRequest(a: UserDto, b: UserDto, freshId: string, now: Timestamp)
    requires Validate(Candidate(a)) == {} && Validate(Candidate(b)) == {}
    ensures RegisterUser(a, freshId, now).response == RegisterUser(b, freshId, now).response
  {
  }

  /** Validation passes a request that has only a name: a null email or
      password satisfies `@Pattern`. */
  lemma NameAloneIsEnough(dto: UserDto, freshId: string, now: Timestamp)
    requires dto.email.None? && dto.password.None?
    requires dto.name.Some? && HasVisibleChar(dto.name.value)
    ensures RegisterUser(dto, freshId, now).response.status == Created
  {
    NameRule(dto.name);
  }

  /** A blank name is refused, nothing is written, and the answer names the field. */
  lemma BlankNameRefused(dto: UserDto, freshId: string, now: Timestamp)
    requires dto.name.None? || !HasVisibleChar(dto.name.value)
    ensures var r := RegisterUser(dto, freshId, now);
      && r.response.status == BadRequest
      && r.events == []
      && "Error en el campo: name, " + NotBlankMessage in r.response.body.mensaje
  {
    NameRule(dto.name);
    assert FormatViolation(BlankName) == "Error en el campo: name, " + NotBlankMessage;
  }

  /** How many phone rows point at the user `id`. */
  function PhonesOwnedBy(phones: seq<Phone>, id: string): nat
    decreases |phones|
  {
    if |phones| == 0 then 0
    else (if phones[0].owner == Some(id) then 1 else 0) + PhonesOwnedBy(phones[1..], id)
  }

  lemma {:induction false} PhonesOwnedByAppend(a: seq<Phone>, b: seq<Phone>, id: string)
    ensures PhonesOwnedBy(a + b, id) == PhonesOwnedBy(a, id) + PhonesOwnedBy(b, id)
    decreases |a|
  {
    if |a| > 0 {
      assert (a + b)[1..] == a[1..] + b;
      PhonesOwnedByAppend(a[1..], b, id);
    } else {
      assert a + b == b;
    }
  }

  lemma {:induction false} PhonesAllOwned(phones: seq<Phone>, id: string)
    requires forall i :: 0 <= i < |phones| ==> phones[i].owner == Some(id)
    ensures PhonesOwnedBy(phones, id) == |phones|
    decreases |phones|
  {
    if |phones| > 0 {
      PhonesAllOwned(phones[1..], id);
    }
  }

  /** Running the phone loop appends each phone, owned by `ownerId`, in order. */
  lemma {:induction false} LinkedPhonesStored(store: Store, phones: seq<Phone>, ownerId: Option<string>)
    ensures var after := Apply(store, LinkPhones(phones, ownerId));
      && after.users == store.users
      && |after.phones| == |store.phones| + |phones|
      && after.phones[..|store.phones|] == store.phones
      && forall i :: 0 <= i < |phones| ==> after.phones[|store.phones| + i] == phones[i].(owner := ownerId)
    decreases |phones|
  {
    if |phones| > 0 {
      var events := LinkPhones(phones, ownerId);
      var next := store.(phones := store.phones + [phones[0].(owner := ownerId)]);
      assert events[1..] == LinkPhones(phones[1..], ownerId);
      assert Apply(store, events) == Apply(next, events[1..]);
      LinkedPhonesStored(next, phones[1..], ownerId);
      var after := Apply(next, events[1..]);
      forall i | 0 <= i < |phones|
        ensures after.phones[|store.phones| + i] == phones[i].(owner := ownerId)
      {
        if i > 0 {
          assert after.phones[|next.phones| + (i - 1)] == phones[1..][i - 1].(owner := ownerId);
        } else {
          assert after.phones[..|next.phones|] == next.phones;
          assert after.phones[|store.phones|] == after.phones[..|next.phones|][|store.phones|];
        }
      }
      assert after.phones[..|store.phones|] == after.phones[..|next.phones|][..|store.phones|];
    }
  }

  /** The trace of an accepted registration: the user row, then the phone loop. */
  lemma AcceptedRegistrationTrace(dto: UserDto, freshId: string, now: Timestamp)
    requires Validate(Candidate(dto)) == {}
    ensures RegisterUser(dto, freshId, now).events
      == [SaveUser(SaveNew(Candidate(dto), freshId, now))] + LinkPhones(MapPhones(dto.phones), Some(freshId))
  {
  }

  /** Saving a user and then its phones adds one user row and one owned row
      per phone. */
  lemma AggregateStored(store: Store, saved: User, phones: seq<Phone>, id: string)
    ensures var after := Apply(store, [SaveUser(saved)] + LinkPhones(phones, Some(id)));
      && after.users == store.users + [saved]
      && |after.phones| == |store.phones| + |phones|
      && after.phones[..|store.phones|] == store.phones
      && (forall i :: 0 <= i < |phones| ==> after.phones[|store.phones| + i] == phones[i].(owner := Some(id)))
      && PhonesOwnedBy(after.phones, id) == PhonesOwnedBy(store.phones, id) + |phones|
  {
    var link := LinkPhones(phones, Some(id));
    var next := store.(users := store.users + [saved]);
    ApplySaveUser(store, saved, link);
    LinkedPhonesStored(next, phones, Some(id));
    OwnedRowsAppended(store.phones, Apply(next, link).phones, phones, id);
  }

  /** Replaying a user save first appends that user, then replays the rest. */
  lemma ApplySaveUser(store: Store, saved: User, rest: seq<Event>)
    ensures Apply(store, [SaveUser(saved)] + rest) == Apply(store.(users := store.users + [saved]), rest)
  {
    var events := [SaveUser(saved)] + rest;
    assert events[1..] == rest;
  }

  /** Rows appended by the phone loop each add one to the owner's count. */
  lemma OwnedRowsAppended(before: seq<Phone>, after: seq<Phone>, phones: seq<Phone>, id: string)
    requires |after| == |before| + |phones|
    requires after[..|before|] == before
    requires forall i :: 0 <= i < |phones| ==> after[|before| + i] == phones[i].(owner := Some(id))
    ensures PhonesOwnedBy(after, id) == PhonesOwnedBy(before, id) + |phones|
  {
    var added := after[|before|..];
    assert |added| == |phones|;
    forall i | 0 <= i < |added|
      ensures added[i].owner == Some(id)
    {
      assert added[i] == after[|before| + i] == phones[i].(owner := Some(id));
    }
    assert after == after[..|before|] + added;
    PhonesOwnedByAppend(before, added, id);
    PhonesAllOwned(added, id);
  }

  /** An accepted registration adds exactly one user row and one row per
      request phone, each pointing at the new user. */
  lemma RegistrationStoresAggregate(dto: UserDto, freshId: string, now: Timestamp, store: Store)
    requires Validate(Candidate(dto)) == {}
    ensures var after := Apply(store, RegisterUser(dto, freshId, now).events);
      var phones := MapPhones(dto.phones);
      && after.users == store.users + [SaveNew(Candidate(dto), freshId, now)]
      && |after.phones| == |store.phones| + |phones|
      && after.phones[..|store.phones|] == store.phones
      && (forall i :: 0 <= i < |phones| ==> after.phones[|store.phones| + i] == phones[i].(owner := Some(freshId)))
      && PhonesOwnedBy(after.phones, freshId) == PhonesOwnedBy(store.phones, freshId) + |phones|
  {
    AcceptedRegistrationTrace(dto, freshId, now);
    AggregateStored(store, SaveNew(Candidate(dto), freshId, now), MapPhones(dto.phones), freshId);
  }

  /** A user registered under an email nobody else holds can then ask for a
      token with that email, and gets the codec's token for the stored row. */
  lemma RegisteredUserGetsToken(dto: UserDto, freshId: string, now: Timestamp, store: Store, codec: Codec, password: string)
    requires Validate(Candidate(dto)) == {}
    requires dto.email.Some?
    requires forall i :: 0 <= i < |store.users| ==> store.users[i].email != dto.email
    ensures var after := Apply(store, RegisterUser(dto, freshId, now).events);
      GetToken(UserPassword(dto.email, Some(password)), after, codec).response
        == Response(Ok, TokenResponse(codec.generate(SaveNew(Candidate(dto), freshId, now))))
  {
    RegistrationStoresAggregate(dto, freshId, now, store);
    FindByEmailAppended(store.users, SaveNew(Candidate(dto), freshId, now), dto.email.value);
  }

  /** ... and can log in with the password it registered, given a header the
      codec accepts for the stored row. */
  lemma RegisteredUserLogsIn(dto: UserDto, freshId: string, now: Timestamp, store: Store, codec: Codec, headers: map<string, string>)
    requires Validate(Candidate(dto)) == {}
    requires dto.email.Some? && dto.password.Some?
    requires forall i :: 0 <= i < |store.users| ==> store.users[i].email != dto.email
    requires AuthorizationHeader in headers
    requires codec.validate(headers[AuthorizationHeader], SaveNew(Candidate(dto), freshId, now)) == Valid
    ensures var after := Apply(store, RegisterUser(dto, freshId, now).events);
      Login(UserPassword(dto.email, dto.password), headers, after, codec).response
        == Response(Ok, ErrorMessage([LoginSucceeded]))
  {
    RegistrationStoresAggregate(dto, freshId, now, store);
    FindByEmailAppended(store.users, SaveNew(Candidate(dto), freshId, now), dto.email.value);
  }
}
