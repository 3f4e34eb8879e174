/** The cases of the service's unit tests, restated as facts about the model.
    Repository mocks become concrete stores, the token utility mock a
    concrete codec. */
module ServiceScenarios {
  import opened Wrappers
  import opened UserEntity
  import opened UserValidation
  import opened Dto
  import opened Collaborators
  import opened Responses
  import opened UserService
  import EmailRule
  import PasswordRule
  import WorkflowProperties

  /** The stored account of the login tests: only its password is set (the
      email is added so that a lookup by email can find it). */
  function TestAccount(): User {
    User(None, None, Some("any-user"), Some("any-password"), [], None, None, None, None, None)
  }

  function TestStore(): Store {
    Store([TestAccount()], [])
  }

  function Headers(): map<string, string> {
    map[AuthorizationHeader := "Bearer any-bearer-token-123"]
  }

  function CodecAnswering(answer: TokenCheck): Codec {
    Codec(u => "any-token-123abc", (t, u) => answer)
  }

  lemma FindAllScenarios(u: User)
    ensures FindAll(Store([], [])).response == Response(NoContent, NoBody)
    ensures FindAll(Store([u], [])).response.status == Ok
    ensures |FindAll(Store([u], [])).response.body.users| == 1
  {
  }

  lemma GetTokenScenarios()
    ensures GetToken(UserPassword(Some("any-email@email.com"), Some("Any-Password123")),
                     Store([TestAccount().(email := Some("any-email@email.com"))], []), CodecAnswering(Valid)).response
            == Response(Ok, TokenResponse("any-token-123abc"))
    ensures GetToken(UserPassword(Some("any-email@email.com"), Some("Any-Password123")),
                     Store([], []), CodecAnswering(Valid)).response
            == Rejected(TokenEmailUnknown)
    ensures GetToken(UserPassword(None, None), Store([], []), CodecAnswering(Valid)).response
            == Rejected(TokenCredentialsMissing)
  {
  }

  /** Each login test, by the gate that decides it. The token is handed to the
      codec with its "Bearer " prefix. */
  lemma LoginScenarios()
    ensures var r := Login(UserPassword(Some("any-user"), Some("any-password")), Headers(), TestStore(), CodecAnswering(Valid));
      && r.response == Response(Ok, ErrorMessage([LoginSucceeded]))
      && r.events[1] == ValidateToken("Bearer any-bearer-token-123", TestAccount())
    ensures Login(UserPassword(Some("any-user"), Some("any-password")), Headers(), TestStore(), CodecAnswering(Malformed)).response
            == Rejected(LoginTokenInvalid)
    ensures Login(UserPassword(Some("any-user"), Some("any-password")), Headers(), TestStore(), CodecAnswering(Invalid)).response
            == Rejected(LoginTokenInvalid)
    ensures Login(UserPassword(Some("any-user"), Some("any-passwor")), Headers(), TestStore(), CodecAnswering(Valid)).response
            == Rejected(LoginPasswordMismatch)
    ensures Login(UserPassword(None, None), map[], TestStore(), CodecAnswering(Valid)).response
            == Rejected(LoginFieldsRequired)
    ensures Login(UserPassword(Some("any-string"), Some("any-password")), map[], Store([], []), CodecAnswering(Valid)).response
            == Rejected(LoginEmailUnknown)
    ensures Login(UserPassword(Some("any-user"), Some("any-password")), map[], TestStore(), CodecAnswering(Valid)).response
            == Rejected(LoginBearerMissing)
  {
    assert "any-passwor" != "any-password" by {
      assert |"any-passwor"| != |"any-password"|;
    }
  }

  /** A well-formed registration request with one phone. */
  function SampleRequest(): UserDto {
    UserDto(Some("Hunter2024"), Some("Juan Rodriguez"),
            Some([PhonesItem(Some("123"), Some("01"), Some("1"))]),
            Some("juan@rodriguez.org"))
  }

  lemma SampleLocalPart()
    ensures EmailRule.IsLocalPart("juan")
  {
    var l := "juan";
    forall i | 0 <= i < |l|
      ensures EmailRule.IsLocalChar(l[i])
    {
      assert EmailRule.IsAsciiAlnum(l[i]);
    }
  }

  lemma SampleDomain()
    ensures EmailRule.DomainMatches("rodriguez.org")
  {
    var labels := ["rodriguez", "org"];
    assert EmailRule.IsLabel("rodriguez") by {
      forall i | 0 <= i < 9
        ensures EmailRule.IsLabelChar("rodriguez"[i])
      {
      }
    }
    assert EmailRule.IsLabel("org");
    assert EmailRule.AllLabels(labels);
    assert EmailRule.JoinDots(labels) == "rodriguez" + "." + "org" == "rodriguez.org";
  }

  lemma SampleEmailMatches()
    ensures EmailRule.EmailMatches("juan@rodriguez.org")
  {
    var email := "juan@rodriguez.org";
    SampleLocalPart();
    SampleDomain();
    assert email[..4] == "juan";
    assert email[5..] == "rodriguez.org";
    assert email[4] == '@' && EmailRule.IsLocalPart(email[..4]) && EmailRule.DomainMatches(email[5..]);
  }

  lemma SampleEmailValid()
    ensures EmailRule.EmailValid("juan@rodriguez.org")
  {
    SampleEmailMatches();
    EmailRule.EmailValidIffMatches("juan@rodriguez.org");
  }

  lemma SamplePasswordRule()
    ensures PasswordRule.PasswordValid("Hunter2024")
  {
    var p := "Hunter2024";
    forall i | 0 <= i < |p|
      ensures PasswordRule.IsPasswordChar(p[i])
    {
    }
    assert PasswordRule.IsAsciiUpper(p[0]) && PasswordRule.IsAsciiLower(p[1]) && PasswordRule.IsAsciiDigit(p[6]);
  }

  lemma SamplePasswordValid()
    ensures PasswordRule.PasswordPattern("Hunter2024")
  {
    SamplePasswordRule();
    PasswordRule.PatternIffValid("Hunter2024");
  }

  lemma SampleRequestIsValid()
    ensures Validate(Candidate(SampleRequest())) == {}
  {
    SampleEmailValid();
    SamplePasswordValid();
    NameRule(Some("Juan Rodriguez"));
    assert !Strings.IsTrimmed("Juan Rodriguez"[0]);
  }

  /** The registration tests: the sample is created with one phone stored for
      the new user; the same request with an empty name is refused and
      nothing is saved. */
  lemma RegisterScenarios(freshId: string, now: Timestamp)
    ensures RegisterUser(SampleRequest(), freshId, now).response.status == Created
    ensures var after := Apply(Store([], []), RegisterUser(SampleRequest(), freshId, now).events);
      WorkflowProperties.PhonesOwnedBy(after.phones, freshId) == 1
    ensures var r := RegisterUser(SampleRequest().(name := Some("")), freshId, now);
      r.response.status == BadRequest && r.events == [] && |r.response.body.mensaje| > 0
  {
    SampleRequestIsValid();
    WorkflowProperties.RegistrationStoresAggregate(SampleRequest(), freshId, now, Store([], []));
    WorkflowProperties.BlankNameRefused(SampleRequest().(name := Some("")), freshId, now);
  }
}
