/** An independent statement of the login rule: five named gates in a fixed
    order, each judged on the request alone, and the answer of the first one
    that fails. */
module LoginGates {
  import opened Wrappers
  import opened UserEntity
  import opened Dto
  import opened Collaborators
  import opened Responses
  import opened UserService

  datatype Gate = FieldsPresent | EmailKnown | PasswordMatches | BearerPresent | TokenAccepted {

    function FailureMessage(): string {
      match this
      case FieldsPresent => LoginFieldsRequired
      case EmailKnown => LoginEmailUnknown
      case PasswordMatches => LoginPasswordMismatch
      case BearerPresent => LoginBearerMissing
      case TokenAccepted => LoginTokenInvalid
    }
  }

  const GateOrder: seq<Gate> := [FieldsPresent, EmailKnown, PasswordMatches, BearerPresent, TokenAccepted]

  /** The stored account the request names, if it names one. */
  function Account(creds: UserPassword, store: Store): Option<User> {
    if creds.email.Some? then FindByEmail(store.users, creds.email.value) else None
  }

  /** Whether the request gets past gate `g`, judged without the other gates. */
  predicate Passes(g: Gate, creds: UserPassword, headers: map<string, string>, store: Store, codec: Codec) {
    var account := Account(creds, store);
    match g
    case FieldsPresent => creds.email.Some? && creds.password.Some?
    case EmailKnown => account.Some?
    case PasswordMatches => account.Some? && account.value.password == creds.password
    case BearerPresent => AuthorizationHeader in headers
    case TokenAccepted =>
      && account.Some?
      && AuthorizationHeader in headers
      && codec.validate(headers[AuthorizationHeader], account.value) == Valid
  }

  /** The first gate of `gates` the request does not pass. */
  function FirstFailing(gates: seq<Gate>, creds: UserPassword, headers: map<string, string>, store: Store, codec: Codec): (r: Option<Gate>)
    ensures r.None? <==> forall i :: 0 <= i < |gates| ==> Passes(gates[i], creds, headers, store, codec)
    ensures r.Some? ==>
      exists k :: (0 <= k < |gates| && gates[k] == r.value
        && !Passes(gates[k], creds, headers, store, codec)
        && forall j :: 0 <= j < k ==> Passes(gates[j], creds, headers, store, codec))
    decreases |gates|
  {
    if |gates| == 0 then None
    else if !Passes(gates[0], creds, headers, store, codec) then Some(gates[0])
    else
      var r := FirstFailing(gates[1..], creds, headers, store, codec);
      assert forall i :: 1 <= i < |gates| ==> gates[i] == gates[1..][i - 1];
      if r.Some? then
        var k :| 0 <= k < |gates[1..]| && gates[1..][k] == r.value
          && !Passes(gates[1..][k], creds, headers, store, codec)
          && forall j :: 0 <= j < k ==> Passes(gates[1..][j], creds, headers, store, codec);
        assert gates[k + 1] == r.value;
        r
      else r
  }

  /** The one request shape the gates do not cover: a found account without a
      stored password, on which the comparison throws. */
  predicate ComparisonThrows(creds: UserPassword, store: Store) {
    && creds.email.Some? && creds.password.Some?
    && Account(creds, store).Some?
    && Account(creds, store).value.password.None?
  }

  /** Login answers with the message of the first failing gate, and with the
      success message exactly when every gate passes. */
  lemma LoginIsFirstFailingGate(creds: UserPassword, headers: map<string, string>, store: Store, codec: Codec)
    requires !ComparisonThrows(creds, store)
    ensures Login(creds, headers, store, codec).response ==
      match FirstFailing(GateOrder, creds, headers, store, codec)
      case None => Response(Ok, ErrorMessage([LoginSucceeded]))
      case Some(g) => Rejected(g.FailureMessage())
  {
  }
}
