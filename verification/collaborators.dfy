/** The collaborators the service calls but does not implement: the user and
    phone repositories and the token utility, together with the trace of the
    calls a workflow makes on them. */
module Collaborators {
  import opened Wrappers
  import opened UserEntity

  /** The database: the `users` and `phones` tables in insertion order. */
  datatype Store = Store(users: seq<User>, phones: seq<Phone>)

  /** What the token utility says about a presented token: accepted, rejected
      (well-formed but wrong or expired), or not a token at all (the
      `MalformedJwtException` case). */
  datatype TokenCheck = Valid | Invalid | Malformed

  /** The token utility as two uninterpreted functions. */
  datatype Codec = Codec(generate: User -> string, validate: (string, User) -> TokenCheck)

  /** One call on a collaborator. Saves carry the row as stored. */
  datatype Event =
    | FindAllUsers
    | FindUserByEmail(email: string)
    | SaveUser(user: User)
    | SavePhone(phone: Phone)
    | GenerateToken(subject: User)
    | ValidateToken(token: string, subject: User)
  {
    predicate IsWrite() { SaveUser? || SavePhone? }
  }

  /** `userDao.findByEmail`: the user stored under `email`, if any. */
  function FindByEmail(users: seq<User>, email: string): (r: Option<User>)
    ensures r.None? <==> forall i :: 0 <= i < |users| ==> users[i].email != Some(email)
    ensures r.Some? ==> r.value in users && r.value.email == Some(email)
    decreases |users|
  {
    if |users| == 0 then None
    else if users[0].email == Some(email) then Some(users[0])
    else
      var r := FindByEmail(users[1..], email);
      assert forall i :: 1 <= i < |users| ==> users[i] == users[1..][i - 1];
      r
  }

  /** The `unique = true` column constraint the database keeps on emails. */
  predicate EmailsUnique(users: seq<User>) {
    forall i, j :: 0 <= i < |users| && 0 <= j < |users| && users[i].email.Some? && users[i].email == users[j].email ==> i == j
  }

  /** Under the unique constraint the lookup finds the one user with that email. */
  lemma FindByEmailUnique(users: seq<User>, i: nat)
    requires EmailsUnique(users)
    requires i < |users| && users[i].email.Some?
    ensures FindByEmail(users, users[i].email.value) == Some(users[i])
  {
    var r := FindByEmail(users, users[i].email.value);
    var j :| 0 <= j < |users| && users[j] == r.value;
  }

  /** A user appended behind users that do not share its email is the one found. */
  lemma {:induction false} FindByEmailAppended(users: seq<User>, u: User, email: string)
    requires u.email == Some(email)
    requires forall i :: 0 <= i < |users| ==> users[i].email != Some(email)
    ensures FindByEmail(users + [u], email) == Some(u)
    decreases |users|
  {
    if |users| > 0 {
      assert (users + [u])[1..] == users[1..] + [u];
      FindByEmailAppended(users[1..], u, email);
    }
  }

  /** The effect of a trace on the database: saves append rows, every other
      call leaves it as it was. */
  function Apply(store: Store, events: seq<Event>): (r: Store)
    ensures store.users <= r.users && store.phones <= r.phones
    ensures (forall i :: 0 <= i < |events| ==> !events[i].IsWrite()) ==> r == store
    decreases |events|
  {
    if |events| == 0 then store
    else
      var next := match events[0]
        case SaveUser(u) => store.(users := store.users + [u])
        case SavePhone(p) => store.(phones := store.phones + [p])
        case _ => store;
      var r := Apply(next, events[1..]);
      assert forall i :: 1 <= i < |events| ==> events[i] == events[1..][i - 1];
      r
  }
}
