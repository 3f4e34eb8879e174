/** The two persistent entities of the account service, `User` and `Phone`,
    and the JPA lifecycle hooks that stamp a user's timestamps. */
module UserEntity {
  import opened Wrappers

  /** An abstract instant. The wall clock is not read by the model: every
      operation that stamps a time takes `now` as a parameter. */
  type Timestamp = int

  /** A row of the `phones` table. The back-reference to the owning user is
      kept as that user's id (the `user_id` join column) instead of an object
      reference, so a phone never holds its owner by value. */
  datatype Phone = Phone(
    id: Option<int>,
    number: Option<string>,
    cityCode: Option<string>,
    countryCode: Option<string>,
    owner: Option<string>)

  /** A row of the `users` table. Every reference-typed Java field may be null,
      hence the `Option`s; `phones` is the in-memory list of the aggregate. */
  datatype User = User(
    id: Option<string>,
    name: Option<string>,
    email: Option<string>,
    password: Option<string>,
    phones: seq<Phone>,
    isActive: Option<bool>,
    created: Option<Timestamp>,
    modified: Option<Timestamp>,
    lastLogin: Option<Timestamp>,
    token: Option<string>)

  /** `a` and `b` agree on every field except the three timestamps. */
  predicate SameExceptTimestamps(a: User, b: User) {
    && a.id == b.id
    && a.name == b.name
    && a.email == b.email
    && a.password == b.password
    && a.phones == b.phones
    && a.isActive == b.isActive
    && a.token == b.token
  }

  /** The `@PrePersist` hook: run once when a new user is first saved. */
  function CreatedAt(u: User, now: Timestamp): (r: User)
    ensures r.created == Some(now)
    ensures r.lastLogin == r.created
    ensures u.modified.None? ==> r.modified == r.created
    ensures u.modified.Some? ==> r.modified == u.modified
    ensures SameExceptTimestamps(u, r)
  {
    var created := Some(now);
    u.(created := created,
       lastLogin := created,
       modified := if u.modified.None? then created else u.modified)
  }

  /** The `@PreUpdate` hook: run before every later update of a stored user. */
  function UpdatedAt(u: User, now: Timestamp): (r: User)
    ensures r.modified == Some(now)
    ensures r.created == u.created && r.lastLogin == u.lastLogin
    ensures SameExceptTimestamps(u, r)
  {
    u.(modified := Some(now))
  }

  /** A user that never had a `modified` stamp leaves the first save with all
      three timestamps equal to the instant of the save. */
  lemma FirstPersistStampsAllThree(u: User, now: Timestamp)
    requires u.modified.None?
    ensures var r := CreatedAt(u, now);
      r.created == r.modified == r.lastLogin == Some(now)
  {
  }

  /** Persisting and then updating: `created` and `lastLogin` keep the persist
      instant, `modified` carries the update instant. */
  lemma UpdateAfterPersist(u: User, persisted: Timestamp, updated: Timestamp)
    ensures var r := UpdatedAt(CreatedAt(u, persisted), updated);
      && r.created == Some(persisted)
      && r.lastLogin == Some(persisted)
      && r.modified == Some(updated)
      && SameExceptTimestamps(u, r)
  {
  }

  /** Once set, `modified` is not overwritten by a later `@PrePersist`, while
      `created` and `lastLogin` are. */
  lemma RepersistKeepsModified(u: User, first: Timestamp, second: Timestamp)
    ensures var once := CreatedAt(u, first);
      var twice := CreatedAt(once, second);
      && twice.modified == once.modified
      && twice.created == twice.lastLogin == Some(second)
  {
  }

  /** Only the last of several updates is visible. */
  lemma LastUpdateWins(u: User, t1: Timestamp, t2: Timestamp)
    ensures UpdatedAt(UpdatedAt(u, t1), t2) == UpdatedAt(u, t2)
  {
  }
}
