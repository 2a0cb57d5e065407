/**
 * The user entity, the partial-update DTO, and the user repository shared by
 * the controllers and the password-reset service.
 */
module Users {
  import opened Wrappers

  /** A user's primary key (a UUID, kept as its string form). */
  type UserId = string

  /**
   * A stored user. Username and email are the two login identifiers; the
   * password and the eight optional profile fields may be null.
   */
  datatype User = User(
    id: UserId,
    username: string,
    email: string,
    password: Option<string>,
    firstName: Option<string>,
    lastName: Option<string>,
    phoneNumber: Option<string>,
    address: Option<string>,
    city: Option<string>,
    state: Option<string>,
    postalCode: Option<string>,
    country: Option<string>,
    is2faEnabled: bool)

  /** Body of a profile update: every field may be null, meaning "leave as is". */
  datatype UserUpdateDto = UserUpdateDto(
    username: Option<string>,
    firstName: Option<string>,
    lastName: Option<string>,
    email: Option<string>,
    phoneNumber: Option<string>,
    address: Option<string>,
    city: Option<string>,
    state: Option<string>,
    postalCode: Option<string>,
    country: Option<string>)

  /** The ten profile fields a `UserUpdateDto` can carry. */
  datatype ProfileField =
    Username | FirstName | LastName | Email | PhoneNumber | Address | City | State | PostalCode | Country

  /** The value of profile field `f` of `u`. */
  function FieldOf(u: User, f: ProfileField): Option<string> {
    match f
    case Username => Some(u.username)
    case FirstName => u.firstName
    case LastName => u.lastName
    case Email => Some(u.email)
    case PhoneNumber => u.phoneNumber
    case Address => u.address
    case City => u.city
    case State => u.state
    case PostalCode => u.postalCode
    case Country => u.country
  }

  /** The value the DTO carries for profile field `f` (None when it is null). */
  function DtoField(dto: UserUpdateDto, f: ProfileField): Option<string> {
    match f
    case Username => dto.username
    case FirstName => dto.firstName
    case LastName => dto.lastName
    case Email => dto.email
    case PhoneNumber => dto.phoneNumber
    case Address => dto.address
    case City => dto.city
    case State => dto.state
    case PostalCode => dto.postalCode
    case Country => dto.country
  }

  /**
   * `r` is `user` with exactly the profile fields that `dto` supplies
   * overwritten: every field the DTO leaves null keeps its value, and the
   * id, password and 2FA flag are never touched.
   */
  ghost predicate IsMergeOf(r: User, user: User, dto: UserUpdateDto) {
    && (forall f: ProfileField :: FieldOf(r, f) == Merged(DtoField(dto, f), FieldOf(user, f)))
    && r.id == user.id
    && r.password == user.password
    && r.is2faEnabled == user.is2faEnabled
  }

  /** The value a field has after the merge: the supplied one, else the current one. */
  function Merged(supplied: Option<string>, current: Option<string>): Option<string> {
    if supplied.Some? then supplied else current
  }

  /** The same for a field that is never null. */
  function MergedValue(supplied: Option<string>, current: string): string {
    if supplied.Some? then supplied.value else current
  }

  /** Field-by-field form of `IsMergeOf`, one equation per field of `User`. */
  lemma MergeByFields(r: User, user: User, dto: UserUpdateDto)
    requires r.id == user.id && r.password == user.password && r.is2faEnabled == user.is2faEnabled
    requires r.username == MergedValue(dto.username, user.username)
    requires r.email == MergedValue(dto.email, user.email)
    requires r.firstName == Merged(dto.firstName, user.firstName)
    requires r.lastName == Merged(dto.lastName, user.lastName)
    requires r.phoneNumber == Merged(dto.phoneNumber, user.phoneNumber)
    requires r.address == Merged(dto.address, user.address)
    requires r.city == Merged(dto.city, user.city)
    requires r.state == Merged(dto.state, user.state)
    requires r.postalCode == Merged(dto.postalCode, user.postalCode)
    requires r.country == Merged(dto.country, user.country)
    ensures IsMergeOf(r, user, dto)
  {
    forall f: ProfileField ensures FieldOf(r, f) == Merged(DtoField(dto, f), FieldOf(user, f)) {
      match f
      case Username =>
      case Email =>
      case FirstName =>
      case LastName =>
      case PhoneNumber =>
      case Address =>
      case City =>
      case State =>
      case PostalCode =>
      case Country =>
    }
  }

  /** Two users that agree on every profile field, id, password and flag are equal. */
  lemma SameFieldsSameUser(a: User, b: User)
    requires forall f: ProfileField :: FieldOf(a, f) == FieldOf(b, f)
    requires a.id == b.id && a.password == b.password && a.is2faEnabled == b.is2faEnabled
    ensures a == b
  {
    assert FieldOf(a, Username) == FieldOf(b, Username);
    assert FieldOf(a, Email) == FieldOf(b, Email);
    assert FieldOf(a, FirstName) == FieldOf(b, FirstName);
    assert FieldOf(a, LastName) == FieldOf(b, LastName);
    assert FieldOf(a, PhoneNumber) == FieldOf(b, PhoneNumber);
    assert FieldOf(a, Address) == FieldOf(b, Address);
    assert FieldOf(a, City) == FieldOf(b, City);
    assert FieldOf(a, State) == FieldOf(b, State);
    assert FieldOf(a, PostalCode) == FieldOf(b, PostalCode);
    assert FieldOf(a, Country) == FieldOf(b, Country);
  }

  /** A merge is determined by the user and the DTO. */
  lemma MergeIsDeterministic(r1: User, r2: User, user: User, dto: UserUpdateDto)
    requires IsMergeOf(r1, user, dto) && IsMergeOf(r2, user, dto)
    ensures r1 == r2
  {
    forall f: ProfileField ensures FieldOf(r1, f) == FieldOf(r2, f) {
    }
    SameFieldsSameUser(r1, r2);
  }

  /** Applying the same DTO a second time changes nothing. */
  lemma MergeIsIdempotent(r1: User, r2: User, user: User, dto: UserUpdateDto)
    requires IsMergeOf(r1, user, dto) && IsMergeOf(r2, r1, dto)
    ensures r2 == r1
  {
    forall f: ProfileField ensures FieldOf(r2, f) == FieldOf(r1, f) {
    }
    SameFieldsSameUser(r2, r1);
  }

  /** An all-null DTO leaves the user as it was. */
  lemma EmptyDtoIsIdentity(r: User, user: User)
    requires IsMergeOf(r, user, UserUpdateDto(None, None, None, None, None, None, None, None, None, None))
    ensures r == user
  {
    SameFieldsSameUser(r, user);
  }

  /** Ids of the users whose username or whose email equals `identifier`. */
  function Matching(users: map<UserId, User>, identifier: string): set<UserId> {
    set id | id in users && (users[id].username == identifier || users[id].email == identifier)
  }

  /**
   * What a single-result repository query by username-or-email gives: null,
   * the one matching user, or an incorrect-result-size error when several match.
   */
  datatype Lookup = NoMatch | Found(id: UserId) | Ambiguous

  lemma SingletonHasOneElement<T>(s: set<T>, x: T)
    requires |s| == 1 && x in s
    ensures s == {x}
  {
    assert |s - {x}| == 0;
  }

  /** `findByUsernameOrEmail(identifier, identifier)` evaluated against `users`. */
  ghost function LookupIn(users: map<UserId, User>, identifier: string): (r: Lookup)
    ensures r.NoMatch? <==> Matching(users, identifier) == {}
    ensures r.Found? ==> Matching(users, identifier) == {r.id} && r.id in users
    ensures r.Ambiguous? <==> |Matching(users, identifier)| > 1
  {
    var m := Matching(users, identifier);
    if m == {} then NoMatch
    else if |m| == 1 then
      var id :| id in m;
      SingletonHasOneElement(m, id);
      Found(id)
    else Ambiguous
  }

  /** No two users share a username, and no two share an email. */
  ghost predicate UniqueUsernamesAndEmails(users: map<UserId, User>) {
    forall a, b :: a in users && b in users && a != b ==>
      users[a].username != users[b].username && users[a].email != users[b].email
  }

  /** The user table: users by primary key. */
  class UserRepository {
    var users: map<UserId, User>

    /** Every user is stored under its own id. */
    ghost predicate Valid()
      reads this
    {
      forall id :: id in users ==> users[id].id == id
    }

    constructor (initial: map<UserId, User>)
      requires forall id :: id in initial ==> initial[id].id == id
      ensures Valid() && users == initial
    {
      users := initial;
    }

    method FindByUsernameOrEmail(identifier: string) returns (r: Lookup)
      ensures r == LookupIn(users, identifier)
    {
      var m := Matching(users, identifier);
      if m == {} {
        r := NoMatch;
      } else if |m| == 1 {
        var id :| id in m;
        SingletonHasOneElement(m, id);
        r := Found(id);
      } else {
        r := Ambiguous;
      }
    }

    /** Inserts or overwrites the row keyed by the user's id. */
    method Save(user: User)
      requires Valid()
      modifies this
      ensures Valid() && users == old(users)[user.id := user]
    {
      users := users[user.id := user];
    }

    method DeleteById(id: UserId)
      requires Valid()
      modifies this
      ensures Valid() && users == old(users) - {id}
    {
      users := users - {id};
    }
  }
}
