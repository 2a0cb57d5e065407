/**
 * The user directory endpoints: list, look up, register, update and delete
 * users, over the shared `UserRepository`.
 */
module UserApi {
  import opened Wrappers
  import opened Users
  import opened Http

  /** The exceptions the endpoints raise instead of answering. */
  datatype UserError =
    | UserNotFoundException(id: UserId)
    | UserAlreadyExists  // "User with email or username already exists"

  /** An HTTP answer: status code and body. */
  datatype Reply<+T> = Reply(status: int, body: T)

  /** Ids of stored users that share `user`'s email or its username. */
  function Conflicts(users: map<UserId, User>, user: User): set<UserId> {
    set id | id in users && (users[id].email == user.email || users[id].username == user.username)
  }

  /** The password as saved: a non-null, non-empty one is replaced by its encoding. */
  function StoredPassword(password: Option<string>, encode: string -> string): Option<string> {
    if password.Some? && |password.value| > 0 then Some(encode(password.value)) else password
  }

  /** Registration's answer and the directory after it (`freshId` is the key the database assigns). */
  function Register(users: map<UserId, User>, user: User, freshId: UserId, encode: string -> string)
    : (r: (Result<Reply<User>, UserError>, map<UserId, User>))
    ensures users.Keys <= r.1.Keys <= users.Keys + {freshId}
    ensures r.0.Failure? ==> r.1 == users
    ensures r.0.Success? ==> freshId in r.1 && r.1[freshId] == r.0.value.body && r.0.value.body.id == freshId
  {
    if Conflicts(users, user) != {} then
      (Failure(UserAlreadyExists), users)
    else
      var saved := user.(id := freshId, password := StoredPassword(user.password, encode));
      (Success(Reply(CREATED, saved)), users[freshId := saved])
  }

  /**
   * Registration fails, saving nothing, exactly when some stored user has the
   * same email or the same username.
   */
  lemma RegisterRejectsDuplicates(users: map<UserId, User>, user: User, freshId: UserId, encode: string -> string)
    ensures Register(users, user, freshId, encode).0.Failure?
        <==> exists id :: id in users && (users[id].email == user.email || users[id].username == user.username)
    ensures Register(users, user, freshId, encode).0.Failure? ==>
              Register(users, user, freshId, encode) == (Failure(UserAlreadyExists), users)
  {
    var c := Conflicts(users, user);
    if c != {} {
      var id :| id in c;
      assert id in users && (users[id].email == user.email || users[id].username == user.username);
    } else {
      forall id | id in users ensures !(users[id].email == user.email || users[id].username == user.username) {
        assert id !in c;
      }
    }
  }

  /**
   * A successful registration answers 201 with the saved user, which is the
   * submitted user under the new id with its password encoded when non-empty,
   * and adds exactly that user to the directory.
   */
  lemma RegisterSavesEncodedUser(users: map<UserId, User>, user: User, freshId: UserId, encode: string -> string)
    requires Conflicts(users, user) == {}
    ensures var (r, users') := Register(users, user, freshId, encode);
      && r.Success? && r.value.status == CREATED
      && users' == users[freshId := r.value.body]
      && r.value.body.id == freshId
      && (user.password.Some? && user.password.value != [] ==> r.value.body.password == Some(encode(user.password.value)))
      && (user.password.None? || user.password.value == [] ==> r.value.body.password == user.password)
      && (forall f: ProfileField :: FieldOf(r.value.body, f) == FieldOf(user, f))
      && r.value.body.is2faEnabled == user.is2faEnabled
  {
  }

  /** Registration keeps usernames unique and emails unique. */
  lemma {:induction false} RegisterPreservesUniqueness(users: map<UserId, User>, user: User, freshId: UserId, encode: string -> string)
    requires UniqueUsernamesAndEmails(users) && freshId !in users
    ensures UniqueUsernamesAndEmails(Register(users, user, freshId, encode).1)
  {
    var users' := Register(users, user, freshId, encode).1;
    if Conflicts(users, user) == {} {
      forall a, b | a in users' && b in users' && a != b
        ensures users'[a].username != users'[b].username && users'[a].email != users'[b].email
      {
        if a == freshId {
          assert b !in Conflicts(users, user);
        } else if b == freshId {
          assert a !in Conflicts(users, user);
        }
      }
    }
  }

  /**
   * The update endpoint does not re-check uniqueness: a profile update can give
   * a user another user's username.
   */
  lemma UpdateMayDuplicateUsername()
    ensures exists users: map<UserId, User>, id: UserId, dto: UserUpdateDto, r: User ::
      && UniqueUsernamesAndEmails(users) && id in users && IsMergeOf(r, users[id], dto)
      && !UniqueUsernamesAndEmails(users[id := r])
  {
    var alice := User("1", "alice", "a@x", None, None, None, None, None, None, None, None, None, false);
    var bob := User("2", "bob", "b@x", None, None, None, None, None, None, None, None, None, false);
    var users := map["1" := alice, "2" := bob];
    var dto := UserUpdateDto(Some("alice"), None, None, None, None, None, None, None, None, None);
    var r := bob.(username := "alice");
    assert users["1"] == alice && users["2"] == bob;
    assert IsMergeOf(r, users["2"], dto);
    var users' := users["2" := r];
    assert users'["1"].username == users'["2"].username;
  }

  class UserController {
    const userRepository: UserRepository

    constructor (userRepository: UserRepository)
      ensures this.userRepository == userRepository
    {
      this.userRepository := userRepository;
    }

    /** 200 with every stored user. */
    method GetAllUsers() returns (r: Reply<set<User>>)
      ensures r.status == OK
      ensures forall u :: u in r.body <==> exists id :: id in userRepository.users && userRepository.users[id] == u
    {
      r := Reply(OK, userRepository.users.Values);
    }

    /** 200 with the stored user for a present id; not-found otherwise. */
    method GetUserById(id: UserId) returns (r: Result<Reply<User>, UserError>)
      ensures r.Success? <==> id in userRepository.users
      ensures r.Success? ==> r.value == Reply(OK, userRepository.users[id])
      ensures r.Failure? ==> r.error == UserNotFoundException(id)
    {
      if id in userRepository.users {
        r := Success(Reply(OK, userRepository.users[id]));
      } else {
        r := Failure(UserNotFoundException(id));
      }
    }

    /**
     * Registers `user` unless its email or username is taken. `freshId` is the
     * key the database generates; `encode` is the password encoder for this call.
     */
    method CreateUser(user: User, freshId: UserId, encode: string -> string) returns (r: Result<Reply<User>, UserError>)
      requires userRepository.Valid() && freshId !in userRepository.users
      modifies userRepository
      ensures userRepository.Valid()
      ensures (r, userRepository.users) == Register(old(userRepository.users), user, freshId, encode)
      ensures UniqueUsernamesAndEmails(old(userRepository.users)) ==> UniqueUsernamesAndEmails(userRepository.users)
    {
      if UniqueUsernamesAndEmails(userRepository.users) {
        RegisterPreservesUniqueness(userRepository.users, user, freshId, encode);
      }
      var existing := Conflicts(userRepository.users, user);
      if existing != {} {
        r := Failure(UserAlreadyExists);
        return;
      }
      var toSave := user.(id := freshId);
      if user.password.Some? && |user.password.value| > 0 {
        toSave := toSave.(password := Some(encode(user.password.value)));
      }
      userRepository.Save(toSave);
      r := Success(Reply(CREATED, toSave));
    }

    /**
     * Overwrites each profile field the DTO supplies (non-null), one field at a
     * time, and leaves every other field of `user` as it was.
     */
    method UpdateUserFields(user: User, dto: UserUpdateDto) returns (updated: User)
      ensures IsMergeOf(updated, user, dto)
    {
      updated := user;
      updated := updated.(username := MergedValue(dto.username, updated.username));
      updated := updated.(firstName := Merged(dto.firstName, updated.firstName));
      updated := updated.(lastName := Merged(dto.lastName, updated.lastName));
      updated := updated.(email := MergedValue(dto.email, updated.email));
      updated := updated.(phoneNumber := Merged(dto.phoneNumber, updated.phoneNumber));
      updated := updated.(address := Merged(dto.address, updated.address));
      updated := updated.(city := Merged(dto.city, updated.city));
      updated := updated.(state := Merged(dto.state, updated.state));
      updated := updated.(postalCode := Merged(dto.postalCode, updated.postalCode));
      updated := updated.(country := Merged(dto.country, updated.country));
      MergeByFields(updated, user, dto);
    }

    /** Merges the DTO into a present user and saves it; not-found for an absent id. */
    method UpdateUser(id: UserId, dto: UserUpdateDto) returns (r: Result<Reply<User>, UserError>)
      requires userRepository.Valid()
      modifies userRepository
      ensures userRepository.Valid()
      ensures id !in old(userRepository.users) ==>
                r == Failure(UserNotFoundException(id)) && userRepository.users == old(userRepository.users)
      ensures id in old(userRepository.users) ==>
                && r.Success? && r.value.status == OK
                && IsMergeOf(r.value.body, old(userRepository.users)[id], dto)
                && userRepository.users == old(userRepository.users)[id := r.value.body]
    {
      var found := GetUserById(id);
      if found.Failure? {
        r := Failure(found.error);
        return;
      }
      var user := UpdateUserFields(found.value.body, dto);
      userRepository.Save(user);
      r := Success(Reply(OK, user));
    }

    /** Removes exactly the user with this id and answers 204; not-found for an absent id. */
    method DeleteUser(id: UserId) returns (r: Result<Reply<()>, UserError>)
      requires userRepository.Valid()
      modifies userRepository
      ensures userRepository.Valid()
      ensures id !in old(userRepository.users) ==>
                r == Failure(UserNotFoundException(id)) && userRepository.users == old(userRepository.users)
      ensures id in old(userRepository.users) ==>
                r == Success(Reply(NO_CONTENT, ())) && userRepository.users == old(userRepository.users) - {id}
      ensures UniqueUsernamesAndEmails(old(userRepository.users)) ==> UniqueUsernamesAndEmails(userRepository.users)
    {
      var found := GetUserById(id);
      if found.Failure? {
        r := Failure(found.error);
        return;
      }
      userRepository.DeleteById(id);
      r := Success(Reply(NO_CONTENT, ()));
    }
  }
}
