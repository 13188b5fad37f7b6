/** Sign-up, login and password reset over a store of users. The password encoder and the
    token provider belong to other libraries; they are fixed functions the service is given. */
module Auth {
  import opened Common

  datatype User = User(id: Option<string>, username: string, password: string, name: string, phone: string, role: string)

  datatype SignupRequest = SignupRequest(username: string, password: string, name: string, phone: string)
  datatype LoginRequest = LoginRequest(username: string, password: string)
  datatype LoginResponse = LoginResponse(token: string, userId: string, name: string)
  datatype PasswordResetRequest = PasswordResetRequest(username: string, currentPassword: string, newPassword: string)

  const DuplicateUsername := "이미 존재하는 아이디입니다."
  const BadCredentials := "아이디 또는 비밀번호가 일치하지 않습니다."
  const UserRole := "ROLE_USER"

  /** Every stored user carries its own key as id. */
  predicate Stored(s: map<string, User>) {
    forall k :: k in s ==> s[k].id == Some(k)
  }

  /** No two users share a username; signup keeps this. */
  predicate UniqueUsernames(s: map<string, User>) {
    forall j, k :: j in s && k in s && s[j].username == s[k].username ==> j == k
  }

  /** existsByUsername */
  predicate Exists(s: map<string, User>, username: string) {
    exists k :: k in s && s[k].username == username
  }

  /** The stored user `k` has this username and the password matches its encoded password. */
  predicate Authenticates(s: map<string, User>, matches: (string, string) -> bool, k: string, username: string, password: string) {
    k in s && s[k].username == username && matches(password, s[k].password)
  }

  class AuthService {
    var users: map<string, User>
    const encode: string -> string
    const matches: (string, string) -> bool
    const createToken: (string, string) -> string

    ghost predicate Valid()
      reads this
    {
      Stored(users) && UniqueUsernames(users)
    }

    constructor (encode: string -> string, matches: (string, string) -> bool, createToken: (string, string) -> string)
      ensures Valid() && users == map[]
      ensures this.encode == encode && this.matches == matches && this.createToken == createToken
    {
      users := map[];
      this.encode := encode;
      this.matches := matches;
      this.createToken := createToken;
    }

    /** findByUsername: the key of the user with that username, if any. */
    method FindByUsername(username: string) returns (k: Option<string>)
      ensures k.Some? ==> k.value in users && users[k.value].username == username
      ensures k.None? ==> !Exists(users, username)
    {
      var rest := users.Keys;
      k := None;
      while rest != {}
        invariant rest <= users.Keys
        invariant k.Some? ==> k.value in users && users[k.value].username == username
        invariant k.None? ==> forall j :: j in users && j !in rest ==> users[j].username != username
        decreases |rest|
      {
        var j :| j in rest;
        if users[j].username == username {
          k := Some(j);
        }
        rest := rest - {j};
      }
    }

    /** `newId` is the id the repository generates on save. */
    method Signup(request: SignupRequest, newId: string) returns (r: Result<()>)
      requires Valid() && newId !in users
      modifies this
      ensures Valid()
      ensures Exists(old(users), request.username) ==> r == Err(Conflict(DuplicateUsername)) && users == old(users)
      ensures !Exists(old(users), request.username) ==>
        && r == Ok(())
        && users == old(users)[newId := User(Some(newId), request.username, encode(request.password), request.name, request.phone, UserRole)]
    {
      var found := FindByUsername(request.username);
      if found.Some? {
        r := Err(Conflict(DuplicateUsername));
        return;
      }
      var user := User(None, request.username, encode(request.password), request.name, request.phone, UserRole);
      user := user.(id := Some(newId));
      users := users[newId := user];
      r := Ok(());
    }

    /** An unknown username and a wrong password fail with the same message. */
    method Login(request: LoginRequest) returns (r: Result<LoginResponse>)
      requires Valid()
      ensures r.Ok? <==> exists k :: Authenticates(users, matches, k, request.username, request.password)
      ensures r.Err? ==> r == Err(Unauthorized(BadCredentials))
      ensures forall k :: Authenticates(users, matches, k, request.username, request.password) ==>
        r == Ok(LoginResponse(createToken(request.username, k), k, users[k].name))
    {
      var found := FindByUsername(request.username);
      if found.None? {
        r := Err(Unauthorized(BadCredentials));
        return;
      }
      var user := users[found.value];
      assert forall k :: k in users && users[k].username == request.username ==> k == found.value;
      if !matches(request.password, user.password) {
        r := Err(Unauthorized(BadCredentials));
        return;
      }
      assert Authenticates(users, matches, found.value, request.username, request.password);
      var token := createToken(user.username, user.id.value);
      r := Ok(LoginResponse(token, user.id.value, user.name));
    }

    /** The password changes only when the current password matches; nothing else changes. */
    method ResetPassword(request: PasswordResetRequest) returns (r: Result<()>)
      requires Valid()
      modifies this
      ensures Valid()
      ensures r.Ok? <==> exists k :: Authenticates(old(users), matches, k, request.username, request.currentPassword)
      ensures r.Err? ==> r == Err(Unauthorized(BadCredentials)) && users == old(users)
      ensures forall k :: Authenticates(old(users), matches, k, request.username, request.currentPassword) ==>
        users == old(users)[k := old(users)[k].(password := encode(request.newPassword))]
    {
      var found := FindByUsername(request.username);
      if found.None? {
        r := Err(Unauthorized(BadCredentials));
        return;
      }
      var user := users[found.value];
      assert forall k :: k in users && users[k].username == request.username ==> k == found.value;
      if !matches(request.currentPassword, user.password) {
        r := Err(Unauthorized(BadCredentials));
        return;
      }
      assert Authenticates(users, matches, found.value, request.username, request.currentPassword);
      user := user.(password := encode(request.newPassword));
      users := users[found.value := user];
      r := Ok(());
    }
  }
}
