/**
 * The login handlers (app/controllers/login.go). The account is the record
 * the user-name lookup found, given as its key (0 when none matched); the
 * bcrypt check is the `verify` function; a new hash is `Some` digest or
 * `None` where hashing failed; the tokens are the generators' results.
 */
module Login {
  import opened Wrappers
  import opened Orm
  import opened Accounts
  import opened Http
  import Store
  import Middleware
  import Jwt

  /** A reply: its status, its message and, on success, the token pair. */
  datatype LoginReply = LoginReply(status: int, message: string, tokens: Option<Jwt.Tokens>)

  /**
   * PostLogin. A missing or blocked account is denied untouched; a wrong
   * password runs the lockout counter; a right one either resets the
   * counter and issues tokens, or answers "Expired" when the account is
   * outside its login window.
   */
  method PostLogin(users: Store.Table<User>, found: nat, password: string, now: int,
                   verify: (seq<bv8>, string) -> bool,
                   access: Result<string, string>, refresh: string)
    returns (reply: LoginReply)
    requires users.Valid()
    requires found == 0 || found in users.rows
    modifies users
    ensures users.Valid() && users.nextId == old(users.nextId)
    ensures found == 0 || old(users.rows[found]).blocked ==>
      users.rows == old(users.rows) && reply == LoginReply(StatusUnauthorized, "Denied", None)
    ensures found != 0 && !old(users.rows[found]).blocked && !verify(old(users.rows[found]).password, password) ==>
      users.rows == old(users.rows)[found := AfterFailure(old(users.rows[found]))] &&
      reply == LoginReply(StatusUnauthorized, "Denied", None)
    ensures found != 0 && !old(users.rows[found]).blocked && verify(old(users.rows[found]).password, password) ==>
      if MayLogIn(old(users.rows[found]), now) then
        users.rows == old(users.rows)[found := AfterSuccess(old(users.rows[found]), now)] &&
        reply == (if access.Ok? then LoginReply(StatusOK, "Authenticated", Some(Jwt.Tokens(access.value, refresh)))
                  else LoginReply(StatusOK, "Denied", None))
      else
        users.rows == old(users.rows) && reply == LoginReply(StatusOK, "Expired", None)
  {
    if found != 0 {
      var user := users.rows[found];
      if !user.blocked {
        if verify(user.password, password) {
          if user.updatedAt != ZeroTime && now - user.createdAt < LoginWindow {
            user := user.(lastLogin := now);
            user := user.(attempt := 0);
            var _ := users.Save(found, user);
            if access.Err? {
              return LoginReply(StatusOK, "Denied", None);
            }
            return LoginReply(StatusOK, "Authenticated", Some(Jwt.Tokens(access.value, refresh)));
          }
          return LoginReply(StatusOK, "Expired", None);
        } else {
          if user.attempt < MaxAttempt {
            user := user.(attempt := user.attempt + 1);
          } else {
            user := user.(blocked := true);
          }
          var _ := users.Save(found, user);
        }
      }
    }
    return LoginReply(StatusUnauthorized, "Denied", None);
  }

  /**
   * PatchLogin. The hash is replaced only on an existing, unblocked account
   * whose old password verifies and only when hashing the new one worked;
   * every other path answers "Denied" and writes nothing.
   */
  method PatchLogin(users: Store.Table<User>, found: nat, password: string,
                    newHash: Option<seq<bv8>>, verify: (seq<bv8>, string) -> bool)
    returns (reply: LoginReply)
    requires users.Valid()
    requires found == 0 || found in users.rows
    modifies users
    ensures users.Valid() && users.nextId == old(users.nextId)
    ensures found != 0 && !old(users.rows[found]).blocked && verify(old(users.rows[found]).password, password)
            && newHash.Some? ==>
      users.rows == old(users.rows)[found := old(users.rows[found]).(password := newHash.value)] &&
      reply == LoginReply(StatusCreated, "Authenticated", None)
    ensures !(found != 0 && !old(users.rows[found]).blocked && verify(old(users.rows[found]).password, password)
              && newHash.Some?) ==>
      users.rows == old(users.rows) && reply == LoginReply(StatusOK, "Denied", None)
  {
    if found != 0 {
      var user := users.rows[found];
      if !user.blocked {
        if verify(user.password, password) {
          if newHash.None? {
            return LoginReply(StatusOK, "Denied", None);
          }
          user := user.(password := newHash.value);
          var _ := users.Save(found, user);
          return LoginReply(StatusCreated, "Authenticated", None);
        }
      }
    }
    return LoginReply(StatusOK, "Denied", None);
  }

  /**
   * RefreshToken. The token's metadata names the account. A metadata error
   * answers 500; a failed read of the metadata panics; an existing unblocked
   * account gets a new access token (500 when signing fails); any other gets
   * 401 "unauthorized". A 500 encodes the error value rather than its text,
   * so its message is empty, as in every 500 reply of this model. Nothing is
   * written.
   */
  method RefreshToken(users: Store.Table<User>, header: string, parse: string -> Middleware.Parse,
                      access: Result<string, string>)
    returns (reply: Exec<Reply>)
    requires users.Valid()
    ensures Middleware.MetadataOf(header, parse).ExtractPanic? ==> reply == Panics
    ensures Middleware.MetadataOf(header, parse).ExtractError? ==>
      reply == Returns(Reply(StatusInternalServerError, ""))
    ensures Middleware.MetadataOf(header, parse).Extracted? ==>
      var id := Middleware.MetadataOf(header, parse).meta.userId;
      if id in users.rows && !users.rows[id].blocked then
        reply == Returns(if access.Ok? then Reply(StatusOK, access.value) else Reply(StatusInternalServerError, ""))
      else
        reply == Returns(Reply(StatusUnauthorized, "unauthorized"))
  {
    var claims := Middleware.ExtractTokenMetadata(header, parse);
    if claims.ExtractPanic? {
      return Panics;
    }
    if claims.ExtractError? {
      return Returns(Reply(StatusInternalServerError, ""));
    }
    var user := users.Load(claims.meta.userId, ZeroUser);
    if user.0 != 0 && !user.1.blocked {
      if access.Err? {
        return Returns(Reply(StatusInternalServerError, ""));
      }
      return Returns(Reply(StatusOK, access.value));
    }
    return Returns(Reply(StatusUnauthorized, "unauthorized"));
  }
}
