/**
 * The older login handlers (pkg/routes/login.go). They reply with a JSON
 * object whose "message" is Denied, Expired or Authenticated and apply the
 * same lockout counter as the current handlers, but let an account in only
 * while its update time is still the zero time.
 */
module LegacyLogin {
  import opened Wrappers
  import opened Orm
  import opened Accounts
  import Store

  /** The reply object: its message and, on success, the two token fields. */
  datatype LegacyReply = LegacyReply(message: string, accessToken: Option<string>, refreshToken: Option<string>)

  /** The success reply, whose token fields are fixed placeholder texts. */
  const Authenticated := LegacyReply("Authenticated",
    Some("createAccessToken(user.UserName)"), Some("createRefreshToken(user.UserName)"))

  /** HandleLoginPost. */
  method HandleLoginPost(users: Store.Table<User>, found: nat, password: string, now: int,
                         verify: (seq<bv8>, string) -> bool)
    returns (reply: LegacyReply)
    requires users.Valid()
    requires found == 0 || found in users.rows
    modifies users
    ensures users.Valid() && users.nextId == old(users.nextId)
    ensures found == 0 || old(users.rows[found]).blocked ==>
      users.rows == old(users.rows) && reply == LegacyReply("Denied", None, None)
    ensures found != 0 && !old(users.rows[found]).blocked && !verify(old(users.rows[found]).password, password) ==>
      users.rows == old(users.rows)[found := AfterFailure(old(users.rows[found]))] &&
      reply == LegacyReply("Denied", None, None)
    ensures found != 0 && !old(users.rows[found]).blocked && verify(old(users.rows[found]).password, password) ==>
      if MayLogInLegacy(old(users.rows[found]), now) then
        users.rows == old(users.rows)[found := AfterSuccess(old(users.rows[found]), now)] && reply == Authenticated
      else
        users.rows == old(users.rows) && reply == LegacyReply("Expired", None, None)
  {
    if found != 0 {
      var user := users.rows[found];
      if !user.blocked {
        if verify(user.password, password) {
          if user.updatedAt == ZeroTime && now - user.createdAt < LoginWindow {
            user := user.(lastLogin := now);
            user := user.(attempt := 0);
            var _ := users.Save(found, user);
            return Authenticated;
          }
          return LegacyReply("Expired", None, None);
        } else {
          if user.attempt < MaxAttempt {
            user := user.(attempt := user.attempt + 1);
          } else {
            user := user.(blocked := true);
          }
          var _ := users.Save(found, user);
        }
      }
    }
    return LegacyReply("Denied", None, None);
  }

  /**
   * HandleLoginPatch: the hash is replaced only on an existing, unblocked
   * account whose old password verifies, and only when hashing worked.
   */
  method HandleLoginPatch(users: Store.Table<User>, found: nat, password: string,
                          newHash: Option<seq<bv8>>, verify: (seq<bv8>, string) -> bool)
    returns (reply: LegacyReply)
    requires users.Valid()
    requires found == 0 || found in users.rows
    modifies users
    ensures users.Valid() && users.nextId == old(users.nextId)
    ensures found != 0 && !old(users.rows[found]).blocked && verify(old(users.rows[found]).password, password)
            && newHash.Some? ==>
      users.rows == old(users.rows)[found := old(users.rows[found]).(password := newHash.value)] &&
      reply == LegacyReply("Authenticated", None, None)
    ensures !(found != 0 && !old(users.rows[found]).blocked && verify(old(users.rows[found]).password, password)
              && newHash.Some?) ==>
      users.rows == old(users.rows) && reply == LegacyReply("Denied", None, None)
  {
    if found != 0 {
      var user := users.rows[found];
      if !user.blocked {
        if verify(user.password, password) {
          if newHash.None? {
            return LegacyReply("Denied", None, None);
          }
          user := user.(password := newHash.value);
          var _ := users.Save(found, user);
          return LegacyReply("Authenticated", None, None);
        }
      }
    }
    return LegacyReply("Denied", None, None);
  }
}
