/**
 * The administration handlers (app/controllers/admin.go): the admin gate,
 * the edits of a user's role and group lists, blocking and password reset,
 * account creation, and the paged table browser. Bodies that carry a
 * record are reduced to their status; their message is empty.
 */
module Admin {
  import opened Wrappers
  import opened GoStd
  import opened Orm
  import opened Http
  import Store
  import Paging

  // ------------------------------------------------------------------ gate

  /**
   * The gate in front of every handler, over what the role helper returned
   * (its count of matches, or its error): a refusal when it erred or found
   * nothing, with the error text or `fallback` as the message.
   */
  function Gate(auth: Result<int, string>, fallback: string): (denial: Option<Reply>)
    ensures denial.None? <==> auth.Ok? && auth.value != 0
    ensures denial.Some? ==> denial.value.status == StatusUnauthorized
    ensures auth.Err? ==> denial == Some(Reply(StatusUnauthorized, auth.error))
    ensures auth == Ok(0) ==> denial == Some(Reply(StatusUnauthorized, fallback))
  {
    if auth.Err? then Some(Reply(StatusUnauthorized, auth.error))
    else if auth.value == 0 then Some(Reply(StatusUnauthorized, fallback))
    else None
  }

  // ------------------------------------------------------------ list edits

  /** The position of the first element satisfying `p`, or |s| when there is none. */
  function FirstWhere<T>(s: seq<T>, p: T -> bool): (k: nat)
    ensures k <= |s|
    ensures forall j :: 0 <= j < k ==> !p(s[j])
    ensures k < |s| ==> p(s[k])
  {
    if s == [] then 0
    else if p(s[0]) then 0
    else
      var k := 1 + FirstWhere(s[1..], p);
      assert forall j :: 1 <= j < k ==> s[j] == s[1..][j - 1];
      k
  }

  /** `s` with its first element satisfying `p` taken out, as `append(s[:i], s[i+1:]...)` does; `s` when there is none. */
  function WithoutFirst<T>(s: seq<T>, p: T -> bool): seq<T>
  {
    var k := FirstWhere(s, p);
    if k < |s| then s[..k] + s[k + 1..] else s
  }

  /** `s` with `x` appended when some element satisfies `p`; `s` otherwise. */
  function AppendIfAny<T>(s: seq<T>, p: T -> bool, x: T): seq<T>
  {
    if FirstWhere(s, p) < |s| then s + [x] else s
  }

  /**
   * Taking out the first match removes exactly that one element and keeps
   * the others in order; with no match nothing changes.
   */
  lemma WithoutFirstRemovesOne<T>(s: seq<T>, p: T -> bool)
    ensures var r := WithoutFirst(s, p); var k := FirstWhere(s, p);
      (k == |s| <==> forall j :: 0 <= j < |s| ==> !p(s[j])) &&
      (k == |s| ==> r == s) &&
      (k < |s| ==> |r| == |s| - 1 && multiset(r) + multiset{s[k]} == multiset(s) &&
                   forall j :: 0 <= j < |r| ==> r[j] == if j < k then s[j] else s[j + 1])
  {
    var k := FirstWhere(s, p);
    if k < |s| {
      assert s == s[..k] + [s[k]] + s[k + 1..];
    }
  }

  /**
   * The conditional append adds exactly one element, at the end, when some
   * element satisfies `p`, and nothing otherwise, in particular not to an
   * empty list.
   */
  lemma AppendIfAnyAddsOne<T>(s: seq<T>, p: T -> bool, x: T)
    ensures (exists j :: 0 <= j < |s| && p(s[j])) ==> AppendIfAny(s, p, x) == s + [x]
    ensures (forall j :: 0 <= j < |s| ==> !p(s[j])) ==> AppendIfAny(s, p, x) == s
    ensures AppendIfAny([], p, x) == []
  {
  }

  /** The loop of DelRoles and DelGroups: the first match is cut out and the loop stops. */
  method DeleteFirst<T>(s: seq<T>, p: T -> bool) returns (r: seq<T>)
    ensures r == WithoutFirst(s, p)
  {
    r := s;
    var i := 0;
    while i < |s|
      invariant 0 <= i <= |s|
      invariant forall j :: 0 <= j < i ==> !p(s[j])
    {
      if p(s[i]) {
        r := s[..i] + s[i + 1..];
        break;
      }
      i := i + 1;
    }
  }

  /** The loop of GetRoles and GetGroups: at the first element that satisfies `p`, `x` is appended and the loop stops. */
  method AppendOnFirst<T>(s: seq<T>, p: T -> bool, x: T) returns (r: seq<T>)
    ensures r == AppendIfAny(s, p, x)
  {
    r := s;
    var i := 0;
    while i < |s|
      invariant 0 <= i <= |s|
      invariant forall j :: 0 <= j < i ==> !p(s[j])
    {
      if p(s[i]) {
        r := s + [x];
        break;
      }
      i := i + 1;
    }
  }

  function RoleNamed(value: string): Role -> bool { (r: Role) => r.nameRole == value }
  function RoleNotNamed(value: string): Role -> bool { (r: Role) => r.nameRole != value }
  function GroupNamed(value: string): Group -> bool { (g: Group) => g.nameGroup == value }
  function GroupNotNamed(value: string): Group -> bool { (g: Group) => g.nameGroup != value }

  /** The loaded user has a role to edit: the lookup found it and the predicate holds for one of its roles. */
  predicate EditsRoles(users: map<nat, User>, key: nat, p: Role -> bool)
  {
    key in users && FirstWhere(users[key].roles, p) < |users[key].roles|
  }

  predicate EditsGroups(users: map<nat, User>, key: nat, p: Group -> bool)
  {
    key in users && FirstWhere(users[key].groups, p) < |users[key].groups|
  }

  /** DelRoles: the user's first role named `value` is removed and the user saved. */
  method DelRoles(users: Store.Table<User>, auth: Result<int, string>, userIdParam: string, value: string)
    returns (reply: Reply)
    requires users.Valid()
    modifies users
    ensures users.Valid() && users.nextId == old(users.nextId)
    ensures Gate(auth, "Unauthorized User").Some? ==>
      users.rows == old(users.rows) && reply == Gate(auth, "Unauthorized User").value
    ensures Gate(auth, "Unauthorized User").None? ==> (reply.status == StatusOK &&
      var key := Store.KeyOf(userIdParam);
      users.rows == if EditsRoles(old(users.rows), key, RoleNamed(value))
                    then old(users.rows)[key := old(users.rows[key]).(roles := WithoutFirst(old(users.rows[key]).roles, RoleNamed(value)))]
                    else old(users.rows))
  {
    var denial := Gate(auth, "Unauthorized User");
    if denial.Some? {
      return denial.value;
    }
    var loaded := users.Load(Store.KeyOf(userIdParam), ZeroUser);
    var (key, user) := loaded;
    if FirstWhere(user.roles, RoleNamed(value)) < |user.roles| {
      var roles := DeleteFirst(user.roles, RoleNamed(value));
      user := user.(roles := roles);
      var _ := users.Save(key, user);
    }
    return Reply(StatusOK, "");
  }

  /** DelGroups: the user's first group named `value` is removed and the user saved. */
  method DelGroups(users: Store.Table<User>, auth: Result<int, string>, userIdParam: string, value: string)
    returns (reply: Reply)
    requires users.Valid()
    modifies users
    ensures users.Valid() && users.nextId == old(users.nextId)
    ensures Gate(auth, "Unauthorized User").Some? ==>
      users.rows == old(users.rows) && reply == Gate(auth, "Unauthorized User").value
    ensures Gate(auth, "Unauthorized User").None? ==> (reply.status == StatusOK &&
      var key := Store.KeyOf(userIdParam);
      users.rows == if EditsGroups(old(users.rows), key, GroupNamed(value))
                    then old(users.rows)[key := old(users.rows[key]).(groups := WithoutFirst(old(users.rows[key]).groups, GroupNamed(value)))]
                    else old(users.rows))
  {
    var denial := Gate(auth, "Unauthorized User");
    if denial.Some? {
      return denial.value;
    }
    var loaded := users.Load(Store.KeyOf(userIdParam), ZeroUser);
    var (key, user) := loaded;
    if FirstWhere(user.groups, GroupNamed(value)) < |user.groups| {
      var groups := DeleteFirst(user.groups, GroupNamed(value));
      user := user.(groups := groups);
      var _ := users.Save(key, user);
    }
    return Reply(StatusOK, "");
  }

  /**
   * GetRoles: when the user has a role not named `value`, the role the name
   * lookup returned (`looked`, the zero role when none matched) is appended
   * once and the user saved.
   */
  method GetRoles(users: Store.Table<User>, auth: Result<int, string>, userIdParam: string, value: string, looked: Role)
    returns (reply: Reply)
    requires users.Valid()
    modifies users
    ensures users.Valid() && users.nextId == old(users.nextId)
    ensures Gate(auth, "Unauthorized User").Some? ==>
      users.rows == old(users.rows) && reply == Gate(auth, "Unauthorized User").value
    ensures Gate(auth, "Unauthorized User").None? ==> (reply.status == StatusOK &&
      var key := Store.KeyOf(userIdParam);
      users.rows == if EditsRoles(old(users.rows), key, RoleNotNamed(value))
                    then old(users.rows)[key := old(users.rows[key]).(roles := old(users.rows[key]).roles + [looked])]
                    else old(users.rows))
  {
    var denial := Gate(auth, "Unauthorized User");
    if denial.Some? {
      return denial.value;
    }
    var loaded := users.Load(Store.KeyOf(userIdParam), ZeroUser);
    var (key, user) := loaded;
    if FirstWhere(user.roles, RoleNotNamed(value)) < |user.roles| {
      var roles := AppendOnFirst(user.roles, RoleNotNamed(value), looked);
      user := user.(roles := roles);
      var _ := users.Save(key, user);
    }
    return Reply(StatusOK, "");
  }

  /** GetGroups: the same conditional append over the user's groups. */
  method GetGroups(users: Store.Table<User>, auth: Result<int, string>, userIdParam: string, value: string, looked: Group)
    returns (reply: Reply)
    requires users.Valid()
    modifies users
    ensures users.Valid() && users.nextId == old(users.nextId)
    ensures Gate(auth, "Unauthorized User").Some? ==>
      users.rows == old(users.rows) && reply == Gate(auth, "Unauthorized User").value
    ensures Gate(auth, "Unauthorized User").None? ==> (reply.status == StatusOK &&
      var key := Store.KeyOf(userIdParam);
      users.rows == if EditsGroups(old(users.rows), key, GroupNotNamed(value))
                    then old(users.rows)[key := old(users.rows[key]).(groups := old(users.rows[key]).groups + [looked])]
                    else old(users.rows))
  {
    var denial := Gate(auth, "Unauthorized User");
    if denial.Some? {
      return denial.value;
    }
    var loaded := users.Load(Store.KeyOf(userIdParam), ZeroUser);
    var (key, user) := loaded;
    if FirstWhere(user.groups, GroupNotNamed(value)) < |user.groups| {
      var groups := AppendOnFirst(user.groups, GroupNotNamed(value), looked);
      user := user.(groups := groups);
      var _ := users.Save(key, user);
    }
    return Reply(StatusOK, "");
  }

  // ---------------------------------------------------- block and password

  /** A digest as stored: a failed hash (nil) is the empty slice. */
  function Stored(hash: Option<seq<bv8>>): seq<bv8>
  {
    if hash.Some? then hash.value else []
  }

  /**
   * The "block" edit as written: the flag flips only when the loaded
   * record's key differs from the parsed id, that is only when the lookup
   * found nothing.
   */
  function BlockEdit(loadedKey: nat, id: nat, u: User): (v: User)
    ensures v.(blocked := u.blocked) == u
    ensures v.blocked != u.blocked <==> loadedKey != id
  {
    if loadedKey != id then u.(blocked := !u.blocked) else u
  }

  /** An existing account is never toggled: the loaded key is the parsed id. */
  lemma BlockNeverTogglesExisting(param: string, users: map<nat, User>)
    requires ParseUint(param, 10).err.None? && Store.KeyOf(param) in users
    ensures BlockEdit(Store.KeyOf(param), ParseUint(param, 10).value, users[Store.KeyOf(param)]) == users[Store.KeyOf(param)]
  {
  }

  /** The evident intent: flip the flag of the account the id names, and only of it. */
  function BlockEditIntended(loadedKey: nat, id: nat, u: User): (v: User)
    ensures loadedKey != 0 && loadedKey == id ==> v == u.(blocked := !u.blocked)
    ensures !(loadedKey != 0 && loadedKey == id) ==> v == u
  {
    if loadedKey != 0 && loadedKey == id then u.(blocked := !u.blocked) else u
  }

  /** Under the intended edit, blocking an account twice leaves it as it was. */
  lemma BlockTwiceRestores(key: nat, u: User)
    requires key != 0
    ensures BlockEditIntended(key, key, BlockEditIntended(key, key, u)) == u
    ensures BlockEditIntended(key, key, u).blocked != u.blocked
  {
  }

  /** The record GetUser saves for `action`, from the loaded key and record. */
  function UserEdit(action: string, loadedKey: nat, id: nat, u: User, defaultHash: Option<seq<bv8>>): User
  {
    if action == "block" then BlockEdit(loadedKey, id, u)
    else if action == "drop" then u.(password := Stored(defaultHash))
    else u
  }

  /** "drop" touches nothing but the password, which becomes the default hash. */
  lemma DropOnlySetsPassword(loadedKey: nat, id: nat, u: User, defaultHash: Option<seq<bv8>>)
    ensures UserEdit("drop", loadedKey, id, u, defaultHash).(password := u.password) == u
    ensures UserEdit("drop", loadedKey, id, u, defaultHash).password == Stored(defaultHash)
  {
  }

  /**
   * GetUser: "block" needs a numeric id (400 otherwise) and then applies
   * BlockEdit, "drop" resets the password; the loaded record is saved in
   * every case, so a lookup that found nothing inserts the edited zero
   * record under a fresh key.
   */
  method GetUser(users: Store.Table<User>, auth: Result<int, string>, idParam: string, action: string,
                 defaultHash: Option<seq<bv8>>)
    returns (reply: Reply)
    requires users.Valid()
    modifies users
    ensures users.Valid()
    ensures Gate(auth, "Unauthorized User").Some? ==>
      users.rows == old(users.rows) && reply == Gate(auth, "Unauthorized User").value
    ensures Gate(auth, "Unauthorized User").None? && action == "block" && ParseUint(idParam, 10).err.Some? ==>
      users.rows == old(users.rows) && reply == Reply(StatusBadRequest, "Invalid ID")
    ensures Gate(auth, "Unauthorized User").None? && !(action == "block" && ParseUint(idParam, 10).err.Some?) ==>
      var key := Store.KeyOf(idParam);
      var loadedKey := if key in old(users.rows) then key else 0;
      var u := if key in old(users.rows) then old(users.rows[key]) else ZeroUser;
      var saved := UserEdit(action, loadedKey, ParseUint(idParam, 10).value, u, defaultHash);
      reply == Reply(StatusOK, "") &&
      users.rows == old(users.rows)[(if loadedKey != 0 then loadedKey else old(users.nextId)) := saved]
  {
    var denial := Gate(auth, "Unauthorized User");
    if denial.Some? {
      return denial.value;
    }
    var loaded := users.Load(Store.KeyOf(idParam), ZeroUser);
    var (key, user) := loaded;
    if action == "block" {
      var id := ParseUint(idParam, 10);
      if id.err.Some? {
        return Reply(StatusBadRequest, "Invalid ID");
      }
      if key != id.value {
        user := user.(blocked := !user.blocked);
      }
    } else if action == "drop" {
      user := user.(password := Stored(defaultHash));
    }
    var _ := users.Save(key, user);
    return Reply(StatusOK, "");
  }

  // ------------------------------------------------------------ new account

  /** The account PostUser builds on top of the loaded record. */
  function NewAccount(u: User, userName: string, fullName: string, email: string, defaultHash: Option<seq<bv8>>): User
  {
    u.(fullName := fullName, userName := userName, email := email, password := Stored(defaultHash))
  }

  /**
   * PostUser: a body that does not parse answers 500; the name lookup's
   * record (`found`, 0 for none) with exactly the requested name answers
   * 400; otherwise the loaded record gets the new names and the default
   * password and is created, which inserts only when the lookup found
   * nothing, since a found record keeps its taken key.
   */
  method PostUser(users: Store.Table<User>, auth: Result<int, string>, bodyOk: bool, found: nat,
                  userName: string, fullName: string, email: string, defaultHash: Option<seq<bv8>>)
    returns (reply: Reply)
    requires users.Valid()
    requires found == 0 || found in users.rows
    modifies users
    ensures users.Valid()
    ensures Gate(auth, "Unauthorized User").Some? ==>
      users.rows == old(users.rows) && reply == Gate(auth, "Unauthorized User").value
    ensures Gate(auth, "Unauthorized User").None? && !bodyOk ==>
      users.rows == old(users.rows) && reply.status == StatusInternalServerError
    ensures Gate(auth, "Unauthorized User").None? && bodyOk ==>
      var u := if found != 0 then old(users.rows[found]) else ZeroUser;
      if u.userName == userName then
        users.rows == old(users.rows) && reply == Reply(StatusBadRequest, "User already exists")
      else
        reply == Reply(StatusCreated, "") &&
        users.rows == if found == 0 then old(users.rows)[old(users.nextId) := NewAccount(u, userName, fullName, email, defaultHash)]
                      else old(users.rows)
  {
    var denial := Gate(auth, "Unauthorized User");
    if denial.Some? {
      return denial.value;
    }
    if !bodyOk {
      return Reply(StatusInternalServerError, "");
    }
    var loaded := users.Load(found, ZeroUser);
    var (key, user) := loaded;
    if user.userName != userName {
      user := user.(fullName := fullName);
      user := user.(userName := userName);
      user := user.(email := email);
      user := user.(password := Stored(defaultHash));
    } else {
      return Reply(StatusBadRequest, "User already exists");
    }
    var _, _ := users.Create(key, user);
    return Reply(StatusCreated, "");
  }

  // ---------------------------------------------------------- table browser

  /** The table names the browser walks, in order. */
  const Tables: seq<string> := ["user", "role", "group", "report", "resume", "connect"]

  /** A query on a table: its limit, offset and optional column filter. */
  datatype TableQuery = TableQuery(table: string, limit: int, offset: int, filter: Option<(string, string)>)

  /**
   * The query the browser runs for table name `name`: the named table filtered
   * by id when it is the requested item, else the requested item's table
   * filtered by person id; the filter only when a search text was posted.
   */
  function RowsQuery(name: string, item: string, page: int, search: string): (q: TableQuery)
    ensures q.limit == Paging.PageSize && q.offset == Paging.Offset(Paging.PageSize, page)
    ensures q.table == item
    ensures q.filter.None? <==> search == ""
  {
    var filter := if search == "" then None
                  else if name == item then Some(("id", search)) else Some(("person_id", search));
    TableQuery(if name == item then name else item, Paging.PageSize, Paging.Offset(Paging.PageSize, page), filter)
  }

  /** No table name is PageSize characters long, so the browser's next-page test never holds. */
  lemma NoTableNameFillsAPage()
    ensures forall i :: 0 <= i < |Tables| ==> |Tables[i]| != Paging.PageSize
  {
  }

  /**
   * PostTablesRows: one query per table name, in order, each replacing the
   * previous result; `hasPrev` when the page is above 1 and `hasNext` when
   * a table name is 16 characters long, which none is.
   */
  method PostTablesRows(auth: Result<int, string>, item: string, pageParam: string, search: string)
    returns (denial: Option<Reply>, queries: seq<TableQuery>, flags: Paging.Flags)
    ensures denial == Gate(auth, "Unauthorized User")
    ensures denial.Some? ==> queries == []
    ensures denial.None? ==>
      |queries| == |Tables| &&
      (forall i :: 0 <= i < |Tables| ==> queries[i] == RowsQuery(Tables[i], item, Paging.ParsePage(pageParam), search)) &&
      flags.hasPrev == (Paging.ParsePage(pageParam) > 1)
    ensures !flags.hasNext
  {
    denial := Gate(auth, "Unauthorized User");
    queries := [];
    var hasPrev, hasNext := false, false;
    if denial.Some? {
      return denial, queries, Paging.Flags(hasPrev, hasNext);
    }
    var page := Paging.ParsePage(pageParam);
    var i := 0;
    while i < |Tables|
      invariant 0 <= i <= |Tables|
      invariant |queries| == i
      invariant forall j :: 0 <= j < i ==> queries[j] == RowsQuery(Tables[j], item, page, search)
      invariant hasPrev == (i > 0 && page > 1)
      invariant !hasNext
    {
      var query := TableQuery(if Tables[i] == item then Tables[i] else item,
                              Paging.PageSize, Paging.PageSize * (page - 1), None);
      if search != "" {
        query := query.(filter := Some((if Tables[i] == item then "id" else "person_id", search)));
      }
      queries := queries + [query];
      if page > 1 {
        hasPrev := true;
      }
      if |Tables[i]| == Paging.PageSize {
        hasNext := true;
      }
      i := i + 1;
    }
    flags := Paging.Flags(hasPrev, hasNext);
  }
}
