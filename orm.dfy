/**
 * The records of the schema (orm/models.go) that the modelled handlers
 * read or write, and their pure lookup methods. Ids are not fields: a
 * record's id is its key in its Store.Table. Timestamps are Unix seconds.
 */
module Orm {

  datatype Group = Group(id: nat, nameGroup: string)
  {
    /** The group's id when its name is exactly `name`, otherwise 0. */
    function GetID(name: string): (r: nat)
      ensures r == 0 || r == id
      ensures name == nameGroup ==> r == id
      ensures name != nameGroup ==> r == 0
    {
      if nameGroup == name then id else 0
    }
  }

  datatype Role = Role(id: nat, nameRole: string)
  {
    /** The role's id when its name is exactly `name`, otherwise 0. */
    function GetID(name: string): (r: nat)
      ensures r == 0 || r == id
      ensures name == nameRole ==> r == id
      ensures name != nameRole ==> r == 0
    {
      if nameRole == name then id else 0
    }
  }

  datatype Category = Category(id: nat, nameCategory: string)
  {
    /** The category's id when its name is exactly `name`, otherwise 0. */
    function GetID(name: string): (r: nat)
      ensures r == 0 || r == id
      ensures name == nameCategory ==> r == id
      ensures name != nameCategory ==> r == 0
    {
      if nameCategory == name then id else 0
    }
  }

  datatype Status = Status(id: nat, nameStatus: string)
  {
    /** The status's id when its name is exactly `name`, otherwise 0. */
    function GetID(name: string): (r: nat)
      ensures r == 0 || r == id
      ensures name == nameStatus ==> r == id
      ensures name != nameStatus ==> r == 0
    {
      if nameStatus == name then id else 0
    }
  }

  datatype Region = Region(id: nat, nameRegion: string)
  {
    /** The region's id when its name is exactly `name`, otherwise 0. */
    function GetID(name: string): (r: nat)
      ensures r == 0 || r == id
      ensures name == nameRegion ==> r == id
      ensures name != nameRegion ==> r == 0
    {
      if nameRegion == name then id else 0
    }
  }

  /** time.Time{} as Unix seconds: January 1 of year 1, UTC. */
  const ZeroTime: int := -62135596800

  /** A user account: credentials, lockout state, audit times and memberships. */
  datatype User = User(
    fullName: string,
    userName: string,
    password: seq<bv8>,   // bcrypt digest; a nil slice is the empty sequence
    email: string,
    createdAt: int,
    updatedAt: int,
    lastLogin: int,
    blocked: bool,
    attempt: int,
    groups: seq<Group>,
    roles: seq<Role>)
  {
    /** True iff some group of the user is named in `names`; an empty `names` is never matched. */
    predicate HasGroup(names: seq<string>)
    {
      AnyGroupIn(groups, names)
    }

    /** True iff some role of the user is named in `names`; an empty `names` is never matched. */
    predicate HasRole(names: seq<string>)
    {
      AnyRoleIn(roles, names)
    }
  }

  /** The zero value of User, which a lookup that finds nothing leaves behind. */
  const ZeroUser := User("", "", [], "", ZeroTime, ZeroTime, ZeroTime, false, 0, [], [])

  /** The nested search of HasGroup: the first group whose name occurs in `names` answers true. */
  predicate AnyGroupIn(gs: seq<Group>, names: seq<string>)
    ensures AnyGroupIn(gs, names) <==> exists i :: 0 <= i < |gs| && gs[i].nameGroup in names
  {
    if gs == [] then false
    else gs[0].nameGroup in names || AnyGroupIn(gs[1..], names)
  }

  /** The nested search of HasRole. */
  predicate AnyRoleIn(rs: seq<Role>, names: seq<string>)
    ensures AnyRoleIn(rs, names) <==> exists i :: 0 <= i < |rs| && rs[i].nameRole in names
  {
    if rs == [] then false
    else rs[0].nameRole in names || AnyRoleIn(rs[1..], names)
  }

  /** An empty query list matches no group and no role, whatever the user holds. */
  lemma EmptyQueryMatchesNothing(u: User)
    ensures !u.HasGroup([]) && !u.HasRole([])
  {
  }

  /** Adding names to the query never turns a match into a miss. */
  lemma {:induction false} HasRoleMonotone(u: User, names: seq<string>, more: seq<string>)
    requires u.HasRole(names)
    ensures u.HasRole(names + more) && u.HasRole(more + names)
  {
    var i :| 0 <= i < |u.roles| && u.roles[i].nameRole in names;
    assert u.roles[i].nameRole in names + more;
    assert u.roles[i].nameRole in more + names;
  }

  /** The names of the review statuses a person moves through. */
  const StatusNew := "Новый"
  const StatusRepeat := "Повторный"
  const StatusUpdate := "Обновлен"
  const StatusRobot := "Робот"
  const StatusFinish := "Окончено"
  const StatusCancel := "Отменено"

  datatype Message = Message(title: string, messageContent: string, statusRead: string, createdAt: int, userId: nat)

  /** The fields of a person that the modelled handlers touch. */
  datatype Person = Person(categoryId: nat, regionId: nat, fullName: string, statusId: nat, pathToDocs: string)

  /** The zero-valued person a lookup that finds nothing leaves behind. */
  const ZeroPerson := Person(0, 0, "", 0, "")

  datatype Staff = Staff(position: string, department: string, personId: nat)

  datatype Relation = Relation(view: string, relation: nat, personId: nat)
}
