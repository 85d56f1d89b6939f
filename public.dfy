/**
 * The public handlers over persons (app/controllers/public.go): the index
 * listing, the resume status transitions, the creation of a resume with its
 * documents folder, and the creation of staff and relation records. Status
 * ids come from the store's status table through `statusId` (Status.GetID);
 * the answer of the outbound POST is an input.
 */
module Public {
  import opened Wrappers
  import opened GoStd
  import opened Orm
  import opened Http
  import Store
  import Paging
  import Index

  // ------------------------------------------------------------- PostIndex

  /** What PostIndex answers: nothing at all, an error status, or a page with its flags. */
  datatype IndexReply = NoResponse | Failed(status: int) | Page(result: seq<Person>, flags: Paging.Flags)

  /**
   * The query an item names on page `page` of PostIndex, when it names one.
   * Here the status ids come from the status table (`statusId`).
   */
  function PostIndexQuery(item: string, page: int, search: string, statusId: string -> nat): (q: Option<Index.PersonQuery>)
    ensures q.Some? <==> item == "new" || item == "officer" || item == "search"
    ensures q.Some? && item != "search" ==> q.value.limit == Paging.PageSize && q.value.offset == Paging.Offset(Paging.PageSize, page)
    ensures item == "new" ==> q.value.select == Index.Pending(Index.PendingIds(statusId), None)
    ensures item == "officer" ==> q.value.select == Index.Officer(statusId(StatusFinish), statusId(StatusCancel))
    ensures item == "search" ==> q == Some(Index.PersonQuery(Index.NameSearch(search), 10, Paging.Offset(10, page)))
  {
    var offset := Paging.Offset(Paging.PageSize, page);
    if item == "new" then Some(Index.PersonQuery(Index.Pending(Index.PendingIds(statusId), None), Paging.PageSize, offset))
    else if item == "officer" then Some(Index.PersonQuery(Index.Officer(statusId(StatusFinish), statusId(StatusCancel)), Paging.PageSize, offset))
    else if item == "search" then Some(Index.PersonQuery(Index.NameSearch(search), 10, Paging.Offset(10, page)))
    else None
  }

  /**
   * Were the status table to answer 0 for every name, as the internal
   * index's zero-valued lookup does, the public listing would ask for what
   * the internal index asks for, except that its "new" listing has no name
   * filter.
   */
  lemma PostIndexAgreesWithIndex(item: string, page: int, search: string)
    ensures PostIndexQuery(item, page, search, Index.ZeroStatusId).None? <==> Index.IndexQuery(item, page, search).None?
    ensures item != "new" ==> PostIndexQuery(item, page, search, Index.ZeroStatusId) == Index.IndexQuery(item, page, search)
    ensures item == "new" ==> (PostIndexQuery(item, page, search, Index.ZeroStatusId).value ==
      Index.IndexQuery(item, page, search).value.(select := Index.Pending([0, 0, 0], None)))
  {
  }

  /**
   * With the table's ids for finished and cancelled being different, the
   * officer listing's status filter as written admits every status; the
   * persons query, which precedes the filter, lists every person anyway.
   */
  lemma PostIndexOfficerAdmitsAll(page: int, search: string, statusId: string -> nat, status: nat)
    requires statusId(StatusFinish) != statusId(StatusCancel)
    ensures var s := PostIndexQuery("officer", page, search, statusId).value.select;
      Index.ListsStatus(s, status) && Index.OfficerFilter(status, s.finished, s.cancelled)
  {
    Index.OfficerFilterAdmitsAll(status, statusId(StatusFinish), statusId(StatusCancel));
  }

  /**
   * PostIndex: the query for the item and page, then the persons found
   * (`persons`). An unknown item writes no response; a failed encoding
   * answers 500.
   */
  method PostIndex(item: string, pageParam: string, search: string, statusId: string -> nat, persons: seq<Person>, marshalOk: bool)
    returns (query: Option<Index.PersonQuery>, reply: IndexReply)
    ensures query == PostIndexQuery(item, Paging.ParsePage(pageParam), search, statusId)
    ensures query.None? ==> reply == NoResponse
    ensures query.Some? && !marshalOk ==> reply == Failed(StatusInternalServerError)
    ensures query.Some? && marshalOk ==> reply == Page(persons, Paging.PageFlags(Paging.ParsePage(pageParam), |persons|))
  {
    var page := Paging.ParsePage(pageParam);
    var pagination := Paging.PageSize;
    var hasPrev, hasNext := false, false;
    if item == "new" {
      var ids := [statusId(StatusNew), statusId(StatusUpdate), statusId(StatusRepeat)];
      query := Some(Index.PersonQuery(Index.Pending(ids, None), pagination, pagination * (page - 1)));
    } else if item == "officer" {
      query := Some(Index.PersonQuery(Index.Officer(statusId(StatusFinish), statusId(StatusCancel)), pagination, pagination * (page - 1)));
    } else if item == "search" {
      query := Some(Index.PersonQuery(Index.NameSearch(search), 10, 10 * (page - 1)));
    } else {
      return None, NoResponse;
    }
    if page > 1 {
      hasPrev := true;
    }
    if |persons| == pagination {
      hasNext := true;
    }
    if !marshalOk {
      return query, Failed(StatusInternalServerError);
    }
    reply := Page(persons, Paging.Flags(hasPrev, hasNext));
  }

  // ------------------------------------------------------------- GetResume

  /** What a GetResume action does to the status of the person it loaded. */
  datatype Transition = Keep | MoveTo(status: nat) | Fail

  /**
   * "status" moves the person to the updated status. "send" acts only on a
   * person awaiting review (new, updated or repeated): an outbound answer
   * of 200 moves it to the robot status, any other answer or a transport
   * error fails. Every other action keeps the person as it is.
   */
  function ResumeTransition(action: string, current: nat, statusId: string -> nat, post: Result<int, string>): (t: Transition)
    ensures t.Fail? ==> action == "send"
    ensures action == "send" ==> (t.Keep? <==> current !in Index.PendingIds(statusId))
    ensures action == "send" && t.MoveTo? ==> post == Ok(200) && t.status == statusId(StatusRobot)
    ensures action == "send" && current in Index.PendingIds(statusId) && post != Ok(200) ==> t.Fail?
    ensures action == "send" && current in Index.PendingIds(statusId) && post == Ok(200) ==> t == MoveTo(statusId(StatusRobot))
    ensures action != "status" && action != "send" ==> t.Keep?
    ensures action == "status" ==> t == MoveTo(statusId(StatusUpdate))
  {
    if action == "status" then MoveTo(statusId(StatusUpdate))
    else if action == "send" && current in Index.PendingIds(statusId) then
      if post == Ok(200) then MoveTo(statusId(StatusRobot)) else Fail
    else Keep
  }

  /** A person sent to the robot is not sent again, as long as the robot status is not itself a pending one. */
  lemma SendOnce(current: nat, statusId: string -> nat, first: Result<int, string>, second: Result<int, string>)
    requires statusId(StatusRobot) !in Index.PendingIds(statusId)
    requires ResumeTransition("send", current, statusId, first).MoveTo?
    ensures ResumeTransition("send", ResumeTransition("send", current, statusId, first).status, statusId, second).Keep?
  {
  }

  /** After "status" a person always qualifies for "send". */
  lemma StatusThenSendPosts(current: nat, statusId: string -> nat, post: Result<int, string>)
    ensures ResumeTransition("send", ResumeTransition("status", current, statusId, post).status, statusId, post) != Keep
  {
  }

  /** The answer of GetResume: a status and, unless it failed, the person. */
  datatype ResumeReply = ResumeReply(status: int, person: Option<Person>)

  /**
   * GetResume: loads the person the parameter names (the zero person when
   * none) and applies the action's transition. A move is saved, which for
   * the zero person inserts a new row; a failure answers 500 and writes
   * nothing.
   */
  method GetResume(persons: Store.Table<Person>, personParam: string, action: string, statusId: string -> nat, post: Result<int, string>)
    returns (reply: ResumeReply)
    requires persons.Valid()
    modifies persons
    ensures persons.Valid()
    ensures var loaded := old(persons.Load(Store.KeyOf(personParam), ZeroPerson));
      var t := ResumeTransition(action, loaded.1.statusId, statusId, post);
      (t.MoveTo? ==>
         reply == ResumeReply(StatusOK, Some(loaded.1.(statusId := t.status))) &&
         persons.rows == old(persons.rows)[(if loaded.0 == 0 then old(persons.nextId) else loaded.0) := loaded.1.(statusId := t.status)]) &&
      (t.Keep? ==> reply == ResumeReply(StatusOK, Some(loaded.1)) && persons.rows == old(persons.rows)) &&
      (t.Fail? ==> reply == ResumeReply(StatusInternalServerError, None) && persons.rows == old(persons.rows))
  {
    var loaded := persons.Load(Store.KeyOf(personParam), ZeroPerson);
    var key, person := loaded.0, loaded.1;
    if action == "status" {
      person := person.(statusId := statusId(StatusUpdate));
      var id := persons.Save(key, person);
      return ResumeReply(StatusOK, Some(person));
    } else if action == "send" {
      if person.statusId == statusId(StatusNew) || person.statusId == statusId(StatusUpdate) || person.statusId == statusId(StatusRepeat) {
        if post.Err? {
          return ResumeReply(StatusInternalServerError, None);
        }
        if post.value != 200 {
          return ResumeReply(StatusInternalServerError, None);
        }
        person := person.(statusId := statusId(StatusRobot));
        var id := persons.Save(key, person);
        return ResumeReply(StatusOK, Some(person));
      }
    }
    reply := ResumeReply(StatusOK, Some(person));
  }

  // ------------------------------------------------------------ makeFolder

  /**
   * makeFolder's path: the upper-cased first BYTE of the name, read back as
   * a Latin-1 rune, then "<id>-<name>". Indexing the empty name panics.
   * The directory it creates is not modelled.
   */
  function MakeFolder(fullname: string, id: nat): (path: Exec<string>)
    ensures path.Panics? <==> fullname == []
    ensures path.Returns? ==> |path.value| > |fullname| + 2 && path.value[1] == '/'
    ensures path.Returns? ==> path.value[0] == UpperRune(Utf8LeadByte(fullname[0]) as char)
    ensures path.Returns? ==> path.value[|path.value| - |fullname|..] == fullname
  {
    if fullname == [] then Panics
    else Returns([UpperRune(Utf8LeadByte(fullname[0]) as char)] + "/" + FormatInt(id) + "-" + fullname)
  }

  /** The folder name starts with the person's id, which parses back from the text before the first '-'. */
  lemma FolderNamesItsId(fullname: string, id: nat)
    requires fullname != [] && id <= MaxUint64
    ensures ParseUint(Split(MakeFolder(fullname, id).value[2..], '-')[0], 10) == Parsed(id, None)
  {
    var digits := NatToDecimal(id);
    assert MakeFolder(fullname, id).value[2..] == digits + ['-'] + fullname;
    assert '-' !in digits by {
      forall i | 0 <= i < |digits| ensures digits[i] != '-' { assert '0' <= digits[i] <= '9'; }
    }
    SplitAround(digits, fullname, '-');
    ParseUintDecimal(id, 10);
  }

  /** A name starting with an ASCII letter files under that letter in upper case. */
  lemma MakeFolderAsciiInitial(fullname: string, id: nat)
    requires fullname != [] && 'a' <= fullname[0] <= 'z'
    ensures MakeFolder(fullname, id).value[0] == UpperRune(fullname[0])
    ensures 'A' <= MakeFolder(fullname, id).value[0] <= 'Z'
  {
  }

  /**
   * A name starting with a basic Cyrillic letter files under the rune of its
   * UTF-8 lead byte, 'Ð' or 'Ñ', never under the letter itself.
   */
  lemma MakeFolderCyrillicInitial(fullname: string, id: nat)
    requires fullname != [] && '\U{410}' <= fullname[0] <= '\U{44F}'
    ensures MakeFolder(fullname, id).value[0] == '\U{D0}' || MakeFolder(fullname, id).value[0] == '\U{D1}'
    ensures MakeFolder(fullname, id).value[0] != UpperRune(fullname[0])
  {
    var n := fullname[0] as int;
    assert Utf8LeadByte(fullname[0]) == 0xC0 + n / 0x40;
    assert 0x10 <= n / 0x40 <= 0x11;
  }

  /** The path makeFolder evidently means: the upper-cased first letter of the name, then "<id>-<name>". */
  function FolderIntended(fullname: string, id: nat): (path: Exec<string>)
    ensures path.Panics? <==> fullname == []
    ensures path.Returns? ==> |path.value| > |fullname| + 2 && path.value[0] == UpperRune(fullname[0]) && path.value[1] == '/'
    ensures path.Returns? ==> path.value[|path.value| - |fullname|..] == fullname
  {
    if fullname == [] then Panics
    else Returns([UpperRune(fullname[0])] + "/" + FormatInt(id) + "-" + fullname)
  }

  /** The intended path files a Cyrillic name under its capital letter, and agrees with makeFolder on ASCII names. */
  lemma FolderIntendedInitial(fullname: string, id: nat)
    requires fullname != []
    ensures '\U{430}' <= fullname[0] <= '\U{44F}' ==>
      FolderIntended(fullname, id).value[0] == (fullname[0] as int - 0x20) as char
    ensures (fullname[0] as int) < 0x80 ==> FolderIntended(fullname, id) == MakeFolder(fullname, id)
  {
  }

  // ------------------------------------------------------------ PostResume

  /**
   * PostResume: a body that does not decode answers 500. A resume whose
   * person was not found (`found` is 0) gets the new status and is created;
   * one whose person was found gets the updated status and is saved as a
   * new row. The documents folder is then made from the FOUND person's
   * name, so for a resume without a person it is made from the empty name
   * and the handler panics after the create.
   */
  method PostResume(persons: Store.Table<Person>, found: nat, resume: Person, bodyOk: bool, statusId: string -> nat)
    returns (reply: Exec<Result<nat, int>>)
    requires persons.Valid() && (found == 0 || found in persons.rows)
    modifies persons
    ensures persons.Valid()
    ensures !bodyOk ==> reply == Returns(Err(StatusInternalServerError)) && persons.rows == old(persons.rows)
    ensures bodyOk && found == 0 ==>
      reply == Panics && persons.rows == old(persons.rows)[old(persons.nextId) := resume.(statusId := statusId(StatusNew))]
    ensures bodyOk && found != 0 ==>
      var person := old(persons.rows[found]);
      var saved := old(persons.rows)[old(persons.nextId) := resume.(statusId := statusId(StatusUpdate))];
      (person.fullName == [] ==> reply == Panics && persons.rows == saved) &&
      (person.fullName != [] ==>
         reply == Returns(Ok(found)) &&
         persons.rows == saved[found := person.(pathToDocs := MakeFolder(person.fullName, found).value)])
  {
    if !bodyOk {
      return Returns(Err(StatusInternalServerError));
    }
    var person := persons.Load(found, ZeroPerson).1;
    var personId := found;
    var r := resume;
    if found == 0 {
      r := r.(statusId := statusId(StatusNew));
      var id, ok := persons.Create(0, r);
      personId := id;
    } else {
      r := r.(statusId := statusId(StatusUpdate));
      var id := persons.Save(0, r);
    }
    var folder := MakeFolder(person.fullName, personId);
    if folder.Panics? {
      return Panics;
    }
    person := person.(pathToDocs := folder.value);
    var id := persons.Save(personId, person);
    reply := Returns(Ok(personId));
  }

  /**
   * PostResume as evidently intended: a resume without a person becomes
   * that person, filed under a folder made from its own name.
   */
  method PostResumeIntended(persons: Store.Table<Person>, found: nat, resume: Person, bodyOk: bool, statusId: string -> nat)
    returns (reply: Exec<Result<nat, int>>)
    requires persons.Valid() && (found == 0 || found in persons.rows)
    modifies persons
    ensures persons.Valid()
    ensures !bodyOk ==> reply == Returns(Err(StatusInternalServerError)) && persons.rows == old(persons.rows)
    ensures bodyOk && found == 0 && resume.fullName != [] ==>
      var id := old(persons.nextId);
      reply == Returns(Ok(id)) &&
      persons.rows == old(persons.rows)[id := resume.(statusId := statusId(StatusNew), pathToDocs := FolderIntended(resume.fullName, id).value)]
    ensures bodyOk && found != 0 && old(persons.rows[found]).fullName != [] ==>
      var person := old(persons.rows[found]);
      reply == Returns(Ok(found)) &&
      persons.rows == old(persons.rows)[old(persons.nextId) := resume.(statusId := statusId(StatusUpdate))]
                                       [found := person.(pathToDocs := FolderIntended(person.fullName, found).value)]
  {
    if !bodyOk {
      return Returns(Err(StatusInternalServerError));
    }
    var person := persons.Load(found, ZeroPerson).1;
    var personId := found;
    var r := resume;
    if found == 0 {
      r := r.(statusId := statusId(StatusNew));
      var id, ok := persons.Create(0, r);
      personId, person := id, r;
    } else {
      r := r.(statusId := statusId(StatusUpdate));
      var id := persons.Save(0, r);
    }
    var folder := FolderIntended(person.fullName, personId);
    if folder.Panics? {
      return Panics;
    }
    person := person.(pathToDocs := folder.value);
    var id := persons.Save(personId, person);
    reply := Returns(Ok(personId));
  }

  // ------------------------------------------------- PostStaffs, PostRelation

  /**
   * PostStaffs: a body that does not decode, or an item id that is not an
   * unsigned decimal, answers 500 and creates nothing; otherwise the staff
   * record is created for that person.
   */
  method PostStaffs(staffs: Store.Table<Staff>, bodyOk: bool, staff: Staff, itemParam: string) returns (reply: Reply)
    requires staffs.Valid()
    modifies staffs
    ensures staffs.Valid()
    ensures !bodyOk || ParseUint(itemParam, 10).err.Some? ==>
      reply.status == StatusInternalServerError && staffs.rows == old(staffs.rows) && staffs.nextId == old(staffs.nextId)
    ensures bodyOk && ParseUint(itemParam, 10).err.None? ==>
      reply == Reply(StatusOK, "Created") &&
      staffs.rows == old(staffs.rows)[old(staffs.nextId) := staff.(personId := ParseUint(itemParam, 10).value)]
  {
    if !bodyOk {
      return Reply(StatusInternalServerError, "");
    }
    var itemId := ParseUint(itemParam, 10);
    if itemId.err.Some? {
      return Reply(StatusInternalServerError, "");
    }
    var s := staff.(personId := itemId.value);
    var id, ok := staffs.Create(0, s);
    reply := Reply(StatusOK, "Created");
  }

  /**
   * PostRelation: after the same checks as PostStaffs, the posted relation
   * is created for the person, then a second one of the same view and
   * person whose relation is the first one's id.
   */
  method PostRelation(relations: Store.Table<Relation>, bodyOk: bool, relation: Relation, itemParam: string) returns (reply: Reply)
    requires relations.Valid()
    modifies relations
    ensures relations.Valid()
    ensures !bodyOk || ParseUint(itemParam, 10).err.Some? ==>
      reply.status == StatusInternalServerError && relations.rows == old(relations.rows) && relations.nextId == old(relations.nextId)
    ensures bodyOk && ParseUint(itemParam, 10).err.None? ==>
      var first := old(relations.nextId);
      var posted := relation.(personId := ParseUint(itemParam, 10).value);
      reply == Reply(StatusCreated, "Created") &&
      first !in old(relations.rows) && first + 1 !in old(relations.rows) &&
      relations.rows == old(relations.rows)[first := posted][first + 1 := Relation(posted.view, first, posted.personId)]
  {
    if !bodyOk {
      return Reply(StatusInternalServerError, "");
    }
    var itemId := ParseUint(itemParam, 10);
    if itemId.err.Some? {
      return Reply(StatusInternalServerError, "");
    }
    var posted := relation.(personId := itemId.value);
    var first, ok := relations.Create(0, posted);
    var back := Relation(posted.view, first, posted.personId);
    var second, ok2 := relations.Create(0, back);
    reply := Reply(StatusCreated, "Created");
  }
}
