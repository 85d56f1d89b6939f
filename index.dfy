/**
 * The listing behind the index page (internal/routes.go): which persons are
 * asked for, on which page, and the flags that go with the page. The status
 * ids are `orm.Status{}.GetID(name)`: the pure lookup of orm/models.go on a
 * zero-valued status, which answers 0 for every name, so no status table is
 * consulted and every id this listing asks with is 0.
 */
module Index {
  import opened Wrappers
  import opened Orm
  import Paging

  /** Which persons a listing asks for. */
  datatype Select =
    | Pending(statuses: seq<nat>, nameLike: Option<string>)  // one of these status ids, and the name containing the text
    | Officer(finished: nat, cancelled: nat)                  // every person; the status filter goes with the checks query that follows
    | NameSearch(text: string)

  /**
   * A listing query: the selection, and the page length and first row the
   * handler chains after it.
   */
  datatype PersonQuery = PersonQuery(select: Select, limit: int, offset: int)

  /**
   * Whether the persons query of a selection admits a person with this
   * status. The officer listing's status filter is chained after
   * `Find(&persons)`, so it restricts only the later checks query: every
   * status is listed. Name patterns are not part of this model.
   */
  predicate ListsStatus(select: Select, status: nat)
  {
    match select
    case Pending(statuses, _) => status in statuses
    case Officer(_, _) => true
    case NameSearch(_) => true
  }

  /** The ids of the statuses a person awaits review in: new, updated, repeated. */
  function PendingIds(statusId: string -> nat): (ids: seq<nat>)
    ensures |ids| == 3 && ids[0] == statusId(StatusNew) && ids[1] == statusId(StatusUpdate) && ids[2] == statusId(StatusRepeat)
  {
    [statusId(StatusNew), statusId(StatusUpdate), statusId(StatusRepeat)]
  }

  /** `orm.Status{}.GetID(name)`: the zero-valued status answers 0 whatever the name. */
  function ZeroStatusId(name: string): (id: nat)
    ensures id == 0
  {
    Status(0, "").GetID(name)
  }

  /** The status filter of the officer listing as written: status_id != finished OR status_id != cancelled. */
  predicate OfficerFilter(status: nat, finished: nat, cancelled: nat): (admits: bool)
    ensures !admits <==> status == finished && status == cancelled
  {
    status != finished || status != cancelled
  }

  /** With two different status ids the officer filter as written lets every status through. */
  lemma OfficerFilterAdmitsAll(status: nat, finished: nat, cancelled: nat)
    requires finished != cancelled
    ensures OfficerFilter(status, finished, cancelled)
  {
  }

  /** The filter the officer listing evidently means: neither finished nor cancelled. */
  predicate OfficerFilterIntended(status: nat, finished: nat, cancelled: nat): (admits: bool)
    ensures admits <==> status !in {finished, cancelled}
  {
    status != finished && status != cancelled
  }

  /** The intended filter drops exactly the finished and the cancelled persons, and keeps a subset of what the written one keeps. */
  lemma OfficerFilterIntendedExcludes(status: nat, finished: nat, cancelled: nat)
    ensures !OfficerFilterIntended(status, finished, cancelled) <==> status == finished || status == cancelled
    ensures OfficerFilterIntended(status, finished, cancelled) ==> OfficerFilter(status, finished, cancelled)
    ensures !OfficerFilterIntended(finished, finished, cancelled) && !OfficerFilterIntended(cancelled, finished, cancelled)
  {
  }

  /** The query an item names on page `page` of HandleIndex, when it names one. */
  function IndexQuery(item: string, page: int, resp: string): (q: Option<PersonQuery>)
    ensures q.Some? <==> item == "new" || item == "officer" || item == "search"
    ensures q.Some? && item != "search" ==> q.value.limit == Paging.PageSize && q.value.offset == Paging.Offset(Paging.PageSize, page)
    ensures item == "new" ==> q.value.select == Pending([0, 0, 0], Some(resp))
    ensures item == "officer" ==> q.value.select == Officer(0, 0)
    ensures item == "search" ==> q == Some(PersonQuery(NameSearch(resp), 10, Paging.Offset(10, page)))
  {
    if item == "new" then Some(PersonQuery(Pending(PendingIds(ZeroStatusId), Some(resp)), Paging.PageSize, Paging.Offset(Paging.PageSize, page)))
    else if item == "officer" then Some(PersonQuery(Officer(ZeroStatusId(StatusFinish), ZeroStatusId(StatusCancel)), Paging.PageSize, Paging.Offset(Paging.PageSize, page)))
    else if item == "search" then Some(PersonQuery(NameSearch(resp), 10, Paging.Offset(10, page)))
    else None
  }

  /**
   * With every id 0, the "new" listing admits only persons whose status id
   * is 0, whatever their review status; the officer listing admits every
   * person; and its status filter, on the checks query, is `status_id != 0`.
   */
  lemma IndexAsksForStatusZero(item: string, page: int, resp: string, status: nat)
    ensures item == "new" ==> (ListsStatus(IndexQuery(item, page, resp).value.select, status) <==> status == 0)
    ensures item == "officer" ==> ListsStatus(IndexQuery(item, page, resp).value.select, status)
    ensures item == "officer" ==> var s := IndexQuery(item, page, resp).value.select;
      (OfficerFilter(status, s.finished, s.cancelled) <==> status != 0)
  {
  }

  /** Consecutive pages of a listing ask for adjacent windows of rows. */
  lemma IndexPagesTile(item: string, page: int, resp: string)
    requires item == "new" || item == "officer" || item == "search"
    ensures IndexQuery(item, page + 1, resp).value.offset ==
            IndexQuery(item, page, resp).value.offset + IndexQuery(item, page, resp).value.limit
  {
    Paging.OffsetsTile(Paging.PageSize, page);
    Paging.OffsetsTile(10, page);
  }

  /**
   * HandleIndex: the query for the item and page, then the persons found
   * (`persons`) with (data, hasPrev, hasNext) in that order. An unknown item
   * or a failed encoding gives no data and both flags false.
   */
  method HandleIndex(item: string, pageParam: string, resp: string, persons: seq<Person>, marshalOk: bool)
    returns (query: Option<PersonQuery>, data: Option<seq<Person>>, hasPrev: bool, hasNext: bool)
    ensures query == IndexQuery(item, Paging.ParsePage(pageParam), resp)
    ensures query.None? || !marshalOk ==> data.None? && !hasPrev && !hasNext
    ensures query.Some? && marshalOk ==>
      data == Some(persons) && Paging.Flags(hasPrev, hasNext) == Paging.PageFlags(Paging.ParsePage(pageParam), |persons|)
  {
    var page := Paging.ParsePage(pageParam);
    hasPrev, hasNext := false, false;
    var pagination := Paging.PageSize;
    var zero := Status(0, "");
    if item == "new" {
      var ids := [zero.GetID(StatusNew), zero.GetID(StatusUpdate), zero.GetID(StatusRepeat)];
      query := Some(PersonQuery(Pending(ids, Some(resp)), pagination, pagination * (page - 1)));
    } else if item == "officer" {
      query := Some(PersonQuery(Officer(zero.GetID(StatusFinish), zero.GetID(StatusCancel)), pagination, pagination * (page - 1)));
    } else if item == "search" {
      query := Some(PersonQuery(NameSearch(resp), 10, 10 * (page - 1)));
    } else {
      return None, None, false, false;
    }
    if !marshalOk {
      return query, None, false, false;
    }
    if page > 1 {
      hasPrev := true;
    }
    if |persons| == pagination {
      hasNext := true;
    }
    data := Some(persons);
  }
}
