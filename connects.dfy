/** The contacts listing (app/controllers/connect.go): the gate, the query and the page flags. */
module Connects {
  import opened Wrappers
  import Admin
  import Paging
  import Http

  /** The contacts query: page length, first row and the optional id filter. */
  datatype ConnectQuery = ConnectQuery(limit: int, offset: int, idFilter: Option<string>)

  /**
   * GetConnects: refused before any query when the role helper erred or
   * found nothing; otherwise a page of PageSize rows, filtered by id only
   * when a search text was posted, with the flags of the rows returned.
   */
  method GetConnects(auth: Result<int, string>, pageParam: string, search: string, result: seq<string>)
    returns (denial: Option<Http.Reply>, query: Option<ConnectQuery>, flags: Paging.Flags)
    ensures denial == Admin.Gate(auth, "Unauthorized User")
    ensures denial.Some? ==> query.None? && flags == Paging.Flags(false, false)
    ensures denial.None? ==>
      var page := Paging.ParsePage(pageParam);
      query == Some(ConnectQuery(Paging.PageSize, Paging.Offset(Paging.PageSize, page), if search != "" then Some(search) else None)) &&
      flags == Paging.PageFlags(page, |result|)
  {
    denial := Admin.Gate(auth, "Unauthorized User");
    if denial.Some? {
      return denial, None, Paging.Flags(false, false);
    }
    var page := Paging.ParsePage(pageParam);
    var pagination := Paging.PageSize;
    var hasPrev, hasNext := false, false;
    var q := ConnectQuery(pagination, pagination * (page - 1), None);
    if search != "" {
      q := q.(idFilter := Some(search));
    }
    query := Some(q);
    if page > 1 {
      hasPrev := true;
    }
    if |result| == pagination {
      hasNext := true;
    }
    flags := Paging.Flags(hasPrev, hasNext);
  }
}
