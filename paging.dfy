/**
 * The pagination rules repeated by the list handlers: the page comes from
 * the path through strconv.Atoi and falls back to 1; a page of `limit`
 * rows starts at row limit*(page-1); there is a previous page when the
 * page number is above 1 and, by the handlers' convention, a next page
 * when the current one came back full.
 */
module Paging {
  import opened GoStd

  const PageSize := 16

  /** The page number a path parameter names: its Atoi value, or 1 when Atoi reports an error. */
  function ParsePage(param: string): (page: int)
    ensures IsInt64(page)
    ensures Atoi(param).err.Some? ==> page == 1
    ensures Atoi(param).err.None? ==> page == Atoi(param).value
  {
    var p := Atoi(param);
    if p.err.Some? then 1 else p.value
  }

  /** Every int64 written in decimal names its own page. */
  lemma ParsePageDecimal(n: int)
    requires IsInt64(n)
    ensures ParsePage(FormatInt(n)) == n
  {
    ParseFormatInt(n, 10);
  }

  /** A page parameter that is empty or starts with a letter names page 1. */
  lemma ParsePageNotANumber(param: string)
    requires param == [] || 'a' <= param[0] <= 'z' || 'A' <= param[0] <= 'Z'
    ensures ParsePage(param) == 1
  {
    if param != [] {
      assert DigitValue(param[0]) >= 10;
    }
  }

  /** The first row of page `page` when pages hold `limit` rows. */
  function Offset(limit: int, page: int): (offset: int)
    ensures page == 1 ==> offset == 0
    ensures limit >= 0 && page <= 1 ==> offset <= 0
  {
    limit * (page - 1)
  }

  /** Consecutive pages are adjacent: page p+1 starts where page p ends. */
  lemma OffsetsTile(limit: int, page: int)
    ensures Offset(limit, page + 1) == Offset(limit, page) + limit
  {
  }

  /** The pair of flags a list reply carries. */
  datatype Flags = Flags(hasPrev: bool, hasNext: bool)

  /** The flags of a listing of page `page` that returned `count` rows of a page of PageSize. */
  function PageFlags(page: int, count: int): (f: Flags)
    ensures f.hasPrev <==> page > 1
    ensures f.hasNext <==> count == PageSize
  {
    Flags(page > 1, count == PageSize)
  }

  /** A page parameter that does not parse never reports a previous page. */
  lemma NoPreviousBeforeFirst(param: string, count: int)
    requires Atoi(param).err.Some?
    ensures !PageFlags(ParsePage(param), count).hasPrev
  {
  }
}
