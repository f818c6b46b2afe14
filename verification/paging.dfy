/**
 * Paging state shared by the table pages: the table component works with a
 * 0-based page index, the search endpoints with a 1-based `pageNum`.
 */
module Paging {

  /** A table's paging state: 0-based page and rows per page. */
  datatype TablePage = TablePage(page: nat, rowsPerPage: nat)

  /** The `searchCondition` (keyword and `claim_status`) and `pageInfo`
      (`pageNum`, `pageSize`) of a claim search request. */
  datatype Query = Query(keyword: string, status: string, pageNum: nat, pageSize: nat)

  /** `onPageChange`: jump to another page, keeping the page size. */
  function ChangePage(t: TablePage, page: nat): (r: TablePage)
    ensures r.page == page && r.rowsPerPage == t.rowsPerPage
  {
    t.(page := page)
  }

  /** `onRowsPerPageChange`: a new page size always starts again at the first page. */
  function ChangeRowsPerPage(t: TablePage, rows: nat): (r: TablePage)
    ensures r.rowsPerPage == rows && r.page == 0
  {
    TablePage(0, rows)
  }

  /** The `pageNum` a search request carries for a table page. */
  function RequestPageNum(t: TablePage): (n: nat)
    ensures n >= 1
  {
    t.page + 1
  }

  /** Page numbering round trip: the table page can be read back from the
      request's `pageNum`, so different pages never request the same page. */
  lemma RequestPageNumInjective(t: TablePage, u: TablePage)
    requires t.rowsPerPage == u.rowsPerPage
    ensures RequestPageNum(t) == RequestPageNum(u) <==> t == u
  {
  }

  function Min(a: int, b: int): int {
    if a <= b then a else b
  }

  /** How many rows of a result of `count` rows fall on 0-based page `page`
      when pages hold `rows` rows: the independent yardstick for every
      "from-to of count" label. */
  function RowsOnPage(page: nat, rows: nat, count: nat): nat {
    if count <= page * rows then 0 else Min(rows, count - page * rows)
  }
}
