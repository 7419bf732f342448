/** The query parameters of a paged listing and their defaults. */
module Pagination {
  import opened Primitives

  const DEFAULT_PAGE: Usize := 1
  const DEFAULT_SIZE: Usize := 24

  datatype PaginationParams = PaginationParams(page: Option<Usize>, size: Option<Usize>)

  /** `get_page`: the page asked for, or the first page. */
  function GetPage(p: PaginationParams): (page: Usize)
    ensures p.page.Some? ==> page == p.page.value
    ensures p.page.None? ==> page == 1
  {
    p.page.UnwrapOr(DEFAULT_PAGE)
  }

  /** `get_size`: the page size asked for, or 24. */
  function GetSize(p: PaginationParams): (size: Usize)
    ensures p.size.Some? ==> size == p.size.value
    ensures p.size.None? ==> size == 24
  {
    p.size.UnwrapOr(DEFAULT_SIZE)
  }
}
