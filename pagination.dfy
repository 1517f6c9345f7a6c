/** One page of results with the cursor for the next
    (dynantic/pagination.py). */
module Pagination {
  import opened Common
  import opened Values

  /** `PageResult`: the items of the page, the cursor (a plain key dict)
      when more pages follow, and the item count. */
  datatype PageResult<T> = PageResult(items: seq<T>, lastEvaluatedKey: Option<map<string, Native>>, count: int)
  {
    /** `has_more`: a cursor is present. */
    predicate HasMore()
    {
      lastEvaluatedKey.Some?
    }
  }

  /** How every producer builds a page: the count is the number of items,
      and there are more pages exactly when a cursor is given. */
  function MakePage<T>(items: seq<T>, cursor: Option<map<string, Native>>): (p: PageResult<T>)
    ensures p.items == items && p.count == |items|
    ensures p.HasMore() <==> cursor.Some?
    ensures p.lastEvaluatedKey == cursor
  {
    PageResult(items, cursor, |items|)
  }

  /** An empty last page reports no more pages and a zero count. */
  lemma EmptyLastPage<T>()
    ensures !MakePage<T>([], None).HasMore() && MakePage<T>([], None).count == 0
  {
  }
}
