/**
 Offset pagination as the services compute it: `skip = (page - 1) * limit`,
 `take = limit`, and a page count of `Math.ceil(total / limit)`.
 */
module Paging {

  /** The number of rows a page request skips. */
  function Skip(page: int, limit: int): (r: int)
    requires page >= 1 && limit >= 0
    ensures r >= 0
    ensures r + limit == page * limit
  {
    (page - 1) * limit
  }

  /** `Math.ceil(total / limit)` on non-negative integers. */
  function CeilDiv(total: nat, limit: int): (r: nat)
    requires limit >= 1
    ensures r * limit >= total
    ensures r > 0 ==> (r - 1) * limit < total
    ensures total == 0 <==> r == 0
  {
    (total + limit - 1) / limit
  }

  /** The slice `findMany({ skip, take })` returns from the ordered rows. */
  function Window<T>(rows: seq<T>, skip: nat, take: nat): (r: seq<T>)
    ensures |r| <= take
    ensures skip >= |rows| ==> r == []
    ensures skip + take <= |rows| ==> |r| == take
    ensures skip < |rows| < skip + take ==> |r| == |rows| - skip
    ensures forall i :: 0 <= i < |r| ==> skip + i < |rows| && r[i] == rows[skip + i]
    ensures forall i :: 0 <= i < |r| ==> r[i] in rows
  {
    if skip >= |rows| then []
    else if skip + take <= |rows| then rows[skip..skip + take]
    else rows[skip..]
  }

  /** The first page of rows led by `x` is `x` followed by the first page, one shorter, of the rest. */
  lemma WindowCons<T>(x: T, rows: seq<T>, take: nat)
    ensures Window([x] + rows, 0, take + 1) == [x] + Window(rows, 0, take)
  {
    var a, b := Window([x] + rows, 0, take + 1), [x] + Window(rows, 0, take);
    assert |a| == |b|;
    forall i | 0 <= i < |a| ensures a[i] == b[i] {
      if i > 0 {
        assert a[i] == ([x] + rows)[i] == rows[i - 1];
      }
    }
  }

  /** A page number lies within the page count exactly when rows remain to show on it. */
  lemma PageHasRows(total: nat, page: int, limit: int)
    requires page >= 1 && limit >= 1
    ensures page <= CeilDiv(total, limit) <==> Skip(page, limit) < total
  {
    var pages := CeilDiv(total, limit);
    if page <= pages {
      assert (page - 1) * limit <= (pages - 1) * limit by {
        MulMonotone(page - 1, pages - 1, limit);
      }
    } else {
      assert pages <= page - 1;
      assert pages * limit <= (page - 1) * limit by {
        MulMonotone(pages, page - 1, limit);
      }
    }
  }

  /** A page other than the last exists exactly when the rows run past this page. */
  lemma NextPageExists(total: nat, page: int, limit: int)
    requires page >= 1 && limit >= 1
    ensures page < CeilDiv(total, limit) <==> page * limit < total
  {
    PageHasRows(total, page + 1, limit);
  }

  lemma MulMonotone(a: int, b: int, c: int)
    requires a <= b && c >= 0
    ensures a * c <= b * c
  {
  }
}
