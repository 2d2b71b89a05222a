/** Pages of a listing: the window a query takes, and the page count its response states. */
module Pagination {
  import opened Common

  datatype PaginatedResponse<T> = PaginatedResponse(data: seq<T>, total: nat, page: nat, limit: nat, totalPages: nat)

  function Skip(page: nat, limit: nat): nat
    requires page >= 1
  {
    (page - 1) * limit
  }

  /** Rows from `skip` on, `take` of them at most. */
  function Window<T>(rows: seq<T>, skip: nat, take: nat): seq<T> {
    if skip >= |rows| then [] else rows[skip..Min(skip + take, |rows|)]
  }

  function TotalPages(total: nat, limit: nat): nat
    requires limit >= 1
  {
    if total == 0 then 0 else CeilDiv(total, limit)
  }

  /** One page of the rows as the query orders them, in the response that is made of it. */
  function FindAll<T>(rows: seq<T>, page: nat, limit: nat): PaginatedResponse<T>
    requires page >= 1 && limit >= 1
  {
    PaginatedResponse(Window(rows, Skip(page, limit), limit), |rows|, page, limit, TotalPages(|rows|, limit))
  }

  /** The data of the first few pages, one after the other. */
  function Pages<T>(rows: seq<T>, limit: nat, upTo: nat): seq<T>
    requires limit >= 1
  {
    if upTo == 0 then [] else Pages(rows, limit, upTo - 1) + FindAll(rows, upTo, limit).data
  }

  // ----- Where pages begin -----

  lemma SkipNext(page: nat, limit: nat)
    requires page >= 1
    ensures Skip(page + 1, limit) == Skip(page, limit) + limit && Skip(1, limit) == 0
  {
    assert (page - 1) * limit + limit == page * limit;
  }

  lemma {:induction false} SkipAfter(page: nat, later: nat, limit: nat)
    requires 1 <= page < later
    ensures Skip(page, limit) + limit <= Skip(later, limit)
    decreases later
  {
    SkipNext(later - 1, limit);
    if page < later - 1 {
      SkipAfter(page, later - 1, limit);
    }
  }

  /** The stated page count is the number of the page that the last row is on. */
  lemma LastPage(total: nat, limit: nat)
    requires limit >= 1 && total > 0
    ensures var q := TotalPages(total, limit); q >= 1 && Skip(q, limit) < total <= Skip(q, limit) + limit
  {
    SkipNext(TotalPages(total, limit), limit);
  }

  // ----- The partition -----

  lemma PageLength<T>(rows: seq<T>, page: nat, limit: nat)
    requires page >= 1 && limit >= 1
    ensures var data, total := FindAll(rows, page, limit).data, TotalPages(|rows|, limit);
            && (page < total ==> |data| == limit)
            && (page == total ==> |data| == |rows| - Skip(page, limit) && 0 < |data| <= limit)
            && (page > total ==> data == [])
  {
    var total := TotalPages(|rows|, limit);
    if |rows| > 0 {
      LastPage(|rows|, limit);
      if page < total { SkipAfter(page, total, limit); }
      if page > total { SkipAfter(total, page, limit); }
    }
    hide Skip;
    hide TotalPages;
  }

  lemma WindowExtends<T>(rows: seq<T>, skip: nat, take: nat)
    ensures rows[..Min(skip, |rows|)] + Window(rows, skip, take) == rows[..Min(skip + take, |rows|)]
  {}

  lemma {:induction false} PagesArePrefix<T>(rows: seq<T>, limit: nat, upTo: nat)
    requires limit >= 1
    ensures Pages(rows, limit, upTo) == rows[..Min(Skip(upTo + 1, limit), |rows|)]
  {
    if upTo == 0 {
      SkipNext(1, limit);
    } else {
      SkipNext(upTo, limit);
      hide Skip;
      PagesArePrefix(rows, limit, upTo - 1);
      WindowExtends(rows, Skip(upTo, limit), limit);
    }
  }

  /** The pages up to the stated page count are a partition of the rows: together they are exactly the
      rows in order, each has something, all but the last are full, and later pages are empty. */
  lemma Partition<T>(rows: seq<T>, limit: nat)
    requires limit >= 1
    ensures var total := FindAll(rows, 1, limit).totalPages;
            && Pages(rows, limit, total) == rows
            && forall page: nat | page >= 1 ::
                 var data := FindAll(rows, page, limit).data;
                 && (page < total ==> |data| == limit)
                 && (page == total ==> 0 < |data| <= limit)
                 && (page > total ==> data == [])
  {
    hide Skip;
    hide TotalPages;
    var total := TotalPages(|rows|, limit);
    PagesArePrefix(rows, limit, total);
    assert |rows| <= Skip(total + 1, limit) by {
      if |rows| > 0 {
        LastPage(|rows|, limit);
        SkipNext(total, limit);
      }
    }
    assert rows[..|rows|] == rows;
    forall page: nat | page >= 1
      ensures var data := FindAll(rows, page, limit).data;
              (page < total ==> |data| == limit) && (page == total ==> 0 < |data| <= limit)
                && (page > total ==> data == [])
    {
      PageLength(rows, page, limit);
    }
  }

  /** What the response for a page states: the rows of its window, in order, the number of all rows, the page and the
      limit that were asked for, and as page count the least number of pages of that limit that hold all rows. */
  lemma FindAllSpec<T>(rows: seq<T>, page: nat, limit: nat)
    requires page >= 1 && limit >= 1
    ensures var r := FindAll(rows, page, limit);
            && r.total == |rows| && r.page == page && r.limit == limit
            && (forall i | 0 <= i < |r.data| ::
                  (page - 1) * limit + i < |rows| && r.data[i] == rows[(page - 1) * limit + i])
            && |r.data| <= limit && (|r.data| < limit ==> (page - 1) * limit + |r.data| >= |rows|)
            && |rows| <= r.totalPages * limit && forall pages: nat | |rows| <= pages * limit :: r.totalPages <= pages
  {
    var q := TotalPages(|rows|, limit);
    forall pages: nat | |rows| <= pages * limit ensures q <= pages {
      CoversIff(|rows|, limit, pages);
    }
    CoversIff(|rows|, limit, q);
    assert (page - 1) * limit == Skip(page, limit);
    hide Skip;
  }

  /** A row is on the page whose window it falls into, at its distance from where that page begins, and on
      no other. */
  lemma OnePageEach<T>(rows: seq<T>, limit: nat, i: nat, page: nat, other: nat)
    requires limit >= 1 && page >= 1 && other >= 1 && i < |rows|
    requires Skip(page, limit) <= i < Skip(page, limit) + limit
    ensures var r := FindAll(rows, page, limit);
            var at := i - Skip(page, limit);
            page <= r.totalPages && at < |r.data| && r.data[at] == rows[i]
    ensures Skip(other, limit) <= i < Skip(other, limit) + limit ==> other == page
  {
    PageLength(rows, page, limit);
    if other < page { SkipAfter(other, page, limit); }
    if page < other { SkipAfter(page, other, limit); }
    hide Skip;
  }
}
