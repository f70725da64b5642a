/**
 * `GET /api/cakes?page&limit`: one page of the cake feed, newest first,
 * with the page metadata. `rows` is the whole `cake` table in the order
 * `orderBy: { createdAt: 'desc' }` returns it; how rows with equal
 * `createdAt` are ordered is the database's choice and is taken as given.
 */
module Cakes {
  import opened Entities
  import opened Http
  import opened Schema

  function Min(a: int, b: int): int { if a <= b then a else b }

  /** `(page - 1) * limit`: the number of rows before the page. */
  function Skip(page: int, limit: int): nat
    requires page >= 1 && limit >= 1
  {
    (page - 1) * limit
  }

  /** `findMany({ skip, take })`: the rows from `skip` on, at most `take` of them. */
  function Window(rows: seq<CakeRow>, skip: nat, take: nat): (w: seq<CakeRow>)
    ensures |w| <= take
    ensures |w| == if skip >= |rows| then 0 else Min(take, |rows| - skip)
    ensures forall i :: 0 <= i < |w| ==> skip + i < |rows| && w[i] == rows[skip + i]
  {
    if skip >= |rows| then [] else rows[skip..Min(skip + take, |rows|)]
  }

  /** `Math.ceil(total / limit)` on non-negative integers. */
  function CeilDiv(total: nat, limit: nat): (pages: nat)
    requires limit >= 1
    ensures pages * limit >= total
    ensures pages == 0 || (pages - 1) * limit < total
  {
    var q := (total + limit - 1) / limit;
    assert q * limit + (total + limit - 1) % limit == total + limit - 1;
    q
  }

  function Views(rows: seq<CakeRow>): (vs: seq<CakeView>)
    ensures |vs| == |rows|
    ensures forall i :: 0 <= i < |rows| ==> vs[i] == View(rows[i])
  {
    seq(|rows|, i requires 0 <= i < |rows| => View(rows[i]))
  }

  /** The handler, given the query and all cakes newest first. */
  function Handle(httpMethod: string, q: CakesQuery, rows: seq<CakeRow>): (r: Response)
    ensures r.setCookie.None?
    ensures httpMethod != "GET" ==> r == MethodNotAllowed
    ensures httpMethod == "GET" && QueryErrors(q) != [] ==> r == Reply(400, Errors(QueryErrors(q)))
    ensures r.status == 200 <==> httpMethod == "GET" && PageOf(q) >= 1 && 1 <= LimitOf(q) <= 100
    ensures r.status == 200 ==>
              && r.body.Page?
              && var page, limit := PageOf(q), LimitOf(q);
                 && |r.body.cakes| <= limit
                 && |r.body.cakes| == (if (page - 1) * limit >= |rows| then 0 else Min(limit, |rows| - (page - 1) * limit))
                 && (forall i :: 0 <= i < |r.body.cakes| ==>
                       (page - 1) * limit + i < |rows| && r.body.cakes[i] == View(rows[(page - 1) * limit + i]))
                 && ((page - 1) * limit >= |rows| ==> r.body.cakes == [])
                 && r.body.metadata.currentPage == page && r.body.metadata.pageSize == limit
                 && r.body.metadata.totalItems == |rows|
                 && r.body.metadata.totalPages * limit >= |rows|
                 && (r.body.metadata.totalPages == 0 || (r.body.metadata.totalPages - 1) * limit < |rows|)
  {
    if httpMethod != "GET" then MethodNotAllowed
    else
      var errors := QueryErrors(q);
      if errors != [] then Reply(400, Errors(errors))
      else
        var page, limit := PageOf(q), LimitOf(q);
        var cakes := Window(rows, Skip(page, limit), limit);
        var total := |rows|;
        Reply(200, Page(Views(cakes), Metadata(page, limit, CeilDiv(total, limit), total)))
  }

  /** The first `k` pages one after another. */
  function FirstPages(rows: seq<CakeRow>, limit: nat, k: nat): seq<CakeRow>
    requires limit >= 1
  {
    if k == 0 then [] else FirstPages(rows, limit, k - 1) + Window(rows, Skip(k, limit), limit)
  }

  /** Pages 1..k are the feed's first `k * limit` rows, in order, without gaps or overlaps. */
  lemma {:induction false} FirstPagesArePrefix(rows: seq<CakeRow>, limit: nat, k: nat)
    requires limit >= 1
    ensures FirstPages(rows, limit, k) == rows[..Min(k * limit, |rows|)]
  {
    if k > 0 {
      FirstPagesArePrefix(rows, limit, k - 1);
      assert (k - 1) * limit + limit == k * limit;
      var before := Min((k - 1) * limit, |rows|);
      var after := Min(k * limit, |rows|);
      assert rows[..after] == rows[..before] + rows[before..after];
    }
  }

  /** Walking pages 1 to `totalPages` visits every cake exactly once. */
  lemma PagesCoverFeed(rows: seq<CakeRow>, limit: nat)
    requires limit >= 1
    ensures FirstPages(rows, limit, CeilDiv(|rows|, limit)) == rows
  {
    FirstPagesArePrefix(rows, limit, CeilDiv(|rows|, limit));
  }

  /** A page has cakes exactly when its number is at most `totalPages`. */
  lemma PageNonEmptyIff(rows: seq<CakeRow>, page: int, limit: int)
    requires page >= 1 && limit >= 1
    ensures |Window(rows, Skip(page, limit), limit)| > 0 <==> page <= CeilDiv(|rows|, limit)
  {
    var pages := CeilDiv(|rows|, limit);
    if page <= pages {
      MulMonotone(page - 1, pages - 1, limit);
    } else {
      MulMonotone(pages, page - 1, limit);
    }
  }

  lemma MulMonotone(a: nat, b: nat, c: nat)
    requires a <= b
    ensures a * c <= b * c
  {
  }

  /** `rows` is ordered newest first. */
  ghost predicate NewestFirst(rows: seq<CakeRow>) {
    forall i, j :: 0 <= i < j < |rows| ==> rows[i].createdAt >= rows[j].createdAt
  }

  /**
   * With the feed newest first, every cake on a page is at least as new as
   * every cake on any later page.
   */
  lemma EarlierPagesAreNewer(rows: seq<CakeRow>, limit: int, p1: int, p2: int, i: nat, j: nat)
    requires NewestFirst(rows) && limit >= 1 && 1 <= p1 < p2
    requires i < |Window(rows, Skip(p1, limit), limit)| && j < |Window(rows, Skip(p2, limit), limit)|
    ensures Window(rows, Skip(p1, limit), limit)[i].createdAt >= Window(rows, Skip(p2, limit), limit)[j].createdAt
  {
    MulMonotone(p1, p2 - 1, limit);
    assert Skip(p1, limit) + i < Skip(p1, limit) + limit == p1 * limit <= Skip(p2, limit) + j;
  }

  /** Page 1 starts at the newest cake. */
  lemma FirstPageStartsNewest(rows: seq<CakeRow>, limit: int, k: nat)
    requires NewestFirst(rows) && limit >= 1 && k < |rows|
    ensures |Window(rows, Skip(1, limit), limit)| > 0
    ensures Window(rows, Skip(1, limit), limit)[0].createdAt >= rows[k].createdAt
  {
  }
}
