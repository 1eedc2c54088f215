/** Cursor pagination: the server's stateless pager (dispatch.go) and the
    client's iterator (client/pagination.go) that follows its cursors. */
module Pagination {
  import opened Options
  import opened Decimal

  datatype Page<T> = Page(items: seq<T>, next: string) | InvalidCursor | CursorOutOfRange

  /** Non-positive limits give 50 items, and no page exceeds 1000. */
  function PageSize(limit: int): nat { if limit <= 0 then 50 else if limit > 1000 then 1000 else limit }

  /** paginateSlice. */
  function Paginate<T>(items: seq<T>, cursor: string, limit: int): Page<T> {
    PageAt(items, if cursor == "" then Some(0) else Atoi(cursor), limit)
  }

  function PageAt<T>(items: seq<T>, at: Option<int>, limit: int): Page<T> {
    if at.None? || at.value < 0 then InvalidCursor
    else if at.value > |items| then CursorOutOfRange
    else if at.value == |items| then Page([], "")
    else
      var end := if at.value + PageSize(limit) > |items| then |items| else at.value + PageSize(limit);
      Page(items[at.value..end], if end == |items| then "" else Itoa(end))
  }

  /** handlePaginatedList: no cursor and no limit means the whole list. */
  function Serve<T>(items: seq<T>, cursor: string, limit: int): Page<T> {
    if cursor == "" && limit == 0 then Page(items, "") else Paginate(items, cursor, limit)
  }

  /** What every answer is, from the request alone: without cursor and limit the
      whole list; otherwise the items from the cursor's position on, as many as
      asked for but at most 1000, 50 when no positive number is asked for, and no
      more than there are. */
  lemma AnswerIs<T>(items: seq<T>, cursor: string, limit: int)
    ensures Serve(items, cursor, limit).Page? <==>
      cursor == "" || (Atoi(cursor).Some? && 0 <= Atoi(cursor).value <= |items|)
    ensures cursor == "" && limit == 0 ==> Serve(items, cursor, limit) == Page(items, "")
    ensures Serve(items, cursor, limit).Page? && !(cursor == "" && limit == 0) ==>
      var at := if cursor == "" then 0 else Atoi(cursor).value;
      var p := Serve(items, cursor, limit);
      && |p.items| == Least(if limit > 0 then Least(limit, 1000) else 50, |items| - at)
      && p.items == items[at..at + |p.items|]
      && p.next == if at + |p.items| == |items| then "" else Itoa(at + |p.items|)
  {}

  function Least(a: int, b: int): int { if a <= b then a else b }

  // ------------------------------------------------------- following cursors

  /** Where a first cursor starts, if the server accepts it. */
  function StartOf<T>(items: seq<T>, cursor: string): Option<nat> {
    if cursor == "" then Some(0)
    else if Atoi(cursor).Some? && 0 <= Atoi(cursor).value <= |items| then Some(Atoi(cursor).value)
    else None
  }

  /** Items per page when crawling from a first cursor. */
  function Stride<T>(items: seq<T>, cursor: string, limit: int): (n: nat)
    ensures n >= 1
  {
    if cursor == "" && limit == 0 then |items| + 1 else PageSize(limit)
  }

  /** Pages needed from a start position: at least one request is made. */
  function PagesFrom(start: nat, n: nat, stride: nat): nat
    requires stride >= 1
    decreases n - start
  {
    if start + stride >= n then 1 else 1 + PagesFrom(start + stride, n, stride)
  }

  /** That is the rounded-up quotient, or one for an empty list. */
  lemma {:induction false} PagesAreCeil(start: nat, n: nat, stride: nat)
    requires stride >= 1 && start <= n
    ensures var p := PagesFrom(start, n, stride);
      if start == n then p == 1 else (p - 1) * stride < n - start <= p * stride
    decreases n - start
  {
    if start + stride < n {
      PagesAreCeil(start + stride, n, stride);
      var q := PagesFrom(start + stride, n, stride);
      assert (q + 1) * stride == q * stride + stride;
      assert q * stride == (q - 1) * stride + stride;
    }
  }

  /** The request with `cursor` asks for position `at`: the caller's own first
      cursor, or one the server handed out. */
  ghost predicate Asks<T>(items: seq<T>, cursor: string, limit: int, cursor0: string, at: nat, first: bool) {
    && |items| < INT_LIMIT && at <= |items|
    && (if first then cursor == cursor0 && StartOf(items, cursor0) == Some(at)
        else cursor == Itoa(at) && 0 < at < |items| && Stride(items, cursor0, limit) <= |items|)
  }

  /** One answer of the crawl: the next stretch of the list, and an empty cursor
      exactly at its end. */
  lemma ServeStep<T>(items: seq<T>, cursor: string, limit: int, cursor0: string, at: nat, first: bool)
    requires Asks(items, cursor, limit, cursor0, at, first)
    ensures var stride := Stride(items, cursor0, limit); var p := Serve(items, cursor, limit);
      && p.Page?
      && (if at + stride >= |items| then p == Page(items[at..], "")
          else p == Page(items[at..at + stride], Itoa(at + stride)) && p.next != "")
  {
    if !first { AtoiItoa(at); }
    if at + Stride(items, cursor0, limit) < |items| { ItoaValue(at + Stride(items, cursor0, limit)); }
    if cursor == "" && limit == 0 {
      assert items[0..] == items;
    } else {
      PageAtIs(items, at, limit);
    }
  }

  lemma PageAtIs<T>(items: seq<T>, at: nat, limit: int)
    requires at <= |items|
    ensures PageAt(items, Some(at), limit) ==
      if at + PageSize(limit) >= |items| then Page(items[at..], "")
      else Page(items[at..at + PageSize(limit)], Itoa(at + PageSize(limit)))
  {
    assert items[at..|items|] == items[at..];
    if at == |items| { assert items[at..] == []; }
  }

  /** What a page tells the iterator: the stretch it covers, whether the list
      ends there, and how many pages are still needed. */
  ghost predicate Covers<T>(items: seq<T>, p: Page<T>, at: nat, stride: nat)
    requires stride >= 1
  {
    && p.Page? && at + |p.items| <= |items| && p.items == items[at..at + |p.items|]
    && (if p.next == "" then at + |p.items| == |items| && PagesFrom(at, |items|, stride) == 1
        else 0 < |p.items| == stride && at + stride < |items| && p.next == Itoa(at + stride)
             && PagesFrom(at, |items|, stride) == 1 + PagesFrom(at + stride, |items|, stride))
  }

  lemma ServeCovers<T>(items: seq<T>, cursor: string, limit: int, cursor0: string, at: nat, first: bool)
    requires Asks(items, cursor, limit, cursor0, at, first)
    ensures Covers(items, Serve(items, cursor, limit), at, Stride(items, cursor0, limit))
  {
    ServeStep(items, cursor, limit, cursor0, at, first);
    assert items[at..|items|] == items[at..];
  }

  /** The pages a client sees when it follows the cursors of an unchanged list. */
  ghost function Crawl<T>(items: seq<T>, cursor: string, limit: int, at: nat, stride: nat): seq<Page<T>>
    requires stride >= 1
    decreases |items| - at
  {
    var p := Serve(items, cursor, limit);
    if p.Page? && p.next != "" && at + stride < |items|
    then [p] + Crawl(items, p.next, limit, at + stride, stride) else [p]
  }

  ghost function Gather<T>(ps: seq<Page<T>>): seq<T> {
    if ps == [] then [] else (if ps[0].Page? then ps[0].items else []) + Gather(ps[1..])
  }

  lemma GatherCons<T>(p: Page<T>, rest: seq<Page<T>>)
    requires p.Page?
    ensures Gather([p] + rest) == p.items + Gather(rest)
  {
    assert ([p] + rest)[1..] == rest;
  }

  /** The crawl after one answer. */
  lemma CrawlUnfold<T>(items: seq<T>, cursor: string, limit: int, at: nat, stride: nat)
    requires stride >= 1 && Covers(items, Serve(items, cursor, limit), at, stride)
    ensures var p := Serve(items, cursor, limit);
      Crawl(items, cursor, limit, at, stride) ==
        [p] + if p.next == "" then [] else Crawl(items, p.next, limit, at + stride, stride)
  {}

  ghost predicate Complete<T>(items: seq<T>, ps: seq<Page<T>>, at: nat, stride: nat)
    requires at <= |items| && stride >= 1
  {
    && Gather(ps) == items[at..] && |ps| == PagesFrom(at, |items|, stride)
    && |ps| > 0 && ps[|ps| - 1].Page? && ps[|ps| - 1].next == ""
  }

  lemma CompleteCons<T>(items: seq<T>, p: Page<T>, rest: seq<Page<T>>, at: nat, stride: nat)
    requires at <= |items| && stride >= 1 && Covers(items, p, at, stride)
    requires if p.next == "" then rest == [] else Complete(items, rest, at + stride, stride)
    ensures Complete(items, [p] + rest, at, stride)
  {
    GatherCons(p, rest);
    if p.next != "" {
      assert items[at..] == items[at..at + stride] + items[at + stride..];
    } else {
      assert items[at..] == items[at..at + |p.items|];
    }
  }

  lemma {:induction false} CrawlRest<T>(items: seq<T>, cursor: string, limit: int, cursor0: string, at: nat, first: bool)
    requires Asks(items, cursor, limit, cursor0, at, first)
    ensures var stride := Stride(items, cursor0, limit);
      Complete(items, Crawl(items, cursor, limit, at, stride), at, stride)
    decreases |items| - at
  {
    var stride, p := Stride(items, cursor0, limit), Serve(items, cursor, limit);
    ServeCovers(items, cursor, limit, cursor0, at, first);
    CrawlUnfold(items, cursor, limit, at, stride);
    if p.next == "" {
      CompleteCons(items, p, [], at, stride);
    } else {
      CrawlRest(items, p.next, limit, cursor0, at + stride, false);
      CompleteCons(items, p, Crawl(items, p.next, limit, at + stride, stride), at, stride);
    }
  }

  /** Following cursors over an unchanged list returns every item from the start
      exactly once, in order, and stops after the rounded-up number of pages. */
  lemma CrawlIsComplete<T>(items: seq<T>, cursor0: string, limit: int, at: nat)
    requires |items| < INT_LIMIT && StartOf(items, cursor0) == Some(at)
    ensures var stride := Stride(items, cursor0, limit);
      Complete(items, Crawl(items, cursor0, limit, at, stride), at, stride)
  {
    CrawlRest(items, cursor0, limit, cursor0, at, true);
  }

  // ---------------------------------------------------------------- iterator

  datatype IterError = PageLimit | ItemLimit | ServerError | TransportError
  datatype NextResult<T> = Item(item: T) | Eof | Fail(error: IterError)

  /** ToolsIterator over a server whose list does not change; down says for each
      request, counted from zero, whether it is lost on the way. */
  class Iterator<T> {
    const items: seq<T>
    const limit: int
    const maxPages: int
    const maxItems: int
    const down: nat -> bool
    ghost const cursor0: string
    var paramsCursor: string
    var buffer: seq<T>
    var index: nat
    var cursor: string
    var done: bool
    var err: Option<IterError>
    var pageCount: nat
    /** End of the fetched stretch of the server's list. */
    ghost var hi: nat

    ghost function Start(): Option<nat> { StartOf(items, cursor0) }
    ghost function Step(): nat { Stride(items, cursor0, limit) }
    ghost function TotalPages(): nat
      requires Start().Some?
    {
      PagesFrom(Start().value, |items|, Step())
    }

    /** Position of the next item to return. */
    ghost function Position(): int
      reads this
    {
      hi - (|buffer| - index)
    }

    /** Nothing fetched yet. */
    ghost predicate IsFresh()
      reads this
    {
      pageCount == 0 && buffer == [] && index == 0 && cursor == "" && !done && paramsCursor == cursor0
      && (Start().Some? ==> hi == Start().value)
    }

    /** Some page fetched: the buffer is the stretch of the list that ends at hi. */
    ghost predicate Fetched()
      reads this
    {
      && Start().Some? && pageCount > 0 && index <= |buffer| <= hi <= |items|
      && buffer == items[hi - |buffer|..hi]
      && (done <==> cursor == "")
      && (if done then hi == |items| && pageCount == TotalPages()
          else 0 < hi < |items| && cursor == Itoa(hi) && Step() <= |items|
               && pageCount + PagesFrom(hi, |items|, Step()) == TotalPages())
    }

    ghost predicate Valid()
      reads this
    {
      && |items| < INT_LIMIT
      && (err.None? ==> IsFresh() || Fetched())
      && (maxPages > 0 ==> pageCount <= maxPages)
    }

    constructor (items: seq<T>, cursor: string, limit: int, maxPages: int, maxItems: int, down: nat -> bool)
      requires |items| < INT_LIMIT
      ensures Valid() && IsFresh() && err == None
      ensures this.items == items && this.limit == limit && this.cursor0 == cursor
      ensures this.maxPages == maxPages && this.maxItems == maxItems && this.down == down
    {
      this.items, this.limit, this.maxPages, this.maxItems, this.down := items, limit, maxPages, maxItems, down;
      this.cursor0, this.paramsCursor := cursor, cursor;
      this.buffer, this.index, this.cursor, this.done, this.err, this.pageCount := [], 0, "", false, None, 0;
      this.hi := if StartOf(items, cursor).Some? then StartOf(items, cursor).value else 0;
    }

    /** Stores a page: it covers the stretch of the list that starts at hi. */
    method Accept(page: Page<T>)
      requires Start().Some? && |items| < INT_LIMIT && Covers(items, page, hi, Step()) && !done
      requires pageCount + PagesFrom(hi, |items|, Step()) == TotalPages()
      modifies this`buffer, this`index, this`cursor, this`done, this`pageCount, this`hi
      ensures Fetched() && pageCount == old(pageCount) + 1 && index == 0
      ensures Position() == old(hi) && (buffer == [] ==> done)
    {
      ghost var at := hi;
      buffer := page.items;
      index := 0;
      cursor := page.next;
      pageCount := pageCount + 1;
      hi := at + |buffer|;
      if cursor == "" || |buffer| == 0 { done := true; }
    }

    /** client.ListTools with the current parameters. */
    method Request() returns (page: Page<T>)
      requires |items| < INT_LIMIT
      requires IsFresh() || (Start().Some? && paramsCursor == Itoa(hi) && 0 < hi < |items| && Step() <= |items|)
      ensures page == Serve(items, paramsCursor, limit)
      ensures page.Page? <==> Start().Some?
      ensures Start().Some? ==> Covers(items, page, hi, Step())
    {
      page := Serve(items, paramsCursor, limit);
      if Start().Some? {
        ServeCovers(items, paramsCursor, limit, cursor0, hi, IsFresh());
      }
    }

    /** The error of a request that does not come back with a page. */
    ghost function FetchError(k: nat): IterError { if down(k) then TransportError else ServerError }

    /** Fetches the next page; false when the request was lost or rejected. */
    method Fetch() returns (ok: bool)
      requires Valid() && err.None? && !done && index == |buffer| && (maxPages > 0 ==> pageCount < maxPages)
      modifies this`paramsCursor, this`buffer, this`index, this`cursor, this`done, this`err, this`pageCount, this`hi
      ensures Valid() && (ok <==> Start().Some? && !down(old(pageCount)))
      ensures ok ==> err.None? && Fetched() && index == 0 && Position() == old(Position()) && (buffer == [] ==> done)
      ensures ok ==> pageCount == old(pageCount) + 1
      ensures !ok ==> err == Some(FetchError(old(pageCount))) && pageCount == old(pageCount)
    {
      if cursor != "" { paramsCursor := cursor; }
      if down(pageCount) {
        err := Some(TransportError);
        return false;
      }
      var page := Request();
      if !page.Page? {
        err := Some(ServerError);
        return false;
      }
      Accept(page);
      ok := true;
    }

    /** Why a Next that finds no error recorded fails: the pages do not fit the
        limit, or the request for the next page is lost or rejected. */
    ghost predicate Explains(e: IterError, pages: nat) {
      if e == PageLimit then maxPages > 0 && maxPages == pages && Start().Some? && TotalPages() > maxPages
      else e == FetchError(pages) && (Start().None? || (down(pages) && pages < TotalPages()))
    }

    /** The first half of Next: with the buffer used up, stop at the end of the
        list, at the page limit or on an error, or fetch. None: an item is ready. */
    method Advance() returns (stop: Option<NextResult<T>>)
      requires Valid() && err.None?
      modifies this`paramsCursor, this`buffer, this`index, this`cursor, this`done, this`err, this`pageCount, this`hi
      ensures Valid()
      ensures stop.None? ==> err.None? && Fetched() && index < |buffer| && Position() == old(Position())
      ensures stop.Some? ==> !stop.value.Item?
      ensures stop == Some(Eof) ==> err.None? && Fetched() && done && index == |buffer| && old(Position()) == |items|
      ensures stop == Some(Eof) && old(HasMore()) ==> old(IsFresh()) && Start() == Some(|items|)
      ensures !old(HasMore()) ==> stop == Some(Eof)
      ensures stop.Some? && stop.value.Fail? ==> err == Some(stop.value.error) && Explains(stop.value.error, old(pageCount))
      ensures old(pageCount) <= pageCount && NoneDown(old(pageCount), pageCount)
    {
      if index < |buffer| { return None; }
      if done { return Some(Eof); }
      if maxPages > 0 && pageCount >= maxPages {
        err := Some(PageLimit);
        return Some(Fail(PageLimit));
      }
      var ok := Fetch();
      if !ok { return Some(Fail(err.value)); }
      if |buffer| == 0 { return Some(Eof); }
      return None;
    }

    /** None of these requests is lost. */
    ghost predicate NoneDown(lo: nat, hi: nat) { forall k :: lo <= k < hi ==> !down(k) }

    method Next() returns (r: NextResult<T>)
      requires Valid()
      modifies this`paramsCursor, this`buffer, this`index, this`cursor, this`done, this`err, this`pageCount, this`hi
      ensures Valid()
      ensures old(err).Some? ==> r.Fail? && err == old(err)
      ensures r.Fail? ==> err == Some(r.error)
      ensures r.Item? ==> err.None? && Fetched() && 0 <= old(Position()) < |items|
                          && r.item == items[old(Position())] && Position() == old(Position()) + 1
      ensures r.Eof? ==> err.None? && Fetched() && old(Position()) == |items| && done && index == |buffer|
      ensures r.Eof? && old(HasMore()) ==> old(IsFresh()) && Start() == Some(|items|)
      ensures old(err).None? && !old(HasMore()) ==> r.Eof?
      ensures old(err).None? && r.Fail? ==> Explains(r.error, old(pageCount))
      ensures old(err).None? ==> old(pageCount) <= pageCount && NoneDown(old(pageCount), pageCount)
    {
      if err.Some? { return Fail(err.value); }
      var stop := Advance();
      if stop.Some? { return stop.value; }
      r := Item(buffer[index]);
      index := index + 1;
    }

    /** False means that Next will say Eof. True can still be followed by Eof, but
        only on a first call to a list with nothing at or after the start. */
    predicate HasMore()
      reads this
    {
      !done || index < |buffer|
    }

    /** The page limit does not stop a crawl of this length. */
    ghost predicate PagesFit()
      requires Start().Some?
    {
      maxPages <= 0 || TotalPages() <= maxPages
    }

    /** Collects what remains. A recorded error, a lost first request or a
        rejected first cursor comes back with nothing. Otherwise the result is
        always the next stretch of the server's list; there is no error exactly
        when the pages fit, none of the requests still needed is lost and fewer
        items than the item limit remain, and then it is the whole rest. */
    method All() returns (tools: seq<T>, error: Option<IterError>)
      requires Valid()
      modifies this`paramsCursor, this`buffer, this`index, this`cursor, this`done, this`err, this`pageCount, this`hi
      ensures old(err).Some? ==> tools == [] && error == old(err)
      ensures old(err).None? && Start().None? ==> tools == [] && error == Some(FetchError(0))
      ensures old(err).None? && Start().Some? ==>
        && 0 <= old(Position()) && old(Position()) + |tools| <= |items|
        && tools == items[old(Position())..old(Position()) + |tools|]
        && (error.None? <==> PagesFit() && NoneDown(old(pageCount), TotalPages())
                             && (maxItems <= 0 || |items| - old(Position()) < maxItems))
        && (error.None? ==> tools == items[old(Position())..])
    {
      tools := [];
      ghost var base, from := Position(), pageCount;
      while true
        invariant Valid() && err == old(err) && from == old(pageCount)
        invariant err.Some? || Start().None? ==> tools == []
        invariant err.None? && Start().Some? ==> Collected(base, tools)
        invariant err.None? ==> from <= pageCount && NoneDown(from, pageCount)
        decreases |items| - |tools|
      {
        if maxItems > 0 && |tools| >= maxItems {
          return tools, Some(ItemLimit);
        }
        var r := Next();
        match r {
          case Eof => return tools, None;
          case Fail(e) => return tools, Some(e);
          case Item(x) =>
            SliceSnoc(items, base, base + |tools|);
            tools := tools + [x];
        }
      }
    }

    /** What was collected is the stretch from base to the position. */
    ghost predicate Collected(base: int, tools: seq<T>)
      reads this
    {
      0 <= base && base + |tools| == Position() <= |items| && tools == items[base..base + |tools|]
    }
  }

  lemma SliceSnoc<T>(items: seq<T>, lo: nat, hi: nat)
    requires lo <= hi < |items|
    ensures items[lo..hi + 1] == items[lo..hi] + [items[hi]]
  {}
}
