/** Offset pagination against the indexer, as both multisig hooks do it:
    ask for up to 100 rows at the running offset, advance the offset by the
    length of the page received, and go on while the page was full. The
    indexer's answers are modelled by the list of rows it holds, which does
    not change while the loop runs. */
module Paging {
  import opened Base

  /** The `limit` of every paged query. */
  const PageLimit: nat := 100

  /** The rows the indexer returns for `offset`. */
  function PageAt<T>(rows: seq<T>, offset: nat): (r: seq<T>)
    requires offset <= |rows|
    ensures |r| <= PageLimit
    ensures |r| < PageLimit <==> |rows| - offset < PageLimit
    ensures offset + |r| <= |rows| && r == rows[offset..offset + |r|]
  {
    if |rows| - offset < PageLimit then rows[offset..] else rows[offset..offset + PageLimit]
  }

  /** The pages a do-while loop starting at `offset` receives: it stops
      after the first page that is not full. */
  function Pages<T>(rows: seq<T>, offset: nat): seq<seq<T>>
    requires offset <= |rows|
    decreases |rows| - offset
  {
    var page := PageAt(rows, offset);
    if |page| == PageLimit then [page] + Pages(rows, offset + PageLimit) else [page]
  }

  /** The pages, each transformed by `f`, joined in order. */
  function FlatMap<T, U>(pages: seq<seq<T>>, f: seq<T> -> seq<U>): seq<U> {
    if |pages| == 0 then [] else f(pages[0]) + FlatMap(pages[1..], f)
  }

  /** The loop of both hooks: each page is fetched at the running offset and
      `f` of it is appended to the result. */
  method FetchAll<T, U>(rows: seq<T>, f: seq<T> -> seq<U>) returns (data: seq<U>, requests: nat)
    ensures data == FlatMap(Pages(rows, 0), f)
    ensures requests == |Pages(rows, 0)|
  {
    var offset: nat := 0;
    data, requests := [], 0;
    var more := true;
    while more
      invariant offset <= |rows|
      invariant more ==> FlatMap(Pages(rows, 0), f) == data + FlatMap(Pages(rows, offset), f)
      invariant more ==> |Pages(rows, 0)| == requests + |Pages(rows, offset)|
      invariant !more ==> data == FlatMap(Pages(rows, 0), f) && requests == |Pages(rows, 0)|
      decreases |rows| - offset + (if more then 1 else 0)
    {
      var page := PageAt(rows, offset);
      FlatMapFirst(rows, offset, f);
      offset := offset + |page|;
      data := data + f(page);
      requests := requests + 1;
      more := |page| == PageLimit;
    }
  }

  /** One step of the loop: the first page, then the pages after it. */
  lemma FlatMapFirst<T, U>(rows: seq<T>, offset: nat, f: seq<T> -> seq<U>)
    requires offset <= |rows|
    ensures var page := PageAt(rows, offset);
            && (|page| == PageLimit ==>
                 FlatMap(Pages(rows, offset), f) == f(page) + FlatMap(Pages(rows, offset + PageLimit), f)
                 && |Pages(rows, offset)| == 1 + |Pages(rows, offset + PageLimit)|)
            && (|page| != PageLimit ==> FlatMap(Pages(rows, offset), f) == f(page) && |Pages(rows, offset)| == 1)
  {
    var page := PageAt(rows, offset);
    var ps := Pages(rows, offset);
    assert ps[0] == page;
    if |page| == PageLimit {
      assert ps[1..] == Pages(rows, offset + PageLimit);
    } else {
      assert ps[1..] == [];
    }
  }

  /** Joined without transformation, the pages give back every row from the
      starting offset, in order. */
  lemma {:induction false} PagesCoverRows<T>(rows: seq<T>, offset: nat)
    requires offset <= |rows|
    ensures FlatMap(Pages(rows, offset), (p: seq<T>) => p) == rows[offset..]
    decreases |rows| - offset
  {
    var page := PageAt(rows, offset);
    if |page| == PageLimit {
      PagesCoverRows(rows, offset + PageLimit);
      assert rows[offset..] == page + rows[offset + PageLimit..];
    }
  }

  /** Every page but the last is full and the last one is not, so the loop
      makes one request per hundred rows plus one. */
  lemma {:induction false} PagesShape<T>(rows: seq<T>, offset: nat)
    requires offset <= |rows|
    ensures var ps := Pages(rows, offset);
            && |ps| == (|rows| - offset) / PageLimit + 1
            && |ps[|ps| - 1]| < PageLimit
            && forall i :: 0 <= i < |ps| - 1 ==> |ps[i]| == PageLimit
    decreases |rows| - offset
  {
    var page := PageAt(rows, offset);
    if |page| == PageLimit {
      PagesShape(rows, offset + PageLimit);
    }
  }

  /** A transformation that distributes over concatenation can be applied to
      the pages or to the joined rows alike. */
  lemma {:induction false} FlatMapOfHomomorphism<T, U>(rows: seq<T>, offset: nat, f: seq<T> -> seq<U>)
    requires offset <= |rows|
    requires forall a: seq<T>, b: seq<T> {:trigger f(a + b)} :: f(a + b) == f(a) + f(b)
    ensures FlatMap(Pages(rows, offset), f) == f(rows[offset..])
    decreases |rows| - offset
  {
    var page := PageAt(rows, offset);
    if |page| == PageLimit {
      FlatMapOfHomomorphism(rows, offset + PageLimit, f);
      assert rows[offset..] == page + rows[offset + PageLimit..];
    } else {
      assert page == rows[offset..];
      assert f([]) == f([] + []);
      assert [] + f(page) == f(page);
    }
  }

  /** Two transformations that agree on every page give the same joined result. */
  lemma {:induction false} FlatMapPointwise<T, U>(pages: seq<seq<T>>, f: seq<T> -> seq<U>, g: seq<T> -> seq<U>)
    requires forall i :: 0 <= i < |pages| ==> f(pages[i]) == g(pages[i])
    ensures FlatMap(pages, f) == FlatMap(pages, g)
  {
    if |pages| > 0 {
      FlatMapPointwise(pages[1..], f, g);
    }
  }
}
