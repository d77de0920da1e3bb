/** The execution history of a multisig account
    (hooks/useMultisigExecutionEvents.ts): each page of indexer rows is
    paired with the committed user transactions, classified by event type
    and turned into execution events; an infinite query asks for the next
    page at an offset computed from the last page. */
module ExecutionEvents {
  import opened Base
  import opened Paging

  datatype Status = Success | Failed | Rejected

  /** A row of `multisig_transactions`. The counts are `None` when null. */
  datatype Row = Row(version: nat, eventType: string, transactionPayload: Option<string>,
                     numApprovals: Option<int>, numRejections: Option<int>,
                     executor: string, sequenceNumber: int)

  datatype ExecutionEvent = ExecutionEvent(
    status: Status, version: nat, payload: Option<string>,
    approvals: Option<int>, rejections: Option<int>,
    executor: Address, sequenceNumber: int, transaction: TxnResponse)

  /** The `enabled` flag: only devnet switches the query off, and an absent
      network does not. */
  function Enabled(network: Option<Network>, optionEnabled: Option<bool>): (r: bool)
    ensures r <==> network != Some(Devnet) && optionEnabled != Some(false)
  {
    network != Some(Devnet) && optionEnabled.GetOr(true)
  }

  /** The event-type switch; `None` is the default branch. */
  function StatusOf(eventType: string): (r: Option<Status>)
    ensures r == Some(Success) <==>
      eventType in {MultisigEvent("TransactionExecutionSucceeded"), MultisigEvent("TransactionExecutionSucceededEvent")}
    ensures r == Some(Failed) <==>
      eventType in {MultisigEvent("TransactionExecutionFailed"), MultisigEvent("TransactionExecutionFailedEvent")}
    ensures r == Some(Rejected) <==>
      eventType in {MultisigEvent("ExecuteRejectedTransaction"), MultisigEvent("ExecuteRejectedTransactionEvent")}
  {
    MultisigEventInjective();
    if eventType == MultisigEvent("TransactionExecutionSucceeded")
       || eventType == MultisigEvent("TransactionExecutionSucceededEvent") then Some(Success)
    else if eventType == MultisigEvent("TransactionExecutionFailed")
       || eventType == MultisigEvent("TransactionExecutionFailedEvent") then Some(Failed)
    else if eventType == MultisigEvent("ExecuteRejectedTransaction")
       || eventType == MultisigEvent("ExecuteRejectedTransactionEvent") then Some(Rejected)
    else None
  }

  /** `x ? Number(x) : undefined` on a count: zero and null are falsy. */
  function CountIfTruthy(x: Option<int>): (r: Option<int>)
    ensures r.Some? <==> x.Some? && x.value != 0
    ensures r.Some? ==> r == x
  {
    if x.Some? && x.value != 0 then x else None
  }

  /** The event one row contributes, if any: it needs a user transaction of
      the row's version among `responses` and a known event type. The
      event carries that transaction with its sender rewritten to the
      canonical text of its address (`AccountAddress.from(sender).toString()`),
      which fixes senders written with leading zeros. */
  function EventOf(row: Row, responses: seq<TxnResponse>, lib: AddressLib): (r: Option<ExecutionEvent>)
    ensures r.Some? <==> FindUserTxn(responses, row.version).Some? && StatusOf(row.eventType).Some?
    ensures r.Some? ==>
      (r.value.version == row.version && r.value.status == StatusOf(row.eventType).value
       && r.value.transaction.kind == UserTxn && r.value.transaction.version == row.version
       && r.value.transaction == FindUserTxn(responses, row.version).value.(
            sender := lib.show(lib.from(FindUserTxn(responses, row.version).value.sender)))
       && r.value.payload == row.transactionPayload && r.value.sequenceNumber == row.sequenceNumber
       && r.value.executor == lib.from(row.executor)
       && r.value.approvals == CountIfTruthy(row.numApprovals)
       && r.value.rejections == CountIfTruthy(row.numRejections))
  {
    match FindUserTxn(responses, row.version)
    case None => None
    case Some(ut) =>
      match StatusOf(row.eventType)
      case None => None
      case Some(status) =>
        Some(ExecutionEvent(status, row.version, row.transactionPayload,
                            CountIfTruthy(row.numApprovals), CountIfTruthy(row.numRejections),
                            lib.from(row.executor), row.sequenceNumber,
                            ut.(sender := lib.show(lib.from(ut.sender)))))
  }

  /** The `reduce` over a page of rows. */
  function Events(rows: seq<Row>, responses: seq<TxnResponse>, lib: AddressLib): (r: seq<ExecutionEvent>)
    ensures |r| <= |rows|
    ensures forall e :: e in r ==> exists i :: 0 <= i < |rows| && EventOf(rows[i], responses, lib) == Some(e)
    ensures forall i :: 0 <= i < |rows| && EventOf(rows[i], responses, lib).Some? ==>
      EventOf(rows[i], responses, lib).value in r
  {
    if |rows| == 0 then []
    else
      var rest := Events(rows[1..], responses, lib);
      assert forall i :: 1 <= i < |rows| ==> rows[i] == rows[1..][i - 1];
      match EventOf(rows[0], responses, lib)
      case Some(e) => [e] + rest
      case None => rest
  }

  /** Whether a row yields an event. */
  function Kept(responses: seq<TxnResponse>, lib: AddressLib): Row -> bool {
    (row: Row) => EventOf(row, responses, lib).Some?
  }

  function RowVersion(row: Row): nat { row.version }
  function EventVersion(e: ExecutionEvent): nat { e.version }

  /** The events are the kept rows, in the rows' order: selecting the kept
      rows and reading their versions gives the events' versions. */
  lemma {:induction false} EventsFollowKeptRows(rows: seq<Row>, responses: seq<TxnResponse>, lib: AddressLib, mask: seq<bool>)
    requires |mask| == |rows|
    requires forall i :: 0 <= i < |rows| ==> mask[i] == Kept(responses, lib)(rows[i])
    ensures MapSeq(Events(rows, responses, lib), EventVersion) == MapSeq(Select(rows, mask), RowVersion)
  {
    if |rows| > 0 {
      EventsFollowKeptRows(rows[1..], responses, lib, mask[1..]);
      var rest := Events(rows[1..], responses, lib);
      var kept := Select(rows[1..], mask[1..]);
      if mask[0] {
        var r := [EventOf(rows[0], responses, lib).value] + rest;
        assert Events(rows, responses, lib) == r;
        assert MapSeq(r, EventVersion) == [rows[0].version] + MapSeq(rest, EventVersion);
        assert MapSeq([rows[0]] + kept, RowVersion) == [rows[0].version] + MapSeq(kept, RowVersion);
      } else {
        assert Events(rows, responses, lib) == rest;
      }
    }
  }

  /** One event per kept row. */
  lemma {:induction false} EventsCountKeptRows(rows: seq<Row>, responses: seq<TxnResponse>, lib: AddressLib)
    ensures |Events(rows, responses, lib)| == |Filter(rows, Kept(responses, lib))|
  {
    if |rows| > 0 {
      EventsCountKeptRows(rows[1..], responses, lib);
    }
  }

  /** The page's event versions are an order-preserving subsequence of its
      row versions. */
  lemma EventsAreSubsequence(rows: seq<Row>, responses: seq<TxnResponse>, lib: AddressLib)
    ensures IsSubsequence(MapSeq(Events(rows, responses, lib), EventVersion), MapSeq(rows, RowVersion))
  {
    var mask := seq(|rows|, i requires 0 <= i < |rows| => Kept(responses, lib)(rows[i]));
    EventsFollowKeptRows(rows, responses, lib, mask);
    SelectMap(rows, mask, RowVersion);
    assert Select(MapSeq(rows, RowVersion), mask) == MapSeq(Events(rows, responses, lib), EventVersion);
  }

  // ---------------------------------------------------------------------
  // One page and the walk over pages
  // ---------------------------------------------------------------------

  /** The transactions fetched for a page, one per row, by version. */
  function Responses(rows: seq<Row>, fetch: nat -> TxnResponse): (r: seq<TxnResponse>)
    ensures |r| == |rows|
    ensures forall i :: 0 <= i < |rows| ==> r[i] == fetch(rows[i].version)
  {
    MapSeq(rows, (row: Row) => fetch(row.version))
  }

  /** The events of one page of rows. */
  function PageEvents(fetch: nat -> TxnResponse, lib: AddressLib): seq<Row> -> seq<ExecutionEvent> {
    page => Events(page, Responses(page, fetch), lib)
  }

  /** The query function for `offset`. The indexer client is chosen by the
      given network or else the configured one; without a client the page
      is empty. */
  function QueryPage(network: Option<Network>, configNetwork: Network, hasClient: Network -> bool,
                     rows: seq<Row>, offset: nat, fetch: nat -> TxnResponse, lib: AddressLib): (r: seq<ExecutionEvent>)
    requires offset <= |rows|
    ensures !hasClient(network.GetOr(configNetwork)) ==> r == []
    ensures hasClient(network.GetOr(configNetwork)) ==> r == PageEvents(fetch, lib)(PageAt(rows, offset))
    ensures |r| <= PageLimit
  {
    if hasClient(network.GetOr(configNetwork)) then PageEvents(fetch, lib)(PageAt(rows, offset)) else []
  }

  /** `getNextPageParam` as written: continue only after a page of exactly
      100 events, at the previous offset plus that page's length. */
  function NextPageParam(lastPage: seq<ExecutionEvent>, lastPageParam: nat): (r: Option<nat>)
    ensures r.Some? <==> |lastPage| == PageLimit
    ensures r.Some? ==> r.value == lastPageParam + PageLimit
  {
    if |lastPage| == 0 || |lastPage| != PageLimit then None else Some(lastPageParam + |lastPage|)
  }

  /** The events of every page the infinite query loads when it keeps
      fetching next pages, with the page parameter rule as written. */
  function WalkAsWritten(rows: seq<Row>, offset: nat, fetch: nat -> TxnResponse, lib: AddressLib): seq<ExecutionEvent>
    requires offset <= |rows|
    decreases |rows| - offset
  {
    var page := PageAt(rows, offset);
    var events := PageEvents(fetch, lib)(page);
    match NextPageParam(events, offset)
    case Some(next) => events + WalkAsWritten(rows, next, fetch, lib)
    case None => events
  }

  /** The rule the offset pagination needs: continue after a full page of
      ROWS, at the previous offset plus the rows received. */
  function NextPageParamForRows(lastPageRows: nat, lastPageParam: nat): (r: Option<nat>)
    ensures r.Some? <==> lastPageRows == PageLimit
    ensures r.Some? ==> r.value == lastPageParam + lastPageRows
  {
    if lastPageRows == PageLimit then Some(lastPageParam + lastPageRows) else None
  }

  function WalkCorrected(rows: seq<Row>, offset: nat, fetch: nat -> TxnResponse, lib: AddressLib): seq<ExecutionEvent>
    requires offset <= |rows|
    decreases |rows| - offset
  {
    var page := PageAt(rows, offset);
    var events := PageEvents(fetch, lib)(page);
    match NextPageParamForRows(|page|, offset)
    case Some(next) => events + WalkCorrected(rows, next, fetch, lib)
    case None => events
  }

  /** The reference: every row whose own transaction is a user transaction
      and whose event type is known, in order. */
  function AllEvents(rows: seq<Row>, fetch: nat -> TxnResponse, lib: AddressLib): seq<ExecutionEvent> {
    if |rows| == 0 then []
    else match EventOf(rows[0], [fetch(rows[0].version)], lib)
      case Some(e) => [e] + AllEvents(rows[1..], fetch, lib)
      case None => AllEvents(rows[1..], fetch, lib)
  }

  function AllEventsOf(fetch: nat -> TxnResponse, lib: AddressLib): seq<Row> -> seq<ExecutionEvent> {
    rows => AllEvents(rows, fetch, lib)
  }

  lemma {:induction false} AllEventsAppend(a: seq<Row>, b: seq<Row>, fetch: nat -> TxnResponse, lib: AddressLib)
    ensures AllEvents(a + b, fetch, lib) == AllEvents(a, fetch, lib) + AllEvents(b, fetch, lib)
  {
    if |a| == 0 {
      assert a + b == b;
    } else {
      assert (a + b)[1..] == a[1..] + b;
      AllEventsAppend(a[1..], b, fetch, lib);
    }
  }

  /** On a page, pairing with the page's fetched transactions gives the
      reference events when the ledger answers by version. */
  lemma PageEventsAreAllEvents(page: seq<Row>, fetch: nat -> TxnResponse, lib: AddressLib)
    requires ByVersion(fetch)
    ensures PageEvents(fetch, lib)(page) == AllEvents(page, fetch, lib)
  {
    var responses := Responses(page, fetch);
    forall x | x in responses
      ensures x == fetch(x.version)
    {
      var i :| 0 <= i < |responses| && responses[i] == x;
    }
    EventsByVersion(page, responses, fetch, lib);
  }

  lemma {:induction false} EventsByVersion(rows: seq<Row>, responses: seq<TxnResponse>,
                                           fetch: nat -> TxnResponse, lib: AddressLib)
    requires ByVersion(fetch)
    requires forall x :: x in responses ==> x == fetch(x.version)
    requires forall i :: 0 <= i < |rows| ==> fetch(rows[i].version) in responses
    ensures Events(rows, responses, lib) == AllEvents(rows, fetch, lib)
  {
    if |rows| > 0 {
      var v := rows[0].version;
      FindUserTxnByVersion(responses, fetch, v);
      FindUserTxnByVersion([fetch(v)], fetch, v);
      EventsByVersion(rows[1..], responses, fetch, lib);
    }
  }

  /** With pages advanced by the rows received, the walk shows every row
      that has an event, across all pages, in order. */
  lemma WalkCorrectedShowsAll(rows: seq<Row>, fetch: nat -> TxnResponse, lib: AddressLib)
    requires ByVersion(fetch)
    ensures WalkCorrected(rows, 0, fetch, lib) == AllEvents(rows, fetch, lib)
  {
    WalkCorrectedIsFlatMap(rows, 0, fetch, lib);
    var pages := Pages(rows, 0);
    forall i | 0 <= i < |pages|
      ensures PageEvents(fetch, lib)(pages[i]) == AllEventsOf(fetch, lib)(pages[i])
    {
      PageEventsAreAllEvents(pages[i], fetch, lib);
    }
    FlatMapPointwise(pages, PageEvents(fetch, lib), AllEventsOf(fetch, lib));
    forall a: seq<Row>, b: seq<Row>
      ensures AllEventsOf(fetch, lib)(a + b) == AllEventsOf(fetch, lib)(a) + AllEventsOf(fetch, lib)(b)
    {
      AllEventsAppend(a, b, fetch, lib);
    }
    FlatMapOfHomomorphism(rows, 0, AllEventsOf(fetch, lib));
    assert rows[0..] == rows;
  }

  lemma {:induction false} WalkCorrectedIsFlatMap(rows: seq<Row>, offset: nat, fetch: nat -> TxnResponse, lib: AddressLib)
    requires offset <= |rows|
    ensures WalkCorrected(rows, offset, fetch, lib) == FlatMap(Pages(rows, offset), PageEvents(fetch, lib))
    decreases |rows| - offset
  {
    var page := PageAt(rows, offset);
    FlatMapFirst(rows, offset, PageEvents(fetch, lib));
    if |page| == PageLimit {
      WalkCorrectedIsFlatMap(rows, offset + PageLimit, fetch, lib);
    }
  }

  /** The walk as written stops after a full page of rows in which some row
      yields no event, although more rows follow: it shows only that page. */
  lemma WalkAsWrittenStopsEarly(rows: seq<Row>, fetch: nat -> TxnResponse, lib: AddressLib, i: nat)
    requires ByVersion(fetch)
    requires |rows| > PageLimit
    requires i < PageLimit && EventOf(rows[i], [fetch(rows[i].version)], lib).None?
    ensures WalkAsWritten(rows, 0, fetch, lib) == AllEvents(rows[..PageLimit], fetch, lib)
  {
    var page := PageAt(rows, 0);
    assert page == rows[..PageLimit];
    PageEventsAreAllEvents(page, fetch, lib);
    AllEventsDropRow(page, fetch, lib, i);
  }

  /** A row without an event makes the reference list shorter than the rows. */
  lemma {:induction false} AllEventsDropRow(rows: seq<Row>, fetch: nat -> TxnResponse, lib: AddressLib, i: nat)
    requires i < |rows| && EventOf(rows[i], [fetch(rows[i].version)], lib).None?
    ensures |AllEvents(rows, fetch, lib)| < |rows|
  {
    if i > 0 {
      AllEventsDropRow(rows[1..], fetch, lib, i - 1);
    } else {
      AllEventsLength(rows[1..], fetch, lib);
    }
  }

  lemma {:induction false} AllEventsLength(rows: seq<Row>, fetch: nat -> TxnResponse, lib: AddressLib)
    ensures |AllEvents(rows, fetch, lib)| <= |rows|
  {
    if |rows| > 0 {
      AllEventsLength(rows[1..], fetch, lib);
    }
  }

  /** So an event on a later page is never shown by the walk as written,
      while the corrected walk shows it. */
  lemma LaterEventIsLost(rows: seq<Row>, fetch: nat -> TxnResponse, lib: AddressLib, i: nat, j: nat)
    requires ByVersion(fetch)
    requires i < PageLimit <= j < |rows|
    requires EventOf(rows[i], [fetch(rows[i].version)], lib).None?
    requires EventOf(rows[j], [fetch(rows[j].version)], lib).Some?
    ensures |WalkAsWritten(rows, 0, fetch, lib)| < |WalkCorrected(rows, 0, fetch, lib)|
  {
    WalkAsWrittenStopsEarly(rows, fetch, lib, i);
    WalkCorrectedShowsAll(rows, fetch, lib);
    assert rows == rows[..PageLimit] + rows[PageLimit..];
    AllEventsAppend(rows[..PageLimit], rows[PageLimit..], fetch, lib);
    AllEventsKeepRow(rows[PageLimit..], fetch, lib, j - PageLimit);
  }

  lemma {:induction false} AllEventsKeepRow(rows: seq<Row>, fetch: nat -> TxnResponse, lib: AddressLib, j: nat)
    requires j < |rows| && EventOf(rows[j], [fetch(rows[j].version)], lib).Some?
    ensures |AllEvents(rows, fetch, lib)| > 0
  {
    if j > 0 {
      AllEventsKeepRow(rows[1..], fetch, lib, j - 1);
    }
  }
}
