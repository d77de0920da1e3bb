/** Discovery of the multisig accounts an address belongs to
    (hooks/useMultisigDiscoveredAccounts.ts): page through the owner's
    activities and its `create_with_owners` transactions, then fold both
    into an object keyed by normalized account address. */
module DiscoveredAccounts {
  import opened Base
  import opened Paging

  const MultisigAccountType := "0x1::multisig_account::MultisigAccount"

  /** A row of `multisig_owner_activities`, with the ledger version of the
      event. The hook asks for the rows newest first. */
  datatype Activity = Activity(eventType: string, multisigAccount: string, version: nat)

  /** A row of `fetchAccountTransactions`. */
  datatype AccountTransaction = AccountTransaction(transactionVersion: nat)

  /** A creation transaction paired with its committed user transaction. */
  datatype CreationTransaction = CreationTransaction(transaction: AccountTransaction, userTransaction: TxnResponse)

  datatype QueryError = ClientUnavailable | AddressRequired

  /** The `enabled` flag of the query. An empty address is falsy. */
  function QueryEnabled(address: Option<string>, network: Network, optionEnabled: Option<bool>): (r: bool)
    ensures r <==> address.Some? && address.value != "" && network != Devnet && optionEnabled != Some(false)
  {
    address.Some? && address.value != "" && network != Devnet && optionEnabled.GetOr(true)
  }

  // ---------------------------------------------------------------------
  // Creation transactions
  // ---------------------------------------------------------------------

  /** Pairs each row of a page with the first user transaction among the
      page's fetched responses that has the row's version; unpaired rows
      are dropped. */
  function JoinRows(rows: seq<AccountTransaction>, responses: seq<TxnResponse>): (r: seq<CreationTransaction>)
    ensures |r| <= |rows|
    ensures forall c :: c in r ==>
      (c.transaction in rows && c.userTransaction in responses
       && c.userTransaction.kind == UserTxn && c.userTransaction.version == c.transaction.transactionVersion)
  {
    if |rows| == 0 then []
    else
      var rest := JoinRows(rows[1..], responses);
      match FindUserTxn(responses, rows[0].transactionVersion)
      case Some(ut) => [CreationTransaction(rows[0], ut)] + rest
      case None => rest
  }

  /** One page of the creation loop: fetch the transaction of every row,
      then pair. */
  function JoinPage(fetch: nat -> TxnResponse): seq<AccountTransaction> -> seq<CreationTransaction> {
    page => JoinRows(page, MapSeq(page, (t: AccountTransaction) => fetch(t.transactionVersion)))
  }

  /** The reference pairing: a row is kept with the transaction at its own
      version when that is a user transaction. */
  function KeepUserRows(rows: seq<AccountTransaction>, fetch: nat -> TxnResponse): seq<CreationTransaction> {
    if |rows| == 0 then []
    else
      var rest := KeepUserRows(rows[1..], fetch);
      var ut := fetch(rows[0].transactionVersion);
      if ut.kind == UserTxn then [CreationTransaction(rows[0], ut)] + rest else rest
  }

  /** When the ledger answers by version, the page join keeps exactly the
      rows whose own transaction is a user transaction. */
  lemma JoinPageKeepsUserRows(page: seq<AccountTransaction>, fetch: nat -> TxnResponse)
    requires ByVersion(fetch)
    ensures JoinPage(fetch)(page) == KeepUserRows(page, fetch)
  {
    var responses := MapSeq(page, (t: AccountTransaction) => fetch(t.transactionVersion));
    forall x | x in responses
      ensures x == fetch(x.version)
    {
      var i :| 0 <= i < |responses| && responses[i] == x;
      assert x == fetch(page[i].transactionVersion);
    }
    forall t | t in page
      ensures fetch(t.transactionVersion) in responses
    {
      var i :| 0 <= i < |page| && page[i] == t;
      assert responses[i] == fetch(t.transactionVersion);
    }
    JoinRowsSuffix(page, responses, fetch);
  }

  lemma {:induction false} JoinRowsSuffix(rows: seq<AccountTransaction>, responses: seq<TxnResponse>,
                                          fetch: nat -> TxnResponse)
    requires ByVersion(fetch)
    requires forall x :: x in responses ==> x == fetch(x.version)
    requires forall t :: t in rows ==> fetch(t.transactionVersion) in responses
    ensures JoinRows(rows, responses) == KeepUserRows(rows, fetch)
  {
    if |rows| > 0 {
      assert rows[0] in rows;
      FindUserTxnByVersion(responses, fetch, rows[0].transactionVersion);
      assert forall t :: t in rows[1..] ==> t in rows;
      JoinRowsSuffix(rows[1..], responses, fetch);
    }
  }

  function KeepUserRowsOf(fetch: nat -> TxnResponse): seq<AccountTransaction> -> seq<CreationTransaction> {
    rows => KeepUserRows(rows, fetch)
  }

  lemma {:induction false} KeepUserRowsAppend(a: seq<AccountTransaction>, b: seq<AccountTransaction>, fetch: nat -> TxnResponse)
    ensures KeepUserRows(a + b, fetch) == KeepUserRows(a, fetch) + KeepUserRows(b, fetch)
  {
    if |a| == 0 {
      assert a + b == b;
    } else {
      assert (a + b)[1..] == a[1..] + b;
      KeepUserRowsAppend(a[1..], b, fetch);
    }
  }

  /** Across all pages of the creation loop, every creation transaction whose
      own transaction is a user transaction is paired, in order. */
  lemma CreationLoopKeepsUserRows(rows: seq<AccountTransaction>, fetch: nat -> TxnResponse)
    requires ByVersion(fetch)
    ensures FlatMap(Pages(rows, 0), JoinPage(fetch)) == KeepUserRows(rows, fetch)
  {
    var pages := Pages(rows, 0);
    forall i | 0 <= i < |pages|
      ensures JoinPage(fetch)(pages[i]) == KeepUserRowsOf(fetch)(pages[i])
    {
      JoinPageKeepsUserRows(pages[i], fetch);
    }
    FlatMapPointwise(pages, JoinPage(fetch), KeepUserRowsOf(fetch));
    forall a: seq<AccountTransaction>, b: seq<AccountTransaction>
      ensures KeepUserRowsOf(fetch)(a + b) == KeepUserRowsOf(fetch)(a) + KeepUserRowsOf(fetch)(b)
    {
      KeepUserRowsAppend(a, b, fetch);
    }
    FlatMapOfHomomorphism(rows, 0, KeepUserRowsOf(fetch));
    assert rows[0..] == rows;
  }

  // ---------------------------------------------------------------------
  // The fold into discovered accounts
  // ---------------------------------------------------------------------

  /** One assignment to the `discoveredAccounts` object. */
  datatype Write = Put(key: string, hasVoted: bool) | Delete(key: string) | Skip

  /** A write-set change of a creation transaction: a written
      `MultisigAccount` resource records its account. */
  function ChangeWrite(c: Change, lib: AddressLib): (w: Write)
    ensures w.Put? <==> c.WriteResource? && c.dataType == MultisigAccountType
    ensures w.Put? ==> w == Put(lib.normalize(c.address), true)
    ensures !w.Delete?
  {
    if c.WriteResource? && c.dataType == MultisigAccountType then Put(lib.normalize(c.address), true) else Skip
  }

  /** An owner activity: AddOwners records the account, RemoveOwners deletes
      it, Vote records it, anything else is ignored. */
  function ActivityWrite(a: Activity, lib: AddressLib): (w: Write)
    ensures a.eventType in {MultisigEvent("AddOwners"), MultisigEvent("AddOwnersEvent")} <==>
      w == Put(lib.normalize(a.multisigAccount), false)
    ensures a.eventType in {MultisigEvent("RemoveOwners"), MultisigEvent("RemoveOwnersEvent")} <==>
      w == Delete(lib.normalize(a.multisigAccount))
    ensures a.eventType in {MultisigEvent("Vote"), MultisigEvent("VoteEvent")} <==>
      w == Put(lib.normalize(a.multisigAccount), true)
    ensures !w.Skip? ==> w.key == lib.normalize(a.multisigAccount)
  {
    MultisigEventInjective();
    var key := lib.normalize(a.multisigAccount);
    if a.eventType == MultisigEvent("AddOwners") || a.eventType == MultisigEvent("AddOwnersEvent") then Put(key, false)
    else if a.eventType == MultisigEvent("RemoveOwners") || a.eventType == MultisigEvent("RemoveOwnersEvent") then Delete(key)
    else if a.eventType == MultisigEvent("Vote") || a.eventType == MultisigEvent("VoteEvent") then Put(key, true)
    else Skip
  }

  function ChangeWrites(lib: AddressLib): Change -> Write {
    (c: Change) => ChangeWrite(c, lib)
  }

  function ActivityWrites(lib: AddressLib): Activity -> Write {
    (a: Activity) => ActivityWrite(a, lib)
  }

  /** The writes of the creation transactions, transaction by transaction
      and change by change. */
  function CreationWrites(creations: seq<CreationTransaction>, lib: AddressLib): seq<Write> {
    if |creations| == 0 then []
    else
      MapSeq(creations[0].userTransaction.changes, ChangeWrites(lib))
      + CreationWrites(creations[1..], lib)
  }

  /** The whole fold: creation transactions first, then activities. */
  function AllWrites(creations: seq<CreationTransaction>, activities: seq<Activity>, lib: AddressLib): seq<Write> {
    CreationWrites(creations, lib) + MapSeq(activities, ActivityWrites(lib))
  }

  /** A JavaScript object with string keys, as an insertion-ordered list
      of key and `hasVoted` pairs. */
  type Accounts = seq<(string, bool)>

  function KeysOf(m: Accounts): (r: seq<string>)
    ensures |r| == |m|
    ensures forall i :: 0 <= i < |m| ==> r[i] == m[i].0
  {
    if |m| == 0 then [] else [m[0].0] + KeysOf(m[1..])
  }

  /** No key occurs twice. */
  ghost predicate UniqueKeys(m: Accounts) {
    |m| == 0 || (m[0].0 !in KeysOf(m[1..]) && UniqueKeys(m[1..]))
  }

  /** Assigning a property: in place when the key is present, appended
      otherwise. */
  function Assign(m: Accounts, key: string, hasVoted: bool): (r: Accounts)
    ensures key in KeysOf(m) ==> KeysOf(r) == KeysOf(m)
    ensures key !in KeysOf(m) ==> KeysOf(r) == KeysOf(m) + [key]
  {
    if |m| == 0 then [(key, hasVoted)]
    else if m[0].0 == key then [(key, hasVoted)] + m[1..]
    else [m[0]] + Assign(m[1..], key, hasVoted)
  }

  /** The `delete` operator. */
  function Remove(m: Accounts, key: string): (r: Accounts)
    ensures forall x :: x in KeysOf(r) <==> x in KeysOf(m) && x != key
  {
    if |m| == 0 then []
    else
      var rest := Remove(m[1..], key);
      assert KeysOf(m) == [m[0].0] + KeysOf(m[1..]);
      assert m == [m[0]] + m[1..];
      if m[0].0 == key then rest
      else
        var r := [m[0]] + rest;
        assert r[1..] == rest;
        assert KeysOf(r) == [m[0].0] + KeysOf(rest);
        r
  }

  function ApplyWrite(m: Accounts, w: Write): Accounts {
    match w
    case Put(k, v) => Assign(m, k, v)
    case Delete(k) => Remove(m, k)
    case Skip => m
  }

  /** The writes applied in order. */
  function Apply(m: Accounts, ws: seq<Write>): Accounts {
    if |ws| == 0 then m else ApplyWrite(Apply(m, ws[..|ws| - 1]), ws[|ws| - 1])
  }

  /** The fold result: the keys of the final object, in its key order, each
      read back as an address. */
  function DiscoveredKeys(creations: seq<CreationTransaction>, activities: seq<Activity>, lib: AddressLib): seq<string> {
    KeysOf(Apply([], AllWrites(creations, activities, lib)))
  }

  // ---------------------------------------------------------------------
  // The reference fold over a map
  // ---------------------------------------------------------------------

  function RefApply(m: map<string, bool>, ws: seq<Write>): map<string, bool> {
    if |ws| == 0 then m
    else
      var before := RefApply(m, ws[..|ws| - 1]);
      match ws[|ws| - 1]
      case Put(k, v) => before[k := v]
      case Delete(k) => before - {k}
      case Skip => before
  }

  function AsMap(m: Accounts): map<string, bool> {
    if |m| == 0 then map[] else AsMap(m[1..])[m[0].0 := m[0].1]
  }

  lemma {:induction false} AsMapKeys(m: Accounts)
    ensures forall k :: k in AsMap(m) <==> k in KeysOf(m)
  {
    if |m| > 0 {
      AsMapKeys(m[1..]);
      assert KeysOf(m) == [m[0].0] + KeysOf(m[1..]);
    }
  }

  lemma {:induction false} AssignAbstraction(m: Accounts, k: string, v: bool)
    requires UniqueKeys(m)
    ensures UniqueKeys(Assign(m, k, v))
    ensures AsMap(Assign(m, k, v)) == AsMap(m)[k := v]
  {
    if |m| > 0 && m[0].0 != k {
      AssignAbstraction(m[1..], k, v);
      AssignPastHead(m, k, v);
    } else if |m| > 0 {
      var r := Assign(m, k, v);
      assert r[1..] == m[1..];
    }
  }

  lemma AssignPastHead(m: Accounts, k: string, v: bool)
    requires |m| > 0 && m[0].0 != k && UniqueKeys(m)
    requires UniqueKeys(Assign(m[1..], k, v)) && AsMap(Assign(m[1..], k, v)) == AsMap(m[1..])[k := v]
    ensures UniqueKeys(Assign(m, k, v))
    ensures AsMap(Assign(m, k, v)) == AsMap(m)[k := v]
  {
    var rest := Assign(m[1..], k, v);
    var r := [m[0]] + rest;
    assert Assign(m, k, v) == r;
    assert r[1..] == rest;
    HeadStaysNew(m, k, v);
    MapUpdatesCommute(AsMap(m[1..]), k, v, m[0].0, m[0].1);
  }

  /** The head's key is not among the keys after assigning another key. */
  lemma HeadStaysNew(m: Accounts, k: string, v: bool)
    requires |m| > 0 && m[0].0 != k && UniqueKeys(m)
    ensures m[0].0 !in KeysOf(Assign(m[1..], k, v))
  {
    var keys := KeysOf(Assign(m[1..], k, v));
    if k !in KeysOf(m[1..]) {
      assert keys == KeysOf(m[1..]) + [k];
    }
  }

  lemma MapUpdatesCommute(t: map<string, bool>, k: string, v: bool, h: string, hv: bool)
    requires h != k
    ensures t[k := v][h := hv] == t[h := hv][k := v]
  {
  }

  lemma {:induction false} RemoveAbstraction(m: Accounts, k: string)
    requires UniqueKeys(m)
    ensures UniqueKeys(Remove(m, k))
    ensures AsMap(Remove(m, k)) == AsMap(m) - {k}
  {
    if |m| > 0 {
      RemoveAbstraction(m[1..], k);
      if m[0].0 == k {
        RemoveHeadKey(m, k);
      } else {
        KeepHeadKey(m, k);
      }
    }
  }

  lemma RemoveHeadKey(m: Accounts, k: string)
    requires |m| > 0 && m[0].0 == k
    requires UniqueKeys(Remove(m[1..], k)) && AsMap(Remove(m[1..], k)) == AsMap(m[1..]) - {k}
    ensures UniqueKeys(Remove(m, k))
    ensures AsMap(Remove(m, k)) == AsMap(m) - {k}
  {
    var tail := AsMap(m[1..]);
    assert tail[k := m[0].1] - {k} == tail - {k};
  }

  lemma KeepHeadKey(m: Accounts, k: string)
    requires |m| > 0 && m[0].0 != k && UniqueKeys(m)
    requires UniqueKeys(Remove(m[1..], k)) && AsMap(Remove(m[1..], k)) == AsMap(m[1..]) - {k}
    ensures UniqueKeys(Remove(m, k))
    ensures AsMap(Remove(m, k)) == AsMap(m) - {k}
  {
    var rest := Remove(m[1..], k);
    var tail := AsMap(m[1..]);
    var r := [m[0]] + rest;
    assert Remove(m, k) == r;
    assert r[1..] == rest;
    assert m[0].0 !in KeysOf(rest);
    assert (tail - {k})[m[0].0 := m[0].1] == tail[m[0].0 := m[0].1] - {k};
  }

  /** The ordered object and the reference map agree after any writes, and
      the object never holds a key twice. */
  lemma {:induction false} ApplyAbstraction(m: Accounts, ws: seq<Write>)
    requires UniqueKeys(m)
    ensures UniqueKeys(Apply(m, ws))
    ensures AsMap(Apply(m, ws)) == RefApply(AsMap(m), ws)
  {
    if |ws| > 0 {
      ApplyAbstraction(m, ws[..|ws| - 1]);
      var before := Apply(m, ws[..|ws| - 1]);
      match ws[|ws| - 1]
      case Put(k, v) => AssignAbstraction(before, k, v);
      case Delete(k) => RemoveAbstraction(before, k);
      case Skip =>
    }
  }

  lemma {:induction false} DistinctKeys(m: Accounts)
    requires UniqueKeys(m)
    ensures forall i, j :: 0 <= i < j < |m| ==> KeysOf(m)[i] != KeysOf(m)[j]
  {
    if |m| > 0 {
      DistinctKeys(m[1..]);
      forall i, j | 0 <= i < j < |m|
        ensures KeysOf(m)[i] != KeysOf(m)[j]
      {
        if i == 0 {
          assert KeysOf(m[1..])[j - 1] == KeysOf(m)[j];
        } else {
          assert KeysOf(m[1..])[i - 1] == KeysOf(m)[i] && KeysOf(m[1..])[j - 1] == KeysOf(m)[j];
        }
      }
    }
  }

  /** The discovered accounts are exactly the keys of the reference map
      after all writes, each listed once. */
  lemma DiscoveredKeysAreMapKeys(creations: seq<CreationTransaction>, activities: seq<Activity>, lib: AddressLib)
    ensures var ks := DiscoveredKeys(creations, activities, lib);
            && (forall k :: k in ks <==> k in RefApply(map[], AllWrites(creations, activities, lib)))
            && (forall i, j :: 0 <= i < j < |ks| ==> ks[i] != ks[j])
  {
    var ws := AllWrites(creations, activities, lib);
    ApplyAbstraction([], ws);
    AsMapKeys(Apply([], ws));
    DistinctKeys(Apply([], ws));
  }

  // ---------------------------------------------------------------------
  // The last write for an account decides
  // ---------------------------------------------------------------------

  /** Whether the last write for `k` records it (`Some(true)`), deletes it
      (`Some(false)`), or there is none. */
  function LastWriteFor(ws: seq<Write>, k: string): Option<bool> {
    if |ws| == 0 then None
    else match ws[|ws| - 1]
      case Put(key, _) => if key == k then Some(true) else LastWriteFor(ws[..|ws| - 1], k)
      case Delete(key) => if key == k then Some(false) else LastWriteFor(ws[..|ws| - 1], k)
      case Skip => LastWriteFor(ws[..|ws| - 1], k)
  }

  lemma {:induction false} LastWriteWins(m: map<string, bool>, ws: seq<Write>, k: string)
    ensures k in RefApply(m, ws) <==> LastWriteFor(ws, k).GetOr(k in m)
  {
    if |ws| > 0 {
      LastWriteWins(m, ws[..|ws| - 1], k);
    }
  }

  lemma {:induction false} LastWriteOfAppend(a: seq<Write>, b: seq<Write>, k: string)
    ensures LastWriteFor(a + b, k) == if LastWriteFor(b, k).Some? then LastWriteFor(b, k) else LastWriteFor(a, k)
  {
    if |b| > 0 {
      assert (a + b)[..|a + b| - 1] == a + b[..|b| - 1];
      LastWriteOfAppend(a, b[..|b| - 1], k);
    } else {
      assert a + b == a;
    }
  }

  /** Activities are folded after every creation transaction: when the last
      activity in list order that names an account removes it, the account
      is not discovered, whatever the creation transactions wrote; when it
      adds or votes, the account is discovered. */
  lemma LastListedActivityDecides(creations: seq<CreationTransaction>, activities: seq<Activity>, lib: AddressLib, i: nat)
    requires i < |activities|
    requires var key := lib.normalize(activities[i].multisigAccount);
             forall j :: i < j < |activities| ==>
               ActivityWrite(activities[j], lib).Skip? || lib.normalize(activities[j].multisigAccount) != key
    requires ActivityWrite(activities[i], lib) != Skip
    ensures var key := lib.normalize(activities[i].multisigAccount);
            key in DiscoveredKeys(creations, activities, lib) <==> !ActivityWrite(activities[i], lib).Delete?
  {
    var key := lib.normalize(activities[i].multisigAccount);
    var acts := MapSeq(activities, ActivityWrites(lib));
    DiscoveredKeysAreMapKeys(creations, activities, lib);
    LastWriteWins(map[], AllWrites(creations, activities, lib), key);
    LastWriteOfAppend(CreationWrites(creations, lib), acts, key);
    LastWriteAt(acts, i, key);
  }

  // ---------------------------------------------------------------------
  // Activities in time
  // ---------------------------------------------------------------------

  /** `orderBy: [{ version: Order_By.Desc }]`: the rows come newest first. */
  ghost predicate NewestFirst(activities: seq<Activity>) {
    forall i, j :: 0 <= i < j < |activities| ==> activities[i].version >= activities[j].version
  }

  /** Whether activity `j` assigns or deletes the account `key`. */
  predicate Names(a: Activity, key: string, lib: AddressLib) {
    !ActivityWrite(a, lib).Skip? && lib.normalize(a.multisigAccount) == key
  }

  /** As written, with the rows newest first, the OLDEST activity naming an
      account decides whether it is discovered. */
  lemma OldestActivityDecides(creations: seq<CreationTransaction>, activities: seq<Activity>, lib: AddressLib, i: nat)
    requires NewestFirst(activities)
    requires i < |activities| && Names(activities[i], lib.normalize(activities[i].multisigAccount), lib)
    requires forall j :: 0 <= j < |activities| && j != i && Names(activities[j], lib.normalize(activities[i].multisigAccount), lib) ==>
               activities[j].version > activities[i].version
    ensures var key := lib.normalize(activities[i].multisigAccount);
            key in DiscoveredKeys(creations, activities, lib) <==> !ActivityWrite(activities[i], lib).Delete?
  {
    var key := lib.normalize(activities[i].multisigAccount);
    forall j | i < j < |activities|
      ensures ActivityWrite(activities[j], lib).Skip? || lib.normalize(activities[j].multisigAccount) != key
    {
      assert activities[i].version >= activities[j].version;
    }
    LastListedActivityDecides(creations, activities, lib, i);
  }

  /** An owner added at version 1 and removed at version 2 still finds the
      account: the removal is listed first and the older addition wins. */
  lemma RemovedOwnerStaysDiscovered(creations: seq<CreationTransaction>, account: string, lib: AddressLib)
    ensures var activities := [Activity(MultisigEvent("RemoveOwners"), account, 2),
                               Activity(MultisigEvent("AddOwners"), account, 1)];
            NewestFirst(activities) && lib.normalize(account) in DiscoveredKeys(creations, activities, lib)
  {
    var activities := [Activity(MultisigEvent("RemoveOwners"), account, 2),
                       Activity(MultisigEvent("AddOwners"), account, 1)];
    assert ActivityWrite(activities[1], lib) == Put(lib.normalize(account), false);
    LastListedActivityDecides(creations, activities, lib, 1);
  }

  /** An owner removed at version 1 and added again at version 2 loses the
      account: the older removal is folded last. */
  lemma ReaddedOwnerIsLost(creations: seq<CreationTransaction>, account: string, lib: AddressLib)
    ensures var activities := [Activity(MultisigEvent("AddOwners"), account, 2),
                               Activity(MultisigEvent("RemoveOwners"), account, 1)];
            NewestFirst(activities) && lib.normalize(account) !in DiscoveredKeys(creations, activities, lib)
  {
    var activities := [Activity(MultisigEvent("AddOwners"), account, 2),
                       Activity(MultisigEvent("RemoveOwners"), account, 1)];
    assert ActivityWrite(activities[1], lib) == Delete(lib.normalize(account));
    LastListedActivityDecides(creations, activities, lib, 1);
  }

  /** The fold as evidently meant: the activities replayed oldest first. */
  function DiscoveredKeysInTimeOrder(creations: seq<CreationTransaction>, activities: seq<Activity>, lib: AddressLib): seq<string> {
    DiscoveredKeys(creations, Reverse(activities), lib)
  }

  /** With the corrected fold, the LATEST activity naming an account decides
      whether it is discovered. */
  lemma LatestActivityDecides(creations: seq<CreationTransaction>, activities: seq<Activity>, lib: AddressLib, i: nat)
    requires NewestFirst(activities)
    requires i < |activities| && Names(activities[i], lib.normalize(activities[i].multisigAccount), lib)
    requires forall j :: 0 <= j < |activities| && j != i && Names(activities[j], lib.normalize(activities[i].multisigAccount), lib) ==>
               activities[j].version < activities[i].version
    ensures var key := lib.normalize(activities[i].multisigAccount);
            key in DiscoveredKeysInTimeOrder(creations, activities, lib) <==> !ActivityWrite(activities[i], lib).Delete?
  {
    var key := lib.normalize(activities[i].multisigAccount);
    var reversed := Reverse(activities);
    var n := |activities|;
    assert reversed[n - 1 - i] == activities[i];
    forall j | n - 1 - i < j < n
      ensures ActivityWrite(reversed[j], lib).Skip? || lib.normalize(reversed[j].multisigAccount) != key
    {
      var k := n - 1 - j;
      assert reversed[j] == activities[k] && k < i;
      assert activities[k].version >= activities[i].version;
    }
    LastListedActivityDecides(creations, reversed, lib, n - 1 - i);
  }

  /** The last write for `k` is the write at `i` when no later write names `k`. */
  lemma {:induction false} LastWriteAt(ws: seq<Write>, i: nat, k: string)
    requires i < |ws| && !ws[i].Skip?
    requires ws[i].key == k
    requires forall j :: i < j < |ws| ==> ws[j].Skip? || ws[j].key != k
    ensures LastWriteFor(ws, k) == Some(ws[i].Put?)
  {
    if i < |ws| - 1 {
      LastWriteAt(ws[..|ws| - 1], i, k);
    }
  }

  /** A creation transaction that wrote a `MultisigAccount` resource makes
      the account discovered unless a later activity removed it. */
  lemma CreatedAccountIsDiscovered(creations: seq<CreationTransaction>, activities: seq<Activity>, lib: AddressLib,
                                   c: nat, w: nat)
    requires c < |creations| && w < |creations[c].userTransaction.changes|
    requires var ch := creations[c].userTransaction.changes[w];
             ch.WriteResource? && ch.dataType == MultisigAccountType
    requires var key := lib.normalize(creations[c].userTransaction.changes[w].address);
             forall a :: a in activities ==> ActivityWrite(a, lib) != Delete(key)
    ensures lib.normalize(creations[c].userTransaction.changes[w].address) in DiscoveredKeys(creations, activities, lib)
  {
    var key := lib.normalize(creations[c].userTransaction.changes[w].address);
    var cws := CreationWrites(creations, lib);
    var acts := MapSeq(activities, ActivityWrites(lib));
    DiscoveredKeysAreMapKeys(creations, activities, lib);
    LastWriteWins(map[], AllWrites(creations, activities, lib), key);
    LastWriteOfAppend(cws, acts, key);
    NoDeleteMeansRecorded(acts, key);
    CreationWritesRecord(creations, lib, c, w);
  }

  lemma {:induction false} NoDeleteMeansRecorded(ws: seq<Write>, k: string)
    requires forall j :: 0 <= j < |ws| ==> ws[j] != Delete(k)
    ensures LastWriteFor(ws, k) != Some(false)
  {
    if |ws| > 0 {
      NoDeleteMeansRecorded(ws[..|ws| - 1], k);
    }
  }

  lemma {:induction false} CreationWritesRecord(creations: seq<CreationTransaction>, lib: AddressLib, c: nat, w: nat)
    requires c < |creations| && w < |creations[c].userTransaction.changes|
    requires var ch := creations[c].userTransaction.changes[w];
             ch.WriteResource? && ch.dataType == MultisigAccountType
    ensures LastWriteFor(CreationWrites(creations, lib), lib.normalize(creations[c].userTransaction.changes[w].address)) == Some(true)
  {
    var key := lib.normalize(creations[c].userTransaction.changes[w].address);
    var first := MapSeq(creations[0].userTransaction.changes, ChangeWrites(lib));
    var rest := CreationWrites(creations[1..], lib);
    LastWriteOfAppend(first, rest, key);
    CreationWritesNeverDelete(creations[1..], lib);
    NoDeleteMeansRecorded(rest, key);
    assert CreationWrites(creations, lib) == first + rest;
    if c == 0 {
      forall j | 0 <= j < |first|
        ensures !first[j].Delete?
      {
        assert first[j] == ChangeWrite(creations[0].userTransaction.changes[j], lib);
      }
      assert first[w] == ChangeWrite(creations[0].userTransaction.changes[w], lib);
      OnlyPutsRecord(first, w, key);
      assert LastWriteFor(first, key) == Some(true);
      assert LastWriteFor(rest, key) != Some(false);
      if LastWriteFor(rest, key).Some? {
        assert LastWriteFor(rest, key).value;
        assert LastWriteFor(first + rest, key) == LastWriteFor(rest, key);
      }
    } else {
      CreationWritesRecord(creations[1..], lib, c - 1, w);
    }
  }

  lemma {:induction false} CreationWritesNeverDelete(creations: seq<CreationTransaction>, lib: AddressLib)
    ensures forall j :: 0 <= j < |CreationWrites(creations, lib)| ==> !CreationWrites(creations, lib)[j].Delete?
  {
    if |creations| > 0 {
      CreationWritesNeverDelete(creations[1..], lib);
      var first := MapSeq(creations[0].userTransaction.changes, ChangeWrites(lib));
      assert forall j :: 0 <= j < |first| ==> !first[j].Delete?;
    }
  }

  /** In a list of writes without deletions, a put of `k` anywhere makes the
      last write for `k` a put. */
  lemma {:induction false} OnlyPutsRecord(ws: seq<Write>, i: nat, k: string)
    requires i < |ws| && ws[i].Put? && ws[i].key == k
    requires forall j :: 0 <= j < |ws| ==> !ws[j].Delete?
    ensures LastWriteFor(ws, k) == Some(true)
  {
    if i < |ws| - 1 {
      var last := ws[|ws| - 1];
      if last.Skip? || last.key != k {
        OnlyPutsRecord(ws[..|ws| - 1], i, k);
      }
    }
  }

  // ---------------------------------------------------------------------
  // The query function
  // ---------------------------------------------------------------------

  /** The query function. The indexer holds `activityRows` and
      `creationRows`; `fetch` answers `fetchTransaction`. Errors are raised
      before any request. The result's order is the object's key order. */
  method Query(clientAvailable: bool, address: Option<string>,
               activityRows: seq<Activity>, creationRows: seq<AccountTransaction>,
               fetch: nat -> TxnResponse, lib: AddressLib)
    returns (r: Result<seq<Address>, QueryError>, requests: nat)
    ensures !clientAvailable ==> r == Err(ClientUnavailable) && requests == 0
    ensures clientAvailable && address.Some? && address.value != "" ==> r.Ok?
    ensures clientAvailable && (address.None? || address.value == "") ==> r == Err(AddressRequired) && requests == 0
    ensures r.Ok? ==> r.value == MapSeq(DiscoveredKeys(FlatMap(Pages(creationRows, 0), JoinPage(fetch)), activityRows, lib), lib.from)
    ensures r.Ok? ==> requests == |Pages(activityRows, 0)| + |Pages(creationRows, 0)|
    ensures r.Err? ==> requests == 0
  {
    if !clientAvailable {
      return Err(ClientUnavailable), 0;
    }
    if address.None? || address.value == "" {
      return Err(AddressRequired), 0;
    }
    var activities, activityRequests := FetchAll(activityRows, (p: seq<Activity>) => p);
    var creations, creationRequests := FetchAll(creationRows, JoinPage(fetch));
    PagesCoverRows(activityRows, 0);
    assert activityRows[0..] == activityRows;
    r := Ok(MapSeq(DiscoveredKeys(creations, activities, lib), lib.from));
    requests := activityRequests + creationRequests;
  }
}
