/** The persisted address book store (context/useAddressBook.tsx): a list
    of named entries keyed by address and network. `Date.now()` is the `now`
    parameter; persistence and hydration are outside the model. */
module AddressBook {
  import opened Base

  datatype Entry = Entry(address: Address, name: string, network: Network, createdAt: int, updatedAt: int)

  /** The argument of `addEntry`: an entry without its timestamps. */
  datatype NewEntry = NewEntry(address: Address, name: string, network: Network)

  type Book = seq<Entry>

  const DuplicateEntryMessage := "Entry already exists for this address and network"

  /** The key of the store: address and network. */
  function Key(e: Entry): (Address, Network) {
    (e.address, e.network)
  }

  /** The predicate every store operation searches with. */
  predicate IsFor(e: Entry, address: Address, network: Network) {
    Key(e) == (address, network)
  }

  /** The filter condition of `removeEntry`. */
  function Other(address: Address, network: Network): Entry -> bool {
    (e: Entry) => !IsFor(e, address, network)
  }

  /** The filter condition of `getEntriesForNetwork`. */
  function OnNetwork(network: Network): Entry -> bool {
    (e: Entry) => e.network == network
  }

  predicate HasEntry(book: Book, address: Address, network: Network) {
    exists e :: e in book && IsFor(e, address, network)
  }

  /** No two entries share an address on the same network. */
  ghost predicate UniqueKeys(book: Book) {
    DistinctBy(book, Key)
  }

  /** `addEntry`: refuses a second entry for the same key, otherwise appends
      one entry stamped with `now`. */
  function AddEntry(book: Book, entry: NewEntry, now: int): (r: Result<Book, string>)
    ensures r.Err? <==> HasEntry(book, entry.address, entry.network)
    ensures r.Err? ==> r.error == DuplicateEntryMessage
    ensures r.Ok? ==> |r.value| == |book| + 1 && r.value[..|book|] == book
    ensures r.Ok? ==> r.value[|book|] == Entry(entry.address, entry.name, entry.network, now, now)
  {
    if HasEntry(book, entry.address, entry.network) then Err(DuplicateEntryMessage)
    else Ok(book + [Entry(entry.address, entry.name, entry.network, now, now)])
  }

  /** `updateEntry`: renames the entries with the given key. */
  function UpdateEntry(book: Book, address: Address, network: Network, name: string, now: int): (r: Book)
    ensures |r| == |book|
    ensures forall i :: 0 <= i < |book| && !IsFor(book[i], address, network) ==> r[i] == book[i]
    ensures forall i :: 0 <= i < |book| && IsFor(book[i], address, network) ==>
      r[i] == book[i].(name := name, updatedAt := now)
  {
    if |book| == 0 then []
    else
      var head := if IsFor(book[0], address, network) then book[0].(name := name, updatedAt := now) else book[0];
      [head] + UpdateEntry(book[1..], address, network, name, now)
  }

  /** `removeEntry`: keeps, in order, the entries with another key. */
  function RemoveEntry(book: Book, address: Address, network: Network): (r: Book)
    ensures !HasEntry(r, address, network)
    ensures forall e :: e in r <==> e in book && !IsFor(e, address, network)
    ensures IsSubsequence(r, book)
    ensures forall e :: multiset(r)[e] == if IsFor(e, address, network) then 0 else multiset(book)[e]
  {
    FilterIsSubsequence(book, Other(address, network));
    Filter(book, Other(address, network))
  }

  /** `getEntry`: the first entry with the key, if any. */
  function GetEntry(book: Book, address: Address, network: Network): (r: Option<Entry>)
    ensures r.None? <==> !HasEntry(book, address, network)
    ensures r.Some? ==> exists i :: 0 <= i < |book| && book[i] == r.value && IsFor(r.value, address, network)
                          && forall j :: 0 <= j < i ==> !IsFor(book[j], address, network)
  {
    if |book| == 0 then None
    else if IsFor(book[0], address, network) then Some(book[0])
    else
      var r := GetEntry(book[1..], address, network);
      assert r.Some? ==> exists i :: 1 <= i < |book| && book[i] == r.value && IsFor(r.value, address, network)
                          && forall j :: 0 <= j < i ==> !IsFor(book[j], address, network) by {
        if r.Some? {
          var i :| 0 <= i < |book[1..]| && book[1..][i] == r.value && IsFor(r.value, address, network)
                   && forall j :: 0 <= j < i ==> !IsFor(book[1..][j], address, network);
          assert book[i + 1] == r.value;
        }
      }
      r
  }

  /** `getEntriesForNetwork`: the entries of one network, in order. */
  function EntriesForNetwork(book: Book, network: Network): (r: Book)
    ensures forall e :: e in r <==> e in book && e.network == network
    ensures IsSubsequence(r, book)
    ensures forall e :: multiset(r)[e] == if e.network == network then multiset(book)[e] else 0
  {
    FilterIsSubsequence(book, OnNetwork(network));
    Filter(book, OnNetwork(network))
  }

  /** `clearAllEntries`. */
  function ClearAllEntries(): (r: Book)
    ensures |r| == 0
  {
    []
  }

  // ---------------------------------------------------------------------
  // The key stays unique
  // ---------------------------------------------------------------------

  lemma AddKeepsKeysUnique(book: Book, entry: NewEntry, now: int)
    requires UniqueKeys(book)
    ensures AddEntry(book, entry, now).Ok? ==> UniqueKeys(AddEntry(book, entry, now).value)
  {
    var r := AddEntry(book, entry, now);
    if r.Ok? {
      var b := r.value;
      forall i, j | 0 <= i < j < |b|
        ensures Key(b[i]) != Key(b[j])
      {
        if j == |book| {
          assert b[i] in book && !IsFor(b[i], entry.address, entry.network);
        } else {
          assert b[i] == book[i] && b[j] == book[j];
        }
      }
    }
  }

  lemma UpdateKeepsKeysUnique(book: Book, address: Address, network: Network, name: string, now: int)
    requires UniqueKeys(book)
    ensures UniqueKeys(UpdateEntry(book, address, network, name, now))
  {
    var r := UpdateEntry(book, address, network, name, now);
    forall i, j | 0 <= i < j < |r|
      ensures Key(r[i]) != Key(r[j])
    {
      assert r[i].address == book[i].address && r[i].network == book[i].network;
      assert r[j].address == book[j].address && r[j].network == book[j].network;
    }
  }

  lemma RemoveKeepsKeysUnique(book: Book, address: Address, network: Network)
    requires UniqueKeys(book)
    ensures UniqueKeys(RemoveEntry(book, address, network))
  {
    FilterKeepsDistinct(book, Other(address, network), Key);
  }

  /** The same address may be recorded once per network. */
  lemma SameAddressOnTwoNetworks(address: Address, a: Network, b: Network, now: int)
    requires a != b
    ensures var first := AddEntry([], NewEntry(address, "a", a), now);
            first.Ok? && AddEntry(first.value, NewEntry(address, "b", b), now).Ok?
  {
    var first := AddEntry([], NewEntry(address, "a", a), now).value;
    assert first == [Entry(address, "a", a, now, now)];
  }

  // ---------------------------------------------------------------------
  // Lookups after the store operations
  // ---------------------------------------------------------------------

  /** After a successful add, looking the key up finds the new entry. */
  lemma GetAfterAdd(book: Book, entry: NewEntry, now: int)
    requires AddEntry(book, entry, now).Ok?
    ensures GetEntry(AddEntry(book, entry, now).value, entry.address, entry.network)
         == Some(Entry(entry.address, entry.name, entry.network, now, now))
  {
    var b := AddEntry(book, entry, now).value;
    assert b[|book|] in b;
    var r := GetEntry(b, entry.address, entry.network);
    var i :| 0 <= i < |b| && b[i] == r.value && IsFor(r.value, entry.address, entry.network)
             && forall j :: 0 <= j < i ==> !IsFor(b[j], entry.address, entry.network);
    if i < |book| {
      assert b[i] in book;
    }
  }

  /** After an update of an existing key, the entry found under the key has
      the new name and time and keeps its creation time. */
  lemma {:induction false} GetAfterUpdate(book: Book, address: Address, network: Network, name: string, now: int)
    requires GetEntry(book, address, network).Some?
    ensures var found := GetEntry(book, address, network).value;
            GetEntry(UpdateEntry(book, address, network, name, now), address, network)
              == Some(found.(name := name, updatedAt := now))
  {
    var u := UpdateEntry(book, address, network, name, now);
    if !IsFor(book[0], address, network) {
      GetAfterUpdate(book[1..], address, network, name, now);
      assert u[1..] == UpdateEntry(book[1..], address, network, name, now);
    }
  }

  /** After a removal nothing is found under the key, and entries of other
      keys are still found. */
  lemma GetAfterRemove(book: Book, address: Address, network: Network, other: Address, otherNetwork: Network)
    requires !(other == address && otherNetwork == network)
    ensures GetEntry(RemoveEntry(book, address, network), address, network).None?
    ensures GetEntry(RemoveEntry(book, address, network), other, otherNetwork).Some?
        <==> GetEntry(book, other, otherNetwork).Some?
  {
    var r := RemoveEntry(book, address, network);
    if HasEntry(book, other, otherNetwork) {
      var e :| e in book && IsFor(e, other, otherNetwork);
      assert e in r;
    }
  }
}
