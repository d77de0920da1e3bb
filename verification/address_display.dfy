/** How an address is shown (components/AddressDisplay.tsx): an address
    book name first, then an ANS name, then the address itself. */
module AddressDisplay {
  import opened Base
  import opened AddressBook

  /** The component's props. `address` is the text it was given; the empty
      string is JavaScript-falsy and renders nothing. */
  datatype Props = Props(address: string, truncate: bool, disableAnsName: bool, network: Option<Network>)

  function DefaultProps(address: string): Props {
    Props(address, true, false, None)
  }

  /** The address book key the component looks up. */
  function LookupKey(p: Props, currentNetwork: Option<Network>, lib: AddressLib): (r: Option<(Address, Network)>)
    ensures r.Some? <==> |p.address| > 0 && (p.network.Some? || currentNetwork.Some?)
    ensures r.Some? ==> r.value.0 == lib.from(p.address)
    ensures r.Some? && p.network.Some? ==> r.value.1 == p.network.value
    ensures r.Some? && p.network.None? ==> r.value.1 == currentNetwork.value
  {
    var target := if p.network.Some? then p.network else currentNetwork;
    if |p.address| > 0 && target.Some? then Some((lib.from(p.address), target.value)) else None
  }

  function CustomEntry(p: Props, currentNetwork: Option<Network>, book: Book, lib: AddressLib): Option<Entry> {
    match LookupKey(p, currentNetwork, lib)
    case Some(key) => GetEntry(book, key.0, key.1)
    case None => None
  }

  /** The `enabled` flag of the ANS query. */
  function AnsEnabled(p: Props, customEntry: Option<Entry>): (r: bool)
    ensures r <==> !p.disableAnsName && customEntry.None?
  {
    !p.disableAnsName && customEntry.None?
  }

  /** What is rendered; `None` is nothing. `ansName` answers the ANS query
      for an address. */
  function Display(p: Props, currentNetwork: Option<Network>, book: Book, lib: AddressLib,
                   ansName: Address -> Option<string>): (r: Option<string>)
    ensures |p.address| == 0 ==> r.None?
    ensures var custom := CustomEntry(p, currentNetwork, book, lib);
            custom.Some? ==> r == Some(custom.value.name)
  {
    var custom := CustomEntry(p, currentNetwork, book, lib);
    var ans := if |p.address| > 0 && AnsEnabled(p, custom) then ansName(lib.from(p.address)) else None;
    var displayName := if custom.Some? then Some(custom.value.name) else ans;
    if displayName.Some? then displayName
    else if |p.address| > 0 then
      Some(if p.truncate then lib.truncate(lib.show(lib.from(p.address))) else p.address)
    else None
  }

  /** A name from the address book wins over any ANS name. */
  lemma CustomNameWins(p: Props, net: Option<Network>, book: Book, lib: AddressLib,
                       a1: Address -> Option<string>, a2: Address -> Option<string>)
    requires CustomEntry(p, net, book, lib).Some?
    ensures Display(p, net, book, lib, a1) == Display(p, net, book, lib, a2)
  {
  }

  /** Without an address book entry the ANS name is shown when the lookup is
      allowed and finds one. */
  lemma AnsNameWhenNoCustomName(p: Props, net: Option<Network>, book: Book, lib: AddressLib, ansName: Address -> Option<string>)
    requires |p.address| > 0 && !p.disableAnsName
    requires CustomEntry(p, net, book, lib).None?
    requires ansName(lib.from(p.address)).Some?
    ensures Display(p, net, book, lib, ansName) == ansName(lib.from(p.address))
  {
  }

  /** With no name available the address itself is shown, truncated or raw. */
  lemma FallbackToAddress(p: Props, net: Option<Network>, book: Book, lib: AddressLib, ansName: Address -> Option<string>)
    requires |p.address| > 0
    requires CustomEntry(p, net, book, lib).None?
    requires p.disableAnsName || ansName(lib.from(p.address)).None?
    ensures p.truncate ==> Display(p, net, book, lib, ansName) == Some(lib.truncate(lib.show(lib.from(p.address))))
    ensures !p.truncate ==> Display(p, net, book, lib, ansName) == Some(p.address)
  {
  }
}
