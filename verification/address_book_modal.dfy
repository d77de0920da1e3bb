/** The address book dialog (modals/AddressBookModal.tsx): a three-mode
    state machine over the store. Toasts are not modelled; a failed store
    call leaves the dialog as it was. */
module AddressBookModal {
  import opened Base
  import opened AddressBook

  datatype Mode = List | Add | Edit

  /** The dialog's React state together with the store it drives. */
  datatype Modal = Modal(mode: Mode, editing: Option<Entry>, book: Book)

  /** The defaults the edit form is opened with. */
  datatype FormDefaults = FormDefaults(address: Address, name: string)

  /** The one view the dialog renders. */
  datatype View = ListView(entries: seq<Entry>) | AddView | EditView(form: Option<FormDefaults>)

  /** What the user can do in the dialog. `resolved` is the address the
      entry form resolved its input to. */
  datatype Event =
    | OpenAdd
    | StartEdit(entry: Entry)
    | SubmitAdd(resolved: Address, name: string, now: int)
    | SubmitEdit(resolved: Address, name: string, now: int)
    | Delete(entry: Entry)
    | CancelAdd
    | CancelEdit

  function Open(book: Book): (m: Modal)
    ensures m.mode == List && m.editing.None? && m.book == book
  {
    Modal(List, None, book)
  }

  /** The render: exactly one view per mode; the list shows the current
      network's entries only. */
  function Render(m: Modal, network: Network): (v: View)
    ensures v.ListView? <==> m.mode == List
    ensures v.AddView? <==> m.mode == Add
    ensures v.EditView? <==> m.mode == Edit
    ensures v.ListView? ==> forall e :: e in v.entries <==> e in m.book && e.network == network
    ensures v.EditView? ==> (v.form.Some? <==> m.editing.Some?)
  {
    match m.mode
    case List => ListView(EntriesForNetwork(m.book, network))
    case Add => AddView
    case Edit =>
      EditView(match m.editing
               case Some(e) => Some(FormDefaults(e.address, e.name))
               case None => None)
  }

  /** `handleAddEntry`: adds under the current network; on success the
      dialog goes back to the list, on failure nothing changes. */
  function HandleAddEntry(m: Modal, network: Network, resolved: Address, name: string, now: int): (r: Modal)
    ensures HasEntry(m.book, resolved, network) ==> r == m
    ensures !HasEntry(m.book, resolved, network) ==>
      r.mode == List && r.editing == m.editing && GetEntry(r.book, resolved, network) == Some(Entry(resolved, name, network, now, now))
    ensures !HasEntry(m.book, resolved, network) ==> r.book == m.book + [Entry(resolved, name, network, now, now)]
  {
    var added := AddEntry(m.book, NewEntry(resolved, name, network), now);
    if added.Ok? then
      GetAfterAdd(m.book, NewEntry(resolved, name, network), now);
      m.(book := added.value, mode := List)
    else m
  }

  /** `handleEditEntry`: renames the entry being edited, found by its own
      address and network; the form's resolved address plays no part. */
  function HandleEditEntry(m: Modal, resolved: Address, name: string, now: int): (r: Modal)
    ensures m.editing.None? ==> r == m
    ensures m.editing.Some? ==>
      && r.mode == List && r.editing.None?
      && r.book == UpdateEntry(m.book, m.editing.value.address, m.editing.value.network, name, now)
  {
    match m.editing
    case None => m
    case Some(e) => m.(book := UpdateEntry(m.book, e.address, e.network, name, now), mode := List, editing := None)
  }

  /** `handleDeleteEntry`: removes by the entry's own key; the mode stays. */
  function HandleDeleteEntry(m: Modal, entry: Entry): (r: Modal)
    ensures r.mode == m.mode && r.editing == m.editing
    ensures !HasEntry(r.book, entry.address, entry.network)
    ensures forall e :: e in r.book <==> e in m.book && Key(e) != Key(entry)
  {
    m.(book := RemoveEntry(m.book, entry.address, entry.network))
  }

  function Step(m: Modal, network: Network, ev: Event): Modal {
    match ev
    case OpenAdd => m.(mode := Add)
    case StartEdit(e) => m.(editing := Some(e), mode := Edit)
    case SubmitAdd(resolved, name, now) => HandleAddEntry(m, network, resolved, name, now)
    case SubmitEdit(resolved, name, now) => HandleEditEntry(m, resolved, name, now)
    case Delete(e) => HandleDeleteEntry(m, e)
    case CancelAdd => m.(mode := List)
    case CancelEdit => m.(mode := List, editing := None)
  }

  /** Runs a sequence of user events, oldest first. */
  function Run(m: Modal, network: Network, events: seq<Event>): Modal
  {
    if |events| == 0 then m
    else Step(Run(m, network, events[..|events| - 1]), network, events[|events| - 1])
  }

  /** Cancelling returns to the list; cancelling an edit also forgets the
      entry being edited. */
  lemma CancelReturnsToList(m: Modal, network: Network)
    ensures Step(m, network, CancelAdd) == m.(mode := List)
    ensures Step(m, network, CancelEdit) == m.(mode := List, editing := None)
  {
  }

  /** The edit handler ignores the address the form resolved. */
  lemma EditIgnoresResolvedAddress(m: Modal, a: Address, b: Address, name: string, now: int)
    ensures HandleEditEntry(m, a, name, now) == HandleEditEntry(m, b, name, now)
  {
  }

  /** Every dialog event keeps the store's keys unique. */
  lemma StepKeepsKeysUnique(m: Modal, network: Network, ev: Event)
    requires UniqueKeys(m.book)
    ensures UniqueKeys(Step(m, network, ev).book)
  {
    match ev
    case SubmitAdd(resolved, name, now) =>
      AddKeepsKeysUnique(m.book, NewEntry(resolved, name, network), now);
    case SubmitEdit(resolved, name, now) =>
      if m.editing.Some? {
        UpdateKeepsKeysUnique(m.book, m.editing.value.address, m.editing.value.network, name, now);
      }
    case Delete(e) =>
      RemoveKeepsKeysUnique(m.book, e.address, e.network);
    case _ =>
  }

  /** Any session started from a store with unique keys keeps them unique. */
  lemma {:induction false} RunKeepsKeysUnique(m: Modal, network: Network, events: seq<Event>)
    requires UniqueKeys(m.book)
    ensures UniqueKeys(Run(m, network, events).book)
  {
    if |events| > 0 {
      RunKeepsKeysUnique(m, network, events[..|events| - 1]);
      StepKeepsKeysUnique(Run(m, network, events[..|events| - 1]), network, events[|events| - 1]);
    }
  }
}
