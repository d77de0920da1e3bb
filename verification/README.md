# Petra Vault core, modelled in Dafny

Petra Vault is a web front end for Aptos multisig accounts ("vaults"). This
project models the logic at its centre, not its rendering:

- the tagged envelope in which raw transactions are serialized
  (`RawTxn`);
- the address book of named addresses, one name per address per network,
  and the dialog that edits it (`AddressBook`, `AddressBookModal`,
  `AddressBookEntryForm`);
- how an address is displayed: custom name first, then the ANS name, then
  the (truncated) address (`AddressDisplay`);
- discovery of the vaults an address belongs to, from creation
  transactions and owner activities fetched page by page from the indexer
  (`DiscoveredAccounts`, `Paging`). The activities are folded in the order
  the indexer returns them, newest first;
- the execution history of a vault, read from the indexer as an infinite
  query (`ExecutionEvents`);
- one pending transaction row: owner votes, whether the threshold is met,
  and its label and badges (`PendingTransactionRow`);
- the forms that propose a new owner (`AddOwnerProposalForm`), change the
  threshold (`UpdateSignaturesRequiredForm`) and fill in entry-function
  arguments (`ProposalArgumentsForm`);
- the server-clock correction (`ServerTime`).

Code that the model cannot see becomes a parameter:
- the BCS codec, a `Bcs` value whose round-trip law is a ghost predicate;
- address parsing and printing, an `AddressLib` value;
- ANS lookups, the ledger's transaction fetch, the payload deserializer and
  the zod schema of a Move type, function-valued parameters;
- `Date.now()` readings and the server's reply, plain values.

The indexer's tables are fixed lists of rows, and a page is a slice of them.
A JavaScript object used as an ordered set of keys is an insertion-ordered
association list. It is related to a plain `map` by an abstraction lemma.

Shared vocabulary lives in `base.dfy`:
- `Option`, `Result`, addresses, networks and ledger responses;
- the multisig event names;
- filtering and subsequences;
- decimal digit strings.

## Model

| member | source | states |
|---|---|---|
| RawTxn.ClassifyFields | packages/wallet-api/src/serialization/rawTxn.ts:52-61 | The `in` tests run in order: a fee payer address gives the fee-payer tag, otherwise secondary signers give the multi-agent tag, otherwise a chain id gives the plain tag. With none of the three fields the call fails with "Invalid raw transaction type". |
| RawTxn.SerializeRawTransaction | packages/wallet-api/src/serialization/rawTxn.ts:48-62 | Serialization always succeeds for the three shapes. The tag is that of the shape and the value is the BCS encoding of the whole transaction. |
| RawTxn.DeserializeRawTransaction | packages/wallet-api/src/serialization/rawTxn.ts:77-96 | An unknown tag fails with "Invalid raw transaction type". The plain tag decodes a bare raw transaction. Both other tags decode a transaction with data. A decode failure is an error. |
| RawTxn.ClassificationMatchesShape | packages/wallet-api/src/serialization/rawTxn.ts:48-62 | Every SDK shape is classified by its own constructor. A fee-payer transaction also has secondary signers, yet it gets the fee-payer tag. |
| RawTxn.RoundTrip | packages/wallet-api/src/serialization/rawTxn.ts:48-96 | With a lawful BCS codec, deserializing the serialized envelope gives back every transaction unchanged, signer list included. |
| RawTxn.ResultShapeFollowsTag | packages/wallet-api/src/serialization/rawTxn.ts:25-40 | A successful decode gives a bare transaction exactly when the tag is `raw_txn`, as the overloads promise. |
| RawTxn.WithDataTagIsOnlyCast | packages/wallet-api/src/serialization/rawTxn.ts:82-91 | The two with-data tags decode identically, because the tag is only a type cast. A multi-agent encoding under the fee-payer tag comes back multi-agent. |
| AddressBook.AddEntry | apps/web/context/useAddressBook.tsx:37-57 | Adding fails exactly when the (address, network) pair is already present, with the duplicate message. Otherwise the entry is appended with both timestamps set to now and the earlier entries are kept. |
| AddressBook.UpdateEntry | apps/web/context/useAddressBook.tsx:59-67 | Only the entries for the given address and network are renamed, with their update time set to now. The length and every other entry are unchanged. |
| AddressBook.RemoveEntry | apps/web/context/useAddressBook.tsx:69-76 | The result has no entry for the pair. It keeps every other entry, with its multiplicity and in order. |
| AddressBook.GetEntry | apps/web/context/useAddressBook.tsx:78-83 | The lookup finds an entry exactly when the book has one for the pair, and what it finds is an entry of the book for that pair. |
| AddressBook.EntriesForNetwork | apps/web/context/useAddressBook.tsx:85-87 | The result holds exactly the entries of the network, in the book's order, each as often as in the book. |
| AddressBook.ClearAllEntries | apps/web/context/useAddressBook.tsx:91 | The book is emptied. |
| AddressBook.AddKeepsKeysUnique | apps/web/context/useAddressBook.tsx:37-57 | Adding keeps every (address, network) pair unique. |
| AddressBook.UpdateKeepsKeysUnique | apps/web/context/useAddressBook.tsx:59-67 | Renaming keeps the pairs unique. |
| AddressBook.RemoveKeepsKeysUnique | apps/web/context/useAddressBook.tsx:69-76 | Removing keeps the pairs unique. |
| AddressBook.SameAddressOnTwoNetworks | apps/web/context/useAddressBook.tsx:37-47 | One address can be named on two networks. The duplicate check is per network. |
| AddressBook.GetAfterAdd | apps/web/context/useAddressBook.tsx:37-83 | After a successful add, looking up the pair finds the new entry. |
| AddressBook.GetAfterUpdate | apps/web/context/useAddressBook.tsx:59-83 | After an update, looking up the pair finds the entry found before, with the new name and update time. |
| AddressBook.GetAfterRemove | apps/web/context/useAddressBook.tsx:69-83 | After a remove, the pair is gone. Every other pair is found exactly when it was found before. |
| AddressBookModal.Open | apps/web/components/modals/AddressBookModal.tsx:36-37 | The dialog opens in list mode with nothing being edited. |
| AddressBookModal.Render | apps/web/components/modals/AddressBookModal.tsx:212-218 | Exactly one view shows per mode. The list shows the current network's entries. The edit view has defaults exactly when an entry is being edited. |
| AddressBookModal.HandleAddEntry | apps/web/components/modals/AddressBookModal.tsx:41-53 | A duplicate leaves the dialog unchanged. Otherwise the book is the old book with the new entry appended, the entry can be looked up, and the dialog returns to the list. |
| AddressBookModal.HandleEditEntry | apps/web/components/modals/AddressBookModal.tsx:55-66 | The entry being edited is renamed under its own address and network, the dialog returns to the list, and nothing stays selected. With nothing selected, nothing happens. |
| AddressBookModal.HandleDeleteEntry | apps/web/components/modals/AddressBookModal.tsx:68-75 | The entry's pair is removed and every other entry is kept. The mode and the selection stay. |
| AddressBookModal.CancelReturnsToList | apps/web/components/modals/AddressBookModal.tsx:168-204 | Cancelling an add or an edit returns to the list. Cancelling an edit also clears the selection. |
| AddressBookModal.EditIgnoresResolvedAddress | apps/web/components/modals/AddressBookModal.tsx:55-66 | Editing ignores the address the form resolved, so an entry's address cannot be changed. |
| AddressBookModal.StepKeepsKeysUnique | apps/web/components/modals/AddressBookModal.tsx:41-75 | Every dialog event keeps the book's pairs unique. |
| AddressBookModal.RunKeepsKeysUnique | apps/web/components/modals/AddressBookModal.tsx:41-75 | Any sequence of dialog events keeps the book's pairs unique. |
| AddressBookEntryForm.Issues | apps/web/components/forms/AddressBookEntryForm.tsx:22-31 | The form is valid exactly when the address is non-empty and the name is non-empty, at most 50 characters, and made of letters, digits, whitespace, `-` and `_`. The address-required, too-long and bad-characters messages each appear exactly when their rule fails. |
| AddressBookEntryForm.HandleSubmit | apps/web/components/forms/AddressBookEntryForm.tsx:63-86 | An account address is submitted without a lookup. Otherwise the ANS name is resolved: a miss sets "Unable to resolve ANS name" and a thrown lookup sets "Invalid address or ANS name". The typed values are passed on unchanged, and validation always ends. |
| AddressBookEntryForm.Submit | apps/web/components/forms/AddressBookEntryForm.tsx:22-86 | Invalid values are reported with the schema's issues and never reach the handler. Valid values end exactly as `handleSubmit` ends for them. Submitted names always satisfy the name rules. |
| AddressBookEntryForm.AddressNeedsNoLookup | apps/web/components/forms/AddressBookEntryForm.tsx:68-69 | For an account address, the ANS lookup plays no part. |
| AddressDisplay.LookupKey | apps/web/components/AddressDisplay.tsx:26-32 | The book is consulted exactly when the address is non-empty and some network is known. The prop's network takes precedence over the current one. |
| AddressDisplay.AnsEnabled | apps/web/components/AddressDisplay.tsx:34-38 | The ANS query runs exactly when it is not disabled and the book has no entry. |
| AddressDisplay.Display | apps/web/components/AddressDisplay.tsx:40-50 | An empty address shows nothing. A name from the book, when there is one, is what shows. |
| AddressDisplay.CustomNameWins | apps/web/components/AddressDisplay.tsx:30-40 | With a book entry, the ANS answer does not matter. |
| AddressDisplay.AnsNameWhenNoCustomName | apps/web/components/AddressDisplay.tsx:34-40 | Without a book entry and with ANS enabled, a found ANS name is shown. |
| AddressDisplay.FallbackToAddress | apps/web/components/AddressDisplay.tsx:44-49 | Without a name, the address shows, truncated from its canonical form or verbatim. |
| ServerTime.ServerTimeDelta | apps/web/lib/serverTime.ts:10-44 | The call fails on a non-ok reply and on a body that is not 13 digits, each with its message. Otherwise the delta is the server time minus the midpoint of the two client readings. It is refused exactly when it exceeds one day either way. |
| ServerTime.TimestampBound | apps/web/lib/serverTime.ts:27-33 | A 13-digit body denotes a time below 10^13 ms. |
| ServerTime.SynchronizeTime | apps/web/lib/serverTime.ts:52-60 | A successful fetch stores the delta. A failure keeps the previous one and rethrows exactly outside production. The stored delta stays within a day. |
| ServerTime.GetServerTime | apps/web/lib/serverTime.ts:68-70 | Without a delta the result is the local clock. With one, it is the local clock plus the delta. |
| ServerTime.SynchronizedTimeIsClose | apps/web/lib/serverTime.ts:52-70 | After a successful synchronisation, the server time is within a day of the local clock. |
| DiscoveredAccounts.QueryEnabled | apps/web/hooks/useMultisigDiscoveredAccounts.ts:47-51 | The query runs exactly for a non-empty address off devnet, unless it is switched off. |
| DiscoveredAccounts.JoinPageKeepsUserRows | apps/web/hooks/useMultisigDiscoveredAccounts.ts:125-148 | When the ledger answers by version, one page's join keeps exactly the rows whose own transaction is a user transaction, paired with it, in order. |
| DiscoveredAccounts.CreationLoopKeepsUserRows | apps/web/hooks/useMultisigDiscoveredAccounts.ts:102-149 | Over all pages, the creation loop keeps exactly the rows with a user transaction, in order. |
| DiscoveredAccounts.ChangeWrite | apps/web/hooks/useMultisigDiscoveredAccounts.ts:159-172 | A change records its account exactly when it writes a `MultisigAccount` resource. Changes never delete. |
| DiscoveredAccounts.ActivityWrite | apps/web/hooks/useMultisigDiscoveredAccounts.ts:176-209 | Added owners record the account, removed owners delete it, and votes mark it voted. Each holds for both event spellings and for no other event. |
| DiscoveredAccounts.Assign | apps/web/hooks/useMultisigDiscoveredAccounts.ts:167-205 | A present key keeps its place. A new key is appended. |
| DiscoveredAccounts.Remove | apps/web/hooks/useMultisigDiscoveredAccounts.ts:192-196 | `delete` removes exactly that key. |
| DiscoveredAccounts.ApplyAbstraction | apps/web/hooks/useMultisigDiscoveredAccounts.ts:159-209 | The ordered object and a plain map agree after any sequence of writes, and keys stay unique. |
| DiscoveredAccounts.DiscoveredKeysAreMapKeys | apps/web/hooks/useMultisigDiscoveredAccounts.ts:159-213 | The returned accounts are exactly the keys of the reference map, each listed once. |
| DiscoveredAccounts.LastWriteWins | apps/web/hooks/useMultisigDiscoveredAccounts.ts:159-209 | A key is present after the writes exactly when its last write records it, or, with no write, when it was present before. |
| DiscoveredAccounts.LastListedActivityDecides | apps/web/hooks/useMultisigDiscoveredAccounts.ts:176-213 | The activity that comes last in the list among those naming an account decides whether it is returned, whatever the creation transactions wrote. |
| DiscoveredAccounts.OldestActivityDecides | apps/web/hooks/useMultisigDiscoveredAccounts.ts:176-209 | As written, with the rows requested newest first (line 83), the oldest activity naming an account decides whether it is returned. |
| DiscoveredAccounts.RemovedOwnerStaysDiscovered | apps/web/hooks/useMultisigDiscoveredAccounts.ts:176-209 | As written, an owner added at version 1 and removed at version 2 still gets the account. |
| DiscoveredAccounts.ReaddedOwnerIsLost | apps/web/hooks/useMultisigDiscoveredAccounts.ts:176-209 | As written, an owner removed at version 1 and added again at version 2 does not get the account. |
| DiscoveredAccounts.LatestActivityDecides | apps/web/hooks/useMultisigDiscoveredAccounts.ts:176-209 | Corrected: with the activities replayed oldest first, the latest activity naming an account decides whether it is returned. |
| DiscoveredAccounts.CreatedAccountIsDiscovered | apps/web/hooks/useMultisigDiscoveredAccounts.ts:159-213 | An account created in a fetched transaction is returned unless a later activity removes an owner from it. |
| DiscoveredAccounts.Query | apps/web/hooks/useMultisigDiscoveredAccounts.ts:57-213 | A missing client or address is an error, with no requests made. Otherwise the query succeeds: all pages of both tables are fetched, one request per page, and the result is the fold's keys as addresses. |
| ExecutionEvents.Enabled | apps/web/hooks/useMultisigExecutionEvents.ts:57-59 | Only devnet, or an explicit `enabled: false`, switches the query off. |
| ExecutionEvents.StatusOf | apps/web/hooks/useMultisigExecutionEvents.ts:114-133 | Each status comes exactly from its two event names. Any other event has no status. |
| ExecutionEvents.CountIfTruthy | apps/web/hooks/useMultisigExecutionEvents.ts:141-146 | A count of zero and a missing count both become absent. |
| ExecutionEvents.EventOf | apps/web/hooks/useMultisigExecutionEvents.ts:96-150 | A row yields an event exactly when its version has a user transaction among the responses and its type has a status. The event carries that transaction with its sender rewritten to its canonical address text. |
| ExecutionEvents.Events | apps/web/hooks/useMultisigExecutionEvents.ts:95-153 | Every event comes from a row, and every row that yields an event contributes it. |
| ExecutionEvents.EventsFollowKeptRows | apps/web/hooks/useMultisigExecutionEvents.ts:95-153 | The events' versions are those of the kept rows, in the rows' order. |
| ExecutionEvents.EventsCountKeptRows | apps/web/hooks/useMultisigExecutionEvents.ts:95-153 | There is one event per kept row. |
| ExecutionEvents.EventsAreSubsequence | apps/web/hooks/useMultisigExecutionEvents.ts:95-153 | The event versions are an order-preserving subsequence of the row versions. |
| ExecutionEvents.QueryPage | apps/web/hooks/useMultisigExecutionEvents.ts:67-153 | With no indexer client the page is empty. Otherwise it holds the events of one page of rows, at most 100. |
| ExecutionEvents.NextPageParam | apps/web/hooks/useMultisigExecutionEvents.ts:156-159 | As written, paging continues exactly after exactly 100 events, to the offset plus 100. |
| ExecutionEvents.NextPageParamForRows | apps/web/hooks/useMultisigExecutionEvents.ts:156-159 | Corrected: paging continues exactly after a full page of 100 rows, advanced by the rows received. |
| ExecutionEvents.PageEventsAreAllEvents | apps/web/hooks/useMultisigExecutionEvents.ts:86-153 | When the ledger answers by version, a page's events are those of the reference definition, each row with its own transaction. |
| ExecutionEvents.WalkCorrectedShowsAll | apps/web/hooks/useMultisigExecutionEvents.ts:86-159 | With the corrected rule, the pages loaded together show every event of every row. |
| ExecutionEvents.WalkAsWrittenStopsEarly | apps/web/hooks/useMultisigExecutionEvents.ts:95-159 | As written, if some row among the first 100 yields no event, only the first page's events are ever shown. |
| ExecutionEvents.LaterEventIsLost | apps/web/hooks/useMultisigExecutionEvents.ts:95-159 | As written, such a row followed by any event past the first page shows fewer events than the corrected walk. |
| PendingTransactionRow.VotesByOwners | apps/web/components/PendingTransactionRow.tsx:45-51 | The counted votes are the approvals by current owners, compared as account addresses, with their multiplicity. None are counted before the owners load. |
| PendingTransactionRow.SameOwnersSameVotes | apps/web/components/PendingTransactionRow.tsx:45-51 | Two owner lists naming the same accounts, in any order or spelling, count the same votes. |
| PendingTransactionRow.AllOwnersAllCount | apps/web/components/PendingTransactionRow.tsx:45-51 | When every approver is listed as an owner, every approval counts. |
| PendingTransactionRow.HasEnoughApprovals | apps/web/components/PendingTransactionRow.tsx:53-56 | The threshold is met exactly when it is known and the votes reach it. |
| PendingTransactionRow.MoreVotesStillEnough | apps/web/components/PendingTransactionRow.tsx:53-56 | More votes never lose a met threshold. |
| PendingTransactionRow.Label | apps/web/components/PendingTransactionRow.tsx:58-82 | A hash-only transaction is "Hashed Transaction". An empty or undecodable payload is "Unsupported Transaction". Otherwise the label is the entry function's display name. |
| PendingTransactionRow.ApprovalsBadgeFor | apps/web/components/PendingTransactionRow.tsx:109-117 | There is no badge without a threshold. A threshold of 0 renders as text. Otherwise the badge shows the votes and the threshold and is green exactly when met. |
| PendingTransactionRow.Render | apps/web/components/PendingTransactionRow.tsx:78-117 | The row shows its label and the Next badge, and the sequence number exactly when asked. The approvals badge is the one for the owner votes and the threshold, and its vote count never exceeds the approvals. |
| AddOwnerProposalForm.AddressIssues | apps/web/components/forms/AddOwnerProposalForm.tsx:29-35 | The address is accepted exactly when it is a non-empty account address or ends in ".apt". Otherwise the first alternative's issues are reported. |
| AddOwnerProposalForm.IsListedOwner | apps/web/components/forms/AddOwnerProposalForm.tsx:59-62 | An address is an owner exactly when its text equals the vault's or some owner's. |
| AddOwnerProposalForm.Issues | apps/web/components/forms/AddOwnerProposalForm.tsx:28-62 | The form is valid exactly when the address passes, the name is non-empty, the threshold is at least 1 and the address is not listed. Each message appears exactly when its rule fails. |
| AddOwnerProposalForm.ResolveAddress | apps/web/components/forms/AddOwnerProposalForm.tsx:77-86 | A ".apt" name is replaced by the address it resolves to. A miss gives "Unable to resolve Aptos name" and a thrown lookup keeps its message. Any other address is kept. |
| AddOwnerProposalForm.Mutate | apps/web/components/forms/AddOwnerProposalForm.tsx:73-101 | The resolved values are validated again. The mutation succeeds exactly when they are valid and otherwise throws the first issue's message. |
| AddOwnerProposalForm.Submit | apps/web/components/forms/AddOwnerProposalForm.tsx:73-106 | Invalid typed values are shown as issues. Valid values are submitted exactly when the mutation succeeds, with the mutation's values, and are otherwise rejected with its message. Submitted values are never a listed owner, have a name, and have a threshold of at least 1. |
| AddOwnerProposalForm.FallbackNeverThrown | apps/web/components/forms/AddOwnerProposalForm.tsx:88-99 | The fallback message is never thrown, because a failed parse always has an issue. |
| AddOwnerProposalForm.AddressPassesThrough | apps/web/components/forms/AddOwnerProposalForm.tsx:73-106 | Valid values with an account address are submitted unchanged. |
| AddOwnerProposalForm.ResolvedOwnerIsRefused | apps/web/components/forms/AddOwnerProposalForm.tsx:77-99 | A name that resolves to a listed owner is refused after the lookup with "Address is already an owner". |
| AddOwnerProposalForm.OwnerCheckIsTextual | apps/web/components/forms/AddOwnerProposalForm.tsx:59-62 | Another spelling of an owner's account passes the owner check. |
| AddOwnerProposalForm.SignatureOptions | apps/web/components/forms/AddOwnerProposalForm.tsx:173-177 | The choices are "1" up to one more than the owner count, in order. |
| AddOwnerProposalForm.DefaultValues | apps/web/components/forms/AddOwnerProposalForm.tsx:64-71 | The form starts empty, at the current threshold. |
| AddOwnerProposalForm.DefaultsAreRefused | apps/web/components/forms/AddOwnerProposalForm.tsx:28-71 | Submitting the defaults is refused with "Address is required". |
| UpdateSignaturesRequiredForm.Coerce | apps/web/components/forms/UpdateSignaturesRequiredForm.tsx:22-26 | A number coerces to itself and a digit string to its value. |
| UpdateSignaturesRequiredForm.Parse | apps/web/components/forms/UpdateSignaturesRequiredForm.tsx:22-26 | The field parses exactly when it coerces to at least 1. Otherwise it fails with the NaN message or the "greater than 0" message. |
| UpdateSignaturesRequiredForm.Options | apps/web/components/forms/UpdateSignaturesRequiredForm.tsx:74-78 | There is one choice per owner, and choice i parses to i + 1. |
| UpdateSignaturesRequiredForm.SubmitDisabledAsWritten | apps/web/components/forms/UpdateSignaturesRequiredForm.tsx:94-96 | As written, the button is disabled exactly while the field still holds the current threshold as a number. |
| UpdateSignaturesRequiredForm.SubmitDisabled | apps/web/components/forms/UpdateSignaturesRequiredForm.tsx:94-96 | Corrected: the button is disabled exactly while the field's value coerces to the current threshold. |
| UpdateSignaturesRequiredForm.InitiallyDisabled | apps/web/components/forms/UpdateSignaturesRequiredForm.tsx:41-46 | The untouched form has its button disabled under both rules. |
| UpdateSignaturesRequiredForm.ReselectingCurrentEnablesSubmit | apps/web/components/forms/UpdateSignaturesRequiredForm.tsx:64-96 | As written, re-selecting the current threshold enables the button, and the form then parses to the current value. |
| UpdateSignaturesRequiredForm.CorrectedDisablesOnlyCurrent | apps/web/components/forms/UpdateSignaturesRequiredForm.tsx:74-96 | Corrected: a choice disables the button exactly when it is the current threshold. |
| UpdateSignaturesRequiredForm.CorrectedSubmitChanges | apps/web/components/forms/UpdateSignaturesRequiredForm.tsx:22-96 | Corrected: every submission the button allows proposes a different threshold. |
| ProposalArgumentsForm.VectorMaximumDepthIsNesting | apps/web/components/forms/CreateProposalArgumentsForm.tsx:114-125 | `getTypeTagVectorMaximumDepth` counts the vectors nested inside the outer one, plus the starting depth. |
| ProposalArgumentsForm.VectorDepthExamples | apps/web/components/forms/CreateProposalArgumentsForm.tsx:214-217 | As called, `vector<u8>` allows depth 0 and `vector<vector<u8>>` allows depth 1. |
| ProposalArgumentsForm.InputDisabled | apps/web/components/forms/CreateProposalArgumentsForm.tsx:234 | A plain input is disabled exactly when it holds "Option::none". |
| ProposalArgumentsForm.InputFor | apps/web/components/forms/CreateProposalArgumentsForm.tsx:198-236 | A vector parameter gets an array input with its nesting depth. Every other parameter gets a plain input, disabled exactly when it holds "Option::none", whatever the form's `disabled` prop. |
| ProposalArgumentsForm.TypeArgumentInput | apps/web/components/forms/CreateProposalArgumentsForm.tsx:153-167 | A type-argument input is disabled exactly when the form is. |
| ProposalArgumentsForm.DisabledFormKeepsArgumentsEditable | apps/web/components/forms/CreateProposalArgumentsForm.tsx:153-236 | A disabled form disables its type arguments, but renders every function-argument input as an enabled form would. |
| ProposalArgumentsForm.FunctionArgumentIssues | apps/web/components/forms/CreateProposalArgumentsForm.tsx:51-80 | Too few arguments abort with one issue. Too many adds an issue. Each argument up to the parameter count is flagged exactly when its type rejects it. Valid means the exact count with every argument accepted. |
| ProposalArgumentsForm.TypeArgumentIssues | apps/web/components/forms/CreateProposalArgumentsForm.tsx:51-80 | The same rules apply to type arguments, one non-empty string per type parameter. |
| ProposalArgumentsForm.Issues | apps/web/components/forms/CreateProposalArgumentsForm.tsx:51-80 | The form is valid exactly when both tuples are. |
| ProposalArgumentsForm.DefaultValues | apps/web/components/forms/CreateProposalArgumentsForm.tsx:82-98 | The caller's lists are used when given. Otherwise there is one generated default per parameter and one empty string per type parameter. |
| ProposalArgumentsForm.GeneratedDefaultsHaveShape | apps/web/components/forms/CreateProposalArgumentsForm.tsx:82-98 | Generated defaults have the right counts. With a type parameter they are not yet valid. |
| ProposalArgumentsForm.UpdateArgument | apps/web/components/forms/CreateProposalArgumentsForm.tsx:225-233 | Exactly one argument is replaced and nothing else changes. |
| ProposalArgumentsForm.UpdateTypeArgument | apps/web/components/forms/CreateProposalArgumentsForm.tsx:158-166 | Exactly one type argument is replaced and nothing else changes. |
| ProposalArgumentsForm.AcceptedEditKeepsValid | apps/web/components/forms/CreateProposalArgumentsForm.tsx:51-80 | Editing a valid form with a value the parameter's type accepts keeps it valid. |
| ProposalArgumentsForm.NamedTypeArgumentsValid | apps/web/components/forms/CreateProposalArgumentsForm.tsx:51-80 | Naming every type argument makes the type tuple valid. |
| ProposalArgumentsForm.Toggle | apps/web/components/forms/CreateProposalArgumentsForm.tsx:237-251 | Switching the Option on writes the "none" value. Switching it off clears the input. |
| ProposalArgumentsForm.ToggleControlsInput | apps/web/components/forms/CreateProposalArgumentsForm.tsx:234-251 | Switching off always re-enables the input. Switching on disables it when the app's "none" value is "Option::none". |
| Base.MultisigEventInjective | apps/web/lib/constants.ts:7 | Distinct event names give distinct fully qualified multisig event types. |

## Left out

- The BCS layout of a raw transaction is not modelled. Serialization is a parameter that must satisfy the round-trip law `Lawful`.
- Address parsing (`isAddress`, `AccountAddress.from`), normalization, printing and truncation are parameters. So are ANS lookups and the ledger's transaction fetch.
- Network I/O, the `Promise.all` concurrency, React Query caching, `staleTime`, retries and loading states are not modelled.
- The indexer tables are fixed while pages are read. Rows that change between requests are not modelled.
- The indexer query document is not part of this model. The execution-events hook passes no `limit`, so its page size of 100 (the `PageLimit` constant) is taken as the document's default.
- Ledger versions are natural numbers. The two hooks compare them as strings and as `Number`s respectively, which agree for canonical decimal versions.
- DiscoveredAccounts.Query: the `where` filters the hook sends are not evaluated. The filters are owners added, owners removed or votes naming the address, and `create_with_owners` transactions of the address. The row lists are the indexer's answers to those filters.
- ExecutionEvents.EventOf: the executor's non-null assertion is taken to hold, so the executor is always present.
- ExecutionEvents.EventOf: `AccountAddress.from` on the sender is taken not to throw, since the ledger's senders are account addresses. The rewrite happens in place on the fetched object. A second row of the same version would see the rewritten sender, which gives the same text when canonical printing is idempotent.
- DiscoveredAccounts.Query: the result keeps the order in which the hook folds the activities, newest first. The time-order fold appears only as the corrected definition under "## Findings".
- ProposalArgumentsForm.InputFor: what react-hook-form's `disabled` option does to validation and to the submitted values is not modelled. Only the rendered inputs are. The Option switch takes no `disabled` prop and stays usable.
- The insertion order of `Object.keys` is modelled as an ordered list. Integer-like keys, which JavaScript orders first, cannot occur because every key starts with "0x".
- UpdateSignaturesRequiredForm.Coerce: strings that are neither empty nor all digits become NaN. `Number`'s other spellings (whitespace, signs, exponents, hex) are not modelled, because the select only writes digit strings.
- Lengths are counted in code points rather than UTF-16 units.
- ServerTime.ServerTimeDelta: the reply body is the text `response.json()` produced. A JSON number reply is taken by its decimal text.
- Toasts, console output, layout, icons, the `isValidating` spinner and input placeholders are not modelled.
- `MOVE_OPTION_NONE` from lib/abis.ts is not part of this model and is a parameter. So are the zod schema (`transformTypeTagToZod`) and default value (`getTypeTagDefaultZodValue`) of a Move type.
- `getEntryFunctionDisplayName` and the payload deserializer are parameters.
- `Date.now()` is a parameter.
- The missing-client error is the constructor `ClientUnavailable`, not the text of the thrown error.
- Pages, layouts, the site header, charts, analytics and the other components and hooks outside the files listed above are not modelled.

## Findings

| source | as written | input that shows it | evidently intended | confidence | as-written member | corrected member |
|---|---|---|---|---|---|---|
| apps/web/hooks/useMultisigExecutionEvents.ts:156-159 | `getNextPageParam` continues only when the last page has 100 *events*. Events are what remains after rows without a user transaction or with an unknown type are dropped. | 101 or more rows, where one of the first 100 has an unknown event type and a later row is a known execution | continue whenever the last page had 100 *rows* | not executed | ExecutionEvents.NextPageParam, shown by ExecutionEvents.WalkAsWrittenStopsEarly and ExecutionEvents.LaterEventIsLost | ExecutionEvents.NextPageParamForRows, proved by ExecutionEvents.WalkCorrectedShowsAll |
| apps/web/components/forms/UpdateSignaturesRequiredForm.tsx:94-96 | `form.watch('signaturesRequired') === currentSignaturesRequired` compares a number with the string the select writes, so it is never true after a selection. | a vault with threshold 2: open the form, select "3", then select "2" | keep the button disabled while the chosen threshold equals the current one | not executed | UpdateSignaturesRequiredForm.SubmitDisabledAsWritten, shown by UpdateSignaturesRequiredForm.ReselectingCurrentEnablesSubmit | UpdateSignaturesRequiredForm.SubmitDisabled, proved by UpdateSignaturesRequiredForm.CorrectedDisablesOnlyCurrent and UpdateSignaturesRequiredForm.CorrectedSubmitChanges |
| apps/web/hooks/useMultisigDiscoveredAccounts.ts:176-209 | The activities are requested newest first (`orderBy: version desc`, line 83) and folded in that order. So the oldest activity naming an account decides whether it is kept. | an owner added to a vault at version 1 and removed at version 2: the removal is folded first and the addition last, so the vault is still listed | replay the activities oldest first, so that the latest one decides | not executed | DiscoveredAccounts.DiscoveredKeys, shown by DiscoveredAccounts.OldestActivityDecides, DiscoveredAccounts.RemovedOwnerStaysDiscovered and DiscoveredAccounts.ReaddedOwnerIsLost | DiscoveredAccounts.DiscoveredKeysInTimeOrder, proved by DiscoveredAccounts.LatestActivityDecides |
