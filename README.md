# Testnet wallet bookkeeping, modelled in Dafny

This project models the bookkeeping core of a React Native Bitcoin-testnet
wallet. That core is the logic inside two screens. The UI, the network and the
cryptography are left out.

- **Address discovery** (`MnemonicScreen.js`). One login round derives
  `currentNo` receiving addresses (`m/44'/1'/0'/0/i`) and `currentChangeNo`
  change addresses (`m/44'/1'/0'/1/i`). Both counters start at 10. The round
  then classifies each provider reply as used or unused and builds a map from
  address to `{is_used, index, address, derivePath}`. If every record is used
  (an empty map counts), the branch asks to grow its batch by 10. Otherwise it
  publishes the next address, chosen by the positional rule: the first sorted
  position `i` whose record has `index == i` and is unused, or position 0.
- **Sending** (`SendScreen.js`). The model keeps the confirmed UTXOs and
  reshapes them. It classifies the coin-selection result (insufficient
  balance, unconfirmed input, ready). It fills the active change address into
  outputs without an address and signs input `i` with the key of
  `inputs[i].derivePath`. On a successful broadcast it marks the change
  address used and moves the active change address to the sorted key at
  position `index + 1`.

Files and modules:

- `wallet.dfy` (`Wallet`) holds the shared records, `findIndex`, batches, the
  used-count loop and the session store. The session keeps the mnemonic
  phrase that goes to storage (`storedMnemonic`). Separately, it keeps the
  BIP-32 root node that is published to the context (`mnemonicRoot`).
- `paths.dfy` (`Paths`) holds the derivation-path strings and reads them back.
- `discovery.dfy` (`Discovery`) models the login screen. The class
  `Discovery.Discovery` stands for the screen's `ref.current`.
- `send.dfy` (`Send`) models the send screen.

Foreign collaborators become function-typed parameters. Each of them is named
where it is used:

- BIP-32 derivation plus `generateAddress` (`receiveAt`, `changeAt`). These are
  assumed injective where a lemma needs it.
- `bip39.validateMnemonic` (`mnemonicValid`).
- `sortTransaction` (`sort`). It is assumed to return each key once, in
  non-decreasing `index` order (`SortsByIndex`).
- `coinselect` (`select`).
- Turning the published root node back into a signing root (`signingRoot`).
  The send screen passes that node to `bip39.mnemonicToSeedSync` as if it
  were the phrase, then calls `bip32.fromSeed`.
- Key derivation from a path (`keyAt`).
- `build().toHex()` (`serialize`).
- The provider's replies (`replies`, `reply`) and the recipient check
  (`recipientValid`).

In these places the code does not do what a reader might expect. The model
follows the code:

- After a send, the code moves the change address to the key at sorted
  position `index + 1`. That key may already be used, and it is absent when
  the spent address was last (`NextChangeMayBeUsed`). The code does not look
  for the next *unused* key.
- The positional rule is not "lowest unused index" in general
  (`PositionalRuleCanChooseUsed`). The two rules agree when every generated
  address answered exactly once (`FullRepliesPickLowestUnused`).
- A reply without `data.address` is dropped. Later replies move up one
  position, and the positions past the last reply store nothing (`Records`).
- Each branch's `Promise.all` is not awaited, so the round itself always
  settles. When a request of one branch fails, that branch's classification
  never runs. The other branch is not affected.
- `inputs`/`outputs` are "missing" only when `coinselect` leaves them
  undefined. An empty array is truthy in JavaScript.
- The send screen signs with a root rebuilt from the published root node,
  not from the stored phrase (`HandleSendBtn`, `signingRoot`).

## Model

| member | source | states |
|---|---|---|
| Wallet.FindIndex | src/screens/LoginScreen/MnemonicScreen/MnemonicScreen.js:128-130 | result is -1 exactly when the address is absent, otherwise the first position holding it |
| Wallet.Batch | src/screens/LoginScreen/MnemonicScreen/MnemonicScreen.js:82-85 | a generation loop yields `n` addresses and position `i` holds `derive(i)` |
| Wallet.FindIndexInBatch | src/screens/LoginScreen/MnemonicScreen/MnemonicScreen.js:71-78 | with injective derivation, the first occurrence of `derive(i)` is `i` even when the accumulated change list repeats earlier batches |
| Wallet.CountUsed | src/screens/LoginScreen/MnemonicScreen/MnemonicScreen.js:160-170 | for any list holding each key once, in any order, the used count equals the number of keys exactly when every record is used (an empty map counts as all used) |
| Paths.NatToDecimalDigits | src/screens/LoginScreen/MnemonicScreen/MnemonicScreen.js:132-134 | an index renders as a non-empty digit string with no leading zero |
| Paths.IntToDecimalSign | src/screens/LoginScreen/MnemonicScreen/MnemonicScreen.js:146-148 | rendering starts with a minus sign exactly for negative indices (the -1 of a failed lookup) |
| Paths.NatToDecimalValue | src/screens/LoginScreen/MnemonicScreen/MnemonicScreen.js:132-134 | the digits of a rendered index read back as that index |
| Paths.DecimalRoundTrip | src/screens/LoginScreen/MnemonicScreen/MnemonicScreen.js:132-134 | reading a rendered index back gives the index |
| Paths.DecimalInjective | src/screens/LoginScreen/MnemonicScreen/MnemonicScreen.js:259-261 | distinct indices render to distinct strings |
| Paths.PathRoundTrip | src/screens/LoginScreen/MnemonicScreen/MnemonicScreen.js:273-275 | a stored path names, under its branch prefix, exactly the index it was built from |
| Paths.BranchesDisjoint | src/screens/LoginScreen/MnemonicScreen/MnemonicScreen.js:57-68 | no receiving path reads as a change path and vice versa |
| Discovery.IsUnused | src/screens/LoginScreen/MnemonicScreen/MnemonicScreen.js:117-121 | an unused verdict needs a zero transaction count; an empty generated or reported address is always used; otherwise unused iff the count is 0 |
| Discovery.MakeRecord | src/screens/LoginScreen/MnemonicScreen/MnemonicScreen.js:124-149 | the record is keyed by the reply's address, used iff not unused, its index is the address's first position in the lookup list (or -1), and its path carries that index |
| Discovery.BuildRecords | src/screens/LoginScreen/MnemonicScreen/MnemonicScreen.js:116-158 | the classification loop builds the `Records` map, and the map is published exactly when some position had a reply |
| Discovery.RecordSource | src/screens/LoginScreen/MnemonicScreen/MnemonicScreen.js:116-150 | every stored record was built from a processed reply for that address, at a position below `n` |
| Discovery.RecordShapeAt | src/screens/LoginScreen/MnemonicScreen/MnemonicScreen.js:124-148 | the record under a key carries that key, the key's first position in the lookup list, and the path naming it |
| Discovery.RecordsShape | src/screens/LoginScreen/MnemonicScreen/MnemonicScreen.js:124-148 | every record is keyed by its own address, its index is that address's first position in the lookup list, and its path reads back as that index |
| Discovery.ReplyIsKey | src/screens/LoginScreen/MnemonicScreen/MnemonicScreen.js:116-126 | the address of every processed reply is a key of the map |
| Discovery.RecordsKeys | src/screens/LoginScreen/MnemonicScreen/MnemonicScreen.js:116-126 | the keys are exactly the addresses of the replies at the processed positions |
| Discovery.RecordsUsage | src/screens/LoginScreen/MnemonicScreen/MnemonicScreen.js:117-122 | a record is unused exactly when the generated and reported addresses are non-empty and the transaction count is 0, so with non-empty addresses it is used iff the count is non-zero |
| Discovery.RecordOfDerived | src/screens/LoginScreen/MnemonicScreen/MnemonicScreen.js:255-262 | with injective derivation, the record of `derive(i)` has index `i` and path `prefix + i` |
| Discovery.DerivedIndices | src/screens/LoginScreen/MnemonicScreen/MnemonicScreen.js:255-275 | with injective derivation and a lookup list that starts with the batch, every derived address in the map has its own position as index and the matching path |
| Discovery.FullRepliesGiveContiguousIndices | src/screens/LoginScreen/MnemonicScreen/MnemonicScreen.js:97-150 | when every generated address answers once and the lookup list starts with the batch, there is one record per address, with distinct indices in `0 .. n-1` |
| Discovery.ReplyCount | src/screens/LoginScreen/MnemonicScreen/MnemonicScreen.js:116-126 | distinct replies, one per generated position, give one key each |
| Discovery.GapFrom | src/screens/LoginScreen/MnemonicScreen/MnemonicScreen.js:179-196 | the search returns the least position that is a gap (`index == i` and unused), or 0 when there is none |
| Discovery.NextPosition | src/screens/LoginScreen/MnemonicScreen/MnemonicScreen.js:177-196 | the loop with `break` computes the positional rule and stays inside a non-empty key list |
| Discovery.ResolvedIsKey | src/screens/LoginScreen/MnemonicScreen/MnemonicScreen.js:168-200 | if not all records are used, the chosen position is in range and the published address is a key of the map |
| Discovery.PositionIsIndex | src/screens/LoginScreen/MnemonicScreen/MnemonicScreen.js:179-196 | with distinct indices filling `0 .. n-1` and keys sorted by index, each sorted position holds the record with that index |
| Discovery.PositionalRuleIsLowestUnused | src/screens/LoginScreen/MnemonicScreen/MnemonicScreen.js:179-200 | with distinct indices filling `0 .. n-1`, the rule picks the unused record with the lowest index |
| Discovery.PositionalRuleCanChooseUsed | src/screens/LoginScreen/MnemonicScreen/MnemonicScreen.js:177-200 | with index 0 missing, the rule falls back to position 0 and publishes a used address although an unused one exists |
| Discovery.FullRepliesPickLowestUnused | src/screens/LoginScreen/MnemonicScreen/MnemonicScreen.js:306-329 | when every generated address answers once, the published address is the lowest-indexed unused one, for the receiving list and for a change list that repeats earlier batches after the current one |
| Discovery.DeriveBatch | src/screens/LoginScreen/MnemonicScreen/MnemonicScreen.js:71-85 | the generation loop yields `derive(0 .. n-1)` |
| Discovery.AppendBatch | src/screens/LoginScreen/MnemonicScreen/MnemonicScreen.js:75-77 | appending the current batch keeps the change list starting with that batch |
| Discovery.Discovery.constructor | src/screens/LoginScreen/MnemonicScreen/MnemonicScreen.js:15-20 | both batch sizes start at 10 and both generated lists start empty |
| Discovery.Discovery.Generate | src/screens/LoginScreen/MnemonicScreen/MnemonicScreen.js:42-85 | an invalid mnemonic only resets the receiving list; a valid one stores the phrase and publishes its root node, sets the receiving list to `derive(0..currentNo-1)` and appends `derive(0..currentChangeNo-1)` to the change list |
| Discovery.Discovery.ProcessReceiving | src/screens/LoginScreen/MnemonicScreen/MnemonicScreen.js:91-216 | (`Settled`) the map is `Records` of the replies and is published iff some position had a reply; the batch grows by exactly 10 iff every record is used; otherwise the published address is the key at the rule's position, and it is in the published map |
| Discovery.Discovery.ProcessChange | src/screens/LoginScreen/MnemonicScreen/MnemonicScreen.js:218-339 | as for receiving, on the change fields, and growing also empties the accumulated change list |
| Discovery.Discovery.Round | src/screens/LoginScreen/MnemonicScreen/MnemonicScreen.js:42-89 | an invalid mnemonic gives `Invalid` and leaves counters and session untouched; otherwise the receiving branch settles on `Records` of `derive(0..currentNo-1)`, the change branch settles on `Records` of its batch looked up in the old list plus the batch, and with injective derivation each change record of `changeAt(i)` has index `i` |
| Send.Confirmed | src/screens/SendScreen/SendScreen.js:48-57 | the formatted list is no longer than the session list, holds only confirmed entries, and is as long exactly when every entry is confirmed |
| Send.ConfirmedExactly | src/screens/SendScreen/SendScreen.js:47-58 | the formatted list is exactly the confirmed UTXOs, in their original order, each with its fields copied |
| Send.FormatUtxos | src/screens/SendScreen/SendScreen.js:47-58 | the `forEach`/`push` loop yields the confirmed list |
| Send.Classify | src/screens/SendScreen/SendScreen.js:59-92 | missing inputs or outputs give `Insufficient Balance`, an unconfirmed input gives the waiting message, success iff both are present and all inputs are confirmed; the fee is always carried |
| Send.GetUnsignedTransaction | src/screens/SendScreen/SendScreen.js:46-93 | the result is the classification of coin selection run on the confirmed list |
| Send.DrawnFromConfirmedNeverWaits | src/screens/SendScreen/SendScreen.js:68-83 | a selection drawn from the confirmed list can only fail with insufficient balance |
| Send.Filled | src/screens/SendScreen/SendScreen.js:185-187 | the value is kept, an output with an address is left alone, and any other output gets the change address |
| Send.WithChange | src/screens/SendScreen/SendScreen.js:184-190 | output count, order and values are kept; outputs with an address keep it; the others get the change address |
| Send.WithChangeComplete | src/screens/SendScreen/SendScreen.js:185-187 | with a non-empty change address every output has an address, and filling again changes nothing |
| Send.AddOutputs | src/screens/SendScreen/SendScreen.js:184-190 | the array is updated in place to the filled outputs, and those are handed to the builder in order |
| Send.AddInputs | src/screens/SendScreen/SendScreen.js:181-183 | one outpoint per input, in order, from its `txId` and `vout` |
| Send.SignInputs | src/screens/SendScreen/SendScreen.js:195-201 | exactly one signature per input, in order, and input `i` is signed with the key derived from the signing root and `inputs[i].derivePath` |
| Send.BuildPlan | src/screens/SendScreen/SendScreen.js:180-201 | (`IsPlanFor`) the builder receives the inputs, the filled outputs and one signature per input |
| Send.MarkUsed | src/screens/SendScreen/SendScreen.js:107-109 | the change address's record becomes used; no key is added or removed; every other record is unchanged |
| Send.MarkUsedMonotone | src/screens/SendScreen/SendScreen.js:107-122 | no used record becomes unused, and the marked map is all-used iff every other record was already used |
| Send.NextChangeAddress | src/screens/SendScreen/SendScreen.js:126-129 | the key at `index + 1` is present exactly when that position is in range, and then it is one of the keys |
| Send.NextChangeFollowsIndex | src/screens/SendScreen/SendScreen.js:126-129 | when positions and indices agree, the new change address is the record with index old + 1, or absent after the last |
| Send.NextChangeMayBeUsed | src/screens/SendScreen/SendScreen.js:115-133 | the new change address can be a used one |
| Send.BroadcastRawTransaction | src/screens/SendScreen/SendScreen.js:96-143 | (`BroadcastEffect`) on success, the change record is marked used and, unless all records are used, the address moves to sorted position index + 1; a rejection, a thrown request or a missing record changes nothing |
| Send.BroadcastKeepsChangeState | src/screens/SendScreen/SendScreen.js:99-139 | whatever the reply, a broadcast keeps the change map's keys, never turns a used record unused, and leaves the change address as it was, absent, or a key of the map |
| Send.Trim | src/screens/SendScreen/SendScreen.js:164-168 | only white space is dropped, from both ends, and neither end of the result is white space |
| Send.HandleSendBtn | src/screens/SendScreen/SendScreen.js:146-219 | an empty address or amount, or an invalid recipient, returns before coin selection; a failed classification returns its message; for a ready selection, no signing root is a build error, otherwise the returned plan is `IsPlanFor` the selection, and an absent, empty or non-empty hex gives a build error, no broadcast, or a broadcast; only a broadcast changes the change state, as `BroadcastRawTransaction` does |

## Left out

- React rendering, hooks, completion flags, `Alert` and the spinners. These are UI.
- `fetch`, `Promise.all` and `AsyncStorage`. These are I/O and concurrency. Replies are an input sequence in completion order. The session fields stand for both the context value and the stored copy, except that storage keeps the phrase and the context keeps the root node.
- Discovery.Discovery.Round: the call back into `generateTestnetAddressAndPrivateKey` after a branch asks to grow is not modelled. It may fan out, since both branches can ask, and it may never end. A round reports `Processed` with `Grow` for that branch, and the caller runs the next round.
- Concurrency between the two branches' continuations is not modelled. The model processes receiving, then change.
- Discovery.Discovery.Round: a failed provider request is not modelled. In the source it leaves that branch's `Promise.all` pending, so that branch neither publishes nor grows. The other branch goes on, and the round itself settles.
- BIP-39 validation and seed generation, BIP-32 derivation, `ECPair`/WIF, and `TransactionBuilder.build`/`toHex` are foreign cryptography. They are parameters. The root node is represented only by the phrase it was built from (`RootNode`).
- The `coinselect` fee and selection algorithm is a foreign library. It is a parameter. Its results are not checked against the UTXO values.
- The code of `sortTransaction` is not part of this model. Its assumed contract is the precondition `SortsByIndex`.
- `parseInt` of the amount, and the network check of the recipient address, are parameters.
- The shallow copy at `SendScreen.js:107` also mutates the record in the old context value. The model keeps values, not object identity. Both end up holding the marked map.
- The import screen and the UTXO fetch wrapper are UI and I/O. They are not part of this model.
