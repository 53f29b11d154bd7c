# HashChain: a verified model of Wasabi Wallet's chain index

`HashChain` (WalletWasabi/Stores/HashChain.cs) is the in-memory index a syncing
light client keeps of the block hashes it knows, by height. It holds an ordered
dictionary from height to hash and five cached scalars: the tip height and tip
hash, the server's tip height, the number of hashes still to fetch
(`HashesLeft`) and the number of entries (`HashCount`). A write to any scalar
raises `PropertyChanged` only when it changes the value.

The project has two modules.

- `SortedChain` (`sorted_chain.dfy`) models the ordered dictionary. It is a
  sequence of `Entry(height, hash)` whose heights strictly ascend, which is the
  order in which the dictionary enumerates. `ToMap` gives the dictionary it
  stands for. `Put` is insert-or-overwrite. `FirstMatch` is the first-match
  scan that `TryGetHeight` uses. The lemmas tie these to `ToMap`: the size is
  `Count`, the last entry holds the largest key, dropping it removes that key,
  and the first match is the smallest key holding the hash.
- `Stores` (`hash_chain.dfy`) holds the rest.
  - `Snapshot` is the object's whole state. `AfterAddOrReplace`,
    `AfterRemoveLast` and `AfterUpdateServerTipHeight` say what each public
    mutator does to it.
  - `Write`, `TipWrites` and `ServerTipWrites` give the property-changed names
    a mutator's guarded writes add to the log.
  - The class `HashChain` holds the same state in fields. Each guarded setter is
    a method. `AddOrReplace`, `RemoveLast` and `UpdateServerTipHeight` are proved
    to perform exactly those transitions and to log exactly those
    notifications, in a ghost field `notified`. `GetChain` and `TryGetHeight`
    are functions over the fields.

`Hash` is an opaque type with equality only, standing in for `uint256`. The tip
hash is `Option<Hash>`, because the field is null until the first write.

Two invariants are kept apart. `WellFormed` holds in every reachable state and
is the class invariant `Valid()`: the entries ascend, and
`HashesLeft == max(0, ServerTipHeight - TipHeight)`. Every write of the tip or
the server tip is followed by a recomputation of `HashesLeft`, and the throw
and the empty-chain case of `RemoveLast` touch neither, so the gap formula is
never broken. `InSync` adds that `HashCount` equals the number of entries.
`AddOrReplace` re-establishes it from any state, and so does a `RemoveLast` on
a chain of two or more entries. `UpdateServerTipHeight` preserves it. A
`RemoveLast` on an empty chain changes nothing, so afterwards `InSync` holds
exactly when it held before. Only the count can go stale, and only because of
the edge case below: after the throw the count is stale, and a later
`RemoveLast` on the now empty chain completes without touching it.

`RemoveLast` on a chain of exactly one entry removes the entry and then calls
`Chain.Last()` on the empty dictionary, which throws. The model returns this
as the outcome `Threw(state)`, and `HashChain.RemoveLast` returns
`threw == true`. In that state the dictionary is empty, while `HashCount`, the
tip and `HashesLeft` keep their old values and no notification was raised.

Some consequences of the code that the model keeps:
- Five properties raise notifications, `HashCount` among them
  (WalletWasabi/Stores/HashChain.cs:83-90).
- A `TryGetHeight` that finds nothing sets its height to 0, the default key
  (WalletWasabi/Stores/HashChain.cs:153).
- Heights are any `int`. The code makes no non-negativity check, and the
  model makes none either.
- The failing `RemoveLast` is an explicit outcome, `Threw`.

## Model

| member | source | states |
|---|---|---|
| `SortedChain.Put` | WalletWasabi/Stores/HashChain.cs:103 | insert-or-overwrite keeps the entries strictly ascending; the new entry is present; every other entry was already there |
| `SortedChain.PutContents` | WalletWasabi/Stores/HashChain.cs:103 | the dictionary after the write is the old one with `height` bound to `hash`, every other binding unchanged |
| `SortedChain.PutPresent` | WalletWasabi/Stores/HashChain.cs:103 | writing a binding the dictionary already holds leaves it exactly as it was |
| `SortedChain.ToMapSize` | WalletWasabi/Stores/HashChain.cs:106 | the dictionary's `Count` is the number of entries, since no height repeats |
| `SortedChain.ToMapKeys` | WalletWasabi/Stores/HashChain.cs:23 | the dictionary's keys are exactly the heights of the entries |
| `SortedChain.ToMapAt` | WalletWasabi/Stores/HashChain.cs:23 | each entry of the ascending sequence is a binding of the dictionary |
| `SortedChain.LastIsMax` | WalletWasabi/Stores/HashChain.cs:122-123 | the last entry holds the largest key, so removing `Keys.Max()` and reading `Last()` both address the last entry |
| `SortedChain.DropLast` | WalletWasabi/Stores/HashChain.cs:122 | dropping the last entry keeps the order and removes exactly the largest key, every other binding unchanged |
| `SortedChain.FirstMatchIsLeast` | WalletWasabi/Stores/HashChain.cs:153 | the first match in ascending order is the smallest key bound to the hash; with no match the default key 0 is returned |
| `SortedChain.FirstMatch` | WalletWasabi/Stores/HashChain.cs:153 | the key the first-match scan reads is either the default 0 or the height of an entry that holds the hash |
| `Stores.Write` | WalletWasabi/Stores/HashChain.cs:31-90 | a guarded setter keeps the earlier log and adds at most one name; it adds one exactly when the new value differs from the old, and the name it adds is that of the property written |
| `Stores.TipWrites` | WalletWasabi/Stores/HashChain.cs:104-127 | the four guarded writes of tip height, tip hash, count and hashes left keep the earlier log and add at most four names |
| `Stores.ServerTipWrites` | WalletWasabi/Stores/HashChain.cs:136-137 | the guarded writes of server tip height and hashes left keep the earlier log and add at most two names |
| `Stores.AfterAddOrReplace` | WalletWasabi/Stores/HashChain.cs:99-109 | `AddOrReplace` keeps the entries ascending and the hashes left equal to `max(0, ServerTipHeight - TipHeight)` |
| `Stores.AfterUpdateServerTipHeight` | WalletWasabi/Stores/HashChain.cs:132-139 | `UpdateServerTipHeight` keeps the entries ascending and the hashes left equal to `max(0, ServerTipHeight - TipHeight)` |
| `Stores.HashesLeftFor` | WalletWasabi/Stores/HashChain.cs:111-114 | the hashes left are the maximum of 0 and the gap between server tip and tip: never negative, at least the gap, and either 0 or the gap |
| `Stores.AddOrReplaceEffect` | WalletWasabi/Stores/HashChain.cs:99-109 | the dictionary gains or overwrites exactly `height -> hash`; the tip becomes `(height, hash)` even below the largest key; count and hashes left are in sync; the server tip is untouched |
| `Stores.AddOrReplaceIdempotent` | WalletWasabi/Stores/HashChain.cs:103-107 | a second identical `AddOrReplace` gives the same state as the first and raises no notification |
| `Stores.AddAllKeys` | WalletWasabi/Stores/HashChain.cs:103 | a run of `AddOrReplace` calls adds exactly the calls' heights to the keys |
| `Stores.AddAllSnoc` | WalletWasabi/Stores/HashChain.cs:99-109 | a run of `AddOrReplace` calls followed by one more call ends in the state the run reaches, updated by that last call |
| `Stores.AddAllTip` | WalletWasabi/Stores/HashChain.cs:104-107 | after a non-empty run of `AddOrReplace` calls the tip is the last call's and count and hashes left are in sync |
| `Stores.AddAllEffect` | WalletWasabi/Stores/HashChain.cs:99-109 | after a non-empty run of `AddOrReplace` calls the count is the number of distinct heights seen, the tip is the last call's, the gap is in sync |
| `Stores.TipFollowsLastCall` | WalletWasabi/Stores/HashChain.cs:104-105 | adding height 3 after height 5 moves the tip back to 3 while 5 stays in the dictionary |
| `Stores.RemoveLastEffect` | WalletWasabi/Stores/HashChain.cs:116-130 | empty chain: nothing changes; one entry: the dictionary is emptied, then it throws with all scalars stale; two or more: exactly the largest key goes, the tip moves to the new largest key and its hash, count and gap are in sync |
| `Stores.AfterRemoveLast` | WalletWasabi/Stores/HashChain.cs:116-130 | `RemoveLast` throws exactly when the chain holds one entry; on an empty chain it completes and changes nothing; whether or not it throws, the entries stay ascending and the hashes left equal to `max(0, ServerTipHeight - TipHeight)` |
| `Stores.UpdateServerTipHeightEffect` | WalletWasabi/Stores/HashChain.cs:132-139 | sets the server tip, recomputes the hashes left, touches nothing else, and keeps count and gap in sync |
| `Stores.ReorgScenario` | WalletWasabi/Stores/HashChain.cs:99-139 | adding 0:A, 1:B, 2:C and removing the last leaves {0:A, 1:B}, tip 1/B, count 2; a server tip of 10 then leaves 9 hashes |
| `Stores.TipWritesExact` | WalletWasabi/Stores/HashChain.cs:31-90 | the writes of tip height, tip hash, count and hashes left append to the earlier log exactly those of the four properties whose value changed, in that order, and nothing else |
| `Stores.ServerTipWritesExact` | WalletWasabi/Stores/HashChain.cs:57-77 | the writes of server tip height and hashes left add the server tip height if it changed, then the hashes left if they changed |
| `Stores.NoWritesWithoutChange` | WalletWasabi/Stores/HashChain.cs:31-90 | writing every property to the value it already holds raises nothing |
| `Stores.FoundAtHeightZero` | WalletWasabi/Stores/HashChain.cs:153-162 | a hash stored at height 0 is found at height 0, and a different hash is reported missing |
| `Stores.HashChain.constructor` | WalletWasabi/Stores/HashChain.cs:93-97 | a new chain is empty, every scalar is at its default, the derived scalars are in sync, nothing was notified |
| `Stores.HashChain.SetTipHeight` | WalletWasabi/Stores/HashChain.cs:31-38 | writes the tip height and logs `TipHeight` only if the value changed |
| `Stores.HashChain.SetTipHash` | WalletWasabi/Stores/HashChain.cs:44-51 | writes the tip hash and logs `TipHash` only if the value changed |
| `Stores.HashChain.SetServerTipHeight` | WalletWasabi/Stores/HashChain.cs:57-64 | writes the server tip height and logs `ServerTipHeight` only if the value changed |
| `Stores.HashChain.SetHashesLeftTo` | WalletWasabi/Stores/HashChain.cs:70-77 | writes the hashes left and logs `HashesLeft` only if the value changed |
| `Stores.HashChain.SetHashCount` | WalletWasabi/Stores/HashChain.cs:83-90 | writes the count and logs `HashCount` only if the value changed |
| `Stores.HashChain.SetHashesLeft` | WalletWasabi/Stores/HashChain.cs:111-114 | sets the hashes left to the maximum of 0 and the gap between server tip and tip, through the guarded setter |
| `Stores.HashChain.AddOrReplace` | WalletWasabi/Stores/HashChain.cs:99-109 | performs `AfterAddOrReplace`: the dictionary gains `height -> hash`, the tip is forced to the arguments, the scalars are in sync, and the changed ones among tip height, tip hash, count, hashes left are notified in that order |
| `Stores.HashChain.RemoveLast` | WalletWasabi/Stores/HashChain.cs:116-130 | performs `AfterRemoveLast`; it throws exactly when the chain held one entry, in which case nothing is notified |
| `Stores.HashChain.UpdateServerTipHeight` | WalletWasabi/Stores/HashChain.cs:132-139 | performs `AfterUpdateServerTipHeight` and notifies the changed ones among server tip height and hashes left, in that order |
| `Stores.HashChain.GetChain` | WalletWasabi/Stores/HashChain.cs:141-147 | the snapshot lists exactly the dictionary's bindings, in strictly ascending height order, one per key |
| `Stores.HashChain.TryGetHeight` | WalletWasabi/Stores/HashChain.cs:149-164 | found exactly when some key holds the hash; then the height is the smallest such key and holds the hash; otherwise the height is 0 |

## Left out

- The `lock` around each public method: each method is modelled as one atomic, sequential step.
- Delivery of `PropertyChanged` to subscribers: the model keeps only a ghost log of the property names raised, in order.
- `uint256` internals: `Hash` is opaque with equality only. Null hashes passed by a caller are not modelled.
- The `AddOrReplace` extension on dictionaries from `WalletWasabi.Helpers`: it is not part of this model and is taken to be insert-or-overwrite (`Put`).
- The red-black tree inside `SortedDictionary` and the cost of its operations: the dictionary is a strictly ascending sequence, and `Keys.Max()` and `Last()` are its last entry (`SortedChain.LastIsMax`).
- `Stores.HashesLeftFor`: integers are unbounded, so the 32-bit overflow of `ServerTipHeight - TipHeight` is not modelled.
- The `INotifyPropertyChanged` interface and the public getters, which only return the fields.
