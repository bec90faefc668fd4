# A verified model of the Zing CDN

Zing CDN serves Walrus blobs from a mesh of caching peers that clients pay in WAL. This project
models five parts of it in Dafny and proves what each of them is for.

- **Vault economics** (`Division`, `MoveMath`, `MapSums`, `PeerVaults`, `Staking`, `Ledger`,
  `LedgerTheorems`, `LedgerEffects`, `Registries`, `Exits`): the Move contracts. A vault mints shares against a
  growing reserve with floor division. `PeerVault`, `Peer` and `Registry` update their fields in place; the ledger puts all
  entry points of the three modules on one chain state, an aborted transaction leaving it as it was.
  The theorems are about all runs and all users: shares and certificates agree, WAL is conserved,
  nobody is diluted, every certificate can be redeemed, and leaving is fair in any order.
- **Chunked fetch and range server** (`Bytes`, `Words`, `RangeServer`, `Fetch`, `FetchTheorems`, `FetchLosses`,
  `FetchPayments`, `FetchForms`): the parallel, sequential and whole-blob fetches against arbitrary peers, and the
  server. A reply is nothing or bytes, and may depend on the round, the peer and the range. One set of facts holds for
  hostile peers (termination, bounded spend), another for honest ones (prefixes, exact delivery, the
  three forms agree).
- **Cache and resolver** (`Keys`, `BlobStores`, `Eviction`, `EvictionRuns`, `EvictionTotals`,
  `EvictionLosses`, `Turns`, `EvictionSteps`, `Resolver`, `ResolveSteps`, `ResolverTheorems`, `Network`):
  store, pins and eviction in place, the order of sources, and many nodes that fetch, evict, delete and
  serve in any interleaving. Eviction and resolve hold no lock between their accesses to the
  database, so both take a schedule: what others put, delete, pin and unpin before each access. The
  content id is an uninterpreted partial function without collisions; a Walrus read gives nothing or
  bytes with the id asked for.
- **The peer-to-peer node** (`P2pNode`, `NodeTheorems`, `NodeInputs`): commands and network events over seven tables
  of waiting callers, the announce queue and the retried set. The network is the environment: it hands
  out fresh ids and delivers any events in any order, repeated or not.
- **Wire codecs and amounts** (`Wire`, `Codecs`, `CodecFormats`, `AddrCodec`, `WalAmount`): the four length-prefixed
  little-endian codecs on a stream, and the WAL amount parser and printer.

`dafny verify dfyconfig.toml` checks everything.

Each imperative method is proved equal to a function of its inputs or old state, and the theorems are
about those functions. Rust arithmetic is that of a release build, where additions and
subtractions wrap (the eviction total, the end of a range); a debug build panics there.

## Where code and documentation part

The model follows the code in each case.

- `README.md` line 66 says that clients fetch trusted metadata from Walrus before a peer's data. The
  resolver (`zing-cdn/zing-cdn-core/src/mesh/resolver.rs` line 628) recomputes the blob id from the data.
- `contracts/zing_cdn/sources/staking.move` lines 15-17 speak of 1000 WAL; the constant is 10^9 frost, one WAL.
- `zing-cdn/README.md` line 88 speaks of LRU eviction, and a test of the oldest blob; candidates come in key order.
- A result says `cached: true` although eviction runs after the put (`ResolverTheorems.CachedExactlyWhen`).

## What turned out false

Each is proved with the exact condition under which the code does keep it.

- The exchange-rate view always answers: it aborts when the scaled rate exceeds 64 bits.
- Every range request gets an answer: the handler panics exactly when the offset is inside the blob
  and offset + length reaches 2^64. It is awaited inside the node's event loop
  (`zing-cdn/zing-cdn-core/src/p2p/node.rs` lines 198-221 and 708), so the panic ends that loop.
- The three fetch forms deliver the same blobs: they agree wherever two deliver, but the whole-blob
  form stops at 64 MiB - 5 because of the codec, the sequential form gives up at exactly 512 MiB, and the
  parallel form asks only the first five peers.
- Eviction never underflows: it takes its total and its listing without a lock. It underflows exactly
  when some prefix of the candidates leaves the total above the budget and the next one is larger than
  what is left. The total then wraps and, while store and budget together stay below 2^64 bytes, every
  unpinned blob listed is deleted (`EvictionTotals.UnderflowsExactly`, `EvictionTotals.LateChangesOutcome`).
- Eviction never deletes a pinned blob: pinning takes the same shared lock as a run, so a blob pinned after the
  run has looked at it is deleted while pinned (`EvictionLosses.PinnedTooLate`). A stored blob that nobody
  else puts or deletes is lost exactly when it was not pinned when looked at and is among the candidates
  deleted (`EvictionLosses.LostExactly`).
- Whenever Walrus can serve a blob the caller gets it: exactly when no other source has it, and somebody
  deletes a listed, unpinned blob before an eviction above its budget has sized it, the eviction's error
  is returned instead (`ResolverTheorems.ResolveIsTrustless`).
- An amount parses to its value or to an error: a large whole amount with zero fraction saturates.

## Model

| member | source | states |
|---|---|---|
| MoveMath.MulDivExact | contracts/zing_cdn/sources/utils.move:9-21 | for all 64-bit arguments the split division returns floor(a*b/c), with no 128-bit overflow on the way, and aborts exactly when c is zero or the quotient does not fit 64 bits |
| MoveMath.EstimateIsExact | zing-cdn/zing-cdn-core/src/sui/wallet.rs:613-618 | the 128-bit product of the client estimate never saturates, and the estimate equals the contract quotient exactly when that quotient fits 64 bits |
| LedgerTheorems.EstimateMatchesPayout | zing-cdn/zing-cdn-core/src/sui/wallet.rs:613-618 | in every state of the chain, the estimate for a live certificate is exactly what redeeming it would transfer, and at least its shares |
| PeerVaults.DelegateExact | contracts/zing_cdn/sources/peer_vault.move:100-116 | on a sound vault: at most the deposit is minted; a deposit succeeds exactly when it buys a share and the reserve still fits; and then the vault grows by exactly the deposit and the shares |
| PeerVaults.DelegateKeepsPrice | contracts/zing_cdn/sources/peer_vault.move:104-116 | a deposit keeps reserves >= shares and never lowers the price of a share of those already in |
| PeerVaults.UndelegateExact | contracts/zing_cdn/sources/peer_vault.move:137-150 | no live certificate can fail to be redeemed for underflow, over-split or division by zero; it pays its rounded-down share of the reserve, at least one frost a share |
| PeerVaults.UndelegateKeepsPrice | contracts/zing_cdn/sources/peer_vault.move:137-150 | a withdrawal keeps reserves >= shares and never lowers the price of the shares that stay |
| PeerVaults.CollectExact | contracts/zing_cdn/sources/peer_vault.move:173-187 | the commission never exceeds the payment; payments succeed exactly when positive and both balances fit; what is paid is split between earnings and reserve without loss |
| PeerVaults.CollectKeepsPrice | contracts/zing_cdn/sources/peer_vault.move:173-187 | a reward keeps the vault sound and never lowers the price of a share |
| PeerVaults.DepositThenRedeem | contracts/zing_cdn/sources/peer_vault.move:100-150 | a deposit redeemed at once on a vault with shares pays at most the deposit w, and (w - payout)*(T + s) < R + T + s |
| PeerVaults.FirstDepositTakesStrayRewards | contracts/zing_cdn/sources/peer_vault.move:104-116 | the first depositor of an empty vault is minted one to one and so owns all rewards that came in while it had no shares |
| PeerVaults.ExchangeRateDefined | contracts/zing_cdn/sources/peer_vault.move:218-227 | the rate view is 10^9 without shares and floor(reserves*10^9/shares) with them; it aborts exactly when that does not fit 64 bits |
| PeerVaults.DelegateReasons | contracts/zing_cdn/sources/peer_vault.move:101-113 | why a deposit into a sound vault aborts: zero amount, else zero shares, else the reserve does not fit |
| PeerVaults.CollectReasons | contracts/zing_cdn/sources/peer_vault.move:178-187 | why a payment aborts: zero amount, else a balance does not fit |
| PeerVaults.OtherReasons | contracts/zing_cdn/sources/peer_vault.move:137-213 | a certificate with shares of a sound vault is refused exactly if it is of another; earnings exactly to others than the owner or if there are none; a commission exactly above 100% |
| PeerVaults.ExchangeRateCanAbort | contracts/zing_cdn/sources/peer_vault.move:218-227 | two plain calls, a deposit and a payment, after which the rate view aborts |
| PeerVaults.PeerVault.Create | contracts/zing_cdn/sources/peer_vault.move:50-61 | a vault is created exactly when the commission is at most 100%, empty, with its owner and commission |
| PeerVaults.PeerVault.constructor | contracts/zing_cdn/sources/peer_vault.move:71-78 | a new vault object starts empty, with the owner and commission given; what new_vault registers is in Registries.RegisteredVaultsKept |
| PeerVaults.PeerVault.Deposit | contracts/zing_cdn/sources/peer_vault.move:100-135 | updates reserves and shares in place exactly as the specification says, and leaves the vault untouched when it aborts |
| PeerVaults.PeerVault.Redeem | contracts/zing_cdn/sources/peer_vault.move:137-166 | the same for a withdrawal |
| PeerVaults.PeerVault.Collect | contracts/zing_cdn/sources/peer_vault.move:173-194 | the same for a reward |
| PeerVaults.PeerVault.Claim | contracts/zing_cdn/sources/peer_vault.move:197-213 | the same for the owner claiming earnings |
| Staking.Peer.Add | contracts/zing_cdn/sources/staking.move:147-157 | adds to the bond in place, or aborts on overflow and changes nothing |
| Staking.Peer.Withdraw | contracts/zing_cdn/sources/staking.move:160-181 | only the owner withdraws, never below the minimum; otherwise nothing changes |
| Staking.Peer.Punish | contracts/zing_cdn/sources/staking.move:185-199 | takes from the bond in place, even below the minimum, or aborts and changes nothing |
| Staking.Registry.Enrol | contracts/zing_cdn/sources/staking.move:95-122 | one registration an address, with at least the minimum bond; otherwise the table is unchanged |
| Staking.Refusals | contracts/zing_cdn/sources/staking.move:95-199 | when registering, unstaking and slashing abort, and with which of the reasons |
| Ledger.RunInv | contracts/zing_cdn/sources/peer_vault.move:100-213 | in every run of transactions of anybody, total_shares of each vault is the sum of its live certificates and the reserve is at least that |
| Ledger.CertWithinVault | contracts/zing_cdn/sources/peer_vault.move:137-150 | a live certificate never has more shares than its vault has out |
| LedgerTheorems.StepConserves | contracts/zing_cdn/sources/settlement.move:69-89 | no transaction of the three modules creates or destroys WAL: wallets, bonds, reserves and earnings add up to the same |
| LedgerTheorems.RunConserves | contracts/zing_cdn/sources/staking.move:95-199 | the same over every run, together with the vault invariant |
| LedgerTheorems.SucceedsExactlyWhenEnabled | contracts/zing_cdn/sources/peer_vault.move:100-213 | while the supply fits 64 bits, every transaction after every history succeeds exactly when its business conditions hold: no join, share addition or subtraction ever overflows |
| LedgerTheorems.WalletsChangeExactly | contracts/zing_cdn/sources/peer_vault.move:118-207 | each successful transaction changes the wallets of its parties by exactly what it pays or takes, and no other wallet |
| LedgerEffects.VaultsChangeExactly | contracts/zing_cdn/sources/peer_vault.move:100-213 | each successful transaction gives every vault exactly the reserve, shares and earnings it is for, and leaves vaults it does not name |
| LedgerEffects.VaultsAddedExactly | contracts/zing_cdn/sources/peer_vault.move:50-81 | a vault comes about only by create_vault or new_vault: empty, at the next id, with the owner and the commission asked for, or 10% |
| LedgerEffects.CertsChangeExactly | contracts/zing_cdn/sources/peer_vault.move:118-166 | a live certificate dies exactly when its holder cashes it in, and changes hands exactly when its holder sends it, to whom he says; its vault and shares stay |
| LedgerEffects.DepositCert | contracts/zing_cdn/sources/peer_vault.move:125-132 | a deposit makes exactly one certificate, held by the depositor, with exactly the shares the deposit buys |
| LedgerEffects.CertsAddedExactly | contracts/zing_cdn/sources/peer_vault.move:125-132 | a certificate comes about only by a deposit |
| LedgerEffects.PeersChangeExactly | contracts/zing_cdn/sources/staking.move:147-199 | a peer keeps its owner, and its bond changes by exactly what is staked, withdrawn or slashed of it |
| LedgerEffects.PeersAddedExactly | contracts/zing_cdn/sources/staking.move:95-122 | a peer comes about only by a registration, owned by and registered for who registered, with the bond paid |
| LedgerEffects.RunKeepsHolder | contracts/zing_cdn/sources/peer_vault.move:125-166 | whatever everybody else does, a certificate its holder neither sends nor cashes in stays live and stays his |
| Registries.BondsNeverDropBelowMinimum | contracts/zing_cdn/sources/staking.move:95-199 | after every run an address has at most one peer, which it owns, and a bond is below the minimum only if a slash of that peer succeeded and took something |
| Registries.RegisteredVaultsKept | contracts/zing_cdn/sources/peer_vault.move:70-81 | after every run an address has registered at most one vault, its own, empty at first and at 10% commission; registering again aborts, and a registration is for good |
| LedgerTheorems.StepKeepsPrice | contracts/zing_cdn/sources/peer_vault.move:100-213 | no transaction of anybody lowers the price of a share of a vault that has shares |
| LedgerTheorems.RunKeepsCert | contracts/zing_cdn/sources/peer_vault.move:125-132 | a certificate keeps its vault and shares for life, and a burnt one never comes back |
| LedgerTheorems.NoDilution | contracts/zing_cdn/sources/peer_vault.move:100-213 | whatever anybody does for however long, a certificate still live is worth at least what it was before |
| LedgerTheorems.LiveCertRedeems | contracts/zing_cdn/sources/peer_vault.move:137-166 | the holder of a live certificate can cash it in at any time and gains exactly its worth |
| LedgerTheorems.DepositIsSafe | contracts/zing_cdn/sources/peer_vault.move:100-166 | the whole life of a deposit: after any run in between, cashing in succeeds and returns all but the rounding of the day of the deposit, at the least |
| LedgerEffects.DepositorIsSafe | contracts/zing_cdn/sources/peer_vault.move:100-166 | the same for the depositor by name: after any run in which he neither sends nor cashes in his certificate he can cash it in, is paid its whole worth, short of the deposit by its rounding at the most |
| Exits.ExitInvariant | contracts/zing_cdn/sources/peer_vault.move:137-150 | each exit moves the cross-multiplied price gap by less than one share total, so after k exits it is at most k times that; by induction over all the exits |
| Exits.ExitFairness | contracts/zing_cdn/sources/peer_vault.move:137-166 | if all the shares are redeemed in any order, all redemptions succeed, the payouts add up to exactly the reserve R0, each is at least floor(s*R0/T0) and exceeds s*R0/T0 by at most the number of earlier exits, and the vault ends empty |
| Exits.EverybodyLeaves | contracts/zing_cdn/sources/peer_vault.move:137-166 | the same as transactions on the chain, for every permutation of the live certificates: every wallet gains exactly the fair payouts of the certificates it held, the wallets together gain exactly the reserve, no certificate of the vault is left |
| RangeServer.ServeRangeIsSlice | zing-cdn/zing-cdn-core/src/p2p/handler.rs:81-89 | the server answers with nothing or the exact slice; it panics exactly when the offset is inside the blob and offset + length reaches 2^64 |
| RangeServer.WrappingRangePanics | zing-cdn/zing-cdn-core/src/p2p/handler.rs:81-89 | a request on which it does: two bytes stored, offset 1, length 2^64 - 1 |
| RangeServer.Handler.IsSpotCheck | zing-cdn/zing-cdn-core/src/p2p/handler.rs:17-19 | every tenth count is a spot check, and the counter moves by one |
| RangeServer.Handler.HandleRange | zing-cdn/zing-cdn-core/src/p2p/handler.rs:53-90 | an unpaid request that hits the spot check is refused, every other gets the served range; only unpaid requests count |
| RangeServer.Handler.HandleBlob | zing-cdn/zing-cdn-core/src/p2p/handler.rs:21-51 | the same for whole blobs |
| RangeServer.ServeBlobIsStored | zing-cdn/zing-cdn-core/src/p2p/handler.rs:36-50 | a whole-blob request is answered with exactly what is stored, or with not found |
| RangeServer.NothingStoredNothingServed | zing-cdn/zing-cdn-core/src/p2p/handler.rs:66-79 | without the blob both requests are answered not found |
| Fetch.FetchWindow | zing-cdn/zing-cdn-core/src/mesh/resolver.rs:506-551 | the loop over the peers collects exactly the non-empty replies of a window, at their offsets |
| Fetch.RepliesSorted | zing-cdn/zing-cdn-core/src/mesh/resolver.rs:553 | replies are already in offset order, so the sort changes nothing |
| Fetch.JoinChunks | zing-cdn/zing-cdn-core/src/mesh/resolver.rs:555-572 | joining chunk by chunk in place stops at the first gap and remembers a short chunk, as the recursive joining does |
| Fetch.JoinGrows | zing-cdn/zing-cdn-core/src/mesh/resolver.rs:555-585 | a window that neither ends nor breaks the fetch brings at least one full chunk, for any peers |
| Fetch.Probe | zing-cdn/zing-cdn-core/src/mesh/resolver.rs:461-496 | exactly the first five peers are probed, and those that answer with a byte work |
| Fetch.FetchWindows | zing-cdn/zing-cdn-core/src/mesh/resolver.rs:503-592 | the unbounded window loop ends, with the verdict and the number of windows of its specification |
| Fetch.FetchParallel | zing-cdn/zing-cdn-core/src/mesh/resolver.rs:440-592 | the whole parallel fetch returns the specified verdict, request count and amount paid for |
| Fetch.FetchSequential | zing-cdn/zing-cdn-core/src/mesh/resolver.rs:347-438 | the one-peer form returns the specified verdict |
| Fetch.FetchTail | zing-cdn/zing-cdn-core/src/mesh/resolver.rs:393-433 | its chunk loop likewise, from the second chunk on |
| Fetch.FetchWhole | zing-cdn/zing-cdn-core/src/mesh/resolver.rs:310-345 | the whole-blob form hands on the first reply there is |
| FetchTheorems.ParallelSpendBounded | zing-cdn/zing-cdn-core/src/mesh/resolver.rs:503-585 | against any peers at most 8191 + 2n chunk requests are made and paid for |
| FetchTheorems.HonestFetchesArePrefixes | zing-cdn/zing-cdn-core/src/mesh/resolver.rs:353-592 | with honest peers, whatever replies are lost, both range forms only ever hand on a prefix of the blob |
| FetchTheorems.JoinLossless | zing-cdn/zing-cdn-core/src/mesh/resolver.rs:555-572 | if the peers at work lose nothing, a window extends the prefix exactly to its end, and reports the end of the blob exactly when the blob ends inside it on a broken chunk |
| FetchTheorems.ParallelDeliversExactly | zing-cdn/zing-cdn-core/src/mesh/resolver.rs:461-592 | whatever the other peers do: if those of the first five that answer the probe lose nothing, something is handed on exactly when there is one and the blob is at most 512 MiB, and then the blob itself, exact multiples of chunk and window included; at most length + 2 chunks for each of them + 8 for each probe is asked for |
| FetchTheorems.ParallelCountsExactly | zing-cdn/zing-cdn-core/src/mesh/resolver.rs:461-585 | with nothing lost, the exact number of chunk requests and the exact amount asked for: the peers at work in each of the least windows that cover the blob, one more window if it ends on a whole chunk, and 8 for each of the first five peers |
| FetchTheorems.SequentialDeliversExactly | zing-cdn/zing-cdn-core/src/mesh/resolver.rs:353-435 | whatever the other peers do: if the first peer that answers loses nothing, the one-peer form hands on the same bytes, exactly when there is one and the blob is below 512 MiB |
| FetchLosses.ParallelDeliversDespiteLosses | zing-cdn/zing-cdn-core/src/mesh/resolver.rs:461-592 | with honest peers at work, whatever replies are lost: the parallel form hands on the blob exactly when somebody works, it is at most 512 MiB, and every chunk request whose offset lies inside it is answered |
| FetchLosses.SequentialDeliversDespiteLosses | zing-cdn/zing-cdn-core/src/mesh/resolver.rs:353-435 | the one-peer form hands on the blob exactly when somebody answers, it is below 512 MiB, and the first peer that answers, if honest, answers every request inside it |
| FetchLosses.ParallelHandsOnUpToHole | zing-cdn/zing-cdn-core/src/mesh/resolver.rs:506-591 | with honest peers at work, if the first lost reply inside the blob is within 512 MiB, exactly the blob up to it is handed on, or nothing if it is the very first |
| FetchLosses.SequentialHandsOnUpToHole | zing-cdn/zing-cdn-core/src/mesh/resolver.rs:390-435 | the one-peer form hands on exactly the blob up to the first request inside it that is not answered |
| FetchPayments.ParallelReportsFirstFailure | zing-cdn/zing-cdn-core/src/mesh/resolver.rs:461-516 | the error handed on is none exactly when no payment failed, of a probed peer in round 0 or a peer at work in a round asked; else that of the first round in which one failed and, in it, of the first peer |
| FetchPayments.SequentialReportsFirstFailure | zing-cdn/zing-cdn-core/src/mesh/resolver.rs:369-433 | the error handed on is that of the first request made of the chosen peer whose payment failed; none exactly when none did |
| FetchPayments.WholeTakesFirst | zing-cdn/zing-cdn-core/src/mesh/resolver.rs:310-345 | the whole-blob form hands on the reply and payment error of the first peer that replies, and gives up exactly when nobody does |
| FetchForms.RangeOverWireExactly | zing-cdn/zing-cdn-core/src/p2p/protocol.rs:167-237 | for every range request: encoded, decoded, served, encoded and decoded again it gives the exact slice exactly when it starts past the end, or offset + length stays below 2^64 and the slice is at most 64 MiB - 1 |
| FetchForms.BlobOverWireExactly | zing-cdn/zing-cdn-core/src/p2p/protocol.rs:63-122 | a whole blob survives the exchange exactly when it is at most 64 MiB less 5 bytes |
| FetchForms.HolderIsLossless | zing-cdn/zing-cdn-core/src/p2p/handler.rs:53-90 | a peer that stores the blob, reached through the codecs and the server, satisfies the assumption of the lossless results |
| FetchForms.NothingOverWire | zing-cdn/zing-cdn-core/src/p2p/handler.rs:36-79 | from a peer that does not store the blob nothing comes back over the wire, of either request |
| FetchForms.FormsAgree | zing-cdn/zing-cdn-core/src/mesh/resolver.rs:310-592 | whichever peers store the blob, with all replies those of server and codecs, the three forms hand on the same bytes when they do: the parallel form exactly if one of the first five stores it and 0 < length <= 512 MiB, the sequential if anybody does and 0 < length < 512 MiB, the whole-blob form if anybody does and length <= 64 MiB - 5 |
| BlobStores.BlobStore.Put | zing-cdn/zing-cdn-core/src/cache/store.rs:32-38 | stores the blob, touching nothing else |
| BlobStores.BlobStore.Get | zing-cdn/zing-cdn-core/src/cache/store.rs:40-46 | reads what is stored |
| BlobStores.BlobStore.Delete | zing-cdn/zing-cdn-core/src/cache/store.rs:48-54 | removes that blob only |
| BlobStores.BlobStore.ListBlobIds | zing-cdn/zing-cdn-core/src/cache/store.rs:72-84 | lists each stored key once, in byte order |
| BlobStores.BlobStore.TotalSize | zing-cdn/zing-cdn-core/src/cache/store.rs:91-100 | lists the keys and looks up one size after another, each as it then is, in a wrapping word, whatever others do in between |
| BlobStores.TotalUndisturbed | zing-cdn/zing-cdn-core/src/cache/store.rs:91-100 | if nobody interferes after the listing the total is the size of the store modulo 2^64 |
| BlobStores.BlobStore.BlobSize | zing-cdn/zing-cdn-core/src/cache/store.rs:86-89 | the length of a stored blob, or nothing |
| BlobStores.BlobStore.Pin | zing-cdn/zing-cdn-core/src/cache/pinning.rs:13-19 | adds the id to the pins |
| BlobStores.BlobStore.Unpin | zing-cdn/zing-cdn-core/src/cache/pinning.rs:21-27 | removes the id from the pins |
| BlobStores.BlobStore.IsPinned | zing-cdn/zing-cdn-core/src/cache/pinning.rs:29-35 | tells whether the id is pinned |
| Keys.InOrderIsListing | zing-cdn/zing-cdn-core/src/cache/store.rs:72-84 | the key order lists every key exactly once, ascending |
| EvictionRuns.EvictionManager.Run | zing-cdn/zing-cdn-core/src/cache/eviction.rs:15-44 | the run, access by access with no lock on the store, leaves the cache and returns the error that the specification gives for what others do before each access |
| EvictionRuns.EvictionManager.Collect | zing-cdn/zing-cdn-core/src/cache/eviction.rs:21-33 | collects the unpinned ids with their sizes in order, or returns the missing-size error at the first that has none |
| EvictionRuns.EvictionManager.DeleteUntilWithin | zing-cdn/zing-cdn-core/src/cache/eviction.rs:35-41 | deletes candidates in order while the wrapping total is above the budget |
| EvictionRuns.CollectFailsExactly | zing-cdn/zing-cdn-core/src/cache/eviction.rs:24-33 | collecting returns the missing-size error exactly when some listed id, not pinned when looked at, is gone when its size is looked up |
| EvictionRuns.RunFailsExactly | zing-cdn/zing-cdn-core/src/cache/eviction.rs:15-44 | in every interleaving the run returns the error exactly when its total is above the budget and a listed, unpinned blob is gone before it is sized |
| EvictionRuns.OnlyDeletesFail | zing-cdn/zing-cdn-core/src/cache/eviction.rs:24-33 | so it fails only if somebody else deletes a listed blob after the listing |
| EvictionSteps.RunIsTurns | zing-cdn/zing-cdn-core/src/cache/eviction.rs:15-44 | in every interleaving the run is a task of one access a turn; after every turn the cache is what all changes of the others so far, in their order, make of it together with the deletes of the run in between, and after the last the run has its cache and result |
| Turns.InterleavedIsRun | zing-cdn/zing-cdn-core/src/cache/eviction.rs:15-44 | for any such task: the cache after every turn is that of the interleaved changes |
| EvictionLosses.CandidatesExactly | zing-cdn/zing-cdn-core/src/cache/eviction.rs:24-33 | a finished collection holds exactly the listed ids that were not pinned when looked at |
| EvictionTotals.FoundExactly | zing-cdn/zing-cdn-core/src/cache/eviction.rs:24-33 | in every interleaving a finished collection holds exactly the listed ids not pinned at their look, in order, each with its size at its sizing |
| EvictionTotals.TotalIsOfLookups | zing-cdn/zing-cdn-core/src/cache/store.rs:91-100 | in every interleaving the total is the sum of what the lookups found, each at its turn, modulo 2^64 |
| EvictionLosses.LostExactly | zing-cdn/zing-cdn-core/src/cache/eviction.rs:15-44 | in every interleaving, a stored blob nobody else puts or deletes is lost exactly when the run is above its budget and collects, the blob was not pinned when looked at, and it is among the first candidates, as many as the wrapping total deletes |
| EvictionLosses.PinnedWhenSeenSurvives | zing-cdn/zing-cdn-core/src/cache/eviction.rs:24-41 | a stored blob nobody else deletes that is pinned when the run looks at it survives, whatever else others do, also when the total underflows |
| EvictionLosses.PinnedSurvives | zing-cdn/zing-cdn-core/src/cache/eviction.rs:24-41 | so a blob pinned all along, which nobody unpins or deletes, survives and stays pinned |
| EvictionLosses.PinnedTooLate | zing-cdn/zing-cdn-core/src/cache/eviction.rs:24-41 | an interleaving in which a blob pinned after the run has looked at it is deleted while pinned |
| EvictionTotals.UnderflowsExactly | zing-cdn/zing-cdn-core/src/cache/eviction.rs:35-41 | for all sizes: the subtraction goes below zero exactly when some prefix of the candidates leaves the total above the budget and the next candidate is larger than what is left |
| EvictionTotals.DeletionsLeast | zing-cdn/zing-cdn-core/src/cache/eviction.rs:35-41 | in every case the loop stops at the first prefix whose wrapped total is within the budget |
| EvictionTotals.NoUnderflowIsExact | zing-cdn/zing-cdn-core/src/cache/eviction.rs:35-41 | without an underflow it deletes the least prefix that takes the total to the budget, or everything |
| EvictionTotals.UnderflowDeletesAll | zing-cdn/zing-cdn-core/src/cache/eviction.rs:35-41 | with an underflow it deletes every candidate, unless their sizes wrap the total a whole word round |
| EvictionTotals.DeletesThatMany | zing-cdn/zing-cdn-core/src/cache/eviction.rs:35-41 | whatever others do during the loop, it deletes that many candidates from the first on |
| EvictionTotals.RunDeletesExactly | zing-cdn/zing-cdn-core/src/cache/eviction.rs:15-44 | in every interleaving, a run above its budget that collects deletes the first n candidates: the least prefix that takes its total to the budget, unless a subtraction underflows, under the exact condition, and then all of them |
| EvictionTotals.LateChangesOutcome | zing-cdn/zing-cdn-core/src/cache/eviction.rs:16-41 | a total taken before others changed the store underflows exactly under that condition on the store as listed, and the run then leaves only what is pinned; otherwise it deletes the least prefix for the old total |
| EvictionTotals.RunUndisturbed | zing-cdn/zing-cdn-core/src/cache/eviction.rs:15-44 | a run nobody interferes with leaves exactly the store without the victims |
| Eviction.TotalIsReal | zing-cdn/zing-cdn-core/src/cache/eviction.rs:35-41 | the running total is the real size of the store after every single deletion |
| Eviction.EvictOutcome | zing-cdn/zing-cdn-core/src/cache/eviction.rs:15-44 | nothing pinned is lost, what survives is unchanged, and in the end the size is within budget or only pinned blobs are left |
| Eviction.EvictLeast | zing-cdn/zing-cdn-core/src/cache/eviction.rs:35-41 | no shorter prefix of the candidates would have reached the budget |
| Eviction.SurvivesExactly | zing-cdn/zing-cdn-core/src/cache/eviction.rs:15-44 | an unpinned blob survives exactly when dropping the unpinned blobs with smaller keys is enough |
| Eviction.EvictIdempotent | zing-cdn/zing-cdn-core/src/cache/eviction.rs:15-44 | a second run changes nothing |
| EvictionTotals.NoUnderflow | zing-cdn/zing-cdn-core/src/cache/eviction.rs:35-41 | a total of a store that holds all the candidates never underflows |
| EvictionTotals.LatePutDeletesAll | zing-cdn/zing-cdn-core/src/cache/eviction.rs:16-41 | one put between the total and the listing, of a blob larger than the old total whose key comes first, makes the run delete everything unpinned |
| EvictionTotals.LatePutUnderflows | zing-cdn/zing-cdn-core/src/cache/eviction.rs:16-41 | such a store and put, on which a blob is lost that a run with the right total keeps |
| Resolver.ResolverNode.Resolve | zing-cdn/zing-cdn-core/src/mesh/resolver.rs:170-197 | local store, then fetched data that verifies, then Walrus; put and eviction of what is returned; after a Walrus read the error of the eviction is returned, with others changing the cache before each access |
| Resolver.ResolverNode.ResolveFromWalrus | zing-cdn/zing-cdn-core/src/mesh/resolver.rs:656-678 | what Walrus read is put and eviction is run, whose error is propagated |
| Resolver.ResolverNode.FinalizeL1Fetch | zing-cdn/zing-cdn-core/src/mesh/resolver.rs:620-654 | data that does not verify changes nothing and sends the resolver on; data that does is put, and eviction is run, its error ignored |
| ResolverTheorems.ResolveIsTrustless | zing-cdn/zing-cdn-core/src/mesh/resolver.rs:170-197 | whatever peers send and others do to the cache, only content with the id asked for is returned or stored; if Walrus can serve the blob the caller gets its bytes, except exactly when no other source has it and the eviction, above its budget, loses a listed unpinned blob before sizing it; unavailable exactly when no source has it |
| ResolverTheorems.AnswerComesFrom | zing-cdn/zing-cdn-core/src/mesh/resolver.rs:170-197 | the answer is what is stored; else that of the first attempt whose data verifies, with its payment error; else that of Walrus, with none, unless the eviction fails |
| ResolverTheorems.WalrusContentReturned | zing-cdn/zing-cdn-core/src/mesh/resolver.rs:656-678 | so if nobody else deletes while the eviction runs, Walrus content is always returned |
| ResolverTheorems.WalrusReadLost | zing-cdn/zing-cdn-core/src/mesh/resolver.rs:656-678 | a cache, a Walrus read and a delete by somebody else on which the eviction error is returned |
| ResolveSteps.ResolveIsTurns | zing-cdn/zing-cdn-core/src/mesh/resolver.rs:170-197 | a resolve with its eviction is a task of one access a turn; after every turn the cache is what all changes of the others so far, in their order, make of it together with its own put and deletes, and everything put names itself right |
| ResolverTheorems.CachedExactlyWhen | zing-cdn/zing-cdn-core/src/mesh/resolver.rs:628-678 | the result always says cached; others may do anything up to the first access of the eviction, and then the blob is still stored at the end exactly when it survived them and is pinned or the smaller unpinned blobs made room |
| ResolverTheorems.CachedUnlessLost | zing-cdn/zing-cdn-core/src/mesh/resolver.rs:628-678 | whatever others do during the eviction too, if nobody else puts or deletes the blob: it is gone at the end exactly when the eviction finds it unpinned and reaches it |
| ResolverTheorems.CachedButGone | zing-cdn/zing-cdn-core/src/mesh/resolver.rs:656-678 | a blob larger than the budget is reported as cached and dropped at once |
| Network.ResolveIsRun | zing-cdn/zing-cdn-core/src/mesh/resolver.rs:170-197 | a resolve with its eviction, amid whatever others do to its node before each access, is a run of network events turn by turn: after every turn the network is where the events so far have taken it |
| Network.AlwaysCoherent | zing-cdn/zing-cdn-core/src/mesh/resolver.rs:620-678 | in every interleaving of fetches, evictions, deletes and pins on any nodes, every store maps each key to the content it names |
| Network.AnswerIsSlice | zing-cdn/zing-cdn-core/src/p2p/handler.rs:53-90 | an honest node answers a range request, at any time of any run, with nothing or the exact slice of the one content with that id |
| Network.StoredIsServed | zing-cdn/zing-cdn-core/src/p2p/handler.rs:53-90 | at any time of any run a node that stores the blob answers every range request that does not wrap with the slice, and one that does not, with nothing |
| Network.FetchFromNetwork | zing-cdn/zing-cdn-core/src/mesh/resolver.rs:310-592 | range fetches against nodes that evict and refetch between the requests hand on only prefixes of that content, so the resolver takes exactly it or nothing |
| P2pNode.Node.HandleCommand | zing-cdn/zing-cdn-core/src/p2p/node.rs:252-403 | each command updates the tables, the queue and the replies in place as specified |
| P2pNode.Node.HandleEvent | zing-cdn/zing-cdn-core/src/p2p/node.rs:450-860 | each network event updates tables, queue, retried set, addresses and replies in place as specified |
| P2pNode.Node.Connected | zing-cdn/zing-cdn-core/src/p2p/node.rs:482-516 | a new connection re-announces on a reconnect to a bootstrap peer and flushes the queue |
| P2pNode.Node.Answered | zing-cdn/zing-cdn-core/src/p2p/node.rs:667-693 | an event removes the caller waiting under its id and answers it; without one nothing happens |
| P2pNode.Node.TryDial | zing-cdn/zing-cdn-core/src/p2p/node.rs:331-344 | the dial loop reports success exactly when some address could be dialled |
| NodeTheorems.RunKeepsBooks | zing-cdn/zing-cdn-core/src/p2p/node.rs:252-403 | over every run, with events in any order and repeated: ids in use are drawn ids, tables of one protocol share no id, a caller waits once or was answered once |
| NodeTheorems.EveryCallerAccountedFor | zing-cdn/zing-cdn-core/src/p2p/node.rs:252-860 | a caller that gave a reply channel either waits in exactly one table or was answered exactly once, never both, and nobody else is answered |
| NodeTheorems.OtherStep | zing-cdn/zing-cdn-core/src/p2p/node.rs:558-837 | nothing but an event for its own id ends a wait |
| NodeTheorems.AnsweredByItsOwnRequest | zing-cdn/zing-cdn-core/src/p2p/node.rs:558-837 | a waiting caller waits until the first event for its id and is then answered with what that event says |
| NodeTheorems.CommandGetsItsOwnAnswer | zing-cdn/zing-cdn-core/src/p2p/node.rs:265-403 | the same from the command on, anywhere in any run: the answer is that of the request the command made |
| NodeInputs.ToldAtOnceAndForAll | zing-cdn/zing-cdn-core/src/p2p/node.rs:325-375 | anywhere in any run, who asks what is answered at once has that one answer for good: the peers connected then; no addresses with nobody connected; whether some address dials, of those given or else of the last event that named any of that peer |
| NodeTheorems.RecordAnswersAtMostOne | zing-cdn/zing-cdn-core/src/p2p/node.rs:605-622 | Sui-address and vault queries never share an id, so the double removal on a record answers at most one caller |
| NodeTheorems.FlushOnConnection | zing-cdn/zing-cdn-core/src/p2p/node.rs:482-516 | a new connection announces the whole queue once, in order, and leaves it empty |
| NodeInputs.ReannouncedExactly | zing-cdn/zing-cdn-core/src/p2p/node.rs:482-505 | over every run, what is announced again is exactly what was stored at each connection to a bootstrap peer that came after one whose bootstrap succeeded, all of it and in order |
| NodeTheorems.QueueKeepsOrder | zing-cdn/zing-cdn-core/src/p2p/node.rs:252-264 | at every point of every run, the blobs announced while alone are exactly those started from the queue followed by those still queued, in order |
| NodeTheorems.StaysQueuedUntilConnection | zing-cdn/zing-cdn-core/src/p2p/node.rs:252-264 | in every run without a new connection they all stay queued, in order, and none is started from the queue |
| NodeTheorems.NextConnectionFlushes | zing-cdn/zing-cdn-core/src/p2p/node.rs:506-516 | and the next new connection starts exactly those, in order, and empties the queue |
| NodeTheorems.AnnouncedAtOnce | zing-cdn/zing-cdn-core/src/p2p/node.rs:252-264 | in every run, each announce command starts providing at once, connected or not, in order |
| NodeTheorems.RetriesAreFinite | zing-cdn/zing-cdn-core/src/p2p/node.rs:581-595 | the calls the node makes by itself are exactly one per blob that ever succeeded, as many as the retried set has members, so the success-and-retry cascade ends |
| Wire.LeRoundTrip | zing-cdn/zing-cdn-core/src/p2p/protocol.rs:125-133 | a value that fits its little-endian field comes back |
| Wire.LeOfFromLe | zing-cdn/zing-cdn-core/src/p2p/protocol.rs:125-133 | and a field value determines its bytes |
| Wire.FrameRoundTrip | zing-cdn/zing-cdn-core/src/p2p/protocol.rs:46-61 | a length-prefixed frame is read back and exactly the rest of the stream stays |
| Wire.Io.TakeFrame | zing-cdn/zing-cdn-core/src/p2p/protocol.rs:46-61 | reading a frame step by step off the stream is reading it whole |
| Codecs.BlobRequestRoundTrip | zing-cdn/zing-cdn-core/src/p2p/protocol.rs:46-102 | reading an encoded blob request followed by anything gives the request and leaves the rest |
| Codecs.RangeRequestRoundTrip | zing-cdn/zing-cdn-core/src/p2p/protocol.rs:167-218 | the same for range requests, with both 64-bit fields |
| Codecs.SliverRequestRoundTrip | zing-cdn/zing-cdn-core/src/p2p/protocol.rs:276-324 | the same for sliver requests, with the 16-bit field |
| Codecs.NotFoundRoundTrip | zing-cdn/zing-cdn-core/src/p2p/protocol.rs:63-122 | the same for not-found responses |
| Codecs.BlobResponseRoundTrip | zing-cdn/zing-cdn-core/src/p2p/protocol.rs:63-122 | a blob response is read back exactly when its data is at most 64 MiB - 5 |
| Codecs.PlainResponseRoundTrip | zing-cdn/zing-cdn-core/src/p2p/protocol.rs:186-237 | a range or sliver response is read back exactly when its data is at most 64 MiB - 1 |
| CodecFormats.BlobRequestBytes | zing-cdn/zing-cdn-core/src/p2p/protocol.rs:90-102 | a blob request byte for byte |
| CodecFormats.RangeRequestBytes | zing-cdn/zing-cdn-core/src/p2p/protocol.rs:206-218 | a range request byte for byte, with its little-endian fields |
| CodecFormats.SliverRequestBytes | zing-cdn/zing-cdn-core/src/p2p/protocol.rs:313-324 | a sliver request byte for byte |
| CodecFormats.NotFoundBytes | zing-cdn/zing-cdn-core/src/p2p/protocol.rs:104-122 | a not-found response byte for byte |
| CodecFormats.BlobResponseBytes | zing-cdn/zing-cdn-core/src/p2p/protocol.rs:104-122 | a blob response byte for byte |
| CodecFormats.PlainResponseBytes | zing-cdn/zing-cdn-core/src/p2p/protocol.rs:220-237 | a range or sliver response byte for byte |
| CodecFormats.FrameExactly | zing-cdn/zing-cdn-core/src/p2p/protocol.rs:46-61 | a frame is read exactly when it is there whole with its length in front and within bounds; when a length is refused |
| CodecFormats.BlobRequestExactly | zing-cdn/zing-cdn-core/src/p2p/protocol.rs:46-61 | a blob request is accepted exactly if it is an encoding of one, or one with more behind it in its frame |
| CodecFormats.RangeRequestExactly | zing-cdn/zing-cdn-core/src/p2p/protocol.rs:167-184 | a range request is accepted exactly if it is an encoding of one |
| CodecFormats.SliverRequestExactly | zing-cdn/zing-cdn-core/src/p2p/protocol.rs:276-291 | a sliver request is accepted exactly if it is an encoding of one |
| CodecFormats.BlobResponseExactly | zing-cdn/zing-cdn-core/src/p2p/protocol.rs:63-88 | a blob response is accepted exactly if it is the encoding of a blob of at most 64 MiB - 5, or a frame that begins with zero; any other whole frame is refused |
| CodecFormats.PlainResponseExactly | zing-cdn/zing-cdn-core/src/p2p/protocol.rs:186-204 | the same for range and sliver responses of at most 64 MiB - 1 |
| Codecs.WriteBlobRequest | zing-cdn/zing-cdn-core/src/p2p/protocol.rs:90-102 | the writer appends the encoding to the stream |
| Codecs.ReadBlobRequest | zing-cdn/zing-cdn-core/src/p2p/protocol.rs:46-61 | the reader decodes the stream and leaves the rest |
| Codecs.WriteRangeRequest | zing-cdn/zing-cdn-core/src/p2p/protocol.rs:206-218 | the writer appends the encoding to the stream |
| Codecs.ReadRangeRequest | zing-cdn/zing-cdn-core/src/p2p/protocol.rs:167-184 | the reader decodes the stream and leaves the rest |
| Codecs.WriteSliverRequest | zing-cdn/zing-cdn-core/src/p2p/protocol.rs:313-324 | the writer appends the encoding to the stream |
| Codecs.ReadSliverRequest | zing-cdn/zing-cdn-core/src/p2p/protocol.rs:276-291 | the reader decodes the stream and leaves the rest |
| Codecs.WriteBlobResponse | zing-cdn/zing-cdn-core/src/p2p/protocol.rs:104-122 | likewise |
| Codecs.ReadBlobResponse | zing-cdn/zing-cdn-core/src/p2p/protocol.rs:63-88 | the reader decodes the stream and leaves the rest |
| Codecs.WritePlainResponse | zing-cdn/zing-cdn-core/src/p2p/protocol.rs:220-237 | the writer appends the encoding to the stream |
| Codecs.ReadPlainResponse | zing-cdn/zing-cdn-core/src/p2p/protocol.rs:186-204 | the reader decodes the stream and leaves the rest |
| AddrCodec.RequestRoundTrip | zing-cdn/zing-cdn-core/src/p2p/protocol.rs:377-439 | an address request is read back exactly when its peer id has an acceptable length |
| AddrCodec.RequestExactly | zing-cdn/zing-cdn-core/src/p2p/protocol.rs:377-390 | an address request is accepted exactly if it is the encoding of a valid peer id of an acceptable length |
| AddrCodec.ParseExact | zing-cdn/zing-cdn-core/src/p2p/protocol.rs:407-424 | on every frame the decoder succeeds exactly when that many length-prefixed records fit, and returns the valid ones in order |
| AddrCodec.ParseLoop | zing-cdn/zing-cdn-core/src/p2p/protocol.rs:407-424 | the loop with its moving position stays in bounds on every frame and computes that |
| AddrCodec.ResponseRoundTrip | zing-cdn/zing-cdn-core/src/p2p/protocol.rs:392-462 | reading the encoding of valid addresses gives the first min(n, 65535) of them and leaves the rest of the stream |
| AddrCodec.ResponseRoundTripExactly | zing-cdn/zing-cdn-core/src/p2p/protocol.rs:441-462 | the whole list survives exactly when the count field and one message can hold it |
| AddrCodec.AnyResponse | zing-cdn/zing-cdn-core/src/p2p/protocol.rs:392-462 | for any addresses that fit a message: read back are the first 65535, each cut to 65535 bytes, without those then invalid |
| AddrCodec.ResponseAccepts | zing-cdn/zing-cdn-core/src/p2p/protocol.rs:396-428 | which whole frames are read, and as what; any other is refused |
| AddrCodec.BuildPayload | zing-cdn/zing-cdn-core/src/p2p/protocol.rs:450-459 | the encoder loop builds the specified payload |
| AddrCodec.WriteResponse | zing-cdn/zing-cdn-core/src/p2p/protocol.rs:441-462 | the writer appends the encoding to the stream |
| AddrCodec.ReadResponse | zing-cdn/zing-cdn-core/src/p2p/protocol.rs:392-429 | the reader decodes the stream and leaves the rest |
| WalAmount.ParseU64Exactly | zing-cdn/zing-cdn/src/http.rs:715-718 | the number parser accepts exactly the numerals, with an optional plus sign, that fit 64 bits |
| WalAmount.AcceptsExactly | zing-cdn/zing-cdn/src/http.rs:712-729 | for every text: the parser returns v exactly when the text is a numeral, or a numeral, a point and a fraction of at most nine places, that stands for v |
| WalAmount.MissesExactlyWhenSaturated | zing-cdn/zing-cdn/src/http.rs:717-726 | for digits I.F the exact amount is returned whenever it fits; otherwise an error, except exactly when I alone overflows in frost but fits 64 bits and F is zero: then the largest amount is returned |
| WalAmount.WholeMissesExactlyWhenSaturated | zing-cdn/zing-cdn/src/http.rs:715 | the same for an amount without a point |
| WalAmount.SaturatedExample | zing-cdn/zing-cdn/src/http.rs:725 | the amounts on which it goes wrong |
| WalAmount.PlusTakesAPlace | zing-cdn/zing-cdn/src/http.rs:719-724 | a plus sign after the point is accepted and takes a decimal place: 1.+5 reads as 1.05 |
| WalAmount.PrintParse | zing-cdn/zing-cdn/src/http.rs:577 | every 64-bit balance, printed and parsed again, is the same balance |
| WalAmount.PrintedForm | zing-cdn/zing-cdn/src/http.rs:577 | what is printed: the whole WAL without leading zeros, a point, and nine digits of frost |
| WalAmount.NumberErrors | zing-cdn/zing-cdn/src/http.rs:715-723 | why a number does not parse: empty, or leading digits alone too many, or something that is no digit |
| WalAmount.AmountErrors | zing-cdn/zing-cdn/src/http.rs:713-728 | why an amount does not parse, in the order the reasons are looked at |

## Left out

- RocksDB, its errors and its metadata column; `list_pinned`.
- Sui RPC, transaction building, signing and JSON. Of the wallet only the estimate is modelled, and of
  `resolve_payment` only the amount asked for and whether there was an error.
- libp2p, Kademlia routing, timeouts and scheduling: they appear as arbitrary replies and events. Ids
  are fresh per behaviour by assumption.
- Discovering providers through the DHT and dialling them in `resolve_from_l1`: what such a fetch hands
  on is one more attempt of the resolver.
- Which kind of Walrus or store error is reported by `resolve`, and a put that fails after verification.
- ResolverTheorems.CachedExactlyWhen: others act up to the eviction's first access only; amid later changes
  `ResolverTheorems.CachedUnlessLost` holds.
- Overlapping evictions as such: the resolver's run one at a time under the eviction lock
  (`zing-cdn/zing-cdn-core/src/mesh/resolver.rs` lines 642 and 669); deletes of any other are among what others do.
- Walrus encoding and hashing: the content id is an assumption.
- HTTP routing, the desktop application, configuration and MIME sniffing.
- The reputation table, which `resolve` never reads.
- Serving slivers, which always answers not found; the sliver codec is modelled.
- `compute_fee`, `set_read_price`, `update_peer_id`, `deactivate`, `add_vault`, `new_registry`, events
  and read-only views other than the exchange rate.
- The address responses a node sends from its address book, and logging.
- What the node's requests say and to which peer they go: of a request its id and its waiting caller are modelled.
- EvictionTotals.LateChangesOutcome: for stores and budgets that together stay below 2^64 bytes; beyond,
  `EvictionTotals.DeletionsLeast` says where the wrapping loop stops. Others act between total and listing
  only; amid changes at every access `EvictionTotals.RunDeletesExactly` holds.
- Wallet balances are unbounded sums of coins; the 64-bit limits apply to what the contracts hold.
- RangeServer.Handler.HandleRange: the counter is one field of one handler, not shared between threads.
- FetchForms.FormsAgree: for blobs so far below 2^64 bytes that no request of the fetches wraps past the
  last machine word.
- FetchTheorems.HonestFetchesArePrefixes: peers that send more than was asked for count as hostile.
- WalAmount.AcceptsExactly: texts are sequences of characters; the source counts the fraction in bytes, so a fraction with
  characters outside ASCII fails either way but possibly with another message.
- P2pNode.Node.HandleEvent: identify and routing events both appear as new addresses of a peer; what they
  change in the routing table, and the publishing of records, is not modelled.
