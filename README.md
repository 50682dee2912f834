# BTC light client header admission and BTC staking helpers

This project models two pieces of a Cosmos-SDK chain that follows Bitcoin.

**The BTC light client's header store.** Authorized reporters submit batches of
Bitcoin block headers. `InsertHeaders` admits a batch in this order:

1. It checks the reporter list.
2. It rejects an empty batch, and a batch that holds an already-stored header
   or repeats the hash of one of its own earlier headers.
3. It requires the first header's parent to be stored.
4. It validates each header on top of the one before, computing height and
   cumulative work incrementally from the parent.
5. It stores the whole batch. The batch becomes canonical only when its last
   header carries strictly more cumulative work than the tip.
6. When the batch becomes canonical, the rollback from the old tip to the fork
   point is recorded if it is the deepest seen.

The store is the class `LightClientStore.ChainStore`. Its fields are:

- the header map;
- the canonical height index;
- the tip;
- the largest-rollback record.

Its methods are proved equal to a reference function, `HeaderChain.Insert`,
over the value `HeaderChain.ChainState`. `ChainProperties` then proves, about
that function, the behaviour the light client's tests assert:

- tip extension;
- reorganisation to a heavier fork;
- the reporter list;
- known-header rejection.

It also proves the invariants a well-formed store keeps:

- every stored header sits on top of its stored parent, one height higher, with
  its work added;
- the canonical index is a chain from the base to the tip;
- no header has more work than the tip;
- the store is append-only.

**Helpers of the BTC staking module** (`BtcStaking`):

- finality-provider slashed/jailed status;
- duplicate detection among BIP-340 keys;
- ordering of covenant adaptor signatures by sorted covenant key;
- the largest-reorg record with its constructor and validation;
- the commission bounds check.

Files:

- `wrappers.dfy`: Option, Result and Outcome.
- `btc_types.dfy`: headers, stored header records, the header validator.
- `btc_staking.dfy`: the staking helpers.
- `header_chain.dfy`: the store as a value, well-formedness, the reference `Insert`.
- `chain_properties.dfy`: the lemmas about `Insert`.
- `chain_store.dfy`: the store as an object, with its imperative operations.

Header checks are parameters:

- The per-header proof-of-work, difficulty and timestamp rules form a
  `HeaderValidator`. It has two functions: `check` (header and predecessor to
  an optional rejection reason) and `work` (the header's positive work
  contribution). The model itself checks that each header names its
  predecessor as parent.
- Adaptor-signature decoding, covenant-key sorting and header-record
  validation inside `LargestBtcReOrg.Validate` are also parameters.

## Model

| member | source | states |
|---|---|---|
| BtcStaking.FinalityProvider.IsSlashed | x/btcstaking/types/btcstaking.go:17-19 | a provider is slashed exactly when a positive slashing height is recorded; the default height 0 means not slashed |
| BtcStaking.FinalityProvider.IsJailed | x/btcstaking/types/btcstaking.go:21-23 | jailed exactly when the jailed flag is set |
| BtcStaking.ExistsDup | x/btcstaking/types/btcstaking.go:51-64 | the scan with a set of seen keys returns true exactly when two distinct positions hold the same key; so an empty or duplicate-free list gives false |
| BtcStaking.NoDupIffDistinctCount | x/btcstaking/types/btcstaking.go:51-64 | a key list has no duplicate exactly when its set of keys is as large as the list (never larger) |
| BtcStaking.GetOrderedCovenantSignatures | x/btcstaking/types/btcstaking.go:78-114 | fails exactly when some entry has no signature at `fpIdx` or fails to decode, with the error of the first such entry; on success there is one slot per covenant key in sorted order, holding the latest submitted signature for that key, or None if none was submitted |
| BtcStaking.LatestSigIsLastEntry | x/btcstaking/types/btcstaking.go:84-97 | when the same key is submitted several times, the last entry for it decides the signature in the map |
| BtcStaking.LatestSigAbsent | x/btcstaking/types/btcstaking.go:105-110 | a covenant key nobody submitted gets the empty slot |
| BtcStaking.NewLargestBtcReOrg | x/btcstaking/types/btcstaking.go:116-123 | both endpoints are stored unchanged; the difference is the uint32 subtraction of the heights: exact when the target is not higher, wrapped modulo 2^32 otherwise |
| BtcStaking.LargestBtcReOrg.Validate | x/btcstaking/types/btcstaking.go:125-147 | passes exactly when both endpoints are present and valid and the target is strictly lower; otherwise gives the error of the first failed check, in the source's order |
| BtcStaking.ValidatedReOrgHasPositiveDiff | x/btcstaking/types/btcstaking.go:116-147 | a record built from two uint32-height headers that validates has difference at least 1, equal to the plain height difference (no wrap-around) |
| BtcStaking.CommissionInfo.Validate | x/btcstaking/types/btcstaking.go:159-181 | passes exactly when 0 <= max change rate <= max rate <= 1; each failure gives its own error, checked in the order negative rate, rate above one, negative change rate, change rate above rate |
| HeaderChain.Genesis | x/btclightclient/keeper/msg_server_test.go:20-23 | a fresh light client holds only its base header, which is the tip, and is well formed for every validator |
| HeaderChain.Stage | x/btclightclient/keeper/msg_server_test.go:61-68 | validating a batch gives one record per header, or an invalid-header error at a position inside the batch |
| ChainProperties.StageFacts | x/btclightclient/keeper/msg_server_test.go:61-85 | the staged records are the batch's headers in order; each is accepted on top of the one before (the first on top of the parent) and has the height one above it; cumulative work grows strictly; the last record's work is the parent's plus the batch's summed work, and its height is the parent's plus the batch length |
| ChainProperties.ForkPointFacts | x/btclightclient/keeper/msg_server_test.go:121-131 | walking back from the parent of a new branch reaches its highest canonical ancestor: a canonical header no higher than it, its ancestor at that height, with no canonical header on its ancestry above it; this is the fork point the recorded rollback goes back to |
| ChainProperties.MainChainIsTipAncestry | x/btclightclient/keeper/msg_server_test.go:121-125 | the canonical header recorded at each height is the tip's ancestor at that height, found by parent hashes alone |
| ChainProperties.InsertPreservesWF | x/btclightclient/keeper/msg_server_test.go:121-151 | every successful insertion keeps the store well formed: parents stored one height below, work = parent work + own work, canonical index a chain ending in the tip, no stored header with more work than the tip, rollback record consistent |
| ChainProperties.InsertIsAppendOnly | x/btclightclient/keeper/msg_server_test.go:201-214 | a successful insertion changes no stored header, stores every header of the batch under its hash, and adds nothing else |
| ChainProperties.ExtendTip | x/btclightclient/keeper/msg_server_test.go:61-85 | extending the tip with a valid chain of length L succeeds; the new tip is the batch's last header, L higher, with the batch's summed work added; the canonical index grows by the batch; no rollback is recorded |
| ChainProperties.ReorgToHeavierFork | x/btclightclient/keeper/msg_server_test.go:121-151 | a heavier branch attached at the canonical header d below the tip becomes canonical; its tip is at fork height + batch length with fork work + batch work; the index keeps the canonical headers up to the fork; the rollback from the old tip to the fork, of depth d, is recorded when deeper than the recorded one |
| ChainProperties.LighterBranchKeepsTip | x/btclightclient/keeper/msg_server_test.go:127-128 | a valid branch with no more work than the tip is stored, while the tip, the canonical index and the rollback record stay as they were (equal work keeps the incumbent) |
| ChainProperties.LargestReorgNeverShrinks | x/btclightclient/keeper/msg_server_test.go:121-151 | once a rollback is recorded, its depth never decreases across insertions |
| ChainProperties.UnlistedReporterRejected | x/btclightclient/keeper/msg_server_test.go:216-220 | with a non-empty reporter list, a signer outside it gets the unauthorized-reporter error before anything else is checked |
| ChainProperties.AllowedSignersAgree | x/btclightclient/keeper/msg_server_test.go:201-225 | a listed signer gets the same outcome as anyone under the empty (open) list, and never the unauthorized-reporter error; with the default empty list every signer is treated alike |
| ChainProperties.KnownHeaderRejected | x/btclightclient/keeper/msg_server_test.go:271-281 | a batch holding an already-stored header anywhere, including the fork header itself placed first, is refused with the known-header error |
| ChainProperties.ResubmissionRejected | x/btclightclient/keeper/msg_server_test.go:271-281 | submitting an accepted batch a second time is refused with the known-header error |
| ChainProperties.MissingParentRejected | x/btclightclient/keeper/msg_server_test.go:124-134 | a new batch whose first header's parent is not stored is refused with the parent-not-found error (the tests always attach batches to a stored header) |
| ChainProperties.InvalidHeaderRejected | x/btclightclient/keeper/msg_server_test.go:62-67 | the first header that does not name its predecessor as parent, or that the validator rejects, fails the whole batch with an invalid-header error at its position and with its reason |
| LightClientStore.ChainStore.constructor | x/btclightclient/keeper/msg_server_test.go:20-23 | a new store is well formed, holds the base header as its tip, and keeps the given reporters and validator |
| LightClientStore.ChainStore.GetTipInfo | x/btclightclient/keeper/msg_server_test.go:206-207 | the tip is a stored header, has no less work than any stored header, and is the header at the top of the canonical index |
| LightClientStore.ChainStore.GetHeaderByHeight | x/btclightclient/keeper/msg_server_test.go:123-125 | a header is found exactly for heights from the base up to the tip; it has that height, is stored, and is the tip's ancestor at that height |
| LightClientStore.ChainStore.CheckNovel | x/btclightclient/keeper/msg_server_test.go:271-281 | the loop with a set of seen hashes answers exactly whether no header of the batch is stored or repeats an earlier one |
| LightClientStore.ChainStore.StageBatch | x/btclightclient/keeper/msg_server_test.go:61-68 | the loop that validates header by header, carrying height and work forward, gives exactly the reference staging of the batch |
| LightClientStore.ChainStore.WalkToMain | x/btclightclient/keeper/msg_server_test.go:121-151 | the loop walking back by parent hashes returns the fork point and the new canonical index up to the start header |
| LightClientStore.ChainStore.InsertHeaders | x/btclightclient/keeper/msg_server_test.go:70-73 | the store stays well formed; the outcome and the new state are exactly those of the reference insertion; an accepted call returns the resulting tip, changed or not; a refused call leaves the store unchanged, so an unauthorized submission can be repeated by a listed reporter (lines 216-225) |
| LightClientStore.ChainStore.CommitStaged | x/btclightclient/keeper/msg_server_test.go:136-151 | storing a staged branch updates the fields to the reference commit: every header stored, and the index, tip and rollback record replaced only for a heavier branch |

## Left out

- The keeper's own source is not available, so `ChainStore` takes its admission order and error kinds from the light client's tests and its documented design. Where the tests do not pin down an order, the model puts the novelty check before the parent check; that design names the parent check first. The two orders differ only for a batch that is both not novel and not attached to a stored header.
- An empty batch is refused with its own error, `EmptyHeaders`, which the tests do not exercise.
- HeaderChain.Novel: block hashes are free header fields here, so a batch that repeats the hash of one of its own headers is refused as known (`ForkStartWithKnownHeader`). The documented design checks novelty only against stored headers and would report `InvalidHeader` at the repeat's position, when the linkage check fails there.
- Per-header proof-of-work, difficulty-retarget and timestamp rules are the `HeaderValidator` functions, because they live in btcd. Block hashes are given as a header field, because double SHA-256 is not modelled.
- Heights in the light-client model are unbounded naturals, not uint32. Only `NewLargestBtcReOrg` models the uint32 subtraction.
- `FinalityProvider.ValidateBasic` and `Address` are not modelled. They depend on bech32 parsing, BTC public-key parsing and proof-of-possession checks from other packages.
- `asig.NewAdaptorSignatureFromBytes`, `bbn.SortBIP340PKs` and `MarshalHex` are not modelled.
  - The decoder is a parameter that may fail.
  - The sort is a parameter whose result must be a permutation of the covenant keys. The reverse-lexicographic order itself is not modelled.
  - Map keys are the keys themselves, since hex encoding is injective.
- `BTCHeaderInfo.Validate` is not shown. It is a parameter of `LargestBtcReOrg.Validate`.
- GetOrderedCovenantSignatures: `fpIdx` is a natural number, so a negative index, which would make the Go code panic, is not modelled.
- `math.LegacyDec` values are integers scaled by 10^18. The rounding of decimal arithmetic is not modelled. `NewCommissionInfoWithTime` is only a field copy with a time stamp, so it is left out.
- Message serialization (`NewBTCHeaderBytesList`), the message-dispatch layer, the SDK context and the keeper setup are not modelled. Neither are random chain generation and the fuzz harness.
- HeaderChain.ForkPoint and HeaderChain.ChainTo stop their walk early when a parent is missing or not one height below. That cannot happen in a well-formed store, and every lemma that relies on them assumes one.
