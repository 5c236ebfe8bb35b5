# Block index of a CryptoNote node, modelled in Dafny

This project models the block index of a CryptoNote full node
(`CryptoNote::BlockIndex`). The index holds the accepted chain as a
height-ordered sequence of block identities (`m_container`; position is
height, height 0 is genesis) and a reverse map from identity to height
(`m_index`). On top of these it answers:

- positional lookups (`getBlockId`, `getTailId`);
- range queries (`getBlockIds`, clipped to the chain);
- supplement lookup (`findSupplement`: the first candidate of a peer's list
  that the index knows, with its height);
- locator construction (`buildSparseChain`: identities at heights
  H, H-1, H-3, H-7, ..., that is H+1-2^k while 2^k <= H+1, then genesis
  unless the last one already is genesis).

Each of the last three also has an overload that takes the external block
database (`BlockchainDB`).

Files:

- `wrappers.dfy`: `Option` and `Result`.
- `locator.dfy`, module `Locator`: the pure specification of the sparse chain
  over any height-ordered sequence. `Samples` is the loop's reads from a given
  step on, and `SparseChain` is the whole locator. The lemmas give its closed
  form, its length, its first and last entries, and its strictly decreasing
  heights.
- `block_index.dfy`, module `CryptoNote`:
  - the opaque `Hash` type;
  - the database as a value `BlockchainDb` holding two lookup functions that
    may fail;
  - the index invariant `ChainIndexed`;
  - specification functions for the database-backed operations and the
    supplement lookup;
  - the class `BlockIndex`, whose fields `container: seq<Hash>` and
    `index: map<Hash, nat>` are the source's two members. Its methods have
    the source's loops and are proved against the specification functions.

The loop at lib/CryptoNoteCore/BlockIndex.cpp:111-113 reads H+1-i for
i = 1, 2, 4, 8, ...; from start height 10 it reads heights 10, 9, 7, 3 and
then appends genesis (`Locator.SamplesFromTen`).

## Model

| member | source | states |
|---|---|---|
| CryptoNote.BlockIndex.GetBlockId | lib/CryptoNoteCore/BlockIndex.cpp:26-31 | only for a height below the chain length (the `assert` becomes a precondition); the identity returned is mapped back to that same height by the reverse lookup |
| CryptoNote.BlockIndex.GetTailId | lib/CryptoNoteCore/BlockIndex.cpp:141-145 | only on a non-empty chain; returns the identity at height count-1, which is the highest height in the index |
| CryptoNote.BlockIndex.GetBlockHeight | lib/CryptoNoteCore/BlockIndex.cpp:105-108 | reverse lookup through `m_index`: `Some` exactly when the identity is stored, and then the height at which it is stored |
| CryptoNote.IndexedChainIsDistinct | lib/CryptoNoteCore/BlockIndex.cpp:105-108 | the index invariant (every stored identity maps to its own height, and there are no other keys) rules out one identity at two heights |
| CryptoNote.BlockIndex.GetBlockIds | lib/CryptoNoteCore/BlockIndex.cpp:33-50 | a start past the top yields an empty result, not an error; otherwise exactly min(maxCount, count - start) entries; entry j is the identity at height start + j |
| CryptoNote.BlockIndex.GetBlockIdsViaDb | lib/CryptoNoteCore/BlockIndex.cpp:52-71 | the same clipped slice of the in-memory chain as GetBlockIds; the database argument is never consulted |
| CryptoNote.BlockIndex.FindSupplement | lib/CryptoNoteCore/BlockIndex.cpp:73-82 | the in-order scan with early return yields `FirstKnown` of the candidates: None when no candidate is known, otherwise the height of the first known one |
| CryptoNote.FirstKnownIsFirst | lib/CryptoNoteCore/BlockIndex.cpp:73-82 | a supplement is found if and only if some candidate is in the index; when found, it is the height of a known candidate that no earlier candidate precedes in the index |
| CryptoNote.FirstCandidateViaDb | lib/CryptoNoteCore/BlockIndex.cpp:84-101 | database lookup as written: false (None) exactly for an empty list; for a non-empty list, a successful lookup of ids[0] returns true with that height, and a failed one escapes as the generic rethrown exception; nothing else is found or thrown |
| CryptoNote.BlockIndex.FindSupplementViaDb | lib/CryptoNoteCore/BlockIndex.cpp:84-101 | the loop with its unconditional return computes FirstCandidateViaDb; its invariant shows the loop never passes its first candidate |
| CryptoNote.FirstCandidateViaDbIgnoresRest | lib/CryptoNoteCore/BlockIndex.cpp:89-99 | the as-written database lookup of [id] + rest equals that of [id]: later candidates are never looked at |
| CryptoNote.FirstCandidateViaDbStopsAtFirst | lib/CryptoNoteCore/BlockIndex.cpp:73-101 | with an unknown first candidate and a known second one, on a database holding the same chain, the in-memory lookup and the corrected scan give the second candidate's height; the as-written database lookup throws |
| CryptoNote.BlockIndex.ScanSupplementViaDb | lib/CryptoNoteCore/BlockIndex.cpp:84-101 | corrected database lookup: a full in-order scan that skips NotFound and propagates a backend failure (computes FirstKnownViaDb) |
| CryptoNote.FirstKnownViaDbAgrees | lib/CryptoNoteCore/BlockIndex.cpp:73-101 | on a database holding the same chain, the corrected scan returns exactly the in-memory FindSupplement result and never fails |
| CryptoNote.BlockIndex.BuildSparseChain | lib/CryptoNoteCore/BlockIndex.cpp:103-121 | for a start identity present in the index (the `assert` becomes a precondition), the doubling loop plus the conditional genesis append yield exactly `SparseChain(container, height of start)` |
| Locator.SparseChain | lib/CryptoNoteCore/BlockIndex.cpp:110-118 | the locator is never empty, starts with the start block itself (height H) and always ends with genesis |
| Locator.SamplesAt | lib/CryptoNoteCore/BlockIndex.cpp:112-114 | closed form of the loop from step 2^m: its k-th read exists exactly when 2^(m+k) <= H+1, and it is the identity at height H+1-2^(m+k) |
| Locator.SparseChainSampleAt | lib/CryptoNoteCore/BlockIndex.cpp:111-114 | the loop reads an entry k exactly when 2^k <= H+1, and entry k of the locator is the identity at height H+1-2^k, so every index read lies in [0, H] |
| Locator.SampleCount | lib/CryptoNoteCore/BlockIndex.cpp:112-114 | the loop reads floor(log2(H+1)) + 1 identities |
| Locator.LastSample | lib/CryptoNoteCore/BlockIndex.cpp:112-118 | the last read is at height H+1-2^floor(log2(H+1)), which is 0 exactly when H+1 is a power of two |
| Locator.SparseChainLength | lib/CryptoNoteCore/BlockIndex.cpp:112-118 | with distinct identities, the locator has floor(log2(H+1)) + 1 entries when H+1 is a power of two, and one more (the appended genesis) otherwise |
| Locator.SparseChainOfGenesis | lib/CryptoNoteCore/BlockIndex.cpp:111-118 | starting at genesis the locator is exactly [genesis]: no duplicate genesis entry is appended |
| Locator.SamplesFromTen | lib/CryptoNoteCore/BlockIndex.cpp:111-114 | from start height 10 the loop reads heights 10, 9, 7 and 3 |
| Locator.SparseChainEntryAt | lib/CryptoNoteCore/BlockIndex.cpp:111-118 | each locator entry is the identity at its entry height, which lies in [0, H] |
| Locator.SampleHeightsDecrease | lib/CryptoNoteCore/BlockIndex.cpp:112-114 | the heights the loop reads strictly decrease |
| Locator.GenesisAppendedAfterPositiveHeight | lib/CryptoNoteCore/BlockIndex.cpp:116-118 | genesis is appended only when the last read is at a height above 0 |
| Locator.SparseChainEntriesDecrease | lib/CryptoNoteCore/BlockIndex.cpp:112-118 | entry heights strictly decrease along the whole locator, the appended genesis included |
| CryptoNote.SparseChainHeightsDecrease | lib/CryptoNoteCore/BlockIndex.cpp:103-121 | on an indexed chain every locator entry is a known block at or below the start height, and its indexed heights strictly decrease |
| CryptoNote.DbSamples | lib/CryptoNoteCore/BlockIndex.cpp:129-132 | the database reads of the loop, in order, with the first failure escaping; a successful read from step i <= end starts with the identity at height end - i |
| CryptoNote.DbSparseChain | lib/CryptoNoteCore/BlockIndex.cpp:123-139 | a successful database-backed locator is non-empty, starts with the database's identity at the start height, and ends with the in-memory genesis |
| CryptoNote.BlockIndex.BuildSparseChainViaDb | lib/CryptoNoteCore/BlockIndex.cpp:123-139 | the loop over database reads plus the in-memory genesis append yields exactly DbSparseChain; any database failure escapes unchanged |
| CryptoNote.DbSamplesAgree | lib/CryptoNoteCore/BlockIndex.cpp:129-132 | on a database holding the same chain, the database reads equal the in-memory reads |
| CryptoNote.DbSparseChainAgrees | lib/CryptoNoteCore/BlockIndex.cpp:123-139 | on a database holding the same chain, the database-backed locator equals the in-memory one and does not fail |

## Left out

- `serialize` (lib/CryptoNoteCore/BlockIndex.cpp:147-154) is not part of the model. It is byte I/O through `ISerializer` and the `readSequence`/`writeSequence` templates, which are not part of this model. The code in BlockIndex.cpp names only `m_container`.
- The header `BlockIndex.h` is not part of this model: `push`, `pop` and the other members that grow or shrink the chain are not modelled. `GetBlockHeight` is modelled as a lookup in the `index` map, which is what the class invariant makes it mean. The class gets only an empty constructor.
- Hash computation and layout: `Hash` is an opaque type with equality only.
- `BlockchainDB` internals: the database is two total functions that return a `Result`. An exception is an `Err` value. The dead `return false` after the rethrow at line 96 has no counterpart.
- uint32 wrap-around is not modelled. `Valid()` bounds the chain to 0xFFFF_FFFF blocks, so `startBlockHeight + 1` never wraps. `BuildSparseChainViaDb` requires the database's start height to be below 0xFFFF_FFFF. Range arguments are unbounded naturals; the source adds them in `size_t`, where they do not overflow.
- CryptoNote.BlockIndex.FindSupplement: the source's `bool` result plus `offset` out-parameter becomes `Option<nat>`. The model therefore says nothing about the caller's `offset` variable when no candidate is found.
- CryptoNote.BlockIndex.BuildSparseChainViaDb: requires a non-empty in-memory chain, because the source reads `m_container[0]` unchecked.
- Concurrency and the exclusive-access assumption: the model is sequential.

## Findings

| source | as written | input that shows it | evidently intended | confidence | as-written member | corrected member |
|---|---|---|---|---|---|---|
| lib/CryptoNoteCore/BlockIndex.cpp:89-99 | the loop body returns on its first iteration in every case, so only `ids[0]` is looked up, and an unknown first candidate makes the database throw, which is rethrown as a generic exception | ids = [a, b] with a not in the chain and b in it, on a database that holds the same chain as memory: the in-memory overload returns b's height, this one throws | scan the candidates in order, skipping unknown ones, as the in-memory overload at lines 73-82 does, and propagate only real backend failures | medium (not executed) | CryptoNote.FirstCandidateViaDbStopsAtFirst | CryptoNote.FirstKnownViaDbAgrees |
