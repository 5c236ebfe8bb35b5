/**
  The sparse chain ("locator") that a node sends to a peer so that the two can
  find their last common block. Starting from a block at height H the locator
  reads the heights H+1-1, H+1-2, H+1-4, ... while the step 2^k does not
  exceed H+1, and then appends the genesis block unless the last identity read
  already is it.

  Everything here is a pure specification over an arbitrary height-ordered
  sequence `c` (c[h] is the identity at height h); the class in module
  CryptoNote builds the same sequence with the source's doubling loop.
 */
module Locator {

  /** 2^k */
  function Pow2(k: nat): (p: nat)
    ensures p >= 1
  {
    if k == 0 then 1 else 2 * Pow2(k - 1)
  }

  /** floor(log2 n) */
  function Log2(n: nat): nat
    requires n >= 1
  {
    if n == 1 then 0 else 1 + Log2(n / 2)
  }

  ghost predicate IsPow2(n: nat) {
    exists k: nat :: Pow2(k) == n
  }

  predicate Distinct<T(==)>(c: seq<T>) {
    forall j, j' :: 0 <= j < j' < |c| ==> c[j] != c[j']
  }

  /**
    What the doubling loop reads once its step has reached `i`: the
    identities at heights end - i, end - 2i, end - 4i, ... while the step
    does not exceed `end`. Each height read is at least 0 and below `end`.
   */
  function Samples<T>(c: seq<T>, end: nat, i: nat): seq<T>
    requires 1 <= i && end <= |c|
    decreases end + 1 - i
  {
    if i > end then [] else [c[end - i]] + Samples(c, end, 2 * i)
  }

  /**
    The sparse chain for the block at height H: the identities read by the
    loop, then the genesis identity c[0] unless the last one read already
    equals it. It always starts with the start block itself and always ends
    at genesis.
   */
  function SparseChain<T(==)>(c: seq<T>, H: nat): (r: seq<T>)
    requires H < |c|
    ensures |r| > 0 && r[0] == c[H] && r[|r| - 1] == c[0]
  {
    var samples := Samples(c, H + 1, 1);
    if samples[|samples| - 1] != c[0] then samples + [c[0]] else samples
  }

  lemma {:induction false} Pow2Increasing(a: nat, b: nat)
    requires a < b
    ensures Pow2(a) < Pow2(b)
    decreases b
  {
    if a < b - 1 {
      Pow2Increasing(a, b - 1);
    }
  }

  /** Log2 is the floor of the base-2 logarithm. */
  lemma {:induction false} Log2Bounds(n: nat)
    requires n >= 1
    ensures Pow2(Log2(n)) <= n < Pow2(Log2(n) + 1)
  {
    if n > 1 {
      Log2Bounds(n / 2);
    }
  }

  /**
    Closed form of the loop from step 2^m on: its k-th read exists exactly
    when 2^(m+k) <= end, and it reads height end - 2^(m+k).
   */
  lemma {:induction false} SamplesAt<T>(c: seq<T>, end: nat, m: nat, k: nat)
    requires end <= |c|
    ensures k < |Samples(c, end, Pow2(m))| <==> Pow2(m + k) <= end
    ensures k < |Samples(c, end, Pow2(m))| ==> Samples(c, end, Pow2(m))[k] == c[end - Pow2(m + k)]
    decreases k
  {
    if Pow2(m) <= end {
      assert 2 * Pow2(m) == Pow2(m + 1);
      if k > 0 {
        SamplesAt(c, end, m + 1, k - 1);
      }
    } else if k > 0 {
      Pow2Increasing(m, m + k);
    }
  }

  /**
    Entry k of the sparse chain, for exactly the k with 2^k <= H+1, is a
    read of the loop, namely c[H+1-2^k]: a height in [0, H].
   */
  lemma SparseChainSampleAt<T>(c: seq<T>, H: nat, k: nat)
    requires H < |c|
    ensures k < |Samples(c, H + 1, 1)| <==> Pow2(k) <= H + 1
    ensures Pow2(k) <= H + 1 ==> k < |SparseChain(c, H)| && SparseChain(c, H)[k] == c[H + 1 - Pow2(k)]
  {
    SamplesAt(c, H + 1, 0, k);
  }

  /** The height that entry j of the sparse chain is read from. */
  ghost function EntryHeight<T>(c: seq<T>, H: nat, j: nat): nat
    requires H < |c|
  {
    if j < |Samples(c, H + 1, 1)| && Pow2(j) <= H + 1 then H + 1 - Pow2(j) else 0
  }

  /** Every entry of the sparse chain is the identity at a height in [0, H]. */
  lemma SparseChainEntryAt<T>(c: seq<T>, H: nat, j: nat)
    requires H < |c| && j < |SparseChain(c, H)|
    ensures EntryHeight(c, H, j) <= H && SparseChain(c, H)[j] == c[EntryHeight(c, H, j)]
  {
    SparseChainSampleAt(c, H, j);
  }

  /** The heights read by the loop strictly decrease. */
  lemma SampleHeightsDecrease<T>(c: seq<T>, H: nat, j: nat, j': nat)
    requires H < |c| && j < j' < |Samples(c, H + 1, 1)|
    ensures EntryHeight(c, H, j') < EntryHeight(c, H, j)
  {
    SparseChainSampleAt(c, H, j);
    SparseChainSampleAt(c, H, j');
    Pow2Increasing(j, j');
  }

  /** Genesis is appended only after a last read above height 0. */
  lemma GenesisAppendedAfterPositiveHeight<T>(c: seq<T>, H: nat)
    requires H < |c| && |SparseChain(c, H)| > |Samples(c, H + 1, 1)|
    ensures EntryHeight(c, H, |Samples(c, H + 1, 1)| - 1) > 0
  {
    var samples := Samples(c, H + 1, 1);
    var n := |samples|;
    assert samples[n - 1] != c[0];
    SparseChainSampleAt(c, H, n - 1);
  }

  /**
    The heights along the sparse chain strictly decrease, the appended
    genesis entry included: it is appended only after a read above height 0.
   */
  lemma SparseChainEntriesDecrease<T>(c: seq<T>, H: nat, j: nat, j': nat)
    requires H < |c| && j < j' < |SparseChain(c, H)|
    ensures EntryHeight(c, H, j') < EntryHeight(c, H, j)
  {
    var samples := Samples(c, H + 1, 1);
    var n := |samples|;
    if j' < n {
      SampleHeightsDecrease(c, H, j, j');
    } else {
      GenesisAppendedAfterPositiveHeight(c, H);
      if j < n - 1 {
        SampleHeightsDecrease(c, H, j, n - 1);
      }
    }
  }

  /** The loop reads floor(log2(H+1)) + 1 identities. */
  lemma SampleCount<T>(c: seq<T>, H: nat)
    requires H < |c|
    ensures |Samples(c, H + 1, 1)| == Log2(H + 1) + 1
  {
    var n := H + 1;
    Log2Bounds(n);
    SamplesAt(c, n, 0, Log2(n));
    SamplesAt(c, n, 0, Log2(n) + 1);
  }

  /**
    The last read is at height H+1-2^floor(log2(H+1)), which is genesis
    exactly when H+1 is a power of two.
   */
  lemma LastSample<T>(c: seq<T>, H: nat)
    requires H < |c|
    ensures |Samples(c, H + 1, 1)| == Log2(H + 1) + 1
    ensures Pow2(Log2(H + 1)) <= H + 1
    ensures Samples(c, H + 1, 1)[Log2(H + 1)] == c[H + 1 - Pow2(Log2(H + 1))]
    ensures H + 1 - Pow2(Log2(H + 1)) == 0 <==> IsPow2(H + 1)
  {
    var n := H + 1;
    var L := Log2(n);
    SampleCount(c, H);
    Log2Bounds(n);
    SamplesAt(c, n, 0, L);
    if IsPow2(n) {
      var k: nat :| Pow2(k) == n;
      if k < L {
        Pow2Increasing(k, L);
      } else if k > L {
        Pow2Increasing(L + 1, k);
      }
    }
  }

  /**
    With distinct identities the sparse chain holds floor(log2(H+1)) + 1
    reads, plus one appended genesis entry exactly when H+1 is not a power
    of two.
   */
  lemma SparseChainLength<T>(c: seq<T>, H: nat)
    requires H < |c| && Distinct(c)
    ensures |SparseChain(c, H)| == Log2(H + 1) + (if IsPow2(H + 1) then 1 else 2)
  {
    LastSample(c, H);
  }

  /** A chain holding only genesis yields exactly [genesis]. */
  lemma SparseChainOfGenesis<T>(c: seq<T>)
    requires |c| > 0
    ensures SparseChain(c, 0) == [c[0]]
  {
  }

  /** Start height 10: the loop reads heights 10, 9, 7 and 3. */
  lemma SamplesFromTen<T>(c: seq<T>)
    requires |c| > 10
    ensures Samples(c, 11, 1) == [c[10], c[9], c[7], c[3]]
  {
  }
}
