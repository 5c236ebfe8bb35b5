/**
  The block index of a CryptoNote node: the accepted chain as a height-ordered
  sequence of block identities, a reverse map from identity to height, range
  queries, supplement lookup and locator (sparse chain) construction, each
  either over the in-memory store or over an external block database.
 */
module CryptoNote {
  import opened Wrappers
  import opened Locator

  /** A block identity (content hash); only equality is observed. */
  type Hash(==, !new)

  /** Heights are uint32 in the source. */
  type Uint32 = x: nat | x < 0x1_0000_0000

  /** Largest chain length for which `height + 1` does not wrap in uint32. */
  const MaxBlockCount: nat := 0xFFFF_FFFF

  /** How a lookup in the external block database fails. */
  datatype DbError = NotFound | BackendFailure

  /** What escapes from a database-backed operation of the index. */
  datatype Error =
    | DbFailure(cause: DbError)  // the database's exception, propagated unchanged
    | Rethrown                   // a fresh, generic exception replacing the database's one

  /**
    The external block database, reduced to its two lookups: height of an
    identity, and identity at a height. Either may fail.
   */
  datatype BlockchainDb = BlockchainDb(
    heightOf: Hash -> Result<Uint32, DbError>,
    hashAt: nat -> Result<Hash, DbError>)

  /**
    The index invariant: the reverse map sends every stored identity to its
    height, and has no other keys.
   */
  ghost predicate ChainIndexed(c: seq<Hash>, index: map<Hash, nat>) {
    && (forall h :: 0 <= h < |c| ==> c[h] in index && index[c[h]] == h)
    && (forall id :: id in index ==> index[id] < |c| && c[index[id]] == id)
  }

  /** The database holds the same chain as the in-memory index. */
  ghost predicate DbAgrees(db: BlockchainDb, c: seq<Hash>, index: map<Hash, nat>) {
    && (forall id :: db.heightOf(id) == if id in index then Ok(index[id]) else Err(NotFound))
    && (forall h: nat :: h < |c| ==> db.hashAt(h) == Ok(c[h]))
  }

  /** An indexed chain never holds one identity at two heights. */
  lemma IndexedChainIsDistinct(c: seq<Hash>, index: map<Hash, nat>)
    requires ChainIndexed(c, index)
    ensures Distinct(c)
  {
  }

  /**
    Every entry of the in-memory sparse chain is a known block at or below
    the start height, and the heights strictly decrease along the chain
    (the appended genesis entry included).
   */
  lemma SparseChainHeightsDecrease(c: seq<Hash>, index: map<Hash, nat>, H: nat)
    requires ChainIndexed(c, index) && H < |c|
    ensures forall j :: 0 <= j < |SparseChain(c, H)| ==>
      SparseChain(c, H)[j] in index && index[SparseChain(c, H)[j]] <= H
    ensures forall j, j' :: 0 <= j < j' < |SparseChain(c, H)| ==>
      index[SparseChain(c, H)[j']] < index[SparseChain(c, H)[j]]
  {
    var r := SparseChain(c, H);
    forall j | 0 <= j < |r| ensures r[j] in index && index[r[j]] == EntryHeight(c, H, j) <= H {
      SparseChainEntryAt(c, H, j);
    }
    forall j, j' | 0 <= j < j' < |r| ensures EntryHeight(c, H, j') < EntryHeight(c, H, j) {
      SparseChainEntriesDecrease(c, H, j, j');
    }
  }

  /** Prefixes `done` to a successful read, and passes a failure through. */
  function Prefixed(done: seq<Hash>, r: Result<seq<Hash>, DbError>): Result<seq<Hash>, DbError> {
    if r.Ok? then Ok(done + r.value) else r
  }

  lemma PrefixedTwice(done: seq<Hash>, more: seq<Hash>, r: Result<seq<Hash>, DbError>)
    ensures Prefixed(done, Prefixed(more, r)) == Prefixed(done + more, r)
  {
    if r.Ok? {
      assert done + (more + r.value) == (done + more) + r.value;
    }
  }

  /**
    The database reads of the doubling loop from step `i` on: the identities
    at heights end - i, end - 2i, ..., read in that order; the first failing
    read escapes.
   */
  function DbSamples(db: BlockchainDb, end: nat, i: nat): (r: Result<seq<Hash>, DbError>)
    requires 1 <= i
    ensures r.Ok? && i <= end ==> |r.value| > 0 && db.hashAt(end - i) == Ok(r.value[0])
    decreases end + 1 - i
  {
    if i > end then Ok([])
    else match db.hashAt(end - i)
      case Err(e) => Err(e)
      case Ok(id) => Prefixed([id], DbSamples(db, end, 2 * i))
  }

  /**
    The database-backed sparse chain: heights and identities come from the
    database, while the genesis entry compared with and appended is the
    in-memory one, `genesis`.
   */
  function DbSparseChain(db: BlockchainDb, startId: Hash, genesis: Hash): (r: Result<seq<Hash>, Error>)
    ensures r.Ok? ==> |r.value| > 0 && r.value[|r.value| - 1] == genesis
    ensures r.Ok? ==> db.heightOf(startId).Ok? && db.hashAt(db.heightOf(startId).value) == Ok(r.value[0])
  {
    match db.heightOf(startId)
    case Err(e) => Err(DbFailure(e))
    case Ok(H) =>
      match DbSamples(db, H + 1, 1)
      case Err(e) => Err(DbFailure(e))
      case Ok(samples) =>
        Ok(if samples[|samples| - 1] != genesis then samples + [genesis] else samples)
  }

  lemma {:induction false} DbSamplesAgree(db: BlockchainDb, c: seq<Hash>, index: map<Hash, nat>, end: nat, i: nat)
    requires DbAgrees(db, c, index) && 1 <= i && end <= |c|
    ensures DbSamples(db, end, i) == Ok(Samples(c, end, i))
    decreases end + 1 - i
  {
    if i <= end {
      DbSamplesAgree(db, c, index, end, 2 * i);
      assert db.hashAt(end - i) == Ok(c[end - i]);
    }
  }

  /** A database holding the same chain yields the same sparse chain as the in-memory index. */
  lemma DbSparseChainAgrees(db: BlockchainDb, c: seq<Hash>, index: map<Hash, nat>, startId: Hash)
    requires ChainIndexed(c, index) && DbAgrees(db, c, index) && startId in index
    ensures DbSparseChain(db, startId, c[0]) == Ok(SparseChain(c, index[startId]))
  {
    var H := index[startId];
    assert db.heightOf(startId) == Ok(H);
    DbSamplesAgree(db, c, index, H + 1, 1);
  }

  /** The first candidate that the index knows, with its height. */
  function FirstKnown(index: map<Hash, nat>, ids: seq<Hash>): Option<nat> {
    if ids == [] then None
    else if ids[0] in index then Some(index[ids[0]])
    else FirstKnown(index, ids[1..])
  }

  /**
    A supplement is found exactly when some candidate is known, and then it is
    the height of the first known candidate in list order.
   */
  lemma {:induction false} FirstKnownIsFirst(index: map<Hash, nat>, ids: seq<Hash>)
    ensures FirstKnown(index, ids).Some? <==> exists j :: 0 <= j < |ids| && ids[j] in index
    ensures FirstKnown(index, ids).Some? ==>
      exists j :: 0 <= j < |ids| && ids[j] in index && index[ids[j]] == FirstKnown(index, ids).value &&
        forall j' :: 0 <= j' < j ==> ids[j'] !in index
    decreases |ids|
  {
    if ids != [] && ids[0] !in index {
      FirstKnownIsFirst(index, ids[1..]);
      if exists j :: 0 <= j < |ids| && ids[j] in index {
        var j :| 0 <= j < |ids| && ids[j] in index;
        assert ids[1..][j - 1] == ids[j];
      }
      if FirstKnown(index, ids).Some? {
        var j :| 0 <= j < |ids[1..]| && ids[1..][j] in index && index[ids[1..][j]] == FirstKnown(index, ids).value &&
          forall j' :: 0 <= j' < j ==> ids[1..][j'] !in index;
        assert forall j' :: 1 <= j' < j + 1 ==> ids[j'] == ids[1..][j' - 1];
        assert ids[j + 1] == ids[1..][j];
      }
    }
  }

  /**
    The database-backed supplement lookup as written: it returns from inside
    its loop on the first candidate, so only ids[0] is ever looked up, and any
    failure of that lookup escapes as a fresh generic exception.
   */
  function FirstCandidateViaDb(db: BlockchainDb, ids: seq<Hash>): (r: Result<Option<nat>, Error>)
    ensures ids == [] <==> r == Ok(None)
    ensures r.Err? ==> r.error == Rethrown
    ensures r.Ok? && r.value.Some? ==> db.heightOf(ids[0]) == Ok(r.value.value)
    ensures ids != [] && db.heightOf(ids[0]).Ok? ==> r == Ok(Some(db.heightOf(ids[0]).value))
    ensures ids != [] && db.heightOf(ids[0]).Err? ==> r == Err(Rethrown)
  {
    if ids == [] then Ok(None)
    else match db.heightOf(ids[0])
      case Ok(h) => Ok(Some(h))
      case Err(_) => Err(Rethrown)
  }

  /** Only the first candidate matters to the as-written database lookup. */
  lemma FirstCandidateViaDbIgnoresRest(db: BlockchainDb, id: Hash, rest: seq<Hash>)
    ensures FirstCandidateViaDb(db, [id] + rest) == FirstCandidateViaDb(db, [id])
  {
  }

  /**
    The evidently intended database-backed lookup: scan the candidates in
    order, skip those the database does not know, and propagate any other
    database failure.
   */
  function FirstKnownViaDb(db: BlockchainDb, ids: seq<Hash>): Result<Option<nat>, Error> {
    if ids == [] then Ok(None)
    else match db.heightOf(ids[0])
      case Ok(h) => Ok(Some(h))
      case Err(NotFound) => FirstKnownViaDb(db, ids[1..])
      case Err(BackendFailure) => Err(DbFailure(BackendFailure))
  }

  /** The corrected database lookup agrees with the in-memory one on the same chain. */
  lemma {:induction false} FirstKnownViaDbAgrees(db: BlockchainDb, c: seq<Hash>, index: map<Hash, nat>, ids: seq<Hash>)
    requires DbAgrees(db, c, index)
    ensures FirstKnownViaDb(db, ids) == Ok(FirstKnown(index, ids))
    decreases |ids|
  {
    if ids != [] {
      assert db.heightOf(ids[0]) == if ids[0] in index then Ok(index[ids[0]]) else Err(NotFound);
      FirstKnownViaDbAgrees(db, c, index, ids[1..]);
    }
  }

  /**
    The as-written database lookup departs from the in-memory one: with an
    unknown first candidate `a` and a known second one `b`, the in-memory
    lookup and the corrected scan report b's height, while the as-written
    one throws.
   */
  lemma FirstCandidateViaDbStopsAtFirst(db: BlockchainDb, c: seq<Hash>, index: map<Hash, nat>, a: Hash, b: Hash)
    requires DbAgrees(db, c, index) && a !in index && b in index
    ensures FirstKnown(index, [a, b]) == Some(index[b])
    ensures FirstKnownViaDb(db, [a, b]) == Ok(Some(index[b]))
    ensures FirstCandidateViaDb(db, [a, b]) == Err(Rethrown)
  {
  }

  class BlockIndex {
    /** Identity at each height; height 0 is genesis. */
    var container: seq<Hash>
    /** Height of each stored identity. */
    var index: map<Hash, nat>

    ghost predicate Valid()
      reads this
    {
      ChainIndexed(container, index) && |container| <= MaxBlockCount
    }

    constructor ()
      ensures Valid() && container == [] && index == map[]
    {
      container := [];
      index := map[];
    }

    /** Reverse lookup: the height of a stored identity, None for an unknown one. */
    function GetBlockHeight(id: Hash): (h: Option<nat>)
      reads this
      requires Valid()
      ensures h.Some? <==> exists j :: 0 <= j < |container| && container[j] == id
      ensures h.Some? ==> h.value < |container| && container[h.value] == id
    {
      if id in index then Some(index[id]) else None
    }

    /** The identity at a stored height; the reverse map sends it back to that height. */
    function GetBlockId(height: nat): (id: Hash)
      reads this
      requires Valid() && height < |container|
      ensures GetBlockHeight(id) == Some(height)
    {
      container[height]
    }

    /** The identity at the top of a non-empty chain. */
    function GetTailId(): (id: Hash)
      reads this
      requires Valid() && |container| > 0
      ensures GetBlockHeight(id) == Some(|container| - 1)
      ensures forall h :: 0 <= h < |container| ==> index[container[h]] <= index[id]
    {
      container[|container| - 1]
    }

    /**
      Up to maxCount consecutive identities from height start on: empty when
      start is past the top, else min(maxCount, |container| - start) of them,
      in height order.
     */
    method GetBlockIds(start: nat, maxCount: nat) returns (result: seq<Hash>)
      requires Valid()
      ensures start >= |container| ==> result == []
      ensures start < |container| ==> |result| == Min(maxCount, |container| - start)
      ensures forall j :: 0 <= j < |result| ==> result[j] == container[start + j]
    {
      result := [];
      if start >= |container| {
        return;
      }
      var count := Min(maxCount, |container| - start);
      for i := 0 to count
        invariant result == container[start..start + i]
      {
        result := result + [container[start + i]];
      }
    }

    /**
      The database-backed range query: it never consults the database and
      returns exactly what GetBlockIds returns.
     */
    method GetBlockIdsViaDb(start: nat, maxCount: nat, db: BlockchainDb) returns (result: seq<Hash>)
      requires Valid()
      ensures start >= |container| ==> result == []
      ensures start < |container| ==> |result| == Min(maxCount, |container| - start)
      ensures forall j :: 0 <= j < |result| ==> result[j] == container[start + j]
    {
      result := [];
      if start >= |container| {
        return;
      }
      var count := Min(maxCount, |container| - start);
      for i := 0 to count
        invariant result == container[start..start + i]
      {
        result := result + [container[start + i]];
      }
    }

    /** The height of the first candidate the index knows, or None when it knows none. */
    method FindSupplement(ids: seq<Hash>) returns (offset: Option<nat>)
      requires Valid()
      ensures offset == FirstKnown(index, ids)
    {
      for j := 0 to |ids|
        invariant FirstKnown(index, ids[j..]) == FirstKnown(index, ids)
      {
        assert ids[j..][1..] == ids[j + 1..];
        var h := GetBlockHeight(ids[j]);
        if h.Some? {
          return h;
        }
      }
      return None;
    }

    /**
      The database-backed supplement lookup as written: the loop never gets
      past its first candidate.
     */
    method FindSupplementViaDb(ids: seq<Hash>, db: BlockchainDb) returns (r: Result<Option<nat>, Error>)
      ensures r == FirstCandidateViaDb(db, ids)
    {
      for j := 0 to |ids|
        invariant j == 0
      {
        match db.heightOf(ids[j])
        case Ok(h) =>
          return Ok(Some(h));
        case Err(_) =>
          return Err(Rethrown);
      }
      return Ok(None);
    }

    /** The corrected database-backed supplement lookup: a full in-order scan. */
    method ScanSupplementViaDb(ids: seq<Hash>, db: BlockchainDb) returns (r: Result<Option<nat>, Error>)
      ensures r == FirstKnownViaDb(db, ids)
    {
      for j := 0 to |ids|
        invariant FirstKnownViaDb(db, ids[j..]) == FirstKnownViaDb(db, ids)
      {
        assert ids[j..][1..] == ids[j + 1..];
        match db.heightOf(ids[j])
        case Ok(h) =>
          return Ok(Some(h));
        case Err(NotFound) =>
        case Err(BackendFailure) =>
          return Err(DbFailure(BackendFailure));
      }
      return Ok(None);
    }

    /** The sparse chain (locator) from a known start block down to genesis. */
    method BuildSparseChain(startId: Hash) returns (result: seq<Hash>)
      requires Valid() && startId in index
      ensures result == SparseChain(container, index[startId])
    {
      var startHeight := GetBlockHeight(startId).value;
      var sparseChainEnd: int := startHeight + 1;
      result := [];
      var i := 1;
      while i <= sparseChainEnd
        invariant i >= 1
        invariant result + Samples(container, sparseChainEnd, i) == Samples(container, sparseChainEnd, 1)
        decreases sparseChainEnd + 1 - i
      {
        var id := container[sparseChainEnd - i];
        assert result + ([id] + Samples(container, sparseChainEnd, 2 * i)) ==
          (result + [id]) + Samples(container, sparseChainEnd, 2 * i);
        result := result + [id];
        i := i * 2;
      }
      assert result + [] == result;
      if result[|result| - 1] != container[0] {
        result := result + [container[0]];
      }
    }

    /**
      The database-backed sparse chain: the start height and the identities
      read come from the database, the genesis entry from memory. Database
      failures escape unchanged.
     */
    method BuildSparseChainViaDb(startId: Hash, db: BlockchainDb) returns (r: Result<seq<Hash>, Error>)
      requires |container| > 0
      requires db.heightOf(startId).Ok? ==> db.heightOf(startId).value < MaxBlockCount
      ensures r == DbSparseChain(db, startId, container[0])
    {
      var height := db.heightOf(startId);
      if height.Err? {
        return Err(DbFailure(height.error));
      }
      var sparseChainEnd: int := height.value + 1;
      var result := [];
      var i := 1;
      assert Prefixed(result, DbSamples(db, sparseChainEnd, i)) == DbSamples(db, sparseChainEnd, 1) by {
        if DbSamples(db, sparseChainEnd, 1).Ok? {
          assert result + DbSamples(db, sparseChainEnd, 1).value == DbSamples(db, sparseChainEnd, 1).value;
        }
      }
      while i <= sparseChainEnd
        invariant i >= 1
        invariant Prefixed(result, DbSamples(db, sparseChainEnd, i)) == DbSamples(db, sparseChainEnd, 1)
        decreases sparseChainEnd + 1 - i
      {
        var id := db.hashAt(sparseChainEnd - i);
        if id.Err? {
          return Err(DbFailure(id.error));
        }
        PrefixedTwice(result, [id.value], DbSamples(db, sparseChainEnd, 2 * i));
        result := result + [id.value];
        i := i * 2;
      }
      assert result + [] == result;
      if result[|result| - 1] != container[0] {
        result := result + [container[0]];
      }
      r := Ok(result);
    }
  }

  function Min(a: nat, b: nat): nat {
    if a <= b then a else b
  }
}
