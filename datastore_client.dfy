/**
 * The client wrapping the puzzle store (datastore_client.py): entities, the
 * inclusive id-range query, and the batched insertion of index puzzles.
 *
 * The store itself is a dependency; the client's view of it is its state: every
 * `put_multi` call in order (`batches`), the key allocator (`nextKeyId`) and every
 * `update` call in order (`updates`).
 */
module Datastore {
  import opened Wrappers
  import opened KakurizerTypes

  /** Entity kind under which puzzles are stored. */
  const CLOUDSTORE_TYPE := "kakuro"
  /** Largest number of mutations the store accepts in one call. */
  const MAX_PUT_SIZE := 500
  /** Largest signed 64-bit integer, the default bound of an id query. */
  const DATASTORE_MAX_INT := 9223372036854775807

  datatype Key = Key(kind: string, id: int)

  /** A property value of an entity. */
  datatype Value =
    | IntValue(i: int)
    | StringValue(s: string)
    | BoolValue(b: bool)
    | BlobValue(bytes: seq<byte>)

  /** An entity as the store persists it. */
  datatype EntityValue = EntityValue(key: Key, props: map<string, Value>, excludeFromIndexes: seq<string>)

  /** An entity held by the program, whose properties are assigned in place. */
  class Entity {
    const key: Key
    var props: map<string, Value>
    var excludeFromIndexes: seq<string>

    constructor (key: Key, props: map<string, Value>)
      ensures this.key == key && this.props == props && excludeFromIndexes == []
    {
      this.key := key;
      this.props := props;
      excludeFromIndexes := [];
    }

    /** The entity as it would be written to the store now. */
    function Snapshot(): EntityValue
      reads this
    {
      EntityValue(key, props, excludeFromIndexes)
    }
  }

  // ---------------------------------------------------------------------------
  // Index entities (make_index_puzzle)
  // ---------------------------------------------------------------------------

  /** `make_index_puzzle`: an entity with the given key holding the puzzle's four fields. */
  function MakeIndexPuzzle(puzzle: IndexPuzzle, key: Key): EntityValue {
    EntityValue(key,
                map["id" := IntValue(puzzle.id),
                    "timestamp_millis" := IntValue(puzzle.timestampMillis),
                    "difficulty" := StringValue(puzzle.difficulty),
                    "page_url" := StringValue(puzzle.pageUrl)],
                [])
  }

  /** Reads an index puzzle back from an entity's fields. */
  function IndexPuzzleOf(e: EntityValue): Option<IndexPuzzle> {
    if && "id" in e.props && e.props["id"].IntValue?
       && "timestamp_millis" in e.props && e.props["timestamp_millis"].IntValue?
       && "page_url" in e.props && e.props["page_url"].StringValue?
       && "difficulty" in e.props && e.props["difficulty"].StringValue?
    then Some(IndexPuzzle(e.props["id"].i, e.props["timestamp_millis"].i,
                          e.props["page_url"].s, e.props["difficulty"].s))
    else None
  }

  /** The entity built for a puzzle has exactly the four puzzle fields, under the given key, and they read back as the puzzle. */
  lemma MakeIndexPuzzleRoundTrip(puzzle: IndexPuzzle, key: Key)
    ensures MakeIndexPuzzle(puzzle, key).key == key
    ensures MakeIndexPuzzle(puzzle, key).props.Keys == {"id", "timestamp_millis", "difficulty", "page_url"}
    ensures MakeIndexPuzzle(puzzle, key).excludeFromIndexes == []
    ensures IndexPuzzleOf(MakeIndexPuzzle(puzzle, key)) == Some(puzzle)
  {
  }

  /** The entities written for `puzzles` when the allocator starts at `firstKeyId`: puzzle `p` gets the `p`-th key. */
  function IndexEntities(puzzles: seq<IndexPuzzle>, firstKeyId: int): (es: seq<EntityValue>)
    ensures |es| == |puzzles|
  {
    seq(|puzzles|, p requires 0 <= p < |puzzles| => MakeIndexPuzzle(puzzles[p], Key(CLOUDSTORE_TYPE, firstKeyId + p)))
  }

  /** The entities of one chunk: puzzle `p` of the chunk paired with key `p`. */
  function ChunkEntities(chunk: seq<IndexPuzzle>, keys: seq<Key>): (es: seq<EntityValue>)
    requires |keys| == |chunk|
    ensures |es| == |chunk|
  {
    seq(|chunk|, p requires 0 <= p < |chunk| => MakeIndexPuzzle(chunk[p], keys[p]))
  }

  /** The entities of a chunk whose keys continue the allocation are that slice of all the entities. */
  lemma ChunkOfIndexEntities(puzzles: seq<IndexPuzzle>, firstKeyId: int, lo: nat, hi: nat, keys: seq<Key>)
    requires lo <= hi <= |puzzles| && |keys| == hi - lo
    requires forall i :: 0 <= i < |keys| ==> keys[i] == Key(CLOUDSTORE_TYPE, firstKeyId + lo + i)
    ensures ChunkEntities(puzzles[lo..hi], keys) == IndexEntities(puzzles, firstKeyId)[lo..hi]
  {
  }

  // ---------------------------------------------------------------------------
  // Chunking into batches
  // ---------------------------------------------------------------------------

  function Min(a: int, b: int): int { if a < b then a else b }

  /** Consecutive slices of `s` of MAX_PUT_SIZE elements, the last one possibly shorter. */
  function Chunks<T>(s: seq<T>): (chunks: seq<seq<T>>)
    ensures forall k :: 0 <= k < |chunks| ==> 0 < |chunks[k]| <= MAX_PUT_SIZE
    decreases |s|
  {
    if |s| == 0 then []
    else if |s| <= MAX_PUT_SIZE then [s]
    else [s[..MAX_PUT_SIZE]] + Chunks(s[MAX_PUT_SIZE..])
  }

  function Flatten<T>(ss: seq<seq<T>>): seq<T>
    decreases |ss|
  {
    if |ss| == 0 then [] else ss[0] + Flatten(ss[1..])
  }

  lemma {:induction false} FlattenAppend<T>(a: seq<seq<T>>, b: seq<seq<T>>)
    ensures Flatten(a + b) == Flatten(a) + Flatten(b)
    decreases |a|
  {
    if |a| == 0 {
      assert a + b == b;
    } else {
      assert (a + b)[1..] == a[1..] + b;
      FlattenAppend(a[1..], b);
    }
  }

  /** The chunks, concatenated in order, are the input. */
  lemma {:induction false} FlattenChunks<T>(s: seq<T>)
    ensures Flatten(Chunks(s)) == s
    decreases |s|
  {
    if |s| > MAX_PUT_SIZE {
      FlattenChunks(s[MAX_PUT_SIZE..]);
      assert s[..MAX_PUT_SIZE] + s[MAX_PUT_SIZE..] == s;
    }
  }

  /** There are ceil(|s| / MAX_PUT_SIZE) chunks; none for an empty input. */
  lemma {:induction false} ChunksCount<T>(s: seq<T>)
    ensures |Chunks(s)| == (|s| + MAX_PUT_SIZE - 1) / MAX_PUT_SIZE
    decreases |s|
  {
    if |s| > MAX_PUT_SIZE {
      ChunksCount(s[MAX_PUT_SIZE..]);
    }
  }

  /** Chunk `k` is the slice starting at `k * MAX_PUT_SIZE`. */
  lemma {:induction false} ChunkAt<T>(s: seq<T>, k: nat)
    requires k < |Chunks(s)|
    ensures k * MAX_PUT_SIZE < |s|
    ensures Chunks(s)[k] == s[k * MAX_PUT_SIZE .. Min((k + 1) * MAX_PUT_SIZE, |s|)]
    decreases |s|
  {
    if k > 0 {
      assert |s| > MAX_PUT_SIZE;
      var rest := s[MAX_PUT_SIZE..];
      assert Chunks(s) == [s[..MAX_PUT_SIZE]] + Chunks(rest);
      assert Chunks(s)[k] == Chunks(rest)[k - 1];
      ChunkAt(rest, k - 1);
      var lo, hi := (k - 1) * MAX_PUT_SIZE, Min(k * MAX_PUT_SIZE, |rest|);
      assert lo + MAX_PUT_SIZE == k * MAX_PUT_SIZE;
      assert hi + MAX_PUT_SIZE == Min((k + 1) * MAX_PUT_SIZE, |s|);
      assert rest[lo..hi] == s[lo + MAX_PUT_SIZE .. hi + MAX_PUT_SIZE];
    }
  }

  /** A last short slice after whole chunks becomes exactly one more chunk. */
  lemma {:induction false} ChunksAppend<T>(a: seq<T>, b: seq<T>)
    requires |a| % MAX_PUT_SIZE == 0 && 0 < |b| <= MAX_PUT_SIZE
    ensures Chunks(a + b) == Chunks(a) + [b]
    decreases |a|
  {
    if |a| == 0 {
      assert a + b == b;
    } else {
      var rest := a[MAX_PUT_SIZE..];
      assert (a + b)[..MAX_PUT_SIZE] == a[..MAX_PUT_SIZE];
      assert (a + b)[MAX_PUT_SIZE..] == rest + b;
      ChunksAppend(rest, b);
      if |rest| == 0 {
        assert Chunks(a) == [a];
      } else {
        assert Chunks(a) == [a[..MAX_PUT_SIZE]] + Chunks(rest);
      }
    }
  }

  // ---------------------------------------------------------------------------
  // Stored ids
  // ---------------------------------------------------------------------------

  /** The integer `id` properties of a sequence of entities. */
  function IdsOf(es: seq<EntityValue>): set<int>
    decreases |es|
  {
    if |es| == 0 then {}
    else (if "id" in es[0].props && es[0].props["id"].IntValue? then {es[0].props["id"].i} else {}) + IdsOf(es[1..])
  }

  lemma {:induction false} IdsOfAppend(a: seq<EntityValue>, b: seq<EntityValue>)
    ensures IdsOf(a + b) == IdsOf(a) + IdsOf(b)
    decreases |a|
  {
    if |a| == 0 {
      assert a + b == b;
    } else {
      assert (a + b)[1..] == a[1..] + b;
      IdsOfAppend(a[1..], b);
    }
  }

  function PuzzleIds(puzzles: seq<IndexPuzzle>): set<int> {
    set p | p in puzzles :: p.id
  }

  /** The ids stored for a list of index puzzles are exactly the puzzles' ids. */
  lemma {:induction false} IdsOfIndexEntities(puzzles: seq<IndexPuzzle>, firstKeyId: int)
    ensures IdsOf(IndexEntities(puzzles, firstKeyId)) == PuzzleIds(puzzles)
    decreases |puzzles|
  {
    if |puzzles| > 0 {
      var es := IndexEntities(puzzles, firstKeyId);
      assert es[1..] == IndexEntities(puzzles[1..], firstKeyId + 1);
      IdsOfIndexEntities(puzzles[1..], firstKeyId + 1);
      assert puzzles == [puzzles[0]] + puzzles[1..];
      assert PuzzleIds(puzzles) == {puzzles[0].id} + PuzzleIds(puzzles[1..]);
    }
  }

  /** Keys allocated from `firstKeyId` on stay below the allocator's next id, as the keys written before them do. */
  lemma KeysBelow(stored: seq<EntityValue>, puzzles: seq<IndexPuzzle>, firstKeyId: int)
    requires forall e :: e in stored ==> e.key.id < firstKeyId
    ensures forall e :: e in stored + IndexEntities(puzzles, firstKeyId) ==> e.key.id < firstKeyId + |puzzles|
  {
    var all := IndexEntities(puzzles, firstKeyId);
    forall e | e in stored + all ensures e.key.id < firstKeyId + |puzzles| {
      if e in all {
        var p :| 0 <= p < |all| && all[p] == e;
      }
    }
  }

  lemma PuzzleIdsOfOne(p: IndexPuzzle)
    ensures PuzzleIds([p]) == {p.id}
  {
    assert forall q :: q in [p] <==> q == p;
  }

  /** Keys numbered from `first` on, on a store whose keys are all numbered below `first`, are new to the store. */
  lemma AllocatedKeysAreNew(stored: seq<EntityValue>, first: int, keys: seq<Key>)
    requires forall e :: e in stored ==> e.key.id < first
    requires forall i :: 0 <= i < |keys| ==> keys[i] == Key(CLOUDSTORE_TYPE, first + i)
    ensures forall k, e :: k in keys && e in stored ==> k != e.key
  {
  }

  /** Writing the next chunk of `all` extends the chunks written so far by that chunk. */
  lemma NextChunk(all: seq<EntityValue>, chunkStart: nat, entities: seq<EntityValue>)
    requires chunkStart < |all| && chunkStart % MAX_PUT_SIZE == 0
    requires entities == all[chunkStart..Min(chunkStart + MAX_PUT_SIZE, |all|)]
    ensures Chunks(all[..Min(chunkStart + MAX_PUT_SIZE, |all|)]) == Chunks(all[..Min(chunkStart, |all|)]) + [entities]
  {
    ChunksAppend(all[..chunkStart], entities);
    assert all[..chunkStart] + entities == all[..Min(chunkStart + MAX_PUT_SIZE, |all|)];
  }

  /**
   * What the store holds once the chunks of the puzzles' entities follow the
   * earlier writes: those entities after the earlier ones, the puzzles' ids
   * added, and every key numbered below the advanced counter.
   */
  lemma StoredAfterPut(batches: seq<seq<EntityValue>>, puzzles: seq<IndexPuzzle>, firstKeyId: int)
    ensures var all := IndexEntities(puzzles, firstKeyId);
            Flatten(batches + Chunks(all)) == Flatten(batches) + all
    ensures IdsOf(Flatten(batches + Chunks(IndexEntities(puzzles, firstKeyId)))) == IdsOf(Flatten(batches)) + PuzzleIds(puzzles)
    ensures (forall e :: e in Flatten(batches) ==> e.key.id < firstKeyId)
            ==> forall e :: e in Flatten(batches + Chunks(IndexEntities(puzzles, firstKeyId))) ==> e.key.id < firstKeyId + |puzzles|
  {
    var all := IndexEntities(puzzles, firstKeyId);
    FlattenChunks(all);
    FlattenAppend(batches, Chunks(all));
    IdsOfAppend(Flatten(batches), all);
    IdsOfIndexEntities(puzzles, firstKeyId);
    if forall e :: e in Flatten(batches) ==> e.key.id < firstKeyId {
      KeysBelow(Flatten(batches), puzzles, firstKeyId);
    }
  }

  /** `get_ids` over a set of stored ids: those in the inclusive range [minId, maxId]. */
  function IdsBetween(ids: set<int>, minId: int, maxId: int): (r: set<int>)
    ensures r <= ids
    ensures forall i :: i in r <==> i in ids && minId <= i <= maxId
  {
    set i | i in ids && minId <= i <= maxId
  }

  /** With the default bounds every stored id in [-(2^63 - 1), 2^63 - 1] is reported; -2^63 is outside that range. */
  lemma DefaultRangeCoversAll(ids: set<int>)
    requires forall i :: i in ids ==> -DATASTORE_MAX_INT <= i <= DATASTORE_MAX_INT
    ensures IdsBetween(ids, -DATASTORE_MAX_INT, DATASTORE_MAX_INT) == ids
  {
  }

  // ---------------------------------------------------------------------------
  // The client
  // ---------------------------------------------------------------------------

  class DatastoreClient {
    /** Every `put_multi` call, in order. */
    var batches: seq<seq<EntityValue>>
    /** Id of the next key the store will allocate. */
    var nextKeyId: int
    /** Every `update` call, in order. */
    var updates: seq<EntityValue>

    /** A client onto an empty store. */
    constructor ()
      ensures batches == [] && updates == [] && nextKeyId == 1
      ensures Valid()
    {
      batches := [];
      nextKeyId := 1;
      updates := [];
    }

    /** Everything written, in order. */
    function Stored(): seq<EntityValue>
      reads this
    {
      Flatten(batches)
    }

    function Ids(): set<int>
      reads this
    {
      IdsOf(Stored())
    }

    /** The allocator is ahead of every key written so far. */
    predicate Valid()
      reads this
    {
      forall e :: e in Stored() ==> e.key.id < nextKeyId
    }

    /** `get_ids(min_id, max_id)`: the stored ids `i` with min_id <= i <= max_id. */
    function GetIds(minId: int, maxId: int): (r: set<int>)
      reads this
      ensures r == IdsBetween(Ids(), minId, maxId)
      ensures forall i :: i in r <==> i in Ids() && minId <= i <= maxId
    {
      set i | i in Ids() && minId <= i <= maxId
    }

    /**
     * `allocate_ids(partial_key, size)`: `size` complete keys of the puzzle kind,
     * numbered from the counter on; on a valid client every key written so far is
     * numbered below the counter, so these keys are new.
     */
    method AllocateIds(size: nat) returns (keys: seq<Key>)
      modifies this`nextKeyId
      ensures nextKeyId == old(nextKeyId) + size
      ensures keys == seq(size, i requires 0 <= i < size => Key(CLOUDSTORE_TYPE, old(nextKeyId) + i))
    {
      var first := nextKeyId;
      keys := seq(size, i requires 0 <= i < size => Key(CLOUDSTORE_TYPE, first + i));
      nextKeyId := nextKeyId + size;
    }

    /** `put_multi(entities)`: one write call holding all of `entities`. */
    method PutMulti(entities: seq<EntityValue>)
      modifies this`batches
      ensures batches == old(batches) + [entities]
    {
      batches := batches + [entities];
    }

    /** `update(entity)`: writes the entity's current state back (not part of the shown client). */
    method Update(entity: EntityValue)
      modifies this`updates
      ensures updates == old(updates) + [entity]
    {
      updates := updates + [entity];
    }

    /**
     * `put_index_puzzles`: writes the puzzles in consecutive chunks of at most
     * MAX_PUT_SIZE, allocating one key per puzzle of each chunk and pairing
     * puzzle `p` of the chunk with key `p`.
     */
    method PutIndexPuzzles(puzzles: seq<IndexPuzzle>)
      requires Valid()
      modifies this`batches, this`nextKeyId
      ensures Valid()
      ensures batches == old(batches) + Chunks(IndexEntities(puzzles, old(nextKeyId)))
      ensures nextKeyId == old(nextKeyId) + |puzzles|
      ensures Stored() == old(Stored()) + IndexEntities(puzzles, old(nextKeyId))
      ensures Ids() == old(Ids()) + PuzzleIds(puzzles)
    {
      ghost var firstKeyId := nextKeyId;
      ghost var all := IndexEntities(puzzles, firstKeyId);
      var chunkStart := 0;
      while chunkStart < |puzzles|
        invariant 0 <= chunkStart && chunkStart % MAX_PUT_SIZE == 0
        invariant nextKeyId == firstKeyId + Min(chunkStart, |puzzles|)
        invariant batches == old(batches) + Chunks(all[..Min(chunkStart, |puzzles|)])
        decreases |puzzles| - chunkStart
      {
        var chunkEnd := Min(chunkStart + MAX_PUT_SIZE, |puzzles|);
        var chunk := puzzles[chunkStart..chunkEnd];
        var size := |chunk|;
        var keys := AllocateIds(size);
        var entities := ChunkEntities(chunk, keys);
        ChunkOfIndexEntities(puzzles, firstKeyId, chunkStart, chunkEnd, keys);
        PutMulti(entities);
        NextChunk(all, chunkStart, entities);
        chunkStart := chunkStart + MAX_PUT_SIZE;
      }
      assert all[..Min(chunkStart, |puzzles|)] == all;
      StoredAfterPut(old(batches), puzzles, firstKeyId);
    }
  }

  /** Two successive puts of one puzzle each leave both ids in an initially empty store. */
  method PutsAreAdditive() returns (before: set<int>, afterOne: set<int>, afterTwo: set<int>)
    ensures before == {} && afterOne == {1} && afterTwo == {1, 2}
  {
    var client := new DatastoreClient();
    assert client.Ids() == {};
    before := client.GetIds(-DATASTORE_MAX_INT, DATASTORE_MAX_INT);
    var one := IndexPuzzle(1, 123, "link", "HARD");
    client.PutIndexPuzzles([one]);
    PuzzleIdsOfOne(one);
    afterOne := client.GetIds(-DATASTORE_MAX_INT, DATASTORE_MAX_INT);
    var two := IndexPuzzle(2, 456, "other", "MEDIUM");
    client.PutIndexPuzzles([two]);
    PuzzleIdsOfOne(two);
    afterTwo := client.GetIds(-DATASTORE_MAX_INT, DATASTORE_MAX_INT);
  }
}
