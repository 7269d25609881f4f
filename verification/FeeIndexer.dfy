/**
 The chunked, checkpointed fee indexer
 (funds-manager/funds-manager-server/src/fee_indexer/index_fees.rs, with the checkpoint and
 insert queries of fee_indexer/queries.rs). The chain is the full list of note events in block
 order; one attempt sees it up to the block that is current when it starts. Whether a note is
 spent is asked anew by every attempt. An attempt can stop after any of its database writes, by
 a crash or an error, and the next one restarts from the stored checkpoint.
 */
module FeeIndexer {

  const BLOCK_CHUNK_SIZE: nat := 10000

  /** `ours`: the note decrypts under one of our keys. `spent`: its nullifier is used, as the attempt finds it. */
  datatype Note = Note(block: nat, tx: string, ours: bool, spent: bool) {
    predicate Indexable() {
      ours && !spent
    }
  }

  datatype Db = Db(checkpoint: nat, handled: set<nat>, fees: set<string>)

  /** What an attempt does to the database, one write at a time. */
  datatype Effect = IndexNote(index: nat) | UpdateLatestBlock(block: nat)

  ghost predicate InBlockOrder(chain: seq<Note>) {
    forall i, j :: 0 <= i <= j < |chain| ==> chain[i].block <= chain[j].block
  }

  /** A second insert of the same transaction violates uniqueness and is skipped. */
  function Do(db: Db, chain: seq<Note>, e: Effect): Db {
    match e
    case IndexNote(i) =>
      if i >= |chain| then db
      else db.(handled := db.handled + {i}, fees := if chain[i].Indexable() then db.fees + {chain[i].tx} else db.fees)
    case UpdateLatestBlock(b) => db.(checkpoint := b)
  }

  /** The first `n` of the effects. */
  function DoFirst(db: Db, chain: seq<Note>, effects: seq<Effect>, n: nat): Db
    decreases n
  {
    if n == 0 || effects == [] then db else DoFirst(Do(db, chain, effects[0]), chain, effects[1..], n - 1)
  }

  // ----------
  // | Chunks |
  // ----------

  function ChunkEnd(start: nat, current: nat): nat {
    if start + BLOCK_CHUNK_SIZE - 1 < current then start + BLOCK_CHUNK_SIZE - 1 else current
  }

  /** The block ranges an attempt queries. */
  function Chunks(start: nat, current: nat): seq<(nat, nat)>
    decreases current + 1 - start
  {
    if start > current then []
    else [(start, ChunkEnd(start, current))] + Chunks(ChunkEnd(start, current) + 1, current)
  }

  /** They tile the range: no gap, no overlap, none longer than the chunk size. */
  lemma {:induction false} ChunksTile(start: nat, current: nat)
    ensures var cs := Chunks(start, current);
            && (start <= current ==> cs != [] && cs[0].0 == start && cs[|cs| - 1].1 == current)
            && (forall i :: 0 <= i < |cs| ==>
                  start <= cs[i].0 <= cs[i].1 <= current && cs[i].1 - cs[i].0 < BLOCK_CHUNK_SIZE)
            && (forall i :: 0 <= i < |cs| - 1 ==> cs[i + 1].0 == cs[i].1 + 1)
    decreases current + 1 - start
  {
    if start <= current {
      ChunksTile(ChunkEnd(start, current) + 1, current);
    }
  }

  // -------------
  // | Effects |
  // -------------

  /** The effects on one block range, from event `i` on, with the most recent block seen so far. */
  function ChunkEffects(chain: seq<Note>, i: nat, start: nat, end: nat, recent: nat): seq<Effect>
    requires i <= |chain|
    decreases |chain| - i
  {
    if i == |chain| then []
    else if !(start <= chain[i].block <= end) then ChunkEffects(chain, i + 1, start, end, recent)
    else if chain[i].block > recent then
      [IndexNote(i), UpdateLatestBlock(chain[i].block)] + ChunkEffects(chain, i + 1, start, end, chain[i].block)
    else [IndexNote(i)] + ChunkEffects(chain, i + 1, start, end, recent)
  }

  /** The effects of a whole attempt that is not interrupted. */
  function Effects(chain: seq<Note>, start: nat, current: nat): seq<Effect>
    decreases current + 1 - start
  {
    if start > current then []
    else
      var end := ChunkEnd(start, current);
      ChunkEffects(chain, 0, start, end, start) + Effects(chain, end + 1, current)
  }

  class Indexer {
    const chain: seq<Note>
    var checkpoint: nat
    var handled: set<nat>
    var fees: set<string>

    function Abs(): Db
      reads this
    {
      Db(checkpoint, handled, fees)
    }

    /** An indexer over the stored database, with the chain as its attempt sees it. */
    constructor (chain: seq<Note>, db: Db)
      ensures this.chain == chain && Abs() == db
    {
      this.chain, this.checkpoint, handled, fees := chain, db.checkpoint, db.handled, db.fees;
    }

    method HandleNote(i: nat)
      requires i < |chain|
      modifies this
      ensures Abs() == Do(old(Abs()), chain, IndexNote(i))
    {
      handled := handled + {i};
      if chain[i].Indexable() {
        fees := fees + {chain[i].tx};
      }
    }

    /** One block range; `budget` is the number of writes before the process stops. */
    method IndexFeesFromBlockRange(start: nat, end: nat, budget: nat) returns (left: nat, stopped: bool)
      modifies this
      ensures var effects := ChunkEffects(chain, 0, start, end, start);
              && Abs() == DoFirst(old(Abs()), chain, effects, budget)
              && stopped == (budget < |effects|)
              && (!stopped ==> left == budget - |effects|)
    {
      var recent: nat := start;
      left, stopped := budget, false;
      for i := 0 to |chain|
        invariant DoFirst(old(Abs()), chain, ChunkEffects(chain, 0, start, end, start), budget)
               == DoFirst(Abs(), chain, ChunkEffects(chain, i, start, end, recent), left)
        invariant |ChunkEffects(chain, 0, start, end, start)| - budget
               == |ChunkEffects(chain, i, start, end, recent)| - left
      {
        var block := chain[i].block;
        if start <= block <= end {
          if left == 0 {
            stopped := true;
            return;
          }
          HandleNote(i);
          left := left - 1;
          if block > recent {
            assert ChunkEffects(chain, i, start, end, recent)[1..]
                == [UpdateLatestBlock(block)] + ChunkEffects(chain, i + 1, start, end, block);
            if left == 0 {
              stopped := true;
              return;
            }
            recent := block;
            checkpoint := recent;
            left := left - 1;
          }
        }
      }
    }

    /** An attempt: chunk after chunk from the checkpoint to the current block. */
    method IndexFees(current: nat, budget: nat) returns (completed: bool)
      modifies this
      ensures Abs() == DoFirst(old(Abs()), chain, Effects(chain, old(checkpoint), current), budget)
      ensures completed == (budget >= |Effects(chain, old(checkpoint), current)|)
    {
      var chunkStart, left := checkpoint, budget;
      while chunkStart <= current
        invariant DoFirst(old(Abs()), chain, Effects(chain, old(checkpoint), current), budget)
               == DoFirst(Abs(), chain, Effects(chain, chunkStart, current), left)
        invariant |Effects(chain, old(checkpoint), current)| - budget == |Effects(chain, chunkStart, current)| - left
        decreases current + 1 - chunkStart
      {
        var chunkEnd := chunkStart + BLOCK_CHUNK_SIZE - 1;
        if chunkEnd > current {
          chunkEnd := current;
        }
        ghost var db, had := Abs(), left;
        var stopped;
        left, stopped := IndexFeesFromBlockRange(chunkStart, chunkEnd, left);
        ghost var chunk := ChunkEffects(chain, 0, chunkStart, chunkEnd, chunkStart);
        DoFirstSplit(db, chain, chunk, Effects(chain, chunkEnd + 1, current), had);
        if stopped {
          return false;
        }
        chunkStart := chunkEnd + 1;
      }
      return true;
    }
  }

  lemma {:induction false} DoFirstSplit(db: Db, chain: seq<Note>, a: seq<Effect>, b: seq<Effect>, n: nat)
    ensures n >= |a| ==> DoFirst(db, chain, a + b, n) == DoFirst(DoFirst(db, chain, a, n), chain, b, n - |a|)
    ensures n < |a| ==> DoFirst(db, chain, a + b, n) == DoFirst(db, chain, a, n)
    decreases n
  {
    if a == [] {
      assert a + b == b;
    } else if n > 0 {
      DoFirstSplit(Do(db, chain, a[0]), chain, a[1..], b, n - 1);
      assert (a + b)[1..] == a[1..] + b;
    }
  }

  // -------------
  // | Invariant |
  // -------------

  /**
   Every event strictly below the checkpoint has been handled, every handled note of ours that is
   not spent is in the fee table, and the table holds nothing but handled notes of ours.
   */
  ghost predicate Inv(db: Db, chain: seq<Note>) {
    && (forall i :: 0 <= i < |chain| && chain[i].block < db.checkpoint ==> i in db.handled)
    && (forall i :: i in db.handled ==> i < |chain|)
    && (forall i :: i in db.handled && chain[i].Indexable() ==> chain[i].tx in db.fees)
    && (forall tx :: tx in db.fees ==> exists i :: i in db.handled && chain[i].ours && chain[i].tx == tx)
  }

  /** Everything below `start`, and of the first `i` events everything up to `end`, has been handled. */
  ghost predicate Covered(db: Db, chain: seq<Note>, i: nat, start: nat, end: nat) {
    && (forall j :: 0 <= j < |chain| && chain[j].block < start ==> j in db.handled)
    && (forall j :: 0 <= j < i && j < |chain| && chain[j].block <= end ==> j in db.handled)
  }

  /** Nothing is lost, and what the fee table gained are handled notes that were ours and not spent. */
  ghost predicate Later(db: Db, db': Db, chain: seq<Note>) {
    && db.checkpoint <= db'.checkpoint && db.handled <= db'.handled && db.fees <= db'.fees
    && forall tx :: tx in db'.fees ==> tx in db.fees || Gained(db', chain, tx)
  }

  ghost predicate Gained(db: Db, chain: seq<Note>, tx: string) {
    exists i :: i in db.handled && i < |chain| && chain[i].Indexable() && chain[i].tx == tx
  }

  lemma LaterSelf(db: Db, chain: seq<Note>)
    ensures Later(db, db, chain)
  {
  }

  lemma LaterAgain(db: Db, db1: Db, db2: Db, chain: seq<Note>)
    requires Later(db, db1, chain) && Later(db1, db2, chain)
    ensures Later(db, db2, chain)
  {
    forall tx | tx in db2.fees && tx !in db.fees ensures Gained(db2, chain, tx) {
      if tx in db1.fees {
        assert Gained(db1, chain, tx);
      }
    }
  }

  lemma HandleKeepsInv(db: Db, chain: seq<Note>, i: nat)
    requires Inv(db, chain) && i < |chain|
    ensures Inv(Do(db, chain, IndexNote(i)), chain) && Later(db, Do(db, chain, IndexNote(i)), chain)
  {
    var db' := Do(db, chain, IndexNote(i));
    assert i in db'.handled;
    forall tx | tx in db'.fees
      ensures exists j :: j in db'.handled && chain[j].ours && chain[j].tx == tx
    {
      if tx in db.fees {
        var j :| j in db.handled && chain[j].ours && chain[j].tx == tx;
        assert j in db'.handled;
      }
    }
  }

  lemma CheckpointKeepsInv(db: Db, chain: seq<Note>, i: nat, start: nat, end: nat)
    requires Inv(db, chain) && InBlockOrder(chain) && i < |chain| && chain[i].block <= end
    requires Covered(db, chain, i, start, end) && db.checkpoint <= chain[i].block
    ensures Inv(Do(db, chain, UpdateLatestBlock(chain[i].block)), chain)
    ensures Later(db, Do(db, chain, UpdateLatestBlock(chain[i].block)), chain)
  {
    forall j | 0 <= j < |chain| && chain[j].block < chain[i].block ensures j in db.handled {
      assert j < i;
    }
  }

  lemma DoFirstOne(db: Db, chain: seq<Note>, x: Effect, rest: seq<Effect>, n: nat)
    ensures n == 0 ==> DoFirst(db, chain, [x] + rest, n) == db
    ensures n > 0 ==> DoFirst(db, chain, [x] + rest, n) == DoFirst(Do(db, chain, x), chain, rest, n - 1)
    ensures DoFirst(db, chain, [], n) == db
  {
    assert ([x] + rest)[0] == x && ([x] + rest)[1..] == rest;
  }

  lemma CoveredByHandling(db: Db, chain: seq<Note>, i: nat, start: nat, end: nat)
    requires Covered(db, chain, i, start, end) && i < |chain|
    ensures Covered(Do(db, chain, IndexNote(i)), chain, i + 1, start, end)
    ensures !(start <= chain[i].block <= end) ==> Covered(db, chain, i + 1, start, end)
  {
  }

  /** What any prefix of the effects of a chunk keeps, and what all of them reach. */
  ghost predicate SafeFrom(db: Db, db': Db, chain: seq<Note>, start: nat, end: nat, recent: nat, whole: bool) {
    && Inv(db', chain) && Later(db, db', chain)
    && (db'.checkpoint <= recent || db'.checkpoint <= end)
    && (whole ==> Covered(db', chain, |chain|, start, end))
  }

  lemma {:induction false} ChunkPrefixIsSafe(db: Db, chain: seq<Note>, i: nat, start: nat, end: nat, recent: nat,
                                             n: nat)
    requires InBlockOrder(chain) && Inv(db, chain) && i <= |chain|
    requires Covered(db, chain, i, start, end) && db.checkpoint <= recent
    ensures var effects := ChunkEffects(chain, i, start, end, recent);
            SafeFrom(db, DoFirst(db, chain, effects, n), chain, start, end, recent, n >= |effects|)
    decreases |chain| - i
  {
    hide DoFirst, Inv, Covered, Do, InBlockOrder, Later;
    LaterSelf(db, chain);
    var end' := DoFirst(db, chain, ChunkEffects(chain, i, start, end, recent), n);
    if i == |chain| {
      DoFirstOne(db, chain, IndexNote(0), [], n);
    } else {
      var block := chain[i].block;
      CoveredByHandling(db, chain, i, start, end);
      if !(start <= block <= end) {
        ChunkPrefixIsSafe(db, chain, i + 1, start, end, recent, n);
      } else {
        HandleKeepsInv(db, chain, i);
        var db1 := Do(db, chain, IndexNote(i));
        HandleMoves(db, chain, i, start, end);
        if block > recent {
          var rest := ChunkEffects(chain, i + 1, start, end, block);
          var db2 := Do(db1, chain, UpdateLatestBlock(block));
          assert ChunkEffects(chain, i, start, end, recent) == [IndexNote(i)] + ([UpdateLatestBlock(block)] + rest);
          DoFirstOne(db, chain, IndexNote(i), [UpdateLatestBlock(block)] + rest, n);
          if n > 0 {
            DoFirstOne(db1, chain, UpdateLatestBlock(block), rest, n - 1);
          }
          if n > 1 {
            CheckpointKeepsInv(db1, chain, i, start, end);
            ChunkPrefixIsSafe(db2, chain, i + 1, start, end, block, n - 2);
            LaterAgain(db, db1, db2, chain);
            LaterAgain(db, db2, end', chain);
          }
        } else {
          var rest := ChunkEffects(chain, i + 1, start, end, recent);
          DoFirstOne(db, chain, IndexNote(i), rest, n);
          if n > 0 {
            ChunkPrefixIsSafe(db1, chain, i + 1, start, end, recent, n - 1);
            LaterAgain(db, db1, end', chain);
          }
        }
      }
    }
  }

  lemma HandleMoves(db: Db, chain: seq<Note>, i: nat, start: nat, end: nat)
    requires i < |chain| && Covered(db, chain, i, start, end)
    ensures var db1 := Do(db, chain, IndexNote(i));
            var db2 := Do(db1, chain, UpdateLatestBlock(chain[i].block));
            && db1.checkpoint == db.checkpoint && db2.checkpoint == chain[i].block
            && Covered(db1, chain, i, start, end) && Covered(db2, chain, i + 1, start, end)
  {
  }

  /** Every event up to the block has been handled. */
  ghost predicate CoveredTo(db: Db, chain: seq<Note>, below: nat) {
    forall j :: 0 <= j < |chain| && chain[j].block < below ==> j in db.handled
  }

  lemma WholeChunkCovers(db: Db, chain: seq<Note>, start: nat, end: nat)
    ensures CoveredTo(db, chain, start) ==> Covered(db, chain, 0, start, end)
    ensures Covered(db, chain, |chain|, start, end) ==> CoveredTo(db, chain, end + 1)
  {
  }

  /**
   Any prefix of an attempt keeps the invariant and moves the checkpoint only forward; a whole one
   covers the chain.
   */
  lemma {:induction false} AttemptPrefixIsSafe(db: Db, chain: seq<Note>, start: nat, current: nat, n: nat)
    requires InBlockOrder(chain) && Inv(db, chain) && db.checkpoint <= start && CoveredTo(db, chain, start)
    ensures var db' := DoFirst(db, chain, Effects(chain, start, current), n);
            && Inv(db', chain) && Later(db, db', chain)
            && (n >= |Effects(chain, start, current)| && start <= current ==> CoveredTo(db', chain, current + 1))
    decreases current + 1 - start
  {
    hide DoFirst, ChunkEffects, Inv, InBlockOrder, Covered, CoveredTo, Later;
    LaterSelf(db, chain);
    if start > current {
      DoFirstOne(db, chain, IndexNote(0), [], n);
    } else {
      var end := ChunkEnd(start, current);
      var chunk, rest := ChunkEffects(chain, 0, start, end, start), Effects(chain, end + 1, current);
      WholeChunkCovers(db, chain, start, end);
      ChunkPrefixIsSafe(db, chain, 0, start, end, start, n);
      DoFirstSplit(db, chain, chunk, rest, n);
      if n >= |chunk| {
        var db1 := DoFirst(db, chain, chunk, n);
        WholeChunkCovers(db1, chain, start, end);
        AttemptPrefixIsSafe(db1, chain, end + 1, current, n - |chunk|);
        LaterAgain(db, db1, DoFirst(db1, chain, rest, n - |chunk|), chain);
        if end == current {
          DoFirstOne(db1, chain, IndexNote(0), [], n - |chunk|);
        }
      }
    }
  }

  // ------------------
  // | The checkpoint |
  // ------------------

  /**
   The block lies in some chunk and is not its first. A chunk takes its first block as the most
   recent one already, so an event there does not move the checkpoint.
   */
  predicate Inner(start: nat, current: nat, block: nat)
    decreases current + 1 - start
  {
    && start <= current
    && (start < block <= ChunkEnd(start, current) || Inner(ChunkEnd(start, current) + 1, current, block))
  }

  /** Within the range these are the blocks that are not a whole number of chunks after its start. */
  lemma {:induction false} InnerIff(start: nat, current: nat, block: nat)
    ensures Inner(start, current, block) <==> start <= block <= current && (block - start) % BLOCK_CHUNK_SIZE != 0
    decreases current + 1 - start
  {
    if start <= current {
      var end := ChunkEnd(start, current);
      InnerIff(end + 1, current, block);
      if end < current && block > end {
        assert block - (end + 1) == block - start - BLOCK_CHUNK_SIZE;
        assert (block - start - BLOCK_CHUNK_SIZE) % BLOCK_CHUNK_SIZE == (block - start) % BLOCK_CHUNK_SIZE;
      }
    }
  }

  /** The checkpoint goes to the latest of the blocks in `(lo, hi]` of events from `i` on, or stays if there is none. */
  ghost predicate MovesTo(chain: seq<Note>, i: nat, lo: nat, hi: nat, before: nat, after: nat) {
    || (after == before && forall j :: i <= j < |chain| ==> !(lo < chain[j].block <= hi))
    || ((exists j :: i <= j < |chain| && chain[j].block == after) && lo < after <= hi
        && forall j :: i <= j < |chain| && lo < chain[j].block <= hi ==> chain[j].block <= after)
  }

  function DoAll(db: Db, chain: seq<Note>, effects: seq<Effect>): Db {
    DoFirst(db, chain, effects, |effects|)
  }

  lemma {:induction false} DoFirstMore(db: Db, chain: seq<Note>, a: seq<Effect>, n: nat)
    requires n >= |a|
    ensures DoFirst(db, chain, a, n) == DoAll(db, chain, a)
    decreases |a|
  {
    if a != [] {
      DoFirstMore(Do(db, chain, a[0]), chain, a[1..], n - 1);
    }
  }

  lemma DoAllSplit(db: Db, chain: seq<Note>, a: seq<Effect>, b: seq<Effect>)
    ensures DoAll(db, chain, a + b) == DoAll(DoAll(db, chain, a), chain, b)
    ensures DoAll(db, chain, []) == db
  {
    DoFirstSplit(db, chain, a, b, |a| + |b|);
    DoFirstMore(db, chain, a, |a| + |b|);
  }

  lemma DoAllOne(db: Db, chain: seq<Note>, x: Effect, rest: seq<Effect>)
    ensures DoAll(db, chain, [x] + rest) == DoAll(Do(db, chain, x), chain, rest)
  {
    DoFirstOne(db, chain, x, rest, |[x] + rest|);
  }

  lemma MovesOn(chain: seq<Note>, i: nat, lo: nat, hi: nat, before: nat, after: nat)
    requires InBlockOrder(chain) && i < |chain|
    ensures lo < chain[i].block <= hi && MovesTo(chain, i + 1, chain[i].block, hi, chain[i].block, after) ==>
              MovesTo(chain, i, lo, hi, before, after)
    ensures !(lo < chain[i].block <= hi) && MovesTo(chain, i + 1, lo, hi, before, after) ==>
              MovesTo(chain, i, lo, hi, before, after)
  {
  }

  lemma {:induction false} ChunkMovesCheckpoint(db: Db, chain: seq<Note>, i: nat, start: nat, end: nat, recent: nat)
    requires InBlockOrder(chain) && i <= |chain| && start <= recent
    ensures var db' := DoAll(db, chain, ChunkEffects(chain, i, start, end, recent));
            MovesTo(chain, i, recent, end, db.checkpoint, db'.checkpoint)
    decreases |chain| - i
  {
    hide MovesTo, DoAll, InBlockOrder;
    if i == |chain| {
      DoAllSplit(db, chain, [], []);
      NothingMoves(chain, recent, end, db.checkpoint);
    } else {
      var block := chain[i].block;
      var db1 := Do(db, chain, IndexNote(i));
      var after := DoAll(db, chain, ChunkEffects(chain, i, start, end, recent)).checkpoint;
      MovesOn(chain, i, recent, end, db.checkpoint, after);
      if !(start <= block <= end) {
        ChunkMovesCheckpoint(db, chain, i + 1, start, end, recent);
      } else if block > recent {
        var rest := ChunkEffects(chain, i + 1, start, end, block);
        assert ChunkEffects(chain, i, start, end, recent) == [IndexNote(i)] + ([UpdateLatestBlock(block)] + rest);
        DoAllOne(db, chain, IndexNote(i), [UpdateLatestBlock(block)] + rest);
        DoAllOne(db1, chain, UpdateLatestBlock(block), rest);
        ChunkMovesCheckpoint(Do(db1, chain, UpdateLatestBlock(block)), chain, i + 1, start, end, block);
      } else {
        DoAllOne(db, chain, IndexNote(i), ChunkEffects(chain, i + 1, start, end, recent));
        ChunkMovesCheckpoint(db1, chain, i + 1, start, end, recent);
      }
    }
  }

  lemma NothingMoves(chain: seq<Note>, lo: nat, hi: nat, c: nat)
    ensures MovesTo(chain, |chain|, lo, hi, c, c)
  {
  }

  /** The checkpoint goes to the latest inner block that has an event, or stays if there is none. */
  ghost predicate MovesToInner(chain: seq<Note>, start: nat, current: nat, before: nat, after: nat) {
    || (after == before && forall j :: 0 <= j < |chain| ==> !Inner(start, current, chain[j].block))
    || ((exists j :: 0 <= j < |chain| && chain[j].block == after) && Inner(start, current, after)
        && forall j :: 0 <= j < |chain| && Inner(start, current, chain[j].block) ==> chain[j].block <= after)
  }

  lemma MovesOverChunks(chain: seq<Note>, start: nat, current: nat, before: nat, middle: nat, after: nat)
    requires start <= current
    requires MovesTo(chain, 0, start, ChunkEnd(start, current), before, middle)
    requires MovesToInner(chain, ChunkEnd(start, current) + 1, current, middle, after)
    ensures MovesToInner(chain, start, current, before, after)
  {
    var end := ChunkEnd(start, current);
    forall j | 0 <= j < |chain|
      ensures Inner(start, current, chain[j].block)
         <==> start < chain[j].block <= end || Inner(end + 1, current, chain[j].block)
      ensures Inner(end + 1, current, chain[j].block) ==> chain[j].block > end
    {
      InnerIff(end + 1, current, chain[j].block);
    }
    InnerIff(end + 1, current, after);
  }

  lemma {:induction false} AttemptMovesCheckpoint(db: Db, chain: seq<Note>, start: nat, current: nat)
    requires InBlockOrder(chain)
    ensures var db' := DoAll(db, chain, Effects(chain, start, current));
            MovesToInner(chain, start, current, db.checkpoint, db'.checkpoint)
    decreases current + 1 - start
  {
    if start > current {
      DoAllSplit(db, chain, [], []);
    } else {
      hide DoAll, MovesTo, MovesToInner, Inner, InBlockOrder, ChunkEffects;
      var end := ChunkEnd(start, current);
      var chunk, rest := ChunkEffects(chain, 0, start, end, start), Effects(chain, end + 1, current);
      DoAllSplit(db, chain, chunk, rest);
      var db1 := DoAll(db, chain, chunk);
      ChunkMovesCheckpoint(db, chain, 0, start, end, start);
      AttemptMovesCheckpoint(db1, chain, end + 1, current);
      MovesOverChunks(chain, start, current, db.checkpoint, db1.checkpoint, DoAll(db1, chain, rest).checkpoint);
    }
  }

  // --------------------------
  // | Crashes and restarts |
  // --------------------------

  /**
   An attempt starts when the chain is at `current`, finds `spent` spent, and stops after `budget`
   writes or when done.
   */
  datatype Attempt = Attempt(current: nat, budget: nat, spent: set<nat>)

  /** The chain as an attempt sees it. */
  function Seen(chain: seq<Note>, spent: set<nat>): (view: seq<Note>)
    ensures |view| == |chain|
    ensures forall i :: 0 <= i < |chain| ==> view[i] == chain[i].(spent := i in spent)
  {
    seq(|chain|, i requires 0 <= i < |chain| => chain[i].(spent := i in spent))
  }

  function AttemptEffects(db: Db, chain: seq<Note>, a: Attempt): seq<Effect> {
    Effects(Seen(chain, a.spent), db.checkpoint, a.current)
  }

  function RunAttempt(db: Db, chain: seq<Note>, a: Attempt): Db {
    DoFirst(db, Seen(chain, a.spent), AttemptEffects(db, chain, a), a.budget)
  }

  function RunSchedule(db: Db, chain: seq<Note>, attempts: seq<Attempt>): Db {
    if attempts == [] then db
    else RunAttempt(RunSchedule(db, chain, attempts[..|attempts| - 1]), chain, attempts[|attempts| - 1])
  }

  /** A note once spent stays spent: later attempts find at least the same notes spent. */
  ghost predicate SpentGrows(spent: set<nat>, attempts: seq<Attempt>) {
    && (forall i :: 0 <= i < |attempts| ==> spent <= attempts[i].spent)
    && (forall i, j :: 0 <= i <= j < |attempts| ==> attempts[i].spent <= attempts[j].spent)
  }

  /** What is spent at the end of a schedule. */
  function SpentAtEnd(spent: set<nat>, attempts: seq<Attempt>): set<nat> {
    if attempts == [] then spent else attempts[|attempts| - 1].spent
  }

  /** The invariant survives notes being spent. */
  lemma InvAges(db: Db, chain: seq<Note>, spent: set<nat>, spent': set<nat>)
    requires Inv(db, Seen(chain, spent)) && spent <= spent'
    ensures Inv(db, Seen(chain, spent'))
  {
    var v, v' := Seen(chain, spent), Seen(chain, spent');
    forall tx | tx in db.fees ensures exists i :: i in db.handled && v'[i].ours && v'[i].tx == tx {
      var i :| i in db.handled && v[i].ours && v[i].tx == tx;
      assert v'[i].ours && v'[i].tx == tx;
    }
  }

  /** One attempt, stopped anywhere. */
  lemma AttemptIsSafe(db: Db, chain: seq<Note>, a: Attempt)
    requires InBlockOrder(chain) && Inv(db, Seen(chain, a.spent))
    ensures var db' := RunAttempt(db, chain, a);
            && Inv(db', Seen(chain, a.spent)) && Later(db, db', Seen(chain, a.spent))
            && (a.budget >= |AttemptEffects(db, chain, a)| ==> CoveredTo(db', chain, a.current + 1))
  {
    hide DoFirst, Effects, Later;
    var view := Seen(chain, a.spent);
    AttemptPrefixIsSafe(db, view, db.checkpoint, a.current, a.budget);
    LaterKeepsHandled(db, RunAttempt(db, chain, a), view);
  }

  lemma LaterKeepsHandled(db: Db, db': Db, chain: seq<Note>)
    requires Later(db, db', chain)
    ensures db.checkpoint <= db'.checkpoint && db.handled <= db'.handled && db.fees <= db'.fees
  {
  }

  /** Event `j` lies in the range of the attempt, not a whole number of chunks after the checkpoint it started from. */
  predicate MovesCheckpoint(db: Db, chain: seq<Note>, a: Attempt, j: nat)
    requires j < |chain|
  {
    db.checkpoint <= chain[j].block <= a.current && (chain[j].block - db.checkpoint) % 10_000 != 0
  }

  /**
   Where a completed attempt leaves the checkpoint, exactly: at the latest event in its range that is
   not in the first block of a chunk, or where it was if there is none.
   */
  lemma CompletedCheckpoint(db: Db, chain: seq<Note>, a: Attempt)
    requires InBlockOrder(chain) && a.budget >= |AttemptEffects(db, chain, a)|
    ensures var c := RunAttempt(db, chain, a).checkpoint;
            if exists j: nat :: j < |chain| && MovesCheckpoint(db, chain, a, j) then
              && (exists j: nat :: j < |chain| && MovesCheckpoint(db, chain, a, j) && chain[j].block == c)
              && (forall j: nat :: j < |chain| && MovesCheckpoint(db, chain, a, j) ==> chain[j].block <= c)
            else c == db.checkpoint
  {
    hide DoFirst, Effects, Inner;
    var view := Seen(chain, a.spent);
    DoFirstMore(db, view, AttemptEffects(db, chain, a), a.budget);
    AttemptMovesCheckpoint(db, view, db.checkpoint, a.current);
    forall j: nat | j < |chain|
      ensures Inner(db.checkpoint, a.current, view[j].block) <==> MovesCheckpoint(db, chain, a, j)
    {
      InnerIff(db.checkpoint, a.current, chain[j].block);
    }
  }

  /** An event in the first block of a later chunk is handled and does not move the checkpoint. */
  lemma FirstBlockOfChunkIsNotCheckpointed(tx: string, budget: nat)
    ensures var chain := [Note(10_000, tx, true, false)];
            var db, a := Db(0, {}, {}), Attempt(10_000, budget, {});
            budget >= |AttemptEffects(db, chain, a)| ==>
              RunAttempt(db, chain, a).checkpoint == 0 && 0 in RunAttempt(db, chain, a).handled
  {
    var chain := [Note(10_000, tx, true, false)];
    var db, a := Db(0, {}, {}), Attempt(10_000, budget, {});
    hide RunAttempt, AttemptEffects;
    if budget >= |AttemptEffects(db, chain, a)| {
      CompletedCheckpoint(db, chain, a);
      AttemptIsSafe(db, chain, a);
    }
  }

  /** The attempt that put a transaction in the fee table found its note ours and not spent. */
  ghost predicate IndexedIn(chain: seq<Note>, attempts: seq<Attempt>, handled: set<nat>, tx: string) {
    exists k, i :: 0 <= k < |attempts| && i in handled && i < |chain| && chain[i].tx == tx
                   && Seen(chain, attempts[k].spent)[i].Indexable()
  }

  lemma IndexedEarlier(chain: seq<Note>, attempts: seq<Attempt>, handled: set<nat>, handled': set<nat>, tx: string)
    requires attempts != [] && handled <= handled'
    requires IndexedIn(chain, attempts[..|attempts| - 1], handled, tx)
    ensures IndexedIn(chain, attempts, handled', tx)
  {
    var earlier := attempts[..|attempts| - 1];
    var k, i :| 0 <= k < |earlier| && i in handled && i < |chain| && chain[i].tx == tx
                && Seen(chain, earlier[k].spent)[i].Indexable();
    assert attempts[k] == earlier[k] && i in handled';
  }

  /**
   Over every schedule of crashes and restarts, with notes being spent in between, the checkpoint
   never decreases and every event strictly below it has been handled. Every handled note of ours
   that is still unspent is in the fee table, and whatever the table gained was, in some attempt, a
   handled note that was ours and unspent.
   */
  lemma {:induction false} ScheduleIsSafe(db: Db, chain: seq<Note>, spent: set<nat>, attempts: seq<Attempt>)
    requires InBlockOrder(chain) && Inv(db, Seen(chain, spent)) && SpentGrows(spent, attempts)
    ensures var db' := RunSchedule(db, chain, attempts);
            && Inv(db', Seen(chain, SpentAtEnd(spent, attempts)))
            && db.checkpoint <= db'.checkpoint && db.handled <= db'.handled && db.fees <= db'.fees
            && forall tx :: tx in db'.fees ==> tx in db.fees || IndexedIn(chain, attempts, db'.handled, tx)
  {
    hide RunAttempt, Inv, IndexedIn, InBlockOrder;
    if attempts != [] {
      var n := |attempts| - 1;
      var earlier, a := attempts[..n], attempts[n];
      ScheduleIsSafe(db, chain, spent, earlier);
      var db1 := RunSchedule(db, chain, earlier);
      assert SpentAtEnd(spent, earlier) <= a.spent by {
        assert n > 0 ==> earlier[n - 1] == attempts[n - 1];
      }
      InvAges(db1, chain, SpentAtEnd(spent, earlier), a.spent);
      AttemptIsSafe(db1, chain, a);
      var db2 := RunAttempt(db1, chain, a);
      assert RunSchedule(db, chain, attempts) == db2;
      forall tx | tx in db2.fees && tx !in db.fees ensures IndexedIn(chain, attempts, db2.handled, tx) {
        if tx in db1.fees {
          IndexedEarlier(chain, attempts, db1.handled, db2.handled, tx);
        } else {
          GainedInLast(db2, chain, attempts, tx);
        }
      }
    }
  }

  lemma GainedInLast(db: Db, chain: seq<Note>, attempts: seq<Attempt>, tx: string)
    requires attempts != [] && Gained(db, Seen(chain, attempts[|attempts| - 1].spent), tx)
    ensures IndexedIn(chain, attempts, db.handled, tx)
  {
    var view := Seen(chain, attempts[|attempts| - 1].spent);
    var i :| i in db.handled && i < |view| && view[i].Indexable() && view[i].tx == tx;
    assert Seen(chain, attempts[|attempts| - 1].spent)[i].Indexable() && chain[i].tx == tx;
  }

  /** Once an attempt runs to its end, every event up to its block stays handled whatever follows. */
  lemma {:induction false} CompletedAttemptCovers(db: Db, chain: seq<Note>, spent: set<nat>, attempts: seq<Attempt>,
                                                  k: nat)
    requires InBlockOrder(chain) && Inv(db, Seen(chain, spent)) && SpentGrows(spent, attempts) && k < |attempts|
    requires attempts[k].budget >= |AttemptEffects(RunSchedule(db, chain, attempts[..k]), chain, attempts[k])|
    ensures CoveredTo(RunSchedule(db, chain, attempts), chain, attempts[k].current + 1)
  {
    hide RunAttempt, Inv, InBlockOrder, AttemptEffects;
    var n := |attempts| - 1;
    var earlier, a := attempts[..n], attempts[n];
    ScheduleIsSafe(db, chain, spent, earlier);
    var db1 := RunSchedule(db, chain, earlier);
    assert SpentAtEnd(spent, earlier) <= a.spent by {
      assert n > 0 ==> earlier[n - 1] == attempts[n - 1];
    }
    InvAges(db1, chain, SpentAtEnd(spent, earlier), a.spent);
    AttemptIsSafe(db1, chain, a);
    if k < n {
      assert earlier[..k] == attempts[..k] && earlier[k] == attempts[k];
      CompletedAttemptCovers(db, chain, spent, earlier, k);
      LaterKeepsHandled(db1, RunAttempt(db1, chain, a), Seen(chain, a.spent));
    }
  }
}
