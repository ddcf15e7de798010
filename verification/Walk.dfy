// The chunk grid of the descending walk (internal/ingest/backfill.go): chunks tile the
// history from the anchor down to the target, and there are exactly as many as cells.
module Walk {
  import opened Basics
  import opened GapLedger
  import opened Coverage

  const BACKFILL_CHUNK_SIZE := 2000

  /** Aligns a walk's next chunk to the absolute grid; the target cuts the last one short. */
  function ChunkFrom(b: Backfill): (from: uint32)
    requires 1 <= b.targetFrom <= b.nextTo
    ensures b.targetFrom <= from <= b.nextTo
    ensures from == b.targetFrom || (from - 1) % BACKFILL_CHUNK_SIZE == 0
    ensures (from - 1) / BACKFILL_CHUNK_SIZE == (b.nextTo - 1) / BACKFILL_CHUNK_SIZE
  {
    Max(b.nextTo - (b.nextTo - 1) % BACKFILL_CHUNK_SIZE, b.targetFrom)
  }

  /** A chunk that starts on a grid line is followed from the cell above it. */
  lemma NextChunkIsOneCellDown(b: Backfill)
    requires 1 <= b.targetFrom <= b.nextTo && b.targetFrom < ChunkFrom(b)
    requires (ChunkFrom(Walked(b, ChunkFrom(b))) - 1) % BACKFILL_CHUNK_SIZE == 0
    ensures ChunkFrom(b) == ChunkFrom(Walked(b, ChunkFrom(b))) + BACKFILL_CHUNK_SIZE
  {
    var above := ChunkFrom(b);
    assert (above - 2) / BACKFILL_CHUNK_SIZE == (above - 1) / BACKFILL_CHUNK_SIZE - 1;
  }

  /** The chunks an unclamped walk commits from here, in order. */
  ghost function Chunks(b: Backfill): seq<Interval>
    requires 1 <= b.targetFrom
    decreases b.nextTo
  {
    if b.nextTo < b.targetFrom then []
    else [Interval(ChunkFrom(b), b.nextTo)] + Chunks(Walked(b, ChunkFrom(b)))
  }

  /** An unclamped walk finishes after one commit per grid cell it crosses. */
  lemma {:induction false} WalkTakesOneCommitPerCell(b: Backfill)
    requires 1 <= b.targetFrom <= b.nextTo
    ensures |Chunks(b)| == (b.nextTo - 1) / BACKFILL_CHUNK_SIZE - (b.targetFrom - 1) / BACKFILL_CHUNK_SIZE + 1
    decreases b.nextTo
  {
    var from := ChunkFrom(b);
    var next := Walked(b, from);
    if from > b.targetFrom {
      WalkTakesOneCommitPerCell(next);
      assert (from - 1) % BACKFILL_CHUNK_SIZE == 0;
      assert (next.nextTo - 1) / BACKFILL_CHUNK_SIZE == (from - 1) / BACKFILL_CHUNK_SIZE - 1;
    }
  }

  /** The chunks tile the history: each ends just below the one before, none spans more
      than a cell, the last one reaches the target, and only it closes the walk. */
  lemma {:induction false} ChunksTileTheHistory(b: Backfill)
    requires 1 <= b.targetFrom <= b.nextTo
    ensures var cs := Chunks(b);
      && cs != [] && cs[0].to == b.nextTo && cs[|cs| - 1].from == b.targetFrom
      && (forall i :: 0 <= i < |cs| ==> cs[i].from <= cs[i].to < cs[i].from + BACKFILL_CHUNK_SIZE)
      && (forall i :: 0 < i < |cs| ==> cs[i].to == cs[i - 1].from - 1)
      && (forall i :: 0 <= i < |cs| ==> (cs[i].from == b.targetFrom <==> i == |cs| - 1))
    decreases b.nextTo
  {
    var from := ChunkFrom(b);
    var next := Walked(b, from);
    var cs, rest := Chunks(b), Chunks(next);
    assert cs == [Interval(from, b.nextTo)] + rest;
    if from > b.targetFrom {
      ChunksTileTheHistory(next);
      assert forall i :: 0 < i < |cs| ==> cs[i] == rest[i - 1];
    } else {
      assert rest == [];
    }
  }
}
