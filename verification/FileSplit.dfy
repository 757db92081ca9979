/** Splitting a file into chunks: the chunk-size choice, the splitting loop, and the
    plan every run of it follows. */
module FileSplit {
  import opened Basics
  import opened BigEndian
  import opened TransferPlans
  import opened AgentDatabase

  const MIN_CHUNK: nat := 32 * 1024
  const MAX_CHUNK: nat := 4 * 1024 * 1024

  /** What an adaptive provider answers to its i-th call for so many remaining
      bytes; None is fixed mode. Any stateful provider is such a function. */
  type Provider = Option<(nat, nat) -> nat>

  function Clamp(size: nat): nat { Max(MIN_CHUNK, Min(size, MAX_CHUNK)) }

  /** The memory-based choice; `available` is the free physical memory, 0 when unknown. */
  function OptimalChunkSize(fileSize: nat, configured: nat, memoryPercent: int, available: nat): (size: nat)
    ensures MIN_CHUNK <= size <= MAX_CHUNK
    ensures fileSize < available && MIN_CHUNK <= configured <= Min(MAX_CHUNK, fileSize) ==> size == configured
    ensures fileSize < available && (configured == 0 || configured > fileSize) && MIN_CHUNK <= fileSize <= MAX_CHUNK ==>
              size == fileSize
    ensures available == 0 && MIN_CHUNK <= configured <= MAX_CHUNK ==> size == configured
    ensures 0 < available <= fileSize && MIN_CHUNK < size < MAX_CHUNK ==>
              var percent := if 0 <= memoryPercent <= 100 then memoryPercent else 70;
              var share := available as real * percent as real / 100.0;
              share - 0.5 < size as real <= share + 0.5
  {
    var percent := if memoryPercent < 0 || memoryPercent > 100 then 70 else memoryPercent;
    var wanted :=
      if fileSize < available then
        (if configured == 0 || configured > fileSize then fileSize else configured)
      else if available > 0 then
        (available as real * (percent as real / 100.0) + 0.5).Floor
      else configured;
    var capped := if wanted > MAX_CHUNK then MAX_CHUNK else wanted;
    if capped < MIN_CHUNK then MIN_CHUNK else capped
  }

  // ---------- The plan a split follows ----------

  function ReadSize(chunkSize: nat, provider: Provider, i: nat, remaining: nat): (size: nat)
    ensures size <= remaining && size <= MAX_CHUNK
    ensures size < MIN_CHUNK ==> size == remaining
    ensures remaining > 0 ==> size > 0
  {
    var wanted :=
      if provider.Some? && provider.value(i, remaining) != 0 then provider.value(i, remaining) else chunkSize;
    Min(Clamp(wanted), remaining)
  }

  /** The chunk boundaries from `offset` on, when chunk i starts there. */
  function Cuts(size: nat, chunkSize: nat, provider: Provider, i: nat, offset: nat): (cuts: seq<nat>)
    requires offset <= size
    ensures |cuts| >= 1 && cuts[0] == offset
    decreases size - offset
  {
    if offset == size then [offset]
    else [offset] + Cuts(size, chunkSize, provider, i + 1, offset + ReadSize(chunkSize, provider, i, size - offset))
  }

  function SplitPlan(content: Bytes, chunkSize: nat, provider: Provider): Plan {
    Plan(content, Cuts(|content|, chunkSize, provider, 0, 0), provider.Some?)
  }

  /** Each boundary is one read after the one before it, and the last is the end. */
  lemma {:induction false} CutsStep(size: nat, chunkSize: nat, provider: Provider, i: nat, offset: nat, j: nat)
    requires offset <= size
    requires j < |Cuts(size, chunkSize, provider, i, offset)|
    ensures var cuts := Cuts(size, chunkSize, provider, i, offset);
            && cuts[j] <= size
            && (j == |cuts| - 1 <==> cuts[j] == size)
            && (j < |cuts| - 1 ==> cuts[j + 1] == cuts[j] + ReadSize(chunkSize, provider, i + j, size - cuts[j]))
    decreases j
  {
    hide ReadSize;
    if offset < size {
      var next := offset + ReadSize(chunkSize, provider, i, size - offset);
      var rest := Cuts(size, chunkSize, provider, i + 1, next);
      assert Cuts(size, chunkSize, provider, i, offset) == [offset] + rest;
      if j > 0 {
        CutsStep(size, chunkSize, provider, i + 1, next, j - 1);
      } else {
        assert rest[0] == next;
      }
    }
  }

  lemma {:induction false} CutsIncrease(size: nat, chunkSize: nat, provider: Provider, a: nat, b: nat)
    requires a < b < |Cuts(size, chunkSize, provider, 0, 0)|
    ensures Cuts(size, chunkSize, provider, 0, 0)[a] < Cuts(size, chunkSize, provider, 0, 0)[b]
    decreases b
  {
    CutsStep(size, chunkSize, provider, 0, 0, b - 1);
    if a < b - 1 {
      CutsIncrease(size, chunkSize, provider, a, b - 1);
    }
  }

  /** Tiling: for every non-empty file and any provider, the chunks are contiguous,
      disjoint and cover the file; none is over 4 MiB and only the last can be
      under 32 KiB. */
  lemma SplitTiles(content: Bytes, chunkSize: nat, provider: Provider)
    requires content != []
    ensures var p := SplitPlan(content, chunkSize, provider);
            && p.Valid()
            && forall i :: 0 <= i < p.Count() ==>
                 && p.cuts[i + 1] - p.cuts[i] <= MAX_CHUNK
                 && (i < p.Count() - 1 ==> p.cuts[i + 1] - p.cuts[i] >= MIN_CHUNK)
  {
    hide Cuts, ReadSize;
    var p := SplitPlan(content, chunkSize, provider);
    CutsStep(|content|, chunkSize, provider, 0, 0, 0);
    CutsStep(|content|, chunkSize, provider, 0, 0, |p.cuts| - 1);
    forall i, j | 0 <= i < j < |p.cuts| ensures p.cuts[i] < p.cuts[j] {
      CutsIncrease(|content|, chunkSize, provider, i, j);
    }
    forall i | 0 <= i < |p.cuts| - 1
      ensures p.cuts[i + 1] - p.cuts[i] <= MAX_CHUNK
      ensures i < |p.cuts| - 2 ==> p.cuts[i + 1] - p.cuts[i] >= MIN_CHUNK
    {
      CutsStep(|content|, chunkSize, provider, 0, 0, i);
      CutsStep(|content|, chunkSize, provider, 0, 0, i + 1);
    }
  }

  // ---------- The declared total ----------

  function CeilDiv(n: nat, d: nat): nat
    requires d > 0
  {
    n / d + if n % d != 0 then 1 else 0
  }

  /** The fixed-mode total as the code computes it, a 32-bit int. */
  function FixedTotal(size: nat, chunkSize: nat): int32
    requires chunkSize > 0
  {
    AsInt32(CeilDiv(size, chunkSize) % UINT32_LIMIT)
  }

  lemma MultipleBeyond(d: nat, k: int)
    ensures k >= 1 ==> d * k >= d
    ensures k <= -1 ==> d * k <= -(d as int)
  {
  }

  lemma QuotientUnique(n: int, d: nat, q: int, r: nat)
    requires n == d * q + r && r < d
    ensures n / d == q && n % d == r
  {
    var gap := q - n / d;
    assert d * gap == d * q - d * (n / d) == n % d - r;
    MultipleBeyond(d, gap);
  }

  lemma CeilDivStep(n: nat, d: nat)
    requires d > 0
    ensures n >= d ==> CeilDiv(n, d) == CeilDiv(n - d, d) + 1
    ensures 0 < n < d ==> CeilDiv(n, d) == 1
  {
    if n >= d {
      assert n - d == d * (n / d - 1) + n % d;
      QuotientUnique(n - d, d, n / d - 1, n % d);
    } else {
      QuotientUnique(n, d, 0, n);
    }
  }

  lemma {:induction false} FixedCuts(size: nat, chunkSize: nat, i: nat, offset: nat)
    requires offset <= size && MIN_CHUNK <= chunkSize <= MAX_CHUNK
    ensures |Cuts(size, chunkSize, None, i, offset)| == CeilDiv(size - offset, chunkSize) + 1
    decreases size - offset
  {
    if offset < size {
      CeilDivStep(size - offset, chunkSize);
      FixedCuts(size, chunkSize, i + 1, offset + ReadSize(chunkSize, None, i, size - offset));
    }
  }

  /** Fixed mode: the memory manager's clamp makes the loop's clamp the identity, so
      the total declared up front is the number of chunks emitted, exactly when
      that number fits the 32-bit int it is kept in. */
  lemma FixedTotalIsCount(content: Bytes, configured: nat, memoryPercent: int, available: nat)
    requires content != []
    ensures var chunkSize := OptimalChunkSize(|content|, configured, memoryPercent, available);
            var p := SplitPlan(content, chunkSize, None);
            p.Valid() && (FixedTotal(|content|, chunkSize) == p.Count() <==> p.Count() < INT32_LIMIT)
  {
    var chunkSize := OptimalChunkSize(|content|, configured, memoryPercent, available);
    var count := |SplitPlan(content, chunkSize, None).cuts| - 1;
    assert SplitPlan(content, chunkSize, None).Valid() by {
      SplitTiles(content, chunkSize, None);
    }
    FixedCuts(|content|, chunkSize, 0, 0);
    assert FixedTotal(|content|, chunkSize) == AsInt32(count % UINT32_LIMIT);
  }

  /** Without that clamp the two disagree: a file of 20001 bytes cut by 20000 declares
      two chunks, but the loop raises the size to 32 KiB and emits one. */
  lemma UnclampedTotalDiffers(content: Bytes)
    requires |content| == 20001
    ensures SplitPlan(content, 20000, None).Valid()
    ensures FixedTotal(|content|, 20000) == 2 && SplitPlan(content, 20000, None).Count() == 1
  {
    SplitTiles(content, 20000, None);
    var p := SplitPlan(content, 20000, None);
    CutsStep(|content|, 20000, None, 0, 0, 0);
    CutsStep(|content|, 20000, None, 0, 0, 1);
  }

  // ---------- The loop ----------

  datatype ChunkProcessingResult = Sent | Failed | SkipRemainingFile

  /** The metadata and bytes handed to the chunk callback. */
  datatype Chunk = Chunk(
    number: nat, total: int, offset: nat, fileSize: nat, digest: Bytes, transferId: Bytes, data: Bytes)

  /** What a split depends on from outside: the chunk digest (empty when it cannot
      be computed), the callback's outcome and whether the row can be stored. */
  datatype Surroundings = Surroundings(
    digest: Bytes -> Bytes, process: nat -> ChunkProcessingResult, rowStored: nat -> bool)

  /** The total the i-th emitted chunk carries. */
  function EmittedTotal(p: Plan, i: nat, chunkSize: nat): int
    requires chunkSize > 0
  {
    if !p.adaptive then FixedTotal(|p.content|, chunkSize) else if i + 2 == |p.cuts| then i + 1 else 0
  }

  /** Adaptive mode declares the true count on exactly the last chunk; fixed mode
      declares it on all of them, while it fits an int. */
  lemma EmittedTotalIsDeclared(content: Bytes, chunkSize: nat, provider: Provider, i: nat)
    requires content != [] && MIN_CHUNK <= chunkSize <= MAX_CHUNK
    requires i + 1 < |SplitPlan(content, chunkSize, provider).cuts|
    ensures var p := SplitPlan(content, chunkSize, provider);
            && p.Valid()
            && (EmittedTotal(p, i, chunkSize) == p.Declared(i) <==> provider.Some? || p.Count() < INT32_LIMIT)
  {
    assert SplitPlan(content, chunkSize, provider).Valid() by {
      SplitTiles(content, chunkSize, provider);
    }
    if provider.None? {
      FixedCuts(|content|, chunkSize, 0, 0);
    }
  }

  /** Chunk i of a plan, as the loop builds it. */
  ghost function PlannedChunk(p: Plan, i: nat, chunkSize: nat, digest: Bytes -> Bytes, transferId: Bytes): Chunk
    requires p.Valid() && i < p.Count() && chunkSize > 0
  {
    Chunk(i, EmittedTotal(p, i, chunkSize), p.cuts[i], |p.content|, digest(p.Piece(i)), transferId, p.Piece(i))
  }

  function RowFor(c: Chunk, sent: bool): ChunkRow {
    ChunkRow(c.total, |c.data|, c.digest, c.offset, c.transferId,
             if sent then Status.Success else Status.Failed, 0)
  }

  /** The rows after the first k chunks have been processed. */
  ghost function RowsAfter(p: Plan, k: nat, chunkSize: nat, env: Surroundings, transferId: Bytes): ChunkRows
    requires p.Valid() && k <= p.Count() && chunkSize > 0
  {
    map i | 0 <= i < k :: RowFor(PlannedChunk(p, i, chunkSize, env.digest, transferId), env.process(i).Sent?)
  }

  lemma NextPiece(content: Bytes, chunkSize: nat, provider: Provider, k: nat)
    requires content != [] && k < |SplitPlan(content, chunkSize, provider).cuts|
    requires SplitPlan(content, chunkSize, provider).Valid()
    ensures var p := SplitPlan(content, chunkSize, provider);
            && (p.cuts[k] < |content| <==> k < p.Count())
            && (k < p.Count() ==>
                  var next := p.cuts[k] + ReadSize(chunkSize, provider, k, |content| - p.cuts[k]);
                  && p.cuts[k + 1] == next && p.Piece(k) == content[p.cuts[k]..next]
                  && (k + 1 == p.Count() <==> next >= |content|))
  {
    hide Plan.Valid, Cuts, ReadSize;
    CutsStep(|content|, chunkSize, provider, 0, 0, k);
    if k < |SplitPlan(content, chunkSize, provider).cuts| - 1 {
      CutsStep(|content|, chunkSize, provider, 0, 0, k + 1);
    }
  }

  lemma NextRow(p: Plan, k: nat, chunkSize: nat, env: Surroundings, transferId: Bytes)
    requires p.Valid() && k < p.Count() && chunkSize > 0
    ensures k !in RowsAfter(p, k, chunkSize, env, transferId)
    ensures RowsAfter(p, k + 1, chunkSize, env, transferId)
         == RowsAfter(p, k, chunkSize, env, transferId)
              [k := RowFor(PlannedChunk(p, k, chunkSize, env.digest, transferId), env.process(k).Sent?)]
  {
    hide Plan.Valid, PlannedChunk, RowFor;
  }

  /** Choosing the size, reading and describing the chunk that starts at `offset`. */
  method ReadChunk(
    content: Bytes, chunkSize: nat, transferId: Bytes, provider: Provider, env: Surroundings,
    totalChunks: int, chunkNumber: nat, offset: nat)
    returns (chunk: Chunk, next: nat)
    requires MIN_CHUNK <= chunkSize <= MAX_CHUNK && SplitPlan(content, chunkSize, provider).Valid()
    requires chunkNumber < SplitPlan(content, chunkSize, provider).Count()
    requires offset == SplitPlan(content, chunkSize, provider).cuts[chunkNumber] < |content|
    requires provider.None? ==> totalChunks == FixedTotal(|content|, chunkSize)
    ensures var p := SplitPlan(content, chunkSize, provider);
            && chunk == PlannedChunk(p, chunkNumber, chunkSize, env.digest, transferId)
            && next == p.cuts[chunkNumber + 1] && offset < next <= |content|
  {
    NextPiece(content, chunkSize, provider, chunkNumber);
    hide Plan.Valid, Cuts, FixedTotal;
    var remaining := |content| - offset;
    var wanted := chunkSize;
    if provider.Some? {
      wanted := provider.value(chunkNumber, remaining);
      if wanted == 0 {
        wanted := chunkSize;
      }
    }
    wanted := Max(MIN_CHUNK, Min(wanted, MAX_CHUNK));
    wanted := Min(wanted, remaining);
    next := offset + wanted;
    var data := content[offset..next];
    var isFinalChunk := next >= |content|;
    var total := if provider.Some? then (if isFinalChunk then chunkNumber + 1 else 0) else totalChunks;
    chunk := Chunk(chunkNumber, total, offset, |content|, env.digest(data), transferId, data);
  }

  /** How one round of the loop ended. */
  datatype Round = NoDigest | Skipped | NotStored | Kept

  ghost function RoundOf(p: Plan, i: nat, env: Surroundings): Round
    requires p.Valid() && i < p.Count()
  {
    if env.digest(p.Piece(i)) == [] then NoDigest
    else if env.process(i).SkipRemainingFile? then Skipped
    else if !env.rowStored(i) then NotStored
    else Kept
  }

  /** The chunk has a digest, the callback does not end the file with it, and its row can
      be stored. A failed send does not stop the split. */
  ghost predicate Accepts(p: Plan, i: nat, env: Surroundings)
    requires p.Valid() && i < p.Count()
  {
    env.digest(p.Piece(i)) != [] && env.process(i) != SkipRemainingFile && env.rowStored(i)
  }

  /** How the rounds that are not kept end. */
  lemma RoundMeans(p: Plan, i: nat, env: Surroundings)
    requires p.Valid() && i < p.Count()
    ensures RoundOf(p, i, env).Kept? <==> Accepts(p, i, env)
    ensures RoundOf(p, i, env).Skipped? <==> env.digest(p.Piece(i)) != [] && env.process(i) == SkipRemainingFile
    ensures RoundOf(p, i, env).NoDigest? <==> env.digest(p.Piece(i)) == []
  {
  }

  lemma AfterMeans(
    p: Plan, k: nat, chunkSize: nat, env: Surroundings, transferId: Bytes, rows: ChunkRows, emitted: seq<Chunk>)
    requires p.Valid() && chunkSize > 0 && After(p, k, chunkSize, env, transferId, rows, emitted)
    ensures forall i :: 0 <= i < k ==> Accepts(p, i, env)
    ensures forall i :: 0 <= i < k ==>
              i in rows && rows[i].status == if env.process(i).Sent? then Status.Success else Status.Failed
  {
    hide Plan.Valid, Accepts;
    forall i | 0 <= i < k ensures Accepts(p, i, env) {
      RoundMeans(p, i, env);
    }
  }

  /** The split after k chunks were emitted and kept: exactly their rows are stored. */
  ghost predicate After(
    p: Plan, k: nat, chunkSize: nat, env: Surroundings, transferId: Bytes, rows: ChunkRows, emitted: seq<Chunk>)
    requires p.Valid() && chunkSize > 0
  {
    && k == |emitted| <= p.Count()
    && (forall i :: 0 <= i < k ==> emitted[i] == PlannedChunk(p, i, chunkSize, env.digest, transferId))
    && (forall i :: 0 <= i < k ==> RoundOf(p, i, env).Kept?)
    && rows == RowsAfter(p, k, chunkSize, env, transferId)
  }

  lemma AfterNone(p: Plan, chunkSize: nat, env: Surroundings, transferId: Bytes)
    requires p.Valid() && chunkSize > 0
    ensures After(p, 0, chunkSize, env, transferId, map[], [])
  {
    hide Plan.Valid, RowFor;
    assert RowsAfter(p, 0, chunkSize, env, transferId) == map[];
  }

  /** Handing one chunk to the callback and storing its row. A chunk without a
      digest is not handed over. */
  method HandOver(
    db: Database, path: Path, ghost p: Plan, k: nat, chunk: Chunk, chunkSize: nat, transferId: Bytes, env: Surroundings,
    emitted: seq<Chunk>)
    returns (round: Round, emitted': seq<Chunk>)
    requires p.Valid() && k < p.Count() && chunkSize > 0
    requires chunk == PlannedChunk(p, k, chunkSize, env.digest, transferId)
    requires After(p, k, chunkSize, env, transferId, db.Rows(path), emitted)
    modifies db`chunks
    ensures round == RoundOf(p, k, env)
    ensures emitted' == if round.NoDigest? then emitted else emitted + [chunk]
    ensures round.Kept? ==> After(p, k + 1, chunkSize, env, transferId, db.Rows(path), emitted')
    ensures !round.Kept? ==> After(p, k, chunkSize, env, transferId, db.Rows(path), emitted)
    ensures db.chunks - {path} == old(db.chunks - {path})
  {
    NextRow(p, k, chunkSize, env, transferId);
    hide Plan.Valid, RowFor, RowsAfter;
    if chunk.digest == [] {
      return NoDigest, emitted;
    }
    emitted' := emitted + [chunk];
    var result := env.process(k);
    if result.SkipRemainingFile? {
      return Skipped, emitted';
    }
    var stored := db.InsertChunk(path, k, RowFor(chunk, result.Sent?), env.rowStored(k));
    round := if stored then Kept else NotStored;
  }

  /** Every chunk's size: the configured one in fixed mode, else what the provider asks for
      at that point, 0 meaning the configured one; always within 32 KiB and 4 MiB, and
      cut at the file's end. */
  lemma ChunkSizes(content: Bytes, chunkSize: nat, provider: Provider, i: nat)
    requires content != [] && i + 1 < |SplitPlan(content, chunkSize, provider).cuts|
    ensures SplitPlan(content, chunkSize, provider).Valid()
    ensures var p := SplitPlan(content, chunkSize, provider);
            var left := |content| - p.cuts[i];
            var asked := if provider.Some? && provider.value(i, left) > 0 then provider.value(i, left) else chunkSize;
            && left > 0
            && |p.Piece(i)| == Min(left, if asked < 32768 then 32768 else if asked > 4194304 then 4194304 else asked)
  {
    SplitTiles(content, chunkSize, provider);
    NextPiece(content, chunkSize, provider, i);
    PiecePlacement(SplitPlan(content, chunkSize, provider), i);
    hide Plan.Valid, Cuts;
  }

  /** One round of the loop: reading the next chunk and handing it over. */
  method SplitRound(
    db: Database, path: Path, content: Bytes, chunkSize: nat, transferId: Bytes, provider: Provider, env: Surroundings,
    totalChunks: int, k: nat, offset: nat, emitted: seq<Chunk>)
    returns (round: Round, emitted': seq<Chunk>, next: nat)
    requires MIN_CHUNK <= chunkSize <= MAX_CHUNK && SplitPlan(content, chunkSize, provider).Valid()
    requires k < SplitPlan(content, chunkSize, provider).Count()
    requires offset == SplitPlan(content, chunkSize, provider).cuts[k] < |content|
    requires provider.None? ==> totalChunks == FixedTotal(|content|, chunkSize)
    requires After(SplitPlan(content, chunkSize, provider), k, chunkSize, env, transferId, db.Rows(path), emitted)
    modifies db`chunks
    ensures var p := SplitPlan(content, chunkSize, provider);
            && round == RoundOf(p, k, env) && next == p.cuts[k + 1] && offset < next <= |content|
            && emitted' == emitted + (if round.NoDigest? then []
                                      else [PlannedChunk(p, k, chunkSize, env.digest, transferId)])
            && (round.Kept? ==> After(p, k + 1, chunkSize, env, transferId, db.Rows(path), emitted'))
            && (!round.Kept? ==> After(p, k, chunkSize, env, transferId, db.Rows(path), emitted))
    ensures db.chunks - {path} == old(db.chunks - {path})
  {
    hide Plan.Valid, SplitPlan, FixedTotal, PlannedChunk, After, RoundOf, ReadSize;
    var chunk;
    chunk, next := ReadChunk(content, chunkSize, transferId, provider, env, totalChunks, k, offset);
    ghost var p := SplitPlan(content, chunkSize, provider);
    round, emitted' := HandOver(db, path, p, k, chunk, chunkSize, transferId, env, emitted);
  }

  lemma PrefixAndRest(done: seq<Chunk>, rest: seq<Chunk>)
    ensures (done + rest)[..|done|] == done && (done + rest)[|done|..] == rest && (rest == [] ==> done + rest == done)
  {
  }

  /** The loop's test says whether the plan has another chunk. */
  lemma MoreToRead(content: Bytes, chunkSize: nat, provider: Provider, k: nat)
    requires content != [] && k < |SplitPlan(content, chunkSize, provider).cuts|
    requires SplitPlan(content, chunkSize, provider).Valid()
    ensures SplitPlan(content, chunkSize, provider).cuts[k] < |content|
       <==> k < SplitPlan(content, chunkSize, provider).Count()
  {
    hide Cuts, ReadSize;
    NextPiece(content, chunkSize, provider, k);
  }

  /** The splitting loop over a file read in full. `emitted` are the chunks handed to
      the callback: the first chunks of the plan, in order. All but at most the last
      of them were kept, and the table holds exactly the rows of those. The loop
      covers the whole file unless the first chunk that is not kept stops it. */
  method SplitFile(
    db: Database, path: Path, content: Bytes, chunkSize: nat, transferId: Bytes, provider: Provider, env: Surroundings)
    returns (emitted: seq<Chunk>, success: bool, ghost kept: nat)
    requires content != [] && MIN_CHUNK <= chunkSize <= MAX_CHUNK
    requires db.Rows(path) == map[]
    modifies db`chunks
    ensures var p := SplitPlan(content, chunkSize, provider);
            && p.Valid()
            && kept <= |emitted| && kept <= p.Count()
            && After(p, kept, chunkSize, env, transferId, db.Rows(path), emitted[..kept])
            && emitted[kept..] == (if kept < p.Count() && !RoundOf(p, kept, env).NoDigest?
                                   then [PlannedChunk(p, kept, chunkSize, env.digest, transferId)] else [])
            && (kept < p.Count() ==> !RoundOf(p, kept, env).Kept?)
            && (success <==> kept == p.Count() || RoundOf(p, kept, env).Skipped?)
            && (forall i :: 0 <= i < kept ==> Accepts(p, i, env)) && (kept < p.Count() ==> !Accepts(p, kept, env))
            && (forall i :: 0 <= i < kept ==>
                  i in db.Rows(path)
                  && db.Rows(path)[i].status == if env.process(i).Sent? then Status.Success else Status.Failed)
    ensures db.chunks - {path} == old(db.chunks - {path})
  {
    ghost var p := SplitPlan(content, chunkSize, provider);
    SplitTiles(content, chunkSize, provider);
    assert p.cuts[0] == 0;
    AfterNone(p, chunkSize, env, transferId);
    hide Plan.Valid, SplitPlan, FixedTotal, PlannedChunk, After, RoundOf, ReadSize;
    var totalChunks := if provider.Some? then 0 else FixedTotal(|content|, chunkSize);
    var chunkNumber, currentOffset := 0, 0;
    emitted, success, kept := [], true, 0;
    ghost var done: seq<Chunk>, rest: seq<Chunk> := [], [];
    while currentOffset < |content|
      invariant chunkNumber == kept == |done| <= p.Count() && emitted == done && rest == []
      invariant currentOffset == p.cuts[kept] <= |content|
      invariant success
      invariant After(p, kept, chunkSize, env, transferId, db.Rows(path), done)
      invariant db.chunks - {path} == old(db.chunks - {path})
      decreases |content| - currentOffset
    {
      MoreToRead(content, chunkSize, provider, kept);
      var round, handed, next := SplitRound(
        db, path, content, chunkSize, transferId, provider, env, totalChunks, chunkNumber, currentOffset, emitted);
      emitted := handed;
      if !round.Kept? {
        rest := if round.NoDigest? then [] else [PlannedChunk(p, kept, chunkSize, env.digest, transferId)];
        success := round.Skipped?;
        break;
      }
      done := emitted;
      currentOffset := next;
      chunkNumber, kept := chunkNumber + 1, kept + 1;
    }
    MoreToRead(content, chunkSize, provider, kept);
    PrefixAndRest(done, rest);
    AfterMeans(p, kept, chunkSize, env, transferId, db.Rows(path), done);
    if kept < p.Count() {
      RoundMeans(p, kept, env);
    }
    hide Accepts;
  }
}
