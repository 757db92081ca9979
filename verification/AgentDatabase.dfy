/** The agent's chunks and processed-files tables, and the queries and updates the
    sending side makes on them. */
module AgentDatabase {
  import opened Basics

  type Path = Bytes

  datatype Status = Pending | Success | Failed

  /** One row of the agent's chunks table; (path, number) is its unique key. */
  datatype ChunkRow = ChunkRow(
    total: int, size: nat, digest: Bytes, offset: nat, transferId: Bytes, status: Status, retries: nat)

  type ChunkRows = map<int, ChunkRow>

  /** SELECT ... WHERE status IN ('pending', 'failed') AND retries < limit. */
  predicate IsPending(row: ChunkRow, limit: nat) { !row.status.Success? && row.retries < limit }

  function PendingRows(rows: ChunkRows, limit: nat): ChunkRows {
    map n | n in rows && IsPending(rows[n], limit) :: rows[n]
  }

  /** COALESCE(MAX(total_chunk), 0) of a group. */
  ghost function LargestTotal(rows: ChunkRows): (m: int)
    ensures forall n :: n in rows ==> rows[n].total <= m
    ensures (m == 0 && rows == map[]) || exists n :: n in rows && rows[n].total == m
  {
    if !exists n :: n in rows then
      assert rows == map[];
      0
    else
      var n :| n in rows;
      var rest := rows - {n};
      assert forall k :: k in rows ==> k == n || k in rest;
      if rest == map[] || LargestTotal(rest) <= rows[n].total then rows[n].total else LargestTotal(rest)
  }

  /** The group is listed by `getFullySentFiles`: it exists, has no row that is not a
      success, and as many rows as the largest total among them. */
  ghost predicate FullySent(rows: ChunkRows) {
    && rows != map[]
    && (forall n :: n in rows ==> rows[n].status.Success?)
    && |rows| == LargestTotal(rows)
  }

  function WithStatus(rows: ChunkRows, n: int, status: Status): ChunkRows {
    if n in rows then rows[n := rows[n].(status := status)] else rows
  }

  function WithRetries(rows: ChunkRows, n: int, retries: nat): ChunkRows {
    if n in rows then rows[n := rows[n].(retries := retries)] else rows
  }

  class Database {
    var chunks: map<Path, ChunkRows>
    var processed: set<Path>

    constructor ()
      ensures chunks == map[] && processed == {}
    {
      chunks, processed := map[], {};
    }

    function Rows(path: Path): ChunkRows
      reads this
    {
      if path in chunks then chunks[path] else map[]
    }

    /** INSERT under the unique index: a second row for the same number is refused. */
    method InsertChunk(path: Path, n: int, row: ChunkRow, ok: bool) returns (inserted: bool)
      modifies this`chunks
      ensures inserted == (ok && n !in old(Rows(path)))
      ensures chunks == if inserted then old(chunks)[path := old(Rows(path))[n := row]] else old(chunks)
    {
      inserted := ok && n !in Rows(path);
      if inserted {
        chunks := chunks[path := Rows(path)[n := row]];
      }
    }

    method UpdateChunkStatus(path: Path, n: int, status: Status, ok: bool)
      modifies this`chunks
      ensures Rows(path) == if ok then WithStatus(old(Rows(path)), n, status) else old(Rows(path))
      ensures forall p :: p != path ==> Rows(p) == old(Rows(p))
    {
      if ok {
        chunks := chunks[path := WithStatus(Rows(path), n, status)];
      }
    }

    method UpdateChunkRetries(path: Path, n: int, retries: nat, ok: bool)
      modifies this`chunks
      ensures Rows(path) == if ok then WithRetries(old(Rows(path)), n, retries) else old(Rows(path))
      ensures forall p :: p != path ==> Rows(p) == old(Rows(p))
    {
      if ok {
        chunks := chunks[path := WithRetries(Rows(path), n, retries)];
      }
    }

    method DeleteFileChunks(path: Path)
      modifies this`chunks
      ensures Rows(path) == map[]
      ensures forall p :: p != path ==> Rows(p) == old(Rows(p))
    {
      chunks := chunks - {path};
    }

    /** Status 'processing' or 'failed', whatever it was before. */
    method MarkFileAsUnprocessed(path: Path, ok: bool)
      modifies this`processed
      ensures processed == if ok then old(processed) - {path} else old(processed)
    {
      if ok {
        processed := processed - {path};
      }
    }

    /** One transaction: status 'failed' and the removal of the rows. */
    method LogPermanentlyFailedFile(path: Path, ok: bool)
      modifies this
      ensures processed == if ok then old(processed) - {path} else old(processed)
      ensures Rows(path) == if ok then map[] else old(Rows(path))
      ensures forall p :: p != path ==> Rows(p) == old(Rows(p))
    {
      if ok {
        processed := processed - {path};
        chunks := chunks - {path};
      }
    }

    /** One transaction: the processed record and the removal of the rows. */
    method AddProcessedFileAndCleanupChunks(path: Path, ok: bool)
      modifies this
      ensures processed == if ok then old(processed) + {path} else old(processed)
      ensures Rows(path) == if ok then map[] else old(Rows(path))
      ensures forall p :: p != path ==> Rows(p) == old(Rows(p))
    {
      if ok {
        processed := processed + {path};
        chunks := chunks - {path};
      }
    }
  }
}
