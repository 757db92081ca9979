/** The server's two tables: chunk rows, unique per file and chunk number, and
    completion records, unique per file. */
module ServerDatabase {
  import opened Basics
  import opened TransferPlans
  import opened ServerFile
  import opened ServerMachine

  datatype Listed = Listed(number: int, row: Row)

  /** SELECT ... WHERE status = 'success' ORDER BY chunk_number. */
  ghost predicate IsListing(rows: Rows, chunks: seq<Listed>) {
    && (forall i, j :: 0 <= i < j < |chunks| ==> chunks[i].number < chunks[j].number)
    && (forall i :: 0 <= i < |chunks| ==>
          chunks[i].number in rows && chunks[i].row == rows[chunks[i].number] && chunks[i].row.status.Success?)
    && (forall n :: n in rows && rows[n].status.Success? ==> Listed(n, rows[n]) in chunks)
  }

  ghost function Numbers(chunks: seq<Listed>): set<int> {
    set c | c in chunks :: c.number
  }

  lemma {:induction false} NumbersSize(chunks: seq<Listed>)
    requires forall i, j :: 0 <= i < j < |chunks| ==> chunks[i].number < chunks[j].number
    ensures |Numbers(chunks)| == |chunks|
  {
    if chunks != [] {
      var rest, c := chunks[..|chunks| - 1], chunks[|chunks| - 1];
      NumbersSize(rest);
      assert chunks == rest + [c];
      assert Numbers(chunks) == Numbers(rest) + {c.number};
      assert c.number !in Numbers(rest);
    }
  }

  /** A listing has one entry per success row. */
  lemma ListingCounts(rows: Rows, chunks: seq<Listed>)
    requires IsListing(rows, chunks)
    ensures |chunks| == |Successes(rows)|
    ensures forall n :: n in Successes(rows) <==> exists i :: 0 <= i < |chunks| && chunks[i].number == n
  {
    NumbersSize(chunks);
    forall n ensures n in Successes(rows) <==> n in Numbers(chunks) {
      if n in Successes(rows) {
        assert Listed(n, rows[n]) in chunks;
      }
    }
    assert Successes(rows) == Numbers(chunks);
  }

  lemma MaxTotalUnique(rows: Rows, m: nat)
    requires forall n :: n in rows ==> rows[n].total <= m
    requires m == 0 || exists n :: n in rows && rows[n].total == m
    ensures m == MaxTotal(rows)
  {
  }

  function InsertInOrder(c: Listed, chunks: seq<Listed>): (r: seq<Listed>)
    requires forall i, j :: 0 <= i < j < |chunks| ==> chunks[i].number < chunks[j].number
    requires forall i :: 0 <= i < |chunks| ==> chunks[i].number != c.number
    ensures forall i, j :: 0 <= i < j < |r| ==> r[i].number < r[j].number
    ensures forall x :: x in r <==> x == c || x in chunks
  {
    if chunks == [] || c.number < chunks[0].number then [c] + chunks
    else
      var rest := InsertInOrder(c, chunks[1..]);
      assert chunks == [chunks[0]] + chunks[1..];
      assert forall i :: 0 <= i < |rest| ==> rest[i] in rest;
      [chunks[0]] + rest
  }

  class Database {
    var chunks: map<Key, Rows>
    var lowestId: map<Key, int>
    var reconstructed: map<Key, TransferId>

    constructor ()
      ensures chunks == map[] && lowestId == map[] && reconstructed == map[]
    {
      chunks, lowestId, reconstructed := map[], map[], map[];
    }

    function RowsOf(k: Key): Rows
      reads this
    {
      if k in chunks then chunks[k] else map[]
    }

    function FirstOf(k: Key): int
      reads this
    {
      if k in lowestId then lowestId[k] else 0
    }

    function RecordOf(k: Key): Option<TransferId>
      reads this
    {
      if k in reconstructed then Some(reconstructed[k]) else None
    }

    /** Nothing about any other file changes. */
    twostate predicate OnlyTouches(k: Key)
      reads this
    {
      forall j :: j != k ==>
        RowsOf(j) == old(RowsOf(j)) && FirstOf(j) == old(FirstOf(j)) && RecordOf(j) == old(RecordOf(j))
    }

    /** INSERT under the unique index: a number already there is refused. */
    method InsertChunk(k: Key, number: int, total: nat, transferId: TransferId) returns (ok: bool)
      modifies this
      ensures ok <==> number !in old(RowsOf(k))
      ensures RowsOf(k) == if ok then old(RowsOf(k))[number := Row(total, transferId, Pending)] else old(RowsOf(k))
      ensures FirstOf(k) == if old(RowsOf(k)) == map[] then number else old(FirstOf(k))
      ensures RecordOf(k) == old(RecordOf(k)) && OnlyTouches(k)
    {
      if number in RowsOf(k) {
        return false;
      }
      if RowsOf(k) == map[] {
        lowestId := lowestId[k := number];
      }
      chunks := chunks[k := RowsOf(k)[number := Row(total, transferId, Pending)]];
      return true;
    }

    method UpdateChunkStatus(k: Key, number: int, status: Status)
      modifies this
      ensures RowsOf(k) == if number in old(RowsOf(k))
                           then old(RowsOf(k))[number := old(RowsOf(k))[number].(status := status)] else old(RowsOf(k))
      ensures FirstOf(k) == old(FirstOf(k)) && RecordOf(k) == old(RecordOf(k)) && OnlyTouches(k)
    {
      var rows := RowsOf(k);
      if number in rows {
        chunks := chunks[k := rows[number := rows[number].(status := status)]];
      }
    }

    /** INSERT OR IGNORE: an existing record wins. */
    method AddReconstructedFile(k: Key, transferId: TransferId)
      modifies this
      ensures RecordOf(k) == if old(RecordOf(k)).Some? then old(RecordOf(k)) else Some(transferId)
      ensures RowsOf(k) == old(RowsOf(k)) && FirstOf(k) == old(FirstOf(k)) && OnlyTouches(k)
    {
      if k !in reconstructed {
        reconstructed := reconstructed[k := transferId];
      }
    }

    method DeleteReconstructedFile(k: Key)
      modifies this
      ensures RecordOf(k) == None && RowsOf(k) == old(RowsOf(k)) && FirstOf(k) == old(FirstOf(k)) && OnlyTouches(k)
    {
      reconstructed := reconstructed - {k};
    }

    method DeleteChunksByFile(k: Key)
      modifies this
      ensures RowsOf(k) == map[] && RecordOf(k) == old(RecordOf(k)) && FirstOf(k) == old(FirstOf(k)) && OnlyTouches(k)
    {
      chunks := chunks - {k};
    }

    method GetTotalChunkCount(k: Key) returns (total: nat)
      ensures total == MaxTotal(RowsOf(k))
    {
      var rows := RowsOf(k);
      var rest := rows.Keys;
      total := 0;
      while rest != {}
        invariant rest <= rows.Keys
        invariant forall n :: n in rows && n !in rest ==> rows[n].total <= total
        invariant total == 0 || exists n :: n in rows && rows[n].total == total
        decreases |rest|
      {
        SomeElement(rest);
        var n :| n in rest;
        rest := rest - {n};
        if total < rows[n].total {
          total := rows[n].total;
        }
      }
      MaxTotalUnique(rows, total);
    }

    method GetChunksForFile(k: Key) returns (listing: seq<Listed>)
      ensures IsListing(RowsOf(k), listing)
    {
      var rows := RowsOf(k);
      var rest := rows.Keys;
      listing := [];
      while rest != {}
        invariant rest <= rows.Keys
        invariant forall i, j :: 0 <= i < j < |listing| ==> listing[i].number < listing[j].number
        invariant forall c :: c in listing <==>
          c.number in rows && c.number !in rest && c.row == rows[c.number] && c.row.status.Success?
        decreases |rest|
      {
        SomeElement(rest);
        var n :| n in rest;
        rest := rest - {n};
        if rows[n].status.Success? {
          assert forall i :: 0 <= i < |listing| ==> listing[i] in listing;
          listing := InsertInOrder(Listed(n, rows[n]), listing);
        }
      }
      assert forall i :: 0 <= i < |listing| ==> listing[i] in listing;
      assert forall n :: n in rows && rows[n].status.Success? ==> Listed(n, rows[n]).row == rows[n];
    }
  }
}
