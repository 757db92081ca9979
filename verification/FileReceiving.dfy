/** The file receiver as the server runs it: fields updated in place, tables behind
    a database object, write retries and listing loops. Every method is tied to the
    step functions of ServerFile and ServerMachine. */
module FileReceiving {
  import opened Basics
  import opened TransferPlans
  import opened ServerFile
  import opened ServerMachine
  import opened ServerDatabase

  /** One of the five write attempts: the file could not be opened, the write or
      close failed and left `junk` in the chunk's range, or all went well. */
  datatype Attempt = NotOpened | Spoiled(junk: Bytes) | Clean

  const MAX_WRITE_ATTEMPTS: nat := 5

  /** The bytes the failed attempts leave, the latest spoiled one on top. */
  function Residue(attempts: seq<Attempt>): Option<Bytes> {
    if attempts == [] then None
    else
      var last := attempts[|attempts| - 1];
      if last.Spoiled? then Some(last.junk) else Residue(attempts[..|attempts| - 1])
  }

  /** The attempts agree with the stage the delivery is said to reach. */
  ghost predicate ScriptFits(attempts: seq<Attempt>, reach: Reach, size: nat) {
    && |attempts| == MAX_WRITE_ATTEMPTS
    && (forall a :: a in attempts && a.Spoiled? ==> |a.junk| == size)
    && (reach.Rank() >= BytesWritten.Rank() ==> Clean in attempts)
    && (reach.Torn? ==> Clean !in attempts && Residue(attempts) == Some(reach.junk))
    && (reach.FileSized? ==> Clean !in attempts && Residue(attempts) == None)
  }

  /** A later full write over the same range hides an earlier one. */
  lemma OverlayTwice(bytes: Bytes, offset: nat, junk: Bytes, data: Bytes)
    requires |junk| == |data|
    ensures Overlay(Overlay(bytes, offset, junk), offset, data) == Overlay(bytes, offset, data)
  {
  }

  /** What failed attempts leave of a file that held `before`. */
  function Leftover(before: Bytes, offset: nat, failed: seq<Attempt>): Bytes {
    match Residue(failed)
    case Some(junk) => Overlay(before, offset, junk)
    case None => before
  }

  lemma LeftoverNone(before: Bytes, offset: nat)
    ensures Leftover(before, offset, []) == before
  {
  }

  /** One more attempt: whatever the failed ones left, the next full write decides. */
  lemma LeftoverStep(before: Bytes, offset: nat, failed: seq<Attempt>, next: Attempt, data: Bytes)
    requires forall a :: a in failed && a.Spoiled? ==> |a.junk| == |data|
    requires next.Spoiled? ==> |next.junk| == |data|
    ensures var now := Leftover(before, offset, failed);
            match next
            case NotOpened => Leftover(before, offset, failed + [next]) == now
            case Spoiled(junk) => Leftover(before, offset, failed + [next]) == Overlay(now, offset, junk)
            case Clean => Overlay(now, offset, data) == Overlay(before, offset, data)
  {
    assert (failed + [next])[..|failed|] == failed;
    hide Overlay;
    ResidueSize(failed, |data|);
    if Residue(failed).Some? {
      OverlayTwice(before, offset, Residue(failed).value, if next.Spoiled? then next.junk else data);
    }
  }

  lemma {:induction false} ResidueSize(failed: seq<Attempt>, size: nat)
    requires forall a :: a in failed && a.Spoiled? ==> |a.junk| == size
    ensures Residue(failed).Some? ==> |Residue(failed).value| == size
  {
    if failed != [] {
      assert failed[|failed| - 1] in failed;
      ResidueSize(failed[..|failed| - 1], size);
    }
  }

  /** Distinct listed numbers in order 0, 1, ..., n-1 are the success rows 0..n-1. */
  lemma InOrderIsBelow(rows: Rows, chunks: seq<Listed>)
    requires IsListing(rows, chunks) && forall i :: 0 <= i < |chunks| ==> chunks[i].number == i
    ensures Successes(rows) == Below(|chunks|)
  {
    ListingCounts(rows, chunks);
    forall n ensures n in Successes(rows) <==> n in Below(|chunks|) {
      if n in Below(|chunks|) {
        assert chunks[n].number == n;
      }
    }
  }

  lemma BelowIsInOrder(rows: Rows, chunks: seq<Listed>, n: nat)
    requires IsListing(rows, chunks) && Successes(rows) == Below(n)
    ensures |chunks| == n && forall i :: 0 <= i < |chunks| ==> chunks[i].number == i
  {
    ListingCounts(rows, chunks);
    forall i | 0 <= i < |chunks| ensures 0 <= chunks[i].number < n {
      assert chunks[i].number in Successes(rows);
    }
    AscendingBelow(chunks, n);
  }

  /** The listing checks of the finalization task amount to `Finalizable`. */
  lemma ListingFinalizable(rows: Rows, chunks: seq<Listed>, total: nat)
    requires IsListing(rows, chunks) && total == MaxTotal(SuccessRows(rows))
    ensures (total > 0 && |chunks| == total && forall i :: 0 <= i < |chunks| ==> chunks[i].number == i)
           <==> Finalizable(rows)
  {
    hide MaxTotal, IsListing, Successes, SuccessRows;
    if forall i :: 0 <= i < |chunks| ==> chunks[i].number == i {
      InOrderIsBelow(rows, chunks);
    }
    if Finalizable(rows) {
      BelowIsInOrder(rows, chunks, total);
    }
  }

  /** Strictly ascending numbers filling 0..n-1 are 0, 1, ..., n-1 in order. */
  lemma {:induction false} AscendingBelow(chunks: seq<Listed>, n: nat)
    requires forall i, j :: 0 <= i < j < |chunks| ==> chunks[i].number < chunks[j].number
    requires |chunks| == n && forall i :: 0 <= i < |chunks| ==> 0 <= chunks[i].number < n
    ensures forall i :: 0 <= i < |chunks| ==> chunks[i].number == i
  {
    if n > 0 {
      assert forall i :: 0 <= i < n - 1 ==> chunks[i].number < chunks[n - 1].number;
      AscendingBelow(chunks[..n - 1], n - 1);
      if n > 1 {
        assert chunks[..n - 1][n - 2].number == n - 2;
      }
    }
  }

  /** Files without bytes weigh nothing. */
  lemma {:induction false} EmptyUsage(files: map<Key, FileState>, client: Bytes)
    requires forall k :: k in files && k.client == client ==> files[k].bytes.None?
    ensures Usage(files, client) == 0
    decreases |files|
  {
    if k :| k in files {
      UsageWithout(files, client, k);
      EmptyUsage(files - {k}, client);
    }
  }

  /** The files a directory walk meets. */
  ghost function Met(files: map<Key, FileState>, walked: set<Key>): map<Key, FileState> {
    map k | k in files && k in walked :: files[k]
  }

  /** A walk that ends early undercounts, unless all it misses is empty. */
  lemma {:induction false} MetUsage(files: map<Key, FileState>, walked: set<Key>, client: Bytes)
    ensures Usage(Met(files, walked), client) <= Usage(files, client)
    ensures Usage(Met(files, walked), client) == Usage(files, client)
       <==> forall k :: k in files && k !in walked && k.client == client ==> Size(files[k]) == 0
    decreases |files|
  {
    var met := Met(files, walked);
    if k :| k in files && k !in walked {
      UsageWithout(files, client, k);
      assert Met(files - {k}, walked) == met;
      MetUsage(files - {k}, walked, client);
      assert forall j :: j in files ==> j == k || (j in files - {k} && (files - {k})[j] == files[j]);
    } else {
      assert met == files;
    }
  }

  /** The budget test admits a file of this size although it exceeds the limit. */
  ghost predicate Overspends(files: map<Key, FileState>, walked: set<Key>, client: Bytes, limit: nat, additional: nat) {
    var used := Usage(Met(files, walked), client);
    used < UINT64_MAX && used + additional <= limit < Usage(files, client) + additional
  }

  /** Some new file is admitted beyond the limit exactly when the walk missed a file
      that is not empty. */
  lemma OverspendsIff(files: map<Key, FileState>, walked: set<Key>, client: Bytes, limit: nat)
    requires Usage(Met(files, walked), client) < UINT64_MAX && Usage(Met(files, walked), client) <= limit
    ensures (exists additional :: Overspends(files, walked, client, limit, additional))
       <==> (exists k :: k in files && k !in walked && k.client == client && Size(files[k]) > 0)
  {
    MetUsage(files, walked, client);
    hide Usage, Met;
    if Usage(Met(files, walked), client) < Usage(files, client) {
      assert Overspends(files, walked, client, limit, limit - Usage(Met(files, walked), client));
    }
  }

  /** Admission only looks at the file as it stands after clearing. */
  lemma AdmissibleAtOwnValue(files: map<Key, FileState>, limits: Limits, k: Key, f: FileState, p: Packet)
    ensures Admissible(files[k := f], limits, k, f, p) == Admissible(files, limits, k, f, p)
  {
    assert files[k := f][k := f] == files[k := f];
  }

  lemma OnwardFromRemoved(f: FileState, p: Packet, known: bool)
    ensures Onward(f, p, known, FileRemoved) == f
  {
  }

  class FileReceiver {
    const database: Database
    const limits: Limits
    const verifier: Bytes -> Bytes
    var outputFiles: map<Key, Bytes>
    var reconstructionStatus: map<Key, bool>
    var remainingChunks: map<Key, nat>
    var versionedTransferFilenames: map<Key, Key>
    var tasks: seq<Key>
    /** The rest of the shared thread pool's state: waiting connections, and the stop flag. */
    var others: nat
    var stopped: bool

    /** Starting up over the tables and files a previous process left: everything
        that process only held in memory is gone, and the counters are loaded unless
        the query for unfinished files fails. */
    constructor (database: Database, limits: Limits, verifier: Bytes -> Bytes, outputFiles: map<Key, Bytes>,
                 order: seq<Key>, listed: bool, ghost previous: Server)
      requires forall k :: Durable(database, outputFiles, k) == Crashed(At(previous, k))
      ensures this.database == database && this.limits == limits && this.verifier == verifier
      ensures this.outputFiles == outputFiles
      ensures Shows(Step(previous, limits, if listed then Restart(order) else BlindRestart))
    {
      this.database, this.limits, this.verifier, this.outputFiles := database, limits, verifier, outputFiles;
      reconstructionStatus, remainingChunks, versionedTransferFilenames := map[], map[], map[];
      tasks, others, stopped := [], 0, false;
      new;
      forall k ensures View(k) == At(Forgotten(previous), k) {
        assert View(k) == Durable(database, outputFiles, k);
      }
      if listed {
        LoadPendingCounters(order, Forgotten(previous));
      }
    }

    /** What tables and disk hold about one file. */
    static ghost function Durable(database: Database, outputFiles: map<Key, Bytes>, k: Key): FileState
      reads database
    {
      FileState(database.RowsOf(k), database.FirstOf(k), database.RecordOf(k),
                if k in outputFiles then Some(outputFiles[k]) else None, false, None)
    }

    /** Everything the server holds about one file. */
    ghost function View(k: Key): FileState
      reads this`outputFiles, this`reconstructionStatus, this`remainingChunks, database
    {
      FileState(database.RowsOf(k), database.FirstOf(k), database.RecordOf(k),
                if k in outputFiles then Some(outputFiles[k]) else None,
                k in reconstructionStatus && reconstructionStatus[k],
                if k in remainingChunks then Some(remainingChunks[k]) else None)
    }

    /** The objects' state is the abstract server `s`. */
    ghost predicate Shows(s: Server)
      reads this, database
    {
      && versionedTransferFilenames == s.versioned
      && tasks == s.tasks && others == s.others && stopped == s.stopped
      && forall k :: View(k) == At(s, k)
    }

    /** Some abstract server is always shown. */
    ghost function Snapshot(): (s: Server)
      reads this, database
      ensures Shows(s)
    {
      var keys := database.chunks.Keys + database.lowestId.Keys + database.reconstructed.Keys
                  + outputFiles.Keys + reconstructionStatus.Keys + remainingChunks.Keys;
      Server(map k | k in keys :: View(k), versionedTransferFilenames, tasks, others, stopped)
    }

    // ---------- Storage ----------

    /** The entries of a client's directory that a walk meets can all be looked at. */
    predicate AllReadable(client: Bytes, walked: set<Key>, readable: Key -> bool)
      reads this`outputFiles
    {
      forall k :: k in walked && k in outputFiles && k.client == client ==> readable(k)
    }

    /** Summing a client's files with saturation, over the entries the walk meets: the
        true total of these, or the maximum when it does not fit 64 bits or when an
        entry cannot be looked at. */
    method CalculateDirectorySize(client: Bytes, walked: set<Key>, readable: Key -> bool, ghost s: Server)
      returns (total: nat)
      requires Shows(s)
      requires forall k :: k in outputFiles ==> |outputFiles[k]| <= UINT64_MAX
      ensures total == if AllReadable(client, walked, readable)
                       then Min(Usage(Met(s.files, walked), client), UINT64_MAX)
                       else UINT64_MAX
    {
      total := 0;
      ghost var files := Met(s.files, walked);
      var rest := set k | k in walked && k in outputFiles && k.client == client;
      forall k ensures k in outputFiles <==> k in s.files && s.files[k].bytes.Some? {
        assert View(k) == At(s, k);
      }
      assert forall k :: k in outputFiles ==> View(k) == At(s, k);
      hide Shows, Usage;
      while true
        invariant files.Keys <= s.files.Keys && (forall k :: k in files ==> files[k] == s.files[k])
        invariant forall k :: k in rest <==> k in files && k.client == client && files[k].bytes.Some?
        invariant forall k :: k in rest ==> k in walked && k in outputFiles && files[k].bytes == Some(outputFiles[k])
        invariant forall k :: k in walked && k in outputFiles && k.client == client && k !in rest ==> readable(k)
        invariant total + Usage(files, client) == Usage(Met(s.files, walked), client) && total <= UINT64_MAX
        decreases |rest|
      {
        if k :| k in rest {
          if !readable(k) {
            return UINT64_MAX;
          }
          var fileSize := |outputFiles[k]|;
          UsageWithout(files, client, k);
          if total > UINT64_MAX - fileSize {
            return UINT64_MAX;
          }
          total := total + fileSize;
          rest := rest - {k};
          files := files - {k};
        } else {
          EmptyUsage(files, client);
          return total;
        }
      }
    }

    /** The budget test agrees with exact arithmetic over the entries the walk meets:
        nothing in it overflows, and an unreadable entry refuses. */
    method HasClientStorageBudget(
      client: Bytes, additional: nat, walked: set<Key>, readable: Key -> bool, ghost s: Server)
      returns (ok: bool)
      requires Shows(s)
      requires forall k :: k in outputFiles ==> |outputFiles[k]| <= UINT64_MAX
      ensures var used := Usage(Met(s.files, walked), client);
              ok <==> AllReadable(client, walked, readable)
                      && used < UINT64_MAX && used + additional <= limits.maxClientStorage
    {
      if additional > limits.maxClientStorage {
        return false;
      }
      var used := CalculateDirectorySize(client, walked, readable, s);
      if used == UINT64_MAX {
        return false;
      }
      return used <= limits.maxClientStorage - additional;
    }

    // ---------- Writing ----------

    /** Up to five attempts to write a chunk in place. */
    method WriteWithRetry(k: Key, offset: nat, data: Bytes, attempts: seq<Attempt>) returns (ok: bool)
      requires k in outputFiles && |attempts| == MAX_WRITE_ATTEMPTS
      requires forall a :: a in attempts && a.Spoiled? ==> |a.junk| == |data|
      modifies this`outputFiles
      ensures ok <==> Clean in attempts
      ensures outputFiles == old(outputFiles)[k := if ok then Overlay(old(outputFiles[k]), offset, data)
                                                   else Leftover(old(outputFiles[k]), offset, attempts)]
    {
      hide Overlay, Leftover;
      var attempt := 0;
      ok := false;
      ghost var before := outputFiles[k];
      assert Leftover(before, offset, attempts[..0]) == before by { LeftoverNone(before, offset); }
      while attempt < MAX_WRITE_ATTEMPTS && !ok
        invariant attempt <= MAX_WRITE_ATTEMPTS && k in outputFiles
        invariant ok <==> Clean in attempts[..attempt]
        invariant outputFiles[k] == if ok then Overlay(before, offset, data)
                  else Leftover(before, offset, attempts[..attempt])
        invariant outputFiles == old(outputFiles)[k := outputFiles[k]]
      {
        assert attempts[..attempt + 1] == attempts[..attempt] + [attempts[attempt]];
        assert attempts[attempt] in attempts;
        LeftoverStep(before, offset, attempts[..attempt], attempts[attempt], data);
        match attempts[attempt] {
          case NotOpened =>
          case Spoiled(junk) =>
            outputFiles := outputFiles[k := Overlay(outputFiles[k], offset, junk)];
          case Clean =>
            outputFiles := outputFiles[k := Overlay(outputFiles[k], offset, data)];
            ok := true;
        }
        attempt := attempt + 1;
      }
      assert ok || attempts[..attempt] == attempts;
    }

  // ---------- Receiving ----------

    method GetActiveTransferId(k: Key) returns (id: TransferId)
      ensures id == ActiveTransfer(View(k))
    {
      var rows, first := database.RowsOf(k), database.FirstOf(k);
      id := if first in rows then rows[first].transferId else [];
    }

    /** Deletes rows (and record), forgets the flag and removes the output file. */
    method ClearForReplacement(k: Key, replace: bool, removeOk: bool)
      modifies this`outputFiles, this`reconstructionStatus, database
      ensures View(k) == var dropped := Dropped(old(View(k)), replace);
              if removeOk then dropped.(bytes := None) else dropped
      ensures outputFiles == if removeOk then old(outputFiles) - {k} else old(outputFiles)
      ensures forall j :: j != k ==> View(j) == old(View(j))
    {
      if replace {
        database.DeleteReconstructedFile(k);
      }
      database.DeleteChunksByFile(k);
      reconstructionStatus := reconstructionStatus - {k};
      if removeOk {
        outputFiles := outputFiles - {k};
      }
    }

    /** The budget test over a complete walk. */
    method HasRoom(client: Bytes, additional: nat, readable: bool, ghost s: Server) returns (room: bool)
      requires Shows(s)
      requires forall j :: j in outputFiles ==> |outputFiles[j]| <= UINT64_MAX
      ensures var used := Usage(s.files, client);
              && (room ==> used < UINT64_MAX && used + additional <= limits.maxClientStorage)
              && (readable && used < UINT64_MAX && used + additional <= limits.maxClientStorage ==> room)
    {
      forall j | j in s.files && j !in outputFiles.Keys ensures Size(s.files[j]) == 0 {
        assert View(j) == At(s, j);
      }
      MetUsage(s.files, outputFiles.Keys, client);
      hide Usage, Met, Shows;
      room := HasClientStorageBudget(client, additional, outputFiles.Keys, _ => readable, s);
    }

    /** Admission and preallocation. `reach` says whether creating and sizing the
        file works out. */
    method PrepareOutputFileForChunk(k: Key, p: Packet, reach: Reach, ghost s: Server) returns (ok: bool)
      requires Shows(s)
      requires forall j :: j in outputFiles ==> |outputFiles[j]| <= UINT64_MAX
      modifies this`outputFiles
      ensures var f := old(View(k));
              var admitted := Admissible(s.files, limits, k, f, p);
              && (ok <==> admitted && reach.Rank() >= FileSized.Rank())
              && View(k) == (if !admitted || reach.Rank() <= FileRemoved.Rank() then f
                             else if reach.FileCreated? then Sized(f, 0) else Sized(f, p.TargetSize()))
      ensures forall j :: j != k ==> View(j) == old(View(j))
      ensures ok ==> k in outputFiles
    {
      assert Usage(s.files[k := At(s, k)], k.client) == Usage(s.files, k.client) by {
        UsageUpdate(s.files, k.client, k, At(s, k));
      }
      if p.TargetSize() > limits.maxFileSize {
        return false;
      }
      if p.fileSize > 0 {
        if p.offset > p.fileSize || |p.data| > p.fileSize - p.offset {
          return false;
        }
      }
      var isNewFile := k !in outputFiles;
      if isNewFile {
        var room := HasRoom(k.client, p.TargetSize(), reach.Rank() > FileRemoved.Rank(), s);
        if !room {
          return false;
        }
      }
      if reach.Rank() <= FileRemoved.Rank() {
        return false;
      }
      if isNewFile {
        outputFiles := outputFiles[k := if reach.FileCreated? then [] else Zeros(p.TargetSize())];
        if reach.FileCreated? {
          assert Zeros(0) == [];
          return false;
        }
      }
      return !reach.FileCreated?;
    }

    /** The row of a written chunk: inserted unless known, then marked successful. */
    method RecordChunk(k: Key, p: Packet, known: bool, reach: Reach) returns (ok: bool)
      requires reach.Rank() >= BytesWritten.Rank()
      modifies database
      ensures ok <==> reach.Marks()
      ensures var f := old(View(k));
              var inserted := if known || p.number in f.rows then f else Inserted(f, p);
              View(k) == (if reach.BytesWritten? then f
                          else if reach.RowInserted? then inserted else Marked(inserted, p.number))
      ensures forall j :: j != k ==> View(j) == old(View(j))
    {
      if reach.BytesWritten? {
        return false;
      }
      var chunkKnown := known;
      if !chunkKnown {
        chunkKnown := p.number in database.RowsOf(k);
      }
      if !chunkKnown {
        var inserted := database.InsertChunk(k, p.number, p.total, p.transferId);
        if !inserted {
          return false;
        }
      }
      if reach.RowInserted? {
        return false;
      }
      database.UpdateChunkStatus(k, p.number, Success);
      return true;
    }

    /** Preallocates, writes and records one chunk of a file that has been cleared
        if it had to be. */
    method StoreOnward(k: Key, p: Packet, known: bool, reach: Reach, attempts: seq<Attempt>, ghost s: Server)
      returns (ok: bool)
      requires Shows(s)
      requires forall j :: j in outputFiles ==> |outputFiles[j]| <= UINT64_MAX
      requires ScriptFits(attempts, reach, |p.data|)
      modifies this`outputFiles, database
      ensures var f := old(View(k));
              var r := if Admissible(s.files, limits, k, f, p) then reach else FileRemoved;
              && (ok <==> r.Marks())
              && View(k) == Onward(f, p, known, r)
      ensures forall j :: j != k ==> View(j) == old(View(j))
    {
      hide Overlay, Admissible, Usage, MaxTotal, Zeros, Residue, Shows;
      ok := PrepareOutputFileForChunk(k, p, reach, s);
      if !ok {
        return;
      }
      var written := WriteWithRetry(k, p.offset, p.data, attempts);
      if !written {
        return false;
      }
      ok := RecordChunk(k, p, known, reach);
    }

    /** Everything between the duplicate check and the completion accounting. */
    method StoreChunk(k: Key, d: Delivery, replace: bool, reset: bool, attempts: seq<Attempt>, ghost s: Server)
      returns (ok: bool)
      requires Shows(s)
      requires forall j :: j in outputFiles ==> |outputFiles[j]| <= UINT64_MAX
      requires d.reach.Rank() > 0 && ScriptFits(attempts, d.reach, |d.packet.data|)
      modifies this`outputFiles, this`reconstructionStatus, database
      ensures ok <==> AdmittedReach(s, limits, k, d, replace, reset).Marks()
      ensures View(k) == Progress(old(View(k)), d.packet, replace, reset,
                            AdmittedReach(s, limits, k, d, replace, reset))
      ensures forall j :: j != k ==> View(j) == old(View(j))
    {
      hide Onward, Admissible, ScriptFits, Usage, Overlay;
      ghost var f := View(k);
      assert f == At(s, k);
      var known := !reset && d.packet.number in database.RowsOf(k);
      if replace || reset {
        ClearForReplacement(k, replace, !d.reach.RowsDropped?);
      }
      if d.reach.RowsDropped? {
        return false;
      }
      ghost var removed := Cleared(f, replace, reset);
      assert View(k) == removed;
      AdmissibleAtOwnValue(s.files, limits, k, removed, d.packet);
      OnwardFromRemoved(removed, d.packet, known);
      ok := StoreOnward(k, d.packet, known, d.reach, attempts, s.(files := s.files[k := removed]));
    }

    /** The declared total: the chunk's own, or the largest one stored. */
    method DeclaredTotal(k: Key, p: Packet) returns (declared: nat)
      ensures declared == if p.total > 0 then p.total else MaxTotal(View(k).rows)
    {
      declared := p.total;
      if declared == 0 {
        declared := database.GetTotalChunkCount(k);
      }
    }

    method CountSuccesses(k: Key) returns (count: nat)
      ensures count == |Successes(View(k).rows)|
    {
      var chunks := database.GetChunksForFile(k);
      ListingCounts(database.RowsOf(k), chunks);
      count := |chunks|;
    }

    /** The shared thread pool takes one more task. */
    predicate PoolTakes()
      reads this`tasks, this`others, this`stopped
    {
      !stopped && |tasks| + others < limits.queueCapacity
    }

    /** Raises the flag and offers the task; a refused task lowers it again. */
    method OfferFinalization(k: Key)
      modifies this`reconstructionStatus, this`remainingChunks, this`tasks
      ensures var f := old(View(k));
              var room := old(PoolTakes());
              && View(k) == f.(finalizing := f.finalizing || room, remaining := None)
              && tasks == if !f.finalizing && room then old(tasks) + [k] else old(tasks)
      ensures forall j :: j != k ==> View(j) == old(View(j))
    {
      if k !in reconstructionStatus || !reconstructionStatus[k] {
        reconstructionStatus := reconstructionStatus[k := true];
        if PoolTakes() {
          tasks := tasks + [k];
        } else {
          reconstructionStatus := reconstructionStatus - {k};
        }
      }
      remainingChunks := remainingChunks - {k};
    }

    /** Completion accounting: counts success rows against the declared total and,
        when they suffice, raises the flag and offers the finalization task. Its reads
        are unguarded: when one throws the chunk is answered Failed. */
    method AccountForChunk(k: Key, p: Packet, readable: bool) returns (answer: Answer)
      modifies this`reconstructionStatus, this`remainingChunks, this`tasks
      ensures var r := if readable then Accounted(old(View(k)), p, old(PoolTakes()))
                       else Receipt(old(View(k)), Failed, false);
              && View(k) == r.file && answer == r.answer
              && tasks == if r.enqueue then old(tasks) + [k] else old(tasks)
      ensures forall j :: j != k ==> View(j) == old(View(j))
    {
      hide MaxTotal, Successes;
      if !readable {
        return Failed;
      }
      var declared := DeclaredTotal(k, p);
      if declared == 0 {
        return Stored;
      }
      var count := CountSuccesses(k);
      if count < declared {
        remainingChunks := remainingChunks[k := declared - count];
        return Stored;
      }
      OfferFinalization(k);
      return JustCompleted;
    }

    /** The completion pre-check on one file name. */
    method CheckCompletion(k: Key, policy: Policy, p: Packet) returns (verdict: Verdict)
      ensures verdict == PreCheck(View(k), policy, p)
    {
      var replace, reset := false, false;
      var record := database.RecordOf(k);
      if record.Some? {
        if p.transferId != [] && record.value == p.transferId {
          return Answered(AlreadyCompleted);
        }
        if !p.IsFirst() || policy.Reject? {
          return Answered(AlreadyCompleted);
        }
        if policy.Versioned? {
          return UseFreshName;
        }
        replace := true;
      }
      var hasRows := database.RowsOf(k) != map[];
      if hasRows && p.transferId != [] {
        var active := GetActiveTransferId(k);
        if active != p.transferId {
          if !p.IsFirst() {
            return Answered(Failed);
          }
          reset := true;
        }
      }
      if !replace && !hasRows && k in outputFiles {
        return if p.IsFirst() && policy.Versioned? then UseFreshName else Answered(AlreadyCompleted);
      }
      if k in reconstructionStatus && reconstructionStatus[k] && !replace {
        return Answered(AlreadyCompleted);
      }
      return Proceed(replace, reset);
    }

    /** What follows the pre-check, on the file name it settled on. */
    method AcceptChunk(k: Key, d: Delivery, replace: bool, reset: bool, attempts: seq<Attempt>, ghost s: Server)
      returns (answer: Answer)
      requires Shows(s)
      requires forall j :: j in outputFiles ==> |outputFiles[j]| <= UINT64_MAX
      requires d.reach.Rank() > 0 ==> ScriptFits(attempts, d.reach, |d.packet.data|)
      requires d.intact == (verifier(d.packet.data) == d.packet.digest)
      modifies this`outputFiles, this`reconstructionStatus, this`remainingChunks, this`tasks, database
      ensures var reach := AdmittedReach(s, limits, k, d, replace, reset);
              var r := Accepted(old(View(k)), d.packet, replace, reset, d.intact, reach,
                                old(PoolTakes()));
              && View(k) == r.file && answer == r.answer
              && tasks == if r.enqueue then old(tasks) + [k] else old(tasks)
      ensures forall j :: j != k ==> View(j) == old(View(j))
    {
      var p := d.packet;
      if verifier(p.data) != p.digest {
        return Failed;
      }
      if d.reach.Rank() == 0 {
        return Failed;
      }
      var rows := database.RowsOf(k);
      if !reset && p.number in rows && rows[p.number].status.Success? {
        return Stored;
      }
      var stored := StoreChunk(k, d, replace, reset, attempts, s);
      if !stored {
        return Failed;
      }
      answer := AccountForChunk(k, p, d.reach.Counted?);
    }

    /** The switch to a fresh versioned name. */
    method SwitchToVersionedFilename(d: Delivery, ghost s: Server)
      requires Shows(s)
      modifies this`versionedTransferFilenames
      ensures Shows(s.(versioned := s.versioned[d.key := d.freshKey]))
    {
      versionedTransferFilenames := versionedTransferFilenames[d.key := d.freshKey];
    }

    /** The accepted part together with the version bookkeeping is `Into`. */
    method ReceiveInto(
      k: Key, viaVersion: bool, d: Delivery, replace: bool, reset: bool, attempts: seq<Attempt>, ghost s: Server)
      returns (answer: Answer)
      requires Shows(s)
      requires forall j :: j in outputFiles ==> |outputFiles[j]| <= UINT64_MAX
      requires d.reach.Rank() > 0 ==> ScriptFits(attempts, d.reach, |d.packet.data|)
      requires d.intact == (verifier(d.packet.data) == d.packet.digest)
      modifies this, database
      ensures Shows(Into(s, limits, d, k, viaVersion, replace, reset).0)
      ensures answer == Into(s, limits, d, k, viaVersion, replace, reset).1
    {
      hide Accepted, AdmittedReach, ScriptFits;
      ghost var next := Into(s, limits, d, k, viaVersion, replace, reset).0;
      assert View(k) == At(s, k);
      answer := AcceptChunk(k, d, replace, reset, attempts, s);
      forall j ensures View(j) == At(next, j) {
        assert old(View(j)) == At(s, j);
      }
      if answer.JustCompleted? && viaVersion {
        versionedTransferFilenames := versionedTransferFilenames - {d.key};
      }
    }

    /** One packet: the new state and the answer are those of `Receive`. */
    method ReceiveChunk(d: Delivery, attempts: seq<Attempt>, ghost s: Server) returns (answer: Answer)
      requires Shows(s)
      requires forall j :: j in outputFiles ==> |outputFiles[j]| <= UINT64_MAX
      requires d.reach.Rank() > 0 ==> ScriptFits(attempts, d.reach, |d.packet.data|)
      requires d.intact == (verifier(d.packet.data) == d.packet.digest)
      requires View(d.freshKey) == Absent
      modifies this, database
      ensures Shows(Receive(s, limits, d).0) && answer == Receive(s, limits, d).1
    {
      hide PreCheck, Into, ScriptFits;
      var k, viaVersion := d.key, false;
      if !d.packet.IsFirst() && d.policy.Versioned? && d.key in versionedTransferFilenames {
        k, viaVersion := versionedTransferFilenames[d.key], true;
      }
      assert k == LookupKey(s, d) && View(k) == At(s, k);
      var verdict := CheckCompletion(k, d.policy, d.packet);
      if d.reach.Unchecked? {
        if d.reach.switched && verdict.UseFreshName? {
          SwitchToVersionedFilename(d, s);
        }
        return Failed;
      }
      match verdict {
        case Answered(a) =>
          answer := a;
        case Proceed(replace, reset) =>
          answer := ReceiveInto(k, viaVersion, d, replace, reset, attempts, s);
        case UseFreshName =>
          SwitchToVersionedFilename(d, s);
          answer := ReceiveInto(d.freshKey, true, d, false, false, attempts,
                                s.(versioned := s.versioned[d.key := d.freshKey]));
      }
    }

    // ---------- Finalizing and restarting ----------

    /** The largest total any listed chunk declares. */
    static method ExpectedTotal(rows: Rows, chunks: seq<Listed>) returns (expected: nat)
      requires IsListing(rows, chunks)
      ensures expected == MaxTotal(SuccessRows(rows))
    {
      expected := 0;
      for i := 0 to |chunks|
        invariant forall j :: 0 <= j < i ==> chunks[j].row.total <= expected
        invariant expected == 0 || exists j :: 0 <= j < i && chunks[j].row.total == expected
      {
        if expected < chunks[i].row.total {
          expected := chunks[i].row.total;
        }
      }
      if expected > 0 {
        ghost var j :| 0 <= j < |chunks| && chunks[j].row.total == expected;
        assert chunks[j].number in SuccessRows(rows);
      }
      MaxTotalUnique(SuccessRows(rows), expected);
    }

    /** Are the listed chunks numbered 0, 1, 2, ...? */
    static method InSequence(chunks: seq<Listed>) returns (ok: bool)
      ensures ok <==> forall i :: 0 <= i < |chunks| ==> chunks[i].number == i
    {
      for i := 0 to |chunks|
        invariant forall j :: 0 <= j < i ==> chunks[j].number == j
      {
        if chunks[i].number != i {
          return false;
        }
      }
      return true;
    }

    /** The body of a finalization task. A failed validation returns early, before
        the flag is cleared; an exception out of the rollback leaves it up too. */
    method TryReconstructFile(k: Key, finish: Finish)
      modifies this`reconstructionStatus, database
      ensures View(k) == Finalized(old(View(k)), finish)
      ensures forall j :: j != k ==> View(j) == old(View(j))
    {
      hide MaxTotal, SuccessRows, Successes;
      if !finish.RolledBack? {
        var rows := database.RowsOf(k);
        var chunks := database.GetChunksForFile(k);
        var expected := ExpectedTotal(rows, chunks);
        ListingFinalizable(rows, chunks, expected);
        if chunks == [] || expected == 0 || |chunks| != expected {
          return;
        }
        var ordered := InSequence(chunks);
        if !ordered {
          return;
        }
        if finish.Escaped? {
          return;
        }
        database.AddReconstructedFile(k, chunks[0].row.transferId);
        database.DeleteChunksByFile(k);
      }
      reconstructionStatus := reconstructionStatus - {k};
    }

    /** A worker takes the i-th queued task and runs it. */
    method RunTask(i: nat, finish: Finish, ghost s: Server)
      requires Shows(s) && i < |tasks|
      modifies this`reconstructionStatus, this`tasks, database
      ensures Shows(Step(s, limits, Finalize(i, finish)))
    {
      hide Finalized;
      var k := tasks[i];
      ghost var next := Step(s, limits, Finalize(i, finish));
      assert View(k) == At(s, k);
      tasks := tasks[..i] + tasks[i + 1..];
      TryReconstructFile(k, finish);
      forall j ensures View(j) == At(next, j) {
        assert old(View(j)) == At(s, j);
      }
    }

    /** Pre-populating one file from its rows. */
    method LoadPendingCounter(k: Key)
      modifies this`reconstructionStatus, this`remainingChunks, this`tasks
      ensures View(k) == Reloaded(old(View(k)))
      ensures tasks == if Reloaded(old(View(k))).finalizing && !old(View(k)).finalizing
                         && old(PoolTakes())
                       then old(tasks) + [k] else old(tasks)
      ensures forall j :: j != k ==> View(j) == old(View(j))
    {
      hide MaxTotal, Successes;
      if database.RowsOf(k) == map[] || database.RecordOf(k).Some? {
        return;
      }
      var total := database.GetTotalChunkCount(k);
      if total == 0 {
        return;
      }
      var count := CountSuccesses(k);
      if count < total {
        remainingChunks := remainingChunks[k := total - count];
        return;
      }
      if k !in reconstructionStatus || !reconstructionStatus[k] {
        reconstructionStatus := reconstructionStatus[k := true];
        if PoolTakes() {
          tasks := tasks + [k];
        }
      }
    }

    method LoadShownCounter(k: Key, ghost s: Server)
      requires Shows(s)
      modifies this`reconstructionStatus, this`remainingChunks, this`tasks
      ensures Shows(RecoverOne(s, limits, k))
    {
      hide Reloaded;
      ghost var next := RecoverOne(s, limits, k);
      assert View(k) == At(s, k);
      LoadPendingCounter(k);
      forall j ensures View(j) == At(next, j) {
        assert old(View(j)) == At(s, j);
      }
    }

    /** The start-up pass over the in-progress files. */
    method LoadPendingCounters(order: seq<Key>, ghost s: Server)
      requires Shows(s)
      modifies this`reconstructionStatus, this`remainingChunks, this`tasks
      ensures Shows(Recover(s, limits, order))
    {
      hide RecoverOne, Shows;
      ghost var now := s;
      for i := 0 to |order|
        invariant Shows(now)
        invariant Recover(now, limits, order[i..]) == Recover(s, limits, order)
      {
        assert order[i..][1..] == order[i + 1..];
        LoadShownCounter(order[i], now);
        now := RecoverOne(now, limits, order[i]);
      }
    }
  }
}
