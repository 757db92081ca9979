/** From the agent's split to the server's output file: the emitted chunks pass the
    parser, follow one plan, and once each was acknowledged the content arrives. */
module EndToEnd {
  import opened Basics
  import opened BigEndian
  import opened TransferPlans
  import opened FileSplit
  import opened ChunkPacket
  import PathNames
  import AgentDatabase
  import AgentLedger
  import ServerFile
  import opened ServerSafety
  import opened ServerMachine
  import opened ServerRuns
  import opened ServerDurability
  import opened ServerTasks
  import opened ServerProgress

  /** The names and address a chunk is sent under. */
  datatype Addressing = Addressing(filename: Bytes, directory: Bytes, serverAddress: Bytes) {
    predicate Safe() {
      && PathNames.IsSafeFilename(filename) && PathNames.IsSafeRelativeDirectory(directory)
      && |serverAddress| <= MAX_SERVER_ADDRESS
    }
  }

  /** The chunk's metadata and bytes as a packet, when its number fits the int it is
      kept in. */
  function MessageOf(c: Chunk, names: Addressing): Option<Message> {
    if c.number < INT32_LIMIT && -(INT32_LIMIT as int) <= c.total < INT32_LIMIT
       && c.offset <= UINT64_MAX && c.fileSize <= UINT64_MAX
    then Some(Message(names.filename, names.directory, names.serverAddress, c.transferId,
                      c.number, c.total, c.offset, c.fileSize, c.digest, c.data))
    else None
  }

  predicate PassesParser(c: Chunk, names: Addressing) {
    MessageOf(c, names).Some? && MessageOf(c, names).value.InBounds()
  }

  lemma {:induction false} BoundariesSpread(content: Bytes, chunkSize: nat, provider: Provider, i: nat)
    requires content != [] && i + 1 < |SplitPlan(content, chunkSize, provider).cuts|
    ensures SplitPlan(content, chunkSize, provider).Valid()
    ensures SplitPlan(content, chunkSize, provider).cuts[i] >= i * MIN_CHUNK
  {
    SplitTiles(content, chunkSize, provider);
    if i > 0 {
      BoundariesSpread(content, chunkSize, provider, i - 1);
    }
  }

  /** A file within the size limit has few enough chunks for every counter. */
  lemma CountWithinLimit(content: Bytes, chunkSize: nat, provider: Provider)
    requires content != [] && |content| <= MAX_FILE_BYTES
    ensures SplitPlan(content, chunkSize, provider).Valid()
    ensures SplitPlan(content, chunkSize, provider).Count() <= MAX_FILE_BYTES / MIN_CHUNK < INT32_LIMIT
  {
    SplitTiles(content, chunkSize, provider);
    var p := SplitPlan(content, chunkSize, provider);
    BoundariesSpread(content, chunkSize, provider, p.Count() - 1);
    PiecePlacement(p, p.Count() - 1);
  }

  /** What every chunk of the split meets, whatever the file's size. */
  lemma ChunkFacts(p: Plan, i: nat, chunkSize: nat, digest: Bytes -> Bytes, transferId: Bytes)
    requires p.Valid() && i < p.Count() && chunkSize > 0
    requires p.cuts[i + 1] - p.cuts[i] <= MAX_CHUNK
    ensures var c := PlannedChunk(p, i, chunkSize, digest, transferId);
            && c.number == i && c.fileSize == |p.content| && c.transferId == transferId && c.digest == digest(c.data)
            && 0 < |c.data| <= MAX_CHUNK && c.offset < c.fileSize && |c.data| <= c.fileSize - c.offset
            && c.total == EmittedTotal(p, i, chunkSize)
  {
    PiecePlacement(p, i);
  }

  lemma ChunkPasses(
    content: Bytes, chunkSize: nat, provider: Provider, i: nat, digest: Bytes -> Bytes,
    transferId: Bytes, names: Addressing)
    requires content != [] && MIN_CHUNK <= chunkSize <= MAX_CHUNK && names.Safe()
    requires |transferId| == HEX_LENGTH && PathNames.IsLowerHex(transferId)
    requires forall b :: |digest(b)| == HEX_LENGTH && PathNames.IsLowerHex(digest(b))
    requires SplitPlan(content, chunkSize, provider).Valid() && i < SplitPlan(content, chunkSize, provider).Count()
    requires |content| <= MAX_FILE_BYTES && SplitPlan(content, chunkSize, provider).Count() <= MAX_TOTAL_CHUNKS
    ensures PassesParser(PlannedChunk(SplitPlan(content, chunkSize, provider), i, chunkSize, digest, transferId), names)
  {
    SplitTiles(content, chunkSize, provider);
    var p := SplitPlan(content, chunkSize, provider);
    ChunkFacts(p, i, chunkSize, digest, transferId);
    EmittedTotalIsDeclared(content, chunkSize, provider, i);
    assert p.content == content && p.adaptive == provider.Some?;
    hide SplitPlan, EmittedTotal, PathNames.IsLowerHex, Plan.Valid, PlannedChunk;
  }

  /** Every chunk of a split passes the server's parser exactly when the file is at
      most 100 GiB and is cut into at most a million chunks. The agent checks
      neither: 32 KiB chunks reach the second limit below 31 GiB. */
  lemma SplitPassesParserIff(
    content: Bytes, chunkSize: nat, provider: Provider, digest: Bytes -> Bytes, transferId: Bytes, names: Addressing)
    requires content != [] && MIN_CHUNK <= chunkSize <= MAX_CHUNK && names.Safe()
    requires |transferId| == HEX_LENGTH && PathNames.IsLowerHex(transferId)
    requires forall b :: |digest(b)| == HEX_LENGTH && PathNames.IsLowerHex(digest(b))
    ensures SplitPlan(content, chunkSize, provider).Valid()
    ensures var p := SplitPlan(content, chunkSize, provider);
            (forall i :: 0 <= i < p.Count() ==> PassesParser(PlannedChunk(p, i, chunkSize, digest, transferId), names))
            <==> |content| <= MAX_FILE_BYTES && p.Count() <= MAX_TOTAL_CHUNKS
  {
    SplitTiles(content, chunkSize, provider);
    var p := SplitPlan(content, chunkSize, provider);
    var last := p.Count() - 1;
    ChunkFacts(p, last, chunkSize, digest, transferId);
    EmittedTotalIsDeclared(content, chunkSize, provider, last);
    if |content| <= MAX_FILE_BYTES {
      CountWithinLimit(content, chunkSize, provider);
    }
    hide SplitPlan, EmittedTotal, PathNames.IsLowerHex, Plan.Valid, PlannedChunk;
    if |content| <= MAX_FILE_BYTES && p.Count() <= MAX_TOTAL_CHUNKS {
      forall i | 0 <= i < p.Count() ensures PassesParser(PlannedChunk(p, i, chunkSize, digest, transferId), names) {
        ChunkPasses(content, chunkSize, provider, i, digest, transferId, names);
      }
    }
    var lastChunk := PlannedChunk(p, last, chunkSize, digest, transferId);
    assert PassesParser(lastChunk, names) ==> |content| <= MAX_FILE_BYTES;
    assert |content| <= MAX_FILE_BYTES ==> lastChunk.total == p.Declared(last) == p.Count();
  }

  /** A chunk of the split is a planned chunk for the server, and the row stored for
      it stands for the chunk the ledger plans. */
  lemma EmittedChunksFollowPlan(
    plans: Plans, t: TransferId, content: Bytes, chunkSize: nat, provider: Provider,
    digest: Bytes -> Bytes, i: nat, sent: bool)
    requires ValidPlans(plans) && t in plans && plans[t] == SplitPlan(content, chunkSize, provider)
    requires content != [] && MIN_CHUNK <= chunkSize <= MAX_CHUNK && i < plans[t].Count()
    requires provider.Some? || plans[t].Count() < INT32_LIMIT
    ensures var c := PlannedChunk(plans[t], i, chunkSize, digest, t);
            && c.total >= 0
            && Genuine(plans, ServerFile.Packet(c.number, c.offset, c.total, c.fileSize, t, c.digest, c.data))
            && AgentLedger.Core(RowFor(c, sent)) == AgentLedger.PlannedRow(AgentLedger.Split(plans[t], t, digest), i)
  {
    EmittedTotalIsDeclared(content, chunkSize, provider, i);
  }

  /** Chunk n was acknowledged at some point, and nothing superseded the transfer since. */
  ghost predicate AcknowledgedSince(s: Server, limits: Limits, events: seq<Event>, k: Key, t: TransferId, n: int) {
    exists i: nat :: i < |events| && Acknowledges(s, limits, events, i, k, t, n)
                     && Undisturbed(s, limits, events, i, |events|, k, t)
  }

  /** The server has recorded transfer t for file k with exactly the given bytes, or
      holds a task that does. */
  ghost predicate Arrived(plans: Plans, s: Server, limits: Limits, k: Key, t: TransferId, content: Bytes)
    requires ValidPlans(plans) && t in plans
  {
    || (At(s, k).record == Some(t) && At(s, k).bytes == Some(content))
    || (TaskDelivers(plans, s, limits, k, t) && plans[t].content == content)
  }

  /** With all chunks of t held, the content has arrived exactly when the file does not
      lack its task. */
  lemma HeldArrives(plans: Plans, s: Server, limits: Limits, k: Key, t: TransferId)
    requires ValidPlans(plans) && Invariant(plans, s) && t in plans
    requires forall n :: 0 <= n < plans[t].Count() ==> Held(At(s, k), t, n)
    ensures Arrived(plans, s, limits, k, t, plans[t].content) <==> !Unserved(plans, s, k)
  {
    hide Held, TaskDelivers, Sound;
    AtSound(plans, s, k);
    if At(s, k).record == Some(t) {
      RecordIsContent(plans, s, k);
      RecordedIsNotDue(plans, At(s, k));
    } else {
      HeldAllIsDue(plans, At(s, k), t);
      if k in s.tasks {
        FlaggedTaskDelivers(plans, s, limits, k);
      } else {
        NoTaskDelivers(plans, s, limits, k, t);
      }
    }
  }

  lemma RecordedIsNotDue(plans: Plans, f: ServerFile.FileState)
    requires ValidPlans(plans) && Sound(plans, f) && f.record.Some?
    ensures !Due(plans, f)
  {
  }

  lemma NoTaskDelivers(plans: Plans, s: Server, limits: Limits, k: Key, t: TransferId)
    requires t in plans && k !in s.tasks
    ensures !TaskDelivers(plans, s, limits, k, t)
  {
  }

  /** End to end: a file split by the agent, each chunk of it answered Stored or
      JustCompleted at some time, in any order and across any crashes, with nothing
      superseding it. Then the server has recorded exactly the file's bytes or holds
      a task that does, exactly when no event of the run abandoned the complete file
      without a later one relieving it. */
  lemma SplitIsDelivered(
    plans: Plans, s: Server, limits: Limits, events: seq<Event>, k: Key, t: TransferId,
    content: Bytes, chunkSize: nat, provider: Provider)
    requires ValidPlans(plans) && Initial(s) && AllowedRun(plans, s, limits, events)
    requires content != [] && t in plans && plans[t] == SplitPlan(content, chunkSize, provider)
    requires forall n :: 0 <= n < plans[t].Count() ==> AcknowledgedSince(s, limits, events, k, t, n)
    ensures Arrived(plans, Run(s, limits, events), limits, k, t, content)
       <==> !Abandoned(plans, s, limits, events, |events|, k)
  {
    assert events[..|events|] == events;
    AllHeldNow(plans, s, limits, events, k, t);
    RunKeepsInvariant(plans, s, limits, events);
    hide Held, Run, AllowedRun, AcknowledgedSince, Initial, SplitPlan, Invariant, Arrived, Abandoned, Unserved;
    HeldArrives(plans, Run(s, limits, events), limits, k, t);
    UnservedRunIff(plans, s, limits, events, |events|, k);
    SplitContent(content, chunkSize, provider);
  }

  /** Whatever abandoned the file, a restart with queue room for all due files ends it. */
  lemma RestartDelivers(
    plans: Plans, s: Server, limits: Limits, events: seq<Event>, order: seq<Key>, k: Key, t: TransferId,
    content: Bytes, chunkSize: nat, provider: Provider)
    requires ValidPlans(plans) && Initial(s) && AllowedRun(plans, s, limits, events)
    requires content != [] && t in plans && plans[t] == SplitPlan(content, chunkSize, provider)
    requires forall n :: 0 <= n < plans[t].Count() ==> AcknowledgedSince(s, limits, events, k, t, n)
    requires Visits(Run(s, limits, events), order)
    requires |DueKeys(plans, Forgotten(Run(s, limits, events)), order)| <= limits.queueCapacity
    ensures Arrived(plans, Run(s, limits, events + [Restart(order)]), limits, k, t, content)
  {
    RunKeepsInvariant(plans, s, limits, events);
    AllHeldNow(plans, s, limits, events, k, t);
    hide Held, Run, Step, TaskDelivers, DueKeys, AllowedRun, Visits, AcknowledgedSince, Initial, SplitPlan, Invariant;
    AfterOneMore(s, limits, events, Restart(order));
    AllHeldIsDelivered(plans, Run(s, limits, events), limits, order, k, t);
    SplitContent(content, chunkSize, provider);
  }

  lemma SplitContent(content: Bytes, chunkSize: nat, provider: Provider)
    ensures SplitPlan(content, chunkSize, provider).content == content
  {
  }

  lemma AllHeldNow(plans: Plans, s: Server, limits: Limits, events: seq<Event>, k: Key, t: TransferId)
    requires ValidPlans(plans) && Initial(s) && AllowedRun(plans, s, limits, events) && t in plans
    requires forall n :: 0 <= n < plans[t].Count() ==> AcknowledgedSince(s, limits, events, k, t, n)
    ensures forall n :: 0 <= n < plans[t].Count() ==> Held(At(Run(s, limits, events), k), t, n)
  {
    hide Held, Run, AllowedRun, Initial, Acknowledges, Undisturbed;
    assert events[..|events|] == events;
    forall n | 0 <= n < plans[t].Count() ensures Held(At(Run(s, limits, events), k), t, n) {
      assert AcknowledgedSince(s, limits, events, k, t, n);
      var i: nat :| i < |events| && Acknowledges(s, limits, events, i, k, t, n)
                    && Undisturbed(s, limits, events, i, |events|, k, t);
      AcknowledgedStaysHeld(plans, s, limits, events, i, |events|, k, t, n);
    }
  }

  lemma AfterOneMore(s: Server, limits: Limits, events: seq<Event>, e: Event)
    ensures Run(s, limits, events + [e]) == Step(Run(s, limits, events), limits, e)
  {
    assert (events + [e])[..|events|] == events;
  }

  lemma RecordIsContent(plans: Plans, s: Server, k: Key)
    requires ValidPlans(plans) && Invariant(plans, s)
    ensures At(s, k).record.Some? ==>
              At(s, k).record.value in plans && At(s, k).bytes == Some(plans[At(s, k).record.value].content)
  {
    AtSound(plans, s, k);
  }

  /** A transfer sent whole, to a free name and within all limits, arrives exactly when the
      thread pool has room for its finalization. */
  lemma SentWholeArrives(plans: Plans, s: Server, limits: Limits, ds: seq<Delivery>, k: Key, t: TransferId)
    requires ValidPlans(plans) && Initial(s) && t in plans && |ds| == plans[t].Count()
    requires At(s, k) == ServerFile.Absent && |plans[t].content| <= limits.maxFileSize
    requires Usage(s.files, k.client) < UINT64_MAX
    requires Usage(s.files, k.client) + |plans[t].content| <= limits.maxClientStorage
    requires AllowedRun(plans, s, limits, Deliveries(ds))
    requires forall i :: 0 <= i < |ds| ==> Works(plans, ds[i], k, t, i)
    ensures Arrived(plans, Run(s, limits, Deliveries(ds)), limits, k, t, plans[t].content)
       <==> !s.stopped && |s.tasks| + s.others < limits.queueCapacity
  {
    WholeTransferWorks(plans, s, limits, ds, k, t, |ds| - 1);
    RunKeepsInvariant(plans, s, limits, Deliveries(ds));
    var x := Run(s, limits, Deliveries(ds));
    hide Run, Usage, Works, AllowedRun, Initial, Invariant, Unserved, Arrived;
    DueIsHeld(plans, x, k, t);
    HeldArrives(plans, x, limits, k, t);
  }

  lemma DueIsHeld(plans: Plans, s: Server, k: Key, t: TransferId)
    requires ValidPlans(plans) && Invariant(plans, s) && t in plans
    requires Due(plans, At(s, k)) && ServerFile.ActiveTransfer(At(s, k)) == t
    ensures forall n :: 0 <= n < plans[t].Count() ==> Held(At(s, k), t, n)
  {
    AtSound(plans, s, k);
    forall n | 0 <= n < plans[t].Count() ensures Held(At(s, k), t, n) {
      RowsShareTransfer(plans, At(s, k), n);
    }
  }

  // ---------- From the agent's table to the server's disk ----------

  /** Each chunk of transfer t that target j confirmed to the agent was acknowledged by
      the server behind it, for file k, and not superseded since. */
  ghost predicate AnswersFrom(
    cfg: AgentLedger.Config, told: seq<AgentLedger.Event>, j: nat,
    s: Server, limits: Limits, events: seq<Event>, k: Key, t: TransferId)
  {
    forall i: nat, n: int, row: AgentDatabase.ChunkRow | i < |told| && row.transferId == t ::
      (AgentLedger.Confirms(AgentLedger.Run(AgentLedger.Fresh, cfg, told[..i]), cfg, told[i], j, n, row)
       ==> AcknowledgedSince(s, limits, events, k, t, n))
  }

  /** A file the agent's query reports as fully sent, none of whose chunks target j
      answered with "already there", has arrived on that target with exactly its
      bytes, unless an event of the server's run abandoned it. */
  lemma FullySentArrives(
    cfg: AgentLedger.Config, told: seq<AgentLedger.Event>, j: nat,
    plans: Plans, s: Server, limits: Limits, events: seq<Event>, k: Key, t: TransferId)
    requires AgentLedger.Proper(told) && AgentLedger.ConcludesMatch(cfg, told) && j < cfg.targets
    requires var l := AgentLedger.Run(AgentLedger.Fresh, cfg, told);
             && AgentDatabase.FullySent(l.rows)
             && l.split.Some? && l.split.value.transferId == t && t in plans && l.split.value.plan == plans[t]
             && forall n, row :: (j, n, row) in l.history.existing ==> row.transferId != t
    requires ValidPlans(plans) && Initial(s) && AllowedRun(plans, s, limits, events)
    requires AnswersFrom(cfg, told, j, s, limits, events, k, t)
    ensures Arrived(plans, Run(s, limits, events), limits, k, t, plans[t].content)
       <==> !Abandoned(plans, s, limits, events, |events|, k)
  {
    var l := AgentLedger.Run(AgentLedger.Fresh, cfg, told);
    assert told[..|told|] == told && events[..|events|] == events;
    AgentLedger.FullySentIffDelivered(cfg, told);
    hide Run, AllowedRun, Initial, Arrived, Abandoned, Unserved, Held, AcknowledgedSince, Plan.Valid, Invariant;
    hide AgentLedger.Run, AgentLedger.Proper, AgentLedger.ConcludesMatch, AgentLedger.Confirms;
    forall n | 0 <= n < plans[t].Count() ensures AcknowledgedSince(s, limits, events, k, t, n) {
      var row := AgentLedger.PlannedRow(l.split.value, n);
      assert (j, n, row) in l.history.acks && row.transferId == t;
      AgentLedger.AnswersWereHeard(cfg, told, |told|, j, n, row);
    }
    AllHeldNow(plans, s, limits, events, k, t);
    RunKeepsInvariant(plans, s, limits, events);
    HeldArrives(plans, Run(s, limits, events), limits, k, t);
    UnservedRunIff(plans, s, limits, events, |events|, k);
  }
}
