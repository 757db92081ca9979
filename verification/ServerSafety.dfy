/** What every delivery and every finalization keeps for one output file, when
    each transfer id has one content and one chunk plan. */
module ServerSafety {
  import opened Basics
  import opened TransferPlans
  import opened ServerFile

  type Plans = map<TransferId, Plan>

  ghost predicate ValidPlans(plans: Plans) {
    forall t :: t in plans ==> t != [] && plans[t].Valid()
  }

  /** The rows are rows of transfer t, and every success row is backed by the
      right bytes in a file of the right length. */
  ghost predicate Follows(plan: Plan, t: TransferId, rows: Rows, bytes: Bytes)
    requires plan.Valid()
  {
    && |bytes| == |plan.content|
    && forall n :: n in rows ==>
         && 0 <= n < plan.Count()
         && rows[n].transferId == t
         && rows[n].total == plan.Declared(n)
         && (rows[n].status.Success? ==> plan.Holds(bytes, n))
  }

  ghost predicate Complete(plan: Plan, rows: Rows)
    requires plan.Valid()
  {
    forall n :: 0 <= n < plan.Count() ==> n in rows && rows[n].status.Success?
  }

  ghost predicate InProgress(plans: Plans, f: FileState)
    requires ValidPlans(plans)
  {
    && f.record.None?
    && f.bytes.Some?
    && f.first in f.rows
    && f.rows[f.first].transferId in plans
    && Follows(plans[f.rows[f.first].transferId], f.rows[f.first].transferId, f.rows, f.bytes.value)
  }

  /** The per-file invariant: rows carry one transfer and never coexist with a
      record; a record means the file is that transfer's content; the flag is
      only up while the rows are complete. */
  ghost predicate Sound(plans: Plans, f: FileState)
    requires ValidPlans(plans)
  {
    && (f.rows != map[] ==> InProgress(plans, f))
    && (f.record.Some? ==> f.record.value in plans && f.bytes == Some(plans[f.record.value].content))
    && (f.finalizing ==> f.rows != map[] && Complete(plans[ActiveTransfer(f)], f.rows))
  }

  /** A delivery whose metadata is that of some planned chunk; only its payload
      may have been damaged. */
  ghost predicate Genuine(plans: Plans, p: Packet)
    requires ValidPlans(plans)
  {
    && p.transferId in plans
    && 0 <= p.number < plans[p.transferId].Count()
    && p.offset == plans[p.transferId].cuts[p.number]
    && p.total == plans[p.transferId].Declared(p.number)
    && p.fileSize == |plans[p.transferId].content|
  }

  /** `intact` is the digest test; a damaged payload never passes it. */
  ghost predicate Undamaged(plans: Plans, p: Packet, intact: bool, reach: Reach)
    requires ValidPlans(plans) && Genuine(plans, p)
  {
    && (intact ==> p.data == plans[p.transferId].Piece(p.number))
    && (reach.Torn? ==> |reach.junk| == |p.data|)
  }

  /** A file that can take a chunk of transfer t: untouched, or holding rows of t. */
  ghost predicate Receptive(plans: Plans, t: TransferId, f: FileState)
    requires ValidPlans(plans)
  {
    && f.record.None? && !f.finalizing
    && if f.rows == map[] then f.bytes.None? else InProgress(plans, f) && ActiveTransfer(f) == t
  }

  // ---------- One delivery ----------

  /** A delivery that passes the pre-check meets a receptive file, or resets one
      that holds no finalization in flight. */
  lemma ProceedMeansReceptive(plans: Plans, f: FileState, policy: Policy, p: Packet, replace: bool, reset: bool)
    requires ValidPlans(plans) && Sound(plans, f) && Genuine(plans, p)
    requires PreCheck(f, policy, p) == Proceed(replace, reset)
    ensures !f.finalizing
    ensures replace ==> p.IsFirst() && policy.Overwrite? && f.record.Some? && f.rows == map[] && !reset
    ensures reset ==> p.IsFirst() && f.rows != map[] && ActiveTransfer(f) != p.transferId
    ensures !replace && !reset ==> Receptive(plans, p.transferId, f)
  {
  }

  /** Every stage of a delivery leaves a sound file: the cut may be a failed
      effect or a crash. */
  lemma ProgressSound(plans: Plans, f: FileState, policy: Policy, p: Packet, replace: bool, reset: bool, reach: Reach)
    requires ValidPlans(plans) && Sound(plans, f) && Genuine(plans, p)
    requires PreCheck(f, policy, p) == Proceed(replace, reset)
    requires Undamaged(plans, p, true, reach)
    requires !reset && p.number in f.rows ==> !f.rows[p.number].status.Success?
    ensures Sound(plans, Progress(f, p, replace, reset, reach))
    ensures !Progress(f, p, replace, reset, reach).finalizing
    ensures reach.Marks() ==> Receptive(plans, p.transferId, Progress(f, p, replace, reset, reach))
    ensures reach.Marks() ==> p.number in Progress(f, p, replace, reset, reach).rows
    ensures reach.Marks() ==> Progress(f, p, replace, reset, reach).rows[p.number].status.Success?
  {
    ProceedMeansReceptive(plans, f, policy, p, replace, reset);
    if reach.Rank() >= 4 {
      var ready := Progress(f, p, replace, reset, FileRemoved);
      assert Receptive(plans, p.transferId, ready);
      var sized := Sized(ready, p.TargetSize());
      SizedReceptive(plans, ready, p);
      if reach.Torn? {
        WriteKeepsOthers(plans, sized, p, reach.junk);
      } else if reach.Rank() >= 6 {
        WriteKeepsOthers(plans, sized, p, p.data);
        RecordChunk(plans, WrittenAt(sized, p.offset, p.data), p);
      }
    }
  }

  /** After preallocation the file has the transfer's length. */
  ghost predicate Prepared(plans: Plans, f: FileState, p: Packet)
    requires ValidPlans(plans) && Genuine(plans, p)
  {
    && f.record.None? && !f.finalizing && f.bytes.Some?
    && |f.bytes.value| == |plans[p.transferId].content|
    && (f.rows != map[] ==> InProgress(plans, f) && ActiveTransfer(f) == p.transferId)
    && (p.number in f.rows ==> !f.rows[p.number].status.Success?)
  }

  lemma SizedReceptive(plans: Plans, f: FileState, p: Packet)
    requires ValidPlans(plans) && Genuine(plans, p) && Receptive(plans, p.transferId, f)
    requires p.number in f.rows ==> !f.rows[p.number].status.Success?
    ensures Prepared(plans, Sized(f, p.TargetSize()), p)
  {
    PiecePlacement(plans[p.transferId], p.number);
  }

  /** Writing into the range of chunk n, whatever the bytes, disturbs no success row. */
  lemma WriteKeepsOthers(plans: Plans, f: FileState, p: Packet, data: Bytes)
    requires ValidPlans(plans) && Genuine(plans, p) && Prepared(plans, f, p)
    requires |data| == |plans[p.transferId].Piece(p.number)|
    ensures Prepared(plans, WrittenAt(f, p.offset, data), p)
    ensures data == plans[p.transferId].Piece(p.number) ==>
              plans[p.transferId].Holds(WrittenAt(f, p.offset, data).bytes.value, p.number)
  {
    OverlayPiece(plans[p.transferId], f.bytes.value, p.number, data);
  }

  /** Adding the pending row keeps the rows consistent with the plan. */
  lemma InsertKeeps(plans: Plans, f: FileState, p: Packet)
    requires ValidPlans(plans) && Genuine(plans, p) && Prepared(plans, f, p) && p.number !in f.rows
    ensures Prepared(plans, Inserted(f, p), p)
  {
    var g, plan := Inserted(f, p), plans[p.transferId];
    assert g.rows[g.first].transferId == p.transferId;
    forall n | n in g.rows
      ensures 0 <= n < plan.Count() && g.rows[n].transferId == p.transferId && g.rows[n].total == plan.Declared(n)
      ensures g.rows[n].status.Success? ==> plan.Holds(f.bytes.value, n)
    {
      if n != p.number {
        assert n in f.rows;
      }
    }
  }

  /** Marking a row whose bytes are in place keeps them consistent too. */
  lemma MarkKeeps(plans: Plans, f: FileState, p: Packet)
    requires ValidPlans(plans) && Genuine(plans, p) && Prepared(plans, f, p) && p.number in f.rows
    requires plans[p.transferId].Holds(f.bytes.value, p.number)
    ensures InProgress(plans, Marked(f, p.number)) && ActiveTransfer(Marked(f, p.number)) == p.transferId
  {
    var g, plan := Marked(f, p.number), plans[p.transferId];
    assert g.rows[g.first].transferId == p.transferId;
    forall n | n in g.rows
      ensures 0 <= n < plan.Count() && g.rows[n].transferId == p.transferId && g.rows[n].total == plan.Declared(n)
      ensures g.rows[n].status.Success? ==> plan.Holds(f.bytes.value, n)
    {
      assert n in f.rows;
    }
  }

  /** Recording a written chunk: row inserted if new, then marked. */
  lemma RecordChunk(plans: Plans, f: FileState, p: Packet)
    requires ValidPlans(plans) && Genuine(plans, p) && Prepared(plans, f, p)
    requires plans[p.transferId].Holds(f.bytes.value, p.number)
    ensures
      var inserted := if p.number in f.rows then f else Inserted(f, p);
      && Prepared(plans, inserted, p) && p.number in inserted.rows
      && Receptive(plans, p.transferId, Marked(inserted, p.number))
  {
    hide Follows;
    if p.number !in f.rows {
      InsertKeeps(plans, f, p);
      MarkKeeps(plans, Inserted(f, p), p);
    } else {
      MarkKeeps(plans, f, p);
    }
  }

  /** Pigeonhole over the chunk numbers of one plan: as many success rows as the
      plan has chunks are all its chunks. */
  lemma EnoughSuccessesAreAll(plan: Plan, t: TransferId, rows: Rows, bytes: Bytes)
    requires plan.Valid() && Follows(plan, t, rows, bytes) && |Successes(rows)| >= plan.Count()
    ensures Complete(plan, rows)
  {
    Pigeonhole(Successes(rows), plan.Count());
    AllNumbersIsComplete(plan, rows);
  }

  /** The completion test used on arrival and after a restart, fixed or adaptive:
      the success count reaches the largest declared total exactly when the
      transfer is complete. */
  lemma CountingIffComplete(plan: Plan, t: TransferId, rows: Rows, bytes: Bytes)
    requires plan.Valid() && Follows(plan, t, rows, bytes)
    ensures (MaxTotal(rows) > 0 && |Successes(rows)| >= MaxTotal(rows)) <==> Complete(plan, rows)
  {
    assert MaxTotal(rows) == 0 || MaxTotal(rows) == plan.Count();
    if MaxTotal(rows) > 0 && |Successes(rows)| >= MaxTotal(rows) {
      EnoughSuccessesAreAll(plan, t, rows, bytes);
    }
    if Complete(plan, rows) {
      CompleteIsFinalizable(plan, t, rows, bytes);
    }
  }

  /** The completion accounting of a file that has just taken a chunk of transfer t:
      the answer JustCompleted means that every chunk is stored, and the flag goes up
      exactly then, if the pool takes the task. */
  lemma AccountedSound(plans: Plans, done: FileState, p: Packet, room: bool)
    requires ValidPlans(plans) && Sound(plans, done) && Genuine(plans, p)
    requires Receptive(plans, p.transferId, done) && p.number in done.rows
    ensures var r := Accounted(done, p, room);
            && Sound(plans, r.file) && r.file.rows == done.rows && r.file.first == done.first
            && (r.answer.JustCompleted? <==> Complete(plans[p.transferId], done.rows))
            && (r.answer.JustCompleted? ==> r.file.finalizing == room == r.enqueue)
            && (r.enqueue ==> r.file.finalizing)
  {
    var plan := plans[p.transferId];
    if Complete(plan, done.rows) {
      CompleteIsFinalizable(plan, p.transferId, done.rows, done.bytes.value);
    }
    var declared := if p.total > 0 then p.total else MaxTotal(done.rows);
    if declared > 0 && |Successes(done.rows)| >= declared {
      EnoughSuccessesAreAll(plan, p.transferId, done.rows, done.bytes.value);
    }
  }

  /** The invariant is kept by every delivery that gets past the pre-check,
      however far it gets and whether or not the payload was damaged. */
  lemma AcceptedSound(plans: Plans, f: FileState, policy: Policy, p: Packet, replace: bool, reset: bool,
                      intact: bool, reach: Reach, room: bool)
    requires ValidPlans(plans) && Sound(plans, f) && Genuine(plans, p)
    requires PreCheck(f, policy, p) == Proceed(replace, reset)
    requires Undamaged(plans, p, intact, reach)
    ensures Sound(plans, Accepted(f, p, replace, reset, intact, reach, room).file)
    ensures var r := Accepted(f, p, replace, reset, intact, reach, room);
            r.enqueue ==> r.file.finalizing
  {
    if intact && (reset || p.number !in f.rows || !f.rows[p.number].status.Success?) {
      ProgressSound(plans, f, policy, p, replace, reset, reach);
      hide Progress, Sound, Accounted, Receptive, PreCheck;
      if reach.Counted? {
        AccountedSound(plans, Progress(f, p, replace, reset, Counted), p, room);
      }
    }
  }

  /** A newly stored chunk completes the file exactly when all chunks are now stored;
      the flag then goes up if the pool took the task. */
  lemma CompletedIffAllStored(
    plans: Plans, f: FileState, policy: Policy, p: Packet, replace: bool, reset: bool, room: bool)
    requires ValidPlans(plans) && Sound(plans, f) && Genuine(plans, p)
    requires PreCheck(f, policy, p) == Proceed(replace, reset) && Undamaged(plans, p, true, Counted)
    requires reset || p.number !in f.rows || !f.rows[p.number].status.Success?
    ensures var r := Accepted(f, p, replace, reset, true, Counted, room);
            && r.file.rows != map[] && ActiveTransfer(r.file) == p.transferId
            && (r.answer.JustCompleted? <==> Complete(plans[p.transferId], r.file.rows))
            && (r.answer.JustCompleted? ==> r.file.finalizing == room == r.enqueue)
  {
    ProgressSound(plans, f, policy, p, replace, reset, Counted);
    hide Progress, Sound, Accounted, PreCheck;
    AccountedSound(plans, Progress(f, p, replace, reset, Counted), p, room);
  }

  // ---------- Finalization ----------

  lemma CompleteIsFinalizable(plan: Plan, t: TransferId, rows: Rows, bytes: Bytes)
    requires plan.Valid() && Follows(plan, t, rows, bytes) && Complete(plan, rows)
    ensures SuccessRows(rows) == rows && MaxTotal(rows) == plan.Count() && Successes(rows) == Below(plan.Count())
  {
    forall n | n in rows ensures rows[n].status.Success? {
      assert 0 <= n < plan.Count();
    }
    assert SuccessRows(rows) == rows by { hide MaxTotal; }
    assert MaxTotal(rows) == plan.Count() by {
      var last := plan.Count() - 1;
      assert last in rows && rows[last].total == plan.Count();
    }
    forall n ensures n in Successes(rows) <==> n in Below(plan.Count()) {
      assert n in rows <==> 0 <= n < plan.Count();
    }
  }

  lemma ListedTotal(plan: Plan, t: TransferId, rows: Rows, bytes: Bytes)
    requires plan.Valid() && Follows(plan, t, rows, bytes) && MaxTotal(SuccessRows(rows)) > 0
    ensures MaxTotal(SuccessRows(rows)) == plan.Count()
  {
    var listed := SuccessRows(rows);
    var n :| n in listed && listed[n].total == MaxTotal(listed);
    assert rows[n].total == plan.Declared(n);
  }

  lemma AllNumbersIsComplete(plan: Plan, rows: Rows)
    requires plan.Valid() && Successes(rows) == Below(plan.Count())
    ensures Complete(plan, rows)
  {
    forall n | 0 <= n < plan.Count() ensures n in rows && rows[n].status.Success? {
      assert n in Below(plan.Count());
    }
  }

  lemma FinalizableIsComplete(plan: Plan, t: TransferId, rows: Rows, bytes: Bytes)
    requires plan.Valid() && Follows(plan, t, rows, bytes) && Finalizable(rows)
    ensures Complete(plan, rows)
  {
    hide MaxTotal, Successes, SuccessRows, Complete, Follows;
    ListedTotal(plan, t, rows, bytes);
    AllNumbersIsComplete(plan, rows);
  }

  /** All rows of a file name its active transfer. */
  lemma RowsShareTransfer(plans: Plans, f: FileState, n: int)
    requires ValidPlans(plans) && Sound(plans, f) && n in f.rows
    ensures f.record.None? && f.rows[n].transferId == ActiveTransfer(f)
  {
    assert f.rows != map[];
  }

  /** The validation before finalizing accepts exactly the complete transfers: no
      early return can leave the flag up on a planned transfer. */
  lemma FinalizableIffComplete(plans: Plans, f: FileState)
    requires ValidPlans(plans) && Sound(plans, f) && f.rows != map[]
    ensures Finalizable(f.rows) <==> Complete(plans[ActiveTransfer(f)], f.rows)
  {
    var t := ActiveTransfer(f);
    if Complete(plans[t], f.rows) {
      CompleteIsFinalizable(plans[t], t, f.rows, f.bytes.value);
    }
    if Finalizable(f.rows) {
      FinalizableIsComplete(plans[t], t, f.rows, f.bytes.value);
    }
  }

  /** Complete rows mean the file already is the transfer's content. */
  lemma CompleteMeansContent(plans: Plans, f: FileState)
    requires ValidPlans(plans) && Sound(plans, f) && f.rows != map[]
    requires Complete(plans[ActiveTransfer(f)], f.rows)
    ensures f.bytes == Some(plans[ActiveTransfer(f)].content)
  {
    ChunksDetermineContent(plans[ActiveTransfer(f)], f.bytes.value);
  }

  /** Finalizing keeps the invariant; run on a flagged file it records the active
      transfer when its transaction commits, and lowers the flag unless an exception
      escapes. */
  lemma FinalizedSound(plans: Plans, f: FileState, finish: Finish)
    requires ValidPlans(plans) && Sound(plans, f)
    ensures Sound(plans, Finalized(f, finish))
    ensures f.finalizing ==> (Finalized(f, finish).finalizing <==> finish.Escaped?)
    ensures f.finalizing && finish.Committed? ==>
              && ActiveTransfer(f) in plans && Finalized(f, finish).record == Some(ActiveTransfer(f))
              && Finalized(f, finish).bytes == Some(plans[ActiveTransfer(f)].content)
    ensures f.finalizing && !finish.Committed? ==> Finalized(f, finish) == f.(finalizing := finish.Escaped?)
  {
    if f.rows == map[] {
      assert SuccessRows(f.rows) == map[];
    } else {
      FinalizableIffComplete(plans, f);
      if Finalizable(f.rows) {
        assert 0 in f.rows;
        CompleteMeansContent(plans, f);
      }
    }
  }
}
