/** What the server keeps for one output file, and what one chunk delivery or one
    finalization does to it. Rows, record and bytes survive a crash; the
    finalization flag and the remaining counter live in memory. */
module ServerFile {
  import opened Basics
  import opened TransferPlans

  datatype Status = Pending | Success

  /** One row of the chunks table; the chunk number is the key. */
  datatype Row = Row(total: nat, transferId: TransferId, status: Status)

  type Rows = map<int, Row>

  /** `first` is the number of the row with the lowest id, the one the active
      transfer id is read from. Rows of a file are only ever deleted together, so
      it is the row inserted into the empty table. */
  datatype FileState = FileState(
    rows: Rows, first: int, record: Option<TransferId>, bytes: Option<Bytes>,
    finalizing: bool, remaining: Option<nat>)

  const Absent := FileState(map[], 0, None, None, false, None)

  datatype Policy = Overwrite | Reject | Versioned

  datatype Answer = Stored | AlreadyCompleted | Failed | JustCompleted

  datatype Packet = Packet(
    number: int, offset: nat, total: nat, fileSize: nat,
    transferId: TransferId, digest: Bytes, data: Bytes)
  {
    predicate IsFirst() { number == 0 && offset == 0 }

    function TargetSize(): nat { if fileSize > 0 then fileSize else |data| }
  }

  /** How far a delivery gets before an effect fails or the process dies. Each
      value names the last durable effect that took place. */
  datatype Reach =
    | Unchecked(switched: bool)   // a read of the pre-check failed, perhaps after it chose a fresh name
    | Untouched            // directory, duplicate lookup or reset transaction failed
    | RowsDropped          // rows (and record) deleted, old output file still there
    | FileRemoved          // old output removed, no room for the new one
    | FileCreated          // empty output file created but not sized
    | FileSized            // output file preallocated
    | Torn(junk: Bytes)    // a write attempt left other bytes in the chunk's range
    | BytesWritten
    | RowInserted
    | RowMarked            // rows done, but a read of the completion accounting failed
    | Counted              // everything done
  {
    /** The chunk's row became a success. */
    predicate Marks() { RowMarked? || Counted? }

    function Rank(): nat {
      match this
      case Unchecked(_) => 0
      case Untouched => 0
      case RowsDropped => 1
      case FileRemoved => 2
      case FileCreated => 3
      case FileSized => 4
      case Torn(_) => 5
      case BytesWritten => 6
      case RowInserted => 7
      case RowMarked => 8
      case Counted => 9
    }
  }

  // ---------- The chunks table, read per file ----------

  ghost function Successes(rows: Rows): set<int> {
    set n | n in rows && rows[n].status.Success?
  }

  /** COALESCE(MAX(total_chunk), 0) over the given rows. */
  ghost function MaxTotal(rows: Rows): (m: nat)
    ensures forall n :: n in rows ==> rows[n].total <= m
    ensures m == 0 || exists n :: n in rows && rows[n].total == m
  {
    if !exists n :: n in rows then 0
    else
      var n :| n in rows;
      var rest := MaxTotal(rows - {n});
      assert forall k :: k in rows ==> k == n || k in rows - {n};
      Max(rows[n].total, rest)
  }

  ghost function SuccessRows(rows: Rows): Rows {
    map n | n in rows && rows[n].status.Success? :: rows[n]
  }

  function ActiveTransfer(f: FileState): TransferId {
    if f.first in f.rows then f.rows[f.first].transferId else []
  }

  // ---------- Receiving a chunk ----------

  datatype Verdict = Answered(answer: Answer) | UseFreshName | Proceed(replace: bool, reset: bool)

  /** The completion pre-check, ending with the in-memory flag. */
  function PreCheck(f: FileState, policy: Policy, p: Packet): Verdict {
    if f.record.Some? && p.transferId != [] && f.record.value == p.transferId then Answered(AlreadyCompleted)
    else if f.record.Some? && (!p.IsFirst() || policy.Reject?) then Answered(AlreadyCompleted)
    else if f.record.Some? && policy.Versioned? then UseFreshName
    else
      var replace := f.record.Some?;
      var hasRows := f.rows != map[];
      var superseded := hasRows && p.transferId != [] && ActiveTransfer(f) != p.transferId;
      if superseded && !p.IsFirst() then Answered(Failed)
      else if !replace && !hasRows && f.bytes.Some? then
        if p.IsFirst() && policy.Versioned? then UseFreshName else Answered(AlreadyCompleted)
      else if f.finalizing && !replace then Answered(AlreadyCompleted)
      else Proceed(replace, superseded)
  }

  /** Deleting the rows, and the record when it is being replaced, in one
      transaction; the flag is cleared right after the commit. */
  function Dropped(f: FileState, replace: bool): FileState {
    f.(rows := map[], record := if replace then None else f.record, finalizing := false)
  }

  function Sized(f: FileState, size: nat): FileState {
    if f.bytes.Some? then f else f.(bytes := Some(Zeros(size)))
  }

  function WrittenAt(f: FileState, offset: nat, data: Bytes): FileState {
    if f.bytes.None? then f else f.(bytes := Some(Overlay(f.bytes.value, offset, data)))
  }

  /** INSERT of a pending row; it becomes the lowest id of an empty table. */
  function Inserted(f: FileState, p: Packet): FileState {
    f.(rows := f.rows[p.number := Row(p.total, p.transferId, Pending)],
       first := if f.rows == map[] then p.number else f.first)
  }

  /** UPDATE ... SET status = 'success': touches nothing when the row is missing. */
  function Marked(f: FileState, n: int): FileState {
    if n in f.rows then f.(rows := f.rows[n := f.rows[n].(status := Success)]) else f
  }

  /** A replacement or reset empties the file: no rows, no output, no old record. */
  function Cleared(f: FileState, replace: bool, reset: bool): FileState {
    if replace || reset then Dropped(f, replace).(bytes := None) else f
  }

  /** Preallocation, write and row of one chunk, up to and including `reach`. */
  function Onward(f: FileState, p: Packet, known: bool, reach: Reach): FileState {
    if reach.Rank() <= FileRemoved.Rank() then f
    else if reach.FileCreated? then Sized(f, 0)
    else
      var sized := Sized(f, p.TargetSize());
      if reach.FileSized? then sized
      else if reach.Torn? then WrittenAt(sized, p.offset, reach.junk)
      else
        var written := WrittenAt(sized, p.offset, p.data);
        if reach.BytesWritten? then written
        else
          var inserted := if known || p.number in written.rows then written else Inserted(written, p);
          if reach.RowInserted? then inserted else Marked(inserted, p.number)
  }

  /** The file once the effects up to and including `reach` have happened. */
  function Progress(f: FileState, p: Packet, replace: bool, reset: bool, reach: Reach): FileState {
    if reach.Rank() == 0 then f
    else if reach.RowsDropped? then (if replace || reset then Dropped(f, replace) else f)
    else Onward(Cleared(f, replace, reset), p, !reset && p.number in f.rows, reach)
  }

  datatype Receipt = Receipt(file: FileState, answer: Answer, enqueue: bool)

  /** Completion accounting after a stored chunk. `room` says whether the task
      queue accepts the finalization; a refused task clears the flag again. */
  ghost function Accounted(f: FileState, p: Packet, room: bool): Receipt {
    var declared := if p.total > 0 then p.total else MaxTotal(f.rows);
    if declared == 0 then Receipt(f, Stored, false)
    else
      var count := |Successes(f.rows)|;
      if count < declared then Receipt(f.(remaining := Some(declared - count)), Stored, false)
      else Receipt(f.(finalizing := f.finalizing || room, remaining := None), JustCompleted, !f.finalizing && room)
  }

  /** Everything after the pre-check. `intact` is the outcome of the digest test. */
  ghost function Accepted(
    f: FileState, p: Packet, replace: bool, reset: bool, intact: bool, reach: Reach, room: bool): Receipt {
    if !intact then Receipt(f, Failed, false)
    else if !reset && p.number in f.rows && f.rows[p.number].status.Success? && reach.Rank() > 0
      then Receipt(f, Stored, false)
    else if !reach.Counted? then Receipt(Progress(f, p, replace, reset, reach), Failed, false)
    else Accounted(Progress(f, p, replace, reset, Counted), p, room)
  }

  // ---------- Finalizing ----------

  /** The validation `tryReconstructFile` makes over the listed success rows:
      their numbers are exactly 0..n-1 for the largest total n any of them declares. */
  ghost predicate Finalizable(rows: Rows) {
    var listed := SuccessRows(rows);
    MaxTotal(listed) > 0 && Successes(rows) == Below(MaxTotal(listed))
  }

  /** How a finalization ends: with its transaction committed, with a database error
      and the changes rolled back, or with an exception from the rollback itself. */
  datatype Finish = Committed | RolledBack | Escaped

  /** One run of the finalization task. A refused validation returns early and leaves
      the flag alone, and so does an exception that escapes; a database error only
      clears the flag. */
  ghost function Finalized(f: FileState, finish: Finish): FileState {
    if finish.RolledBack? then f.(finalizing := false)
    else if finish.Escaped? || !Finalizable(f.rows) then f
    else
      assert 0 in Below(MaxTotal(SuccessRows(f.rows)));
      f.(rows := map[],
            record := if f.record.Some? then f.record else Some(f.rows[0].transferId),
            finalizing := false)
  }

  /** What a crash leaves: the durable part. */
  function Crashed(f: FileState): FileState { f.(finalizing := false, remaining := None) }
}
