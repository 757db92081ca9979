/** One file's rows on the agent as a step system: the split emitting chunks, the
    resend pass working from its listing, and the clean-up of sent files, in any
    interleaving of their table updates. */
module AgentLedger {
  import opened Basics
  import opened TransferPlans
  import opened AgentDatabase

  datatype Config = Config(targets: nat, maxRetries: nat, abandonLimit: nat)

  /** A run of the splitter: its plan, the transfer id and the chunk digest. */
  datatype Split = Split(plan: Plan, transferId: TransferId, digest: Bytes -> Bytes)

  /** What a target answered to one chunk. */
  datatype SendResult = Acknowledged | AlreadyExists | Refused

  /** The chunk being resent: its listed row, the running retry counter, and how far
      the loop over targets and attempts has come. */
  datatype Resend = Resend(number: int, row: ChunkRow, accumulator: nat, target: nat, attempts: nat, allExist: bool)

  type Answers = set<(nat, int, ChunkRow)>

  /** Bookkeeping for the statements: which target acknowledged which chunk, which of
      these answers said that the file is already there, how many failures each row
      was charged since it was inserted, that no counter write was lost, how many
      splits have begun, and how often the file was given up. */
  datatype History = History(
    acks: Answers, existing: Answers, charged: map<int, nat>, lossless: bool, begun: nat, givenUp: nat)

  /** How often the file's rows were dropped for a new split or for good. */
  function Epoch(h: History): nat { h.begun + h.givenUp }

  /** `next` is the number of chunks the split has emitted. A resend pass works from
      the rows it `listed`, which were those of split `listedOf`, the `listedIn`-th.
      `toMark` is the clean-up's listing of this file as fully sent, with the epoch it
      was made in. `opening` says that the next split has set the file's status but
      not yet dropped the old rows; `processed` that the status is 'processed'. */
  datatype Ledger = Ledger(
    split: Option<Split>, running: bool, next: nat, rows: ChunkRows,
    listed: ChunkRows, current: Option<Resend>, listedOf: Option<Split>, listedIn: nat,
    toMark: Option<nat>, opening: bool, processed: bool, history: History)

  const Fresh := Ledger(None, false, 0, map[], map[], None, None, 0, None, false, false,
                        History({}, {}, map[], true, 0, 0))

  datatype Event =
    | OpenSplit                             // status 'processing'; earlier splits of the file have returned
    | BeginSplit(split: Split)              // the old rows are deleted and the splitting starts
    | MarkFailed(stored: bool)              // status 'failed'
    | GiveUp(stored: bool)                  // a last failed attempt: status 'failed', rows deleted
    | Emit(results: seq<SendResult>, stored: bool)
    | BeginPass
    | ChargeOnce(n: int, counted: bool, marked: bool)   // unreadable file or unusable metadata
    | Resume(n: int)
    | AttemptFails(stored: bool)
    | TargetAnswers(already: bool)
    | TargetRefuses(stored: bool)           // attempts used up or circuit open
    | Conclude(stored: bool)                // every target answered
    | Abandon                               // shutdown, or the rest of the file is skipped
    | ListSent(ok: bool)                    // the clean-up's query
    | DropListed(stored: bool)              // the clean-up's marking, without asking again

  // ---------- Rows and chunks ----------

  /** What identifies the chunk a row stands for. */
  function Core(row: ChunkRow): ChunkRow { row.(status := Pending, retries := 0) }

  /** The row of chunk n of a split, before any outcome. */
  ghost function PlannedRow(sp: Split, n: nat): ChunkRow
    requires sp.plan.Valid() && n < sp.plan.Count()
  {
    ChunkRow(sp.plan.Declared(n), |sp.plan.Piece(n)|, sp.digest(sp.plan.Piece(n)), sp.plan.cuts[n],
             sp.transferId, Pending, 0)
  }

  ghost predicate AckedBy(l: Ledger, n: int, row: ChunkRow, targets: nat) {
    forall t :: 0 <= t < targets ==> (t, n, Core(row)) in l.history.acks
  }

  // ---------- Steps ----------

  /** Broadcasting: any refusal fails the chunk; unanimous "exists" skips the file. */
  function Aggregate(results: seq<SendResult>): SendResult {
    if results == [] || Refused in results then Refused
    else if forall i :: 0 <= i < |results| ==> results[i].AlreadyExists? then AlreadyExists
    else Acknowledged
  }

  function AcksOf(n: int, row: ChunkRow, results: seq<SendResult>): Answers {
    if results == [] then {}
    else
      var last := |results| - 1;
      AcksOf(n, row, results[..last]) + if results[last].Refused? then {} else {(last, n, Core(row))}
  }

  /** Those of the answers that say the file is already there. */
  function ExistingOf(n: int, row: ChunkRow, results: seq<SendResult>): Answers {
    if results == [] then {}
    else
      var last := |results| - 1;
      ExistingOf(n, row, results[..last]) + if results[last].AlreadyExists? then {(last, n, Core(row))} else {}
  }

  ghost predicate CanEmit(l: Ledger, cfg: Config, results: seq<SendResult>) {
    && l.running && l.split.Some? && l.split.value.plan.Valid()
    && l.next < l.split.value.plan.Count() && |results| == cfg.targets
  }

  /** The answers to one broadcast are remembered. */
  function Told(h: History, n: int, row: ChunkRow, results: seq<SendResult>): History {
    h.(acks := h.acks + AcksOf(n, row, results), existing := h.existing + ExistingOf(n, row, results))
  }

  ghost function Emitted(l: Ledger, results: seq<SendResult>, stored: bool): Ledger
    requires l.split.Some? && l.split.value.plan.Valid() && l.next < l.split.value.plan.Count()
  {
    var row := PlannedRow(l.split.value, l.next);
    var told := Told(l.history, l.next, row, results);
    match Aggregate(results)
    case AlreadyExists =>
      l.(rows := if stored then map[] else l.rows, processed := l.processed || stored,
               running := false, history := told)
    case result =>
      if !stored || l.next in l.rows then l.(running := false, history := told)
      else l.(rows := l.rows[l.next := row.(status := if result.Acknowledged? then Success else Failed)],
              next := l.next + 1, history := told.(charged := told.charged[l.next := 0]))
  }

  /** One more failure charged to the row under n. */
  function Charged(h: History, n: int, stored: bool): History {
    h.(charged := h.charged[n := (if n in h.charged then h.charged[n] else 0) + 1], lossless := h.lossless && stored)
  }

  /** One failed retry charged from the listing, outside the attempt loop. */
  function ChargedOnce(l: Ledger, n: int, counted: bool, marked: bool): Ledger
    requires n in l.listed
  {
    var counter := if counted then WithRetries(l.rows, n, l.listed[n].retries + 1) else l.rows;
    l.(rows := if counted && marked then WithStatus(counter, n, Failed) else counter,
       history := Charged(l.history, n, counted), listed := l.listed - {n})
  }

  function Resumed(l: Ledger, n: int): Ledger
    requires n in l.listed
  {
    l.(current := Some(Resend(n, l.listed[n], l.listed[n].retries, 0, 0, true)), listed := l.listed - {n})
  }

  predicate Attempting(l: Ledger, cfg: Config) {
    l.current.Some? && l.current.value.target < cfg.targets && l.current.value.attempts < cfg.maxRetries
  }

  /** A failed attempt raises the running counter and writes it to the row. */
  function AttemptFailed(l: Ledger, stored: bool): Ledger
    requires l.current.Some?
  {
    var c := l.current.value;
    l.(current := Some(c.(accumulator := c.accumulator + 1, attempts := c.attempts + 1)),
       rows := if stored then WithRetries(l.rows, c.number, c.accumulator + 1) else l.rows,
       history := Charged(l.history, c.number, stored))
  }

  function Answered(l: Ledger, already: bool): Ledger
    requires l.current.Some?
  {
    var c := l.current.value;
    var answer := {(c.target, c.number, Core(c.row))};
    l.(current := Some(c.(target := c.target + 1, attempts := 0, allExist := c.allExist && already)),
       history := l.history.(acks := l.history.acks + answer,
                             existing := l.history.existing + if already then answer else {}))
  }

  function RefusedAt(l: Ledger, stored: bool): Ledger
    requires l.current.Some?
  {
    l.(current := None, rows := if stored then WithStatus(l.rows, l.current.value.number, Failed) else l.rows)
  }

  function Concluded(l: Ledger, stored: bool): Ledger
    requires l.current.Some?
  {
    if l.current.value.allExist then
      l.(current := None, listed := map[], rows := if stored then map[] else l.rows, processed := l.processed || stored)
    else
      l.(current := None, rows := if stored then WithStatus(l.rows, l.current.value.number, Success) else l.rows)
  }

  /** The agent's background thread is between passes. */
  predicate Idle(l: Ledger) { l.listed == map[] && l.current.None? && l.toMark.None? }

  /** Passes and clean-ups alternate on one thread; splits run on others. */
  ghost function Step(l: Ledger, cfg: Config, e: Event): Ledger {
    match e
    case OpenSplit => l.(opening := true, running := false, processed := false)
    case BeginSplit(sp) =>
      if !l.opening then l
      else l.(opening := false, split := Some(sp), running := true, next := 0, rows := map[],
         history := l.history.(charged := map[], begun := l.history.begun + 1))
    case MarkFailed(stored) => l.(processed := l.processed && !stored)
    case GiveUp(stored) =>
      if !stored then l
      else l.(processed := false, rows := map[], history := l.history.(givenUp := l.history.givenUp + 1))
    case Emit(results, stored) => if CanEmit(l, cfg, results) then Emitted(l, results, stored) else l
    case BeginPass =>
      if Idle(l) && cfg.targets > 0 then
        l.(listed := PendingRows(l.rows, cfg.abandonLimit), listedOf := l.split, listedIn := l.history.begun)
      else l
    case ChargeOnce(n, counted, marked) =>
      if n in l.listed && l.current.None? then ChargedOnce(l, n, counted, marked) else l
    case Resume(n) => if n in l.listed && l.current.None? then Resumed(l, n) else l
    case AttemptFails(stored) => if Attempting(l, cfg) then AttemptFailed(l, stored) else l
    case TargetAnswers(already) => if Attempting(l, cfg) then Answered(l, already) else l
    case TargetRefuses(stored) =>
      if l.current.Some? && l.current.value.target < cfg.targets then RefusedAt(l, stored) else l
    case Conclude(stored) =>
      if l.current.Some? && l.current.value.target == cfg.targets then Concluded(l, stored) else l
    case Abandon => l.(current := None, listed := map[])
    case ListSent(ok) =>
      if Idle(l) && ok && FullySent(l.rows) then l.(toMark := Some(Epoch(l.history))) else l
    case DropListed(stored) =>
      if l.toMark.None? then l
      else l.(toMark := None, rows := if stored then map[] else l.rows, processed := l.processed || stored)
  }

  ghost function Run(l: Ledger, cfg: Config, events: seq<Event>): Ledger
    decreases |events|
  {
    if events == [] then l else Step(Run(l, cfg, events[..|events| - 1]), cfg, events[|events| - 1])
  }

  lemma {:induction false} RunAppend(l: Ledger, cfg: Config, s: seq<Event>, t: seq<Event>)
    ensures Run(l, cfg, s + t) == Run(Run(l, cfg, s), cfg, t)
    decreases |t|
  {
    hide Step;
    if t == [] {
      assert s + t == s;
    } else {
      RunAppend(l, cfg, s, t[..|t| - 1]);
      assert (s + t)[..|s + t| - 1] == s + t[..|t| - 1];
    }
  }

  /** Splits only ever follow valid plans. */
  ghost predicate Proper(events: seq<Event>) {
    forall i :: 0 <= i < |events| && events[i].BeginSplit? ==> events[i].split.plan.Valid()
  }

  // ---------- The rows always follow the current split ----------

  /** Whatever the interleaving: the rows are rows of chunks the current split has
      already emitted. */
  ghost predicate RowsFollow(l: Ledger) {
    && (l.split.Some? ==> l.split.value.plan.Valid() && l.next <= l.split.value.plan.Count())
    && (l.split.None? ==> l.rows == map[] && !l.running)
    && forall n :: n in l.rows ==> 0 <= n < l.next && Core(l.rows[n]) == PlannedRow(l.split.value, n)
  }

  lemma PlannedCore(sp: Split, n: nat, status: Status)
    requires sp.plan.Valid() && n < sp.plan.Count()
    ensures Core(PlannedRow(sp, n)) == Core(PlannedRow(sp, n).(status := status)) == PlannedRow(sp, n)
  {
  }

  lemma EmitKeepsRowsFollow(l: Ledger, cfg: Config, results: seq<SendResult>, stored: bool)
    requires RowsFollow(l) && CanEmit(l, cfg, results)
    ensures RowsFollow(Emitted(l, results, stored))
  {
    hide Plan.Valid, PlannedRow, Core, Aggregate, AcksOf, Told;
    PlannedCore(l.split.value, l.next, Success);
    PlannedCore(l.split.value, l.next, Failed);
  }

  /** One emission leaves the background thread's state alone and does at most one of
      three things to the rows: nothing, dropping them, or adding the next one. */
  lemma EmittedCases(l: Ledger, cfg: Config, results: seq<SendResult>, stored: bool)
    requires CanEmit(l, cfg, results)
    ensures var l' := Emitted(l, results, stored);
            && l'.listed == l.listed && l'.current == l.current && l'.listedOf == l.listedOf
            && l'.listedIn == l.listedIn && l'.toMark == l.toMark && l'.split == l.split
            && l'.history.begun == l.history.begun && l'.history.givenUp == l.history.givenUp
            && l'.history.lossless == l.history.lossless
            && (|| (l'.rows == l.rows && l'.next == l.next && l'.history.charged == l.history.charged)
                || (l'.rows == map[] && l'.next == l.next && l'.history.charged == l.history.charged)
                || (exists status :: l'.rows == l.rows[l.next := PlannedRow(l.split.value, l.next).(status := status)]
                                     && l'.next == l.next + 1 && l'.history.charged == l.history.charged[l.next := 0]))
  {
    hide PlannedRow, Aggregate, AcksOf, Plan.Valid;
  }

  /** Events that leave the rows alone. */
  predicate Quiet(e: Event) {
    e.OpenSplit? || e.MarkFailed? || e.BeginPass? || e.Resume? || e.TargetAnswers? || e.Abandon? || e.ListSent?
  }

  lemma QuietStep(l: Ledger, cfg: Config, e: Event)
    requires Quiet(e)
    ensures var l' := Step(l, cfg, e);
            && l'.rows == l.rows && l'.split == l.split && l'.next == l.next && (l'.running ==> l.running)
            && l.history.acks <= l'.history.acks
            && l'.history.(acks := l.history.acks, existing := l.history.existing) == l.history
  {
    hide FullySent, PendingRows, Emitted, ChargedOnce, AttemptFailed, Concluded, RefusedAt;
  }

  /** Events that keep the rows or drop them all. */
  predicate Drops(e: Event) { e.GiveUp? || e.DropListed? }

  lemma DropStep(l: Ledger, cfg: Config, e: Event)
    requires Drops(e)
    ensures var l' := Step(l, cfg, e);
            && (l'.rows == l.rows || l'.rows == map[])
            && l'.split == l.split && l'.next == l.next && l'.running == l.running
            && l'.listed == l.listed && l'.current == l.current && l'.listedOf == l.listedOf
            && l'.listedIn == l.listedIn && l'.history.(givenUp := l.history.givenUp) == l.history
  {
    hide FullySent, PendingRows, Emitted, ChargedOnce, AttemptFailed, Concluded, RefusedAt;
  }

  /** Outside the split, updates only touch status and counter, or drop rows. */
  ghost predicate SameOrFewer(rows: ChunkRows, rows': ChunkRows) {
    forall n :: n in rows' ==> n in rows && Core(rows'[n]) == Core(rows[n])
  }

  lemma UpdatesKeepCores(rows: ChunkRows, n: int, status: Status, retries: nat)
    ensures SameOrFewer(rows, WithStatus(rows, n, status))
    ensures SameOrFewer(rows, WithRetries(rows, n, retries))
    ensures SameOrFewer(rows, WithStatus(WithRetries(rows, n, retries), n, status))
    ensures SameOrFewer(rows, rows) && SameOrFewer(rows, map[])
  {
  }

  ghost predicate SameSplit(l: Ledger, l': Ledger) {
    SameOrFewer(l.rows, l'.rows) && l'.split == l.split && l'.next == l.next && (l'.running ==> l.running)
  }

  lemma ChargeKeepsCores(l: Ledger, n: int, counted: bool, marked: bool)
    requires n in l.listed
    ensures SameSplit(l, ChargedOnce(l, n, counted, marked))
  {
    hide Charged;
    UpdatesKeepCores(l.rows, n, Failed, l.listed[n].retries + 1);
  }

  lemma CurrentKeepsCores(l: Ledger, flag: bool)
    requires l.current.Some?
    ensures SameSplit(l, AttemptFailed(l, flag)) && SameSplit(l, RefusedAt(l, flag))
    ensures SameSplit(l, Concluded(l, flag)) && SameSplit(l, Answered(l, flag))
  {
    hide Charged, SameOrFewer, WithRetries, WithStatus;
    UpdatesKeepCores(l.rows, l.current.value.number, Success, l.current.value.accumulator + 1);
    UpdatesKeepCores(l.rows, l.current.value.number, Failed, 0);
  }

  lemma ResendKeepsCores(l: Ledger, cfg: Config, e: Event)
    requires !e.BeginSplit? && !e.Emit?
    ensures SameSplit(l, Step(l, cfg, e))
  {
    hide FullySent, PendingRows, SameOrFewer, ChargedOnce, AttemptFailed, Concluded, Answered, RefusedAt, Emitted;
    UpdatesKeepCores(l.rows, 0, Failed, 0);
    if Quiet(e) {
      QuietStep(l, cfg, e);
      hide Step;
    } else if Drops(e) {
      DropStep(l, cfg, e);
      hide Step;
    } else if e.ChargeOnce? {
      if e.n in l.listed {
        ChargeKeepsCores(l, e.n, e.counted, e.marked);
      }
    } else if l.current.Some? {
      CurrentKeepsCores(l, e.stored);
    }
  }

  lemma StepKeepsRowsFollow(l: Ledger, cfg: Config, e: Event)
    requires RowsFollow(l) && (e.BeginSplit? ==> e.split.plan.Valid())
    ensures RowsFollow(Step(l, cfg, e))
  {
    hide Plan.Valid, PlannedRow, Emitted, CanEmit;
    if e.Emit? {
      if CanEmit(l, cfg, e.results) {
        EmitKeepsRowsFollow(l, cfg, e.results, e.stored);
      }
    } else if !e.BeginSplit? {
      ResendKeepsCores(l, cfg, e);
      hide Step, Core;
    }
  }

  lemma {:induction false} RunKeepsRowsFollow(cfg: Config, events: seq<Event>)
    requires Proper(events)
    ensures RowsFollow(Run(Fresh, cfg, events))
    decreases |events|
  {
    if events != [] {
      RunKeepsRowsFollow(cfg, events[..|events| - 1]);
      StepKeepsRowsFollow(Run(Fresh, cfg, events[..|events| - 1]), cfg, events[|events| - 1]);
    }
  }

  lemma RowNumbers(rows: ChunkRows, n: nat)
    requires forall k :: k in rows ==> 0 <= k < n
    ensures |rows| <= n
    ensures |rows| == n ==> rows.Keys == Below(n)
  {
    SubsetSize(rows.Keys, Below(n));
    if |rows| == n {
      Pigeonhole(rows.Keys, n);
    }
  }

  /** A reported file has the rows of all its chunks. */
  lemma FullySentIsComplete(l: Ledger)
    requires RowsFollow(l) && FullySent(l.rows)
    ensures l.split.Some? && l.next == l.split.value.plan.Count()
    ensures l.rows.Keys == Below(l.next)
  {
    var p := l.split.value.plan;
    var n :| n in l.rows && l.rows[n].total == LargestTotal(l.rows);
    assert l.rows.Keys != {} && |l.rows| > 0;
    assert l.rows[n].total == Core(l.rows[n]).total == p.Declared(n);
    RowNumbers(l.rows, l.next);
  }

  /** No proper prefix of a running split, fixed or adaptive, is ever reported. */
  lemma NoPrefixReported(cfg: Config, events: seq<Event>)
    requires Proper(events)
    ensures var l := Run(Fresh, cfg, events);
            FullySent(l.rows) ==> l.split.Some? && l.split.value.plan.Valid() && l.next == l.split.value.plan.Count()
  {
    RunKeepsRowsFollow(cfg, events);
    if FullySent(Run(Fresh, cfg, events).rows) {
      FullySentIsComplete(Run(Fresh, cfg, events));
    }
  }

  /** Reading the listed chunks' ranges back from the file gives the whole file. */
  ghost predicate RowsTile(plan: Plan, rows: ChunkRows)
    requires plan.Valid()
  {
    && rows.Keys == Below(plan.Count())
    && forall n :: 0 <= n < plan.Count() ==>
         rows[n].offset == plan.cuts[n] && rows[n].offset + rows[n].size == plan.cuts[n + 1]
  }

  lemma PlannedPlacement(sp: Split, n: nat)
    requires sp.plan.Valid() && n < sp.plan.Count()
    ensures PlannedRow(sp, n).offset == sp.plan.cuts[n]
    ensures PlannedRow(sp, n).offset + PlannedRow(sp, n).size == sp.plan.cuts[n + 1]
  {
    PiecePlacement(sp.plan, n);
  }

  lemma CompleteRowsTile(l: Ledger)
    requires RowsFollow(l) && l.split.Some? && l.rows.Keys == Below(l.split.value.plan.Count())
    ensures RowsTile(l.split.value.plan, l.rows)
  {
    hide Plan.Valid, PlannedRow;
    var p := l.split.value.plan;
    forall n | 0 <= n < p.Count()
      ensures l.rows[n].offset == p.cuts[n] && l.rows[n].offset + l.rows[n].size == p.cuts[n + 1]
    {
      assert n in l.rows.Keys;
      PlannedPlacement(l.split.value, n);
      assert Core(l.rows[n]) == PlannedRow(l.split.value, n);
    }
  }

  // ---------- Acknowledgements ----------

  /** The resend in flight was acknowledged by the targets it has been through, and
      while it counts as existing everywhere, each of them said so. */
  ghost predicate ResendSound(l: Ledger, cfg: Config) {
    l.current.Some? ==>
      var c := l.current.value;
      && c.target <= cfg.targets && AckedBy(l, c.number, c.row, c.target)
      && (c.allExist ==> forall t :: 0 <= t < c.target ==> (t, c.number, Core(c.row)) in l.history.existing)
  }

  /** Success rows were acknowledged by every target. */
  ghost predicate SuccessMeansAcked(l: Ledger, cfg: Config) {
    forall n :: n in l.rows && l.rows[n].status.Success? ==> AckedBy(l, n, l.rows[n], cfg.targets)
  }

  /** The row the late success update will touch, if any, stands for the chunk that
      was listed: same transfer id, digest, offset, size and total. An UPDATE could
      check this in its WHERE clause. */
  predicate Matches(l: Ledger) {
    l.current.Some? && l.current.value.number in l.rows ==>
      Core(l.rows[l.current.value.number]) == Core(l.current.value.row)
  }

  /** Each late success update of the run finds the chunk that was listed. */
  ghost predicate ConcludesMatch(cfg: Config, events: seq<Event>)
    decreases |events|
  {
    events == [] ||
    (var before := events[..|events| - 1];
     ConcludesMatch(cfg, before) && (events[|events| - 1].Conclude? ==> Matches(Run(Fresh, cfg, before))))
  }

  lemma {:induction false} AcksOfAll(n: int, row: ChunkRow, results: seq<SendResult>)
    requires Refused !in results
    ensures forall t :: 0 <= t < |results| ==> (t, n, Core(row)) in AcksOf(n, row, results)
  {
    if results != [] {
      var last := |results| - 1;
      assert results[last] in results;
      AcksOfAll(n, row, results[..last]);
    }
  }

  lemma {:induction false} AcksMeans(n: int, row: ChunkRow, results: seq<SendResult>, t: nat, m: int, r: ChunkRow)
    ensures (t, m, r) in AcksOf(n, row, results)
       <==> m == n && r == Core(row) && t < |results| && !results[t].Refused?
    ensures (t, m, r) in ExistingOf(n, row, results)
       <==> m == n && r == Core(row) && t < |results| && results[t].AlreadyExists?
  {
    if results != [] {
      AcksMeans(n, row, results[..|results| - 1], t, m, r);
    }
  }

  /** In this event target t acknowledges chunk n other than by saying that the file is
      already there. */
  ghost predicate Confirms(l: Ledger, cfg: Config, e: Event, t: nat, n: int, row: ChunkRow) {
    match e
    case Emit(results, _) =>
      && CanEmit(l, cfg, results) && n == l.next && row == PlannedRow(l.split.value, l.next)
      && t < |results| && results[t].Acknowledged?
    case TargetAnswers(already) =>
      && Attempting(l, cfg) && !already
      && t == l.current.value.target && n == l.current.value.number && row == Core(l.current.value.row)
    case _ => false
  }

  /** Each step only adds answers, and only those it hears. */
  lemma StepConfirms(l: Ledger, cfg: Config, e: Event, t: nat, n: int, row: ChunkRow)
    ensures var l' := Step(l, cfg, e);
            (t, n, row) in l'.history.acks && (t, n, row) !in l'.history.existing
            ==> ((t, n, row) in l.history.acks && (t, n, row) !in l.history.existing) || Confirms(l, cfg, e, t, n, row)
  {
    if e.Emit? && CanEmit(l, cfg, e.results) {
      var planned := PlannedRow(l.split.value, l.next);
      AcksMeans(l.next, planned, e.results, t, n, row);
      PlannedCore(l.split.value, l.next, Pending);
      hide Plan.Valid, PlannedRow, Aggregate, AcksOf, ExistingOf;
      if n == l.next && row == planned && t < |e.results| {
        assert e.results[t].Acknowledged? || e.results[t].AlreadyExists? || e.results[t].Refused?;
      }
    } else {
      hide Emitted, FullySent, PendingRows, WithStatus, WithRetries;
    }
  }

  /** Every answer in the history that is not an "already there" was heard in some event. */
  lemma {:induction false} AnswersWereHeard(cfg: Config, events: seq<Event>, n: nat, t: nat, k: int, row: ChunkRow)
    requires n <= |events|
    requires var h := Run(Fresh, cfg, events[..n]).history; (t, k, row) in h.acks && (t, k, row) !in h.existing
    ensures exists i: nat :: i < n && Confirms(Run(Fresh, cfg, events[..i]), cfg, events[i], t, k, row)
    decreases n
  {
    if n > 0 {
      RunOneMore(Fresh, cfg, events, n - 1);
      StepConfirms(Run(Fresh, cfg, events[..n - 1]), cfg, events[n - 1], t, k, row);
      if !Confirms(Run(Fresh, cfg, events[..n - 1]), cfg, events[n - 1], t, k, row) {
        AnswersWereHeard(cfg, events, n - 1, t, k, row);
      }
    }
  }

  lemma StepKeepsResendSound(l: Ledger, cfg: Config, e: Event)
    requires ResendSound(l, cfg)
    ensures ResendSound(Step(l, cfg, e), cfg)
  {
    hide FullySent, Plan.Valid, PlannedRow, WithStatus, WithRetries, PendingRows, AcksOf, Aggregate;
  }

  /** No row becomes a success, and successes keep their chunk. */
  ghost predicate NoNewSuccess(rows: ChunkRows, rows': ChunkRows) {
    forall n :: n in rows' && rows'[n].status.Success? ==>
      n in rows && rows[n].status.Success? && Core(rows[n]) == Core(rows'[n])
  }

  lemma FewerSuccesses(l: Ledger, l': Ledger, cfg: Config)
    requires SuccessMeansAcked(l, cfg) && l.history.acks <= l'.history.acks && NoNewSuccess(l.rows, l'.rows)
    ensures SuccessMeansAcked(l', cfg)
  {
    forall n | n in l'.rows && l'.rows[n].status.Success? ensures AckedBy(l', n, l'.rows[n], cfg.targets) {
      assert AckedBy(l, n, l.rows[n], cfg.targets);
    }
  }

  lemma UpdatesAddNoSuccess(rows: ChunkRows, n: int, retries: nat)
    ensures NoNewSuccess(rows, rows) && NoNewSuccess(rows, map[])
    ensures NoNewSuccess(rows, WithStatus(rows, n, Failed)) && NoNewSuccess(rows, WithRetries(rows, n, retries))
    ensures NoNewSuccess(rows, WithStatus(WithRetries(rows, n, retries), n, Failed))
  {
  }

  lemma EmitKeepsAcked(l: Ledger, cfg: Config, results: seq<SendResult>, stored: bool)
    requires SuccessMeansAcked(l, cfg) && CanEmit(l, cfg, results)
    ensures SuccessMeansAcked(Emitted(l, results, stored), cfg)
  {
    var row := PlannedRow(l.split.value, l.next);
    var l' := Emitted(l, results, stored);
    if Aggregate(results).Acknowledged? {
      assert Refused !in results;
      AcksOfAll(l.next, row, results);
    }
    hide Plan.Valid, PlannedRow, Aggregate, AcksOf;
    assert l.history.acks <= l'.history.acks;
    forall n | n in l'.rows && l'.rows[n].status.Success? ensures AckedBy(l', n, l'.rows[n], cfg.targets) {
      if n in l.rows && l'.rows[n] == l.rows[n] {
        assert AckedBy(l, n, l.rows[n], cfg.targets);
      }
    }
  }

  /** Marking is sound when the row is that of the listed chunk, or gone. */
  lemma ConcludeKeepsAcked(l: Ledger, cfg: Config, stored: bool)
    requires SuccessMeansAcked(l, cfg) && ResendSound(l, cfg) && Matches(l)
    requires l.current.Some? && l.current.value.target == cfg.targets
    ensures SuccessMeansAcked(Concluded(l, stored), cfg)
  {
    var c, l' := l.current.value, Concluded(l, stored);
    forall n | n in l'.rows && l'.rows[n].status.Success? ensures AckedBy(l', n, l'.rows[n], cfg.targets) {
      if n == c.number {
        assert AckedBy(l, n, c.row, cfg.targets);
      } else {
        assert AckedBy(l, n, l.rows[n], cfg.targets);
      }
    }
  }

  lemma CurrentAddsNoSuccess(l: Ledger, flag: bool)
    requires l.current.Some?
    ensures NoNewSuccess(l.rows, AttemptFailed(l, flag).rows) && NoNewSuccess(l.rows, RefusedAt(l, flag).rows)
  {
    UpdatesAddNoSuccess(l.rows, l.current.value.number, l.current.value.accumulator + 1);
    hide WithStatus, WithRetries, NoNewSuccess;
  }

  lemma ChargeAddsNoSuccess(l: Ledger, n: int, counted: bool, marked: bool)
    requires n in l.listed
    ensures NoNewSuccess(l.rows, ChargedOnce(l, n, counted, marked).rows)
  {
    UpdatesAddNoSuccess(l.rows, n, l.listed[n].retries + 1);
    hide WithStatus, WithRetries, NoNewSuccess;
  }

  lemma ResendAddsNoSuccess(l: Ledger, cfg: Config, e: Event)
    requires !e.Emit? && !e.Conclude?
    ensures NoNewSuccess(l.rows, Step(l, cfg, e).rows) && l.history.acks <= Step(l, cfg, e).history.acks
  {
    hide FullySent, WithStatus, WithRetries, PendingRows, NoNewSuccess, Emitted, Concluded;
    UpdatesAddNoSuccess(l.rows, 0, 0);
    if Quiet(e) {
      QuietStep(l, cfg, e);
      hide Step;
    } else if Drops(e) {
      DropStep(l, cfg, e);
      hide Step;
    } else if e.ChargeOnce? {
      if e.n in l.listed {
        ChargeAddsNoSuccess(l, e.n, e.counted, e.marked);
      }
    } else if !e.BeginSplit? && l.current.Some? {
      CurrentAddsNoSuccess(l, e.stored);
    }
  }

  lemma OtherKeepsAcked(l: Ledger, cfg: Config, e: Event)
    requires SuccessMeansAcked(l, cfg) && !e.Emit? && !e.Conclude?
    ensures SuccessMeansAcked(Step(l, cfg, e), cfg)
  {
    hide Step, NoNewSuccess;
    ResendAddsNoSuccess(l, cfg, e);
    FewerSuccesses(l, Step(l, cfg, e), cfg);
  }

  lemma StepKeepsAcked(l: Ledger, cfg: Config, e: Event)
    requires SuccessMeansAcked(l, cfg) && ResendSound(l, cfg) && (e.Conclude? ==> Matches(l))
    ensures SuccessMeansAcked(Step(l, cfg, e), cfg)
  {
    hide SuccessMeansAcked, ResendSound, Emitted, CanEmit, Concluded;
    match e
    case Emit(results, stored) =>
      if CanEmit(l, cfg, results) {
        EmitKeepsAcked(l, cfg, results, stored);
      }
    case Conclude(stored) =>
      if l.current.Some? && l.current.value.target == cfg.targets {
        ConcludeKeepsAcked(l, cfg, stored);
      }
    case _ =>
      OtherKeepsAcked(l, cfg, e);
  }

  lemma {:induction false} RunKeepsResendSound(cfg: Config, events: seq<Event>)
    ensures ResendSound(Run(Fresh, cfg, events), cfg)
    decreases |events|
  {
    if events != [] {
      RunKeepsResendSound(cfg, events[..|events| - 1]);
      StepKeepsResendSound(Run(Fresh, cfg, events[..|events| - 1]), cfg, events[|events| - 1]);
    }
  }

  lemma {:induction false} RunKeepsAcked(cfg: Config, events: seq<Event>)
    requires ConcludesMatch(cfg, events)
    ensures SuccessMeansAcked(Run(Fresh, cfg, events), cfg)
    decreases |events|
  {
    if events != [] {
      var before := events[..|events| - 1];
      RunKeepsAcked(cfg, before);
      RunKeepsResendSound(cfg, before);
      hide Matches, ResendSound, SuccessMeansAcked, Step;
      StepKeepsAcked(Run(Fresh, cfg, before), cfg, events[|events| - 1]);
    }
  }

  // ---------- Fully sent files ----------

  /** The rows tile the file, all are successes, and every target acknowledged every
      chunk of the current split. */
  ghost predicate Delivered(l: Ledger, cfg: Config) {
    && l.split.Some? && l.split.value.plan.Valid()
    && RowsTile(l.split.value.plan, l.rows)
    && (forall n :: n in l.rows ==> l.rows[n].status.Success?)
    && forall n, t :: 0 <= n < l.split.value.plan.Count() && 0 <= t < cfg.targets
         ==> (t, n, PlannedRow(l.split.value, n)) in l.history.acks
  }

  lemma AllSuccess(rows: ChunkRows)
    requires FullySent(rows)
    ensures forall n :: n in rows ==> rows[n].status.Success?
  {
  }

  /** All rows of the split, all successes, are what the query reports. */
  lemma CompleteIsFullySent(l: Ledger)
    requires RowsFollow(l) && l.split.Some? && l.split.value.plan.Valid()
    requires l.rows.Keys == Below(l.split.value.plan.Count())
    requires forall n :: n in l.rows ==> l.rows[n].status.Success?
    ensures FullySent(l.rows)
  {
    var p := l.split.value.plan;
    var last := p.Count() - 1;
    assert |l.rows| == |l.rows.Keys| == p.Count();
    assert last in l.rows.Keys;
    forall n | n in l.rows ensures l.rows[n].total == p.Declared(n) {
      assert n in l.rows.Keys && Core(l.rows[n]) == PlannedRow(l.split.value, n);
    }
    assert l.rows[last].total == p.Count();
    var m :| m in l.rows && l.rows[m].total == LargestTotal(l.rows);
    assert p.Declared(m) <= p.Count();
  }

  lemma FullySentDelivers(l: Ledger, cfg: Config)
    requires RowsFollow(l) && SuccessMeansAcked(l, cfg) && FullySent(l.rows)
    ensures Delivered(l, cfg)
  {
    hide Plan.Valid, FullySent, PlannedRow, RowsTile;
    FullySentIsComplete(l);
    CompleteRowsTile(l);
    AllSuccess(l.rows);
    forall n, t | 0 <= n < l.split.value.plan.Count() && 0 <= t < cfg.targets
      ensures (t, n, PlannedRow(l.split.value, n)) in l.history.acks
    {
      assert n in l.rows.Keys;
      assert AckedBy(l, n, l.rows[n], cfg.targets);
    }
  }

  /** In every run whose late success updates find the chunk they resent: the query
      reports a file exactly when its success rows tile it and every configured
      target acknowledged every chunk of the current split. */
  lemma FullySentIffDelivered(cfg: Config, events: seq<Event>)
    requires Proper(events) && ConcludesMatch(cfg, events)
    ensures var l := Run(Fresh, cfg, events); FullySent(l.rows) <==> Delivered(l, cfg)
  {
    RunKeepsRowsFollow(cfg, events);
    RunKeepsAcked(cfg, events);
    var l := Run(Fresh, cfg, events);
    if FullySent(l.rows) {
      FullySentDelivers(l, cfg);
    } else if Delivered(l, cfg) {
      hide RowsFollow, FullySent;
      CompleteIsFullySent(l);
    }
  }

  // ---------- Clean-up ----------

  /** Between the clean-up's listing and its marking the background thread does nothing
      else, and while no split begins and the file is not given up it stays fully sent. */
  ghost predicate MarkSound(l: Ledger) {
    l.toMark.Some? ==>
      l.listed == map[] && l.current.None? && l.toMark.value <= Epoch(l.history)
      && (l.toMark.value == Epoch(l.history) ==> FullySent(l.rows))
  }

  lemma StepKeepsMarkSound(l: Ledger, cfg: Config, e: Event)
    requires RowsFollow(l) && MarkSound(l)
    ensures MarkSound(Step(l, cfg, e))
  {
    if e.Emit? && l.toMark == Some(Epoch(l.history)) {
      FullySentIsComplete(l);
    }
    hide FullySent, RowsFollow, Plan.Valid, PendingRows, Told, Aggregate, PlannedRow;
  }

  lemma {:induction false} RunKeepsMarkSound(cfg: Config, events: seq<Event>)
    requires Proper(events)
    ensures MarkSound(Run(Fresh, cfg, events))
    decreases |events|
  {
    if events != [] {
      var before := events[..|events| - 1];
      RunKeepsMarkSound(cfg, before);
      RunKeepsRowsFollow(cfg, before);
      hide MarkSound, RowsFollow, Step;
      StepKeepsMarkSound(Run(Fresh, cfg, before), cfg, events[|events| - 1]);
    }
  }

  /** The clean-up marks and drops what it listed without asking again. That is right -
      the rows it drops tile the file and every target acknowledged every chunk -
      exactly when the query would still report the file. It would while no split has
      begun and the file has not been given up since the listing; after a new split,
      only if that is fully sent in its turn. */
  lemma CleanUpMeansSent(cfg: Config, events: seq<Event>)
    requires Proper(events) && ConcludesMatch(cfg, events) && Run(Fresh, cfg, events).toMark.Some?
    ensures var l := Run(Fresh, cfg, events);
            var l' := Step(l, cfg, DropListed(true));
            && l'.processed && l'.rows == map[]
            && (Delivered(l, cfg) <==> FullySent(l.rows))
            && (l.toMark == Some(Epoch(l.history)) ==> Delivered(l, cfg))
  {
    hide Run, Delivered, FullySent, Proper, ConcludesMatch, Step;
    RunKeepsMarkSound(cfg, events);
    FullySentIffDelivered(cfg, events);
    DropListedStep(Run(Fresh, cfg, events), cfg);
  }

  lemma DropListedStep(l: Ledger, cfg: Config)
    requires l.toMark.Some?
    ensures Step(l, cfg, DropListed(true)) == l.(toMark := None, rows := map[], processed := true)
  {
  }

  /** The events that mark the file processed, in the state they meet. */
  ghost predicate MarksProcessed(l: Ledger, cfg: Config, e: Event) {
    match e
    case DropListed(stored) => stored && l.toMark.Some?
    case Emit(results, stored) => stored && CanEmit(l, cfg, results) && Aggregate(results).AlreadyExists?
    case Conclude(stored) =>
      stored && l.current.Some? && l.current.value.target == cfg.targets && l.current.value.allExist
    case _ => false
  }

  /** What such an event rests on: the file was listed as fully sent and, unless a split
      has begun or the file was given up since, is delivered; or every configured target said of one and the
      same chunk that the file is already there. */
  ghost predicate MarkingGrounds(l: Ledger, cfg: Config, e: Event) {
    match e
    case DropListed(_) => l.toMark == Some(Epoch(l.history)) ==> Delivered(l, cfg)
    case Emit(results, _) =>
      |results| == cfg.targets > 0 && forall t :: 0 <= t < cfg.targets ==> results[t].AlreadyExists?
    case Conclude(_) =>
      var c := l.current;
      c.Some? && forall t :: 0 <= t < cfg.targets ==> (t, c.value.number, Core(c.value.row)) in l.history.existing
    case _ => false
  }

  /** The events that set another status: a split opens, or an attempt has failed. */
  predicate Unmarks(e: Event) {
    e.OpenSplit? || e == MarkFailed(true) || e == GiveUp(true)
  }

  lemma MarkedByStep(l: Ledger, cfg: Config, e: Event)
    ensures Step(l, cfg, e).processed <==> MarksProcessed(l, cfg, e) || (l.processed && !Unmarks(e))
  {
    hide FullySent, Charged, WithStatus, WithRetries, PendingRows, PlannedRow, Plan.Valid, AcksOf;
  }

  lemma GroundsHold(cfg: Config, events: seq<Event>, e: Event)
    requires Proper(events) && ConcludesMatch(cfg, events) && MarksProcessed(Run(Fresh, cfg, events), cfg, e)
    ensures MarkingGrounds(Run(Fresh, cfg, events), cfg, e)
  {
    match e
    case DropListed(_) => CleanUpMeansSent(cfg, events);
    case Emit(_, _) =>
    case Conclude(_) => RunKeepsResendSound(cfg, events);
  }

  /** Event i of the run marks the file. */
  ghost predicate MarksAt(cfg: Config, events: seq<Event>, i: nat)
    requires i < |events|
  {
    MarksProcessed(Run(Fresh, cfg, events[..i]), cfg, events[i])
  }

  /** Event i marks the file, and none before the n-th sets another status. */
  ghost predicate MarkStands(cfg: Config, events: seq<Event>, i: nat, n: nat)
    requires i < n <= |events|
  {
    MarksAt(cfg, events, i) && forall q :: i < q < n ==> !Unmarks(events[q])
  }

  ghost predicate Marked(cfg: Config, events: seq<Event>, n: nat)
    requires n <= |events|
  {
    exists i: nat :: i < n && MarkStands(cfg, events, i, n)
  }

  lemma MarkedOneMore(cfg: Config, events: seq<Event>, before: nat, n: nat)
    requires before + 1 == n <= |events|
    ensures Marked(cfg, events, n)
       <==> MarksAt(cfg, events, before) || (Marked(cfg, events, before) && !Unmarks(events[before]))
  {
    hide MarksAt, Unmarks;
    if MarksAt(cfg, events, before) {
      assert MarkStands(cfg, events, before, n);
    }
    if Marked(cfg, events, before) && !Unmarks(events[before]) {
      var i: nat :| i < before && MarkStands(cfg, events, i, before);
      assert MarkStands(cfg, events, i, n);
    }
    if Marked(cfg, events, n) {
      var i: nat :| i < n && MarkStands(cfg, events, i, n);
      if i < before {
        assert MarkStands(cfg, events, i, before);
      }
    }
  }

  lemma RunOneMore(l: Ledger, cfg: Config, events: seq<Event>, j: nat)
    requires j < |events|
    ensures Run(l, cfg, events[..j + 1]) == Step(Run(l, cfg, events[..j]), cfg, events[j])
  {
    assert events[..j + 1][..j] == events[..j];
  }

  lemma {:induction false} MarkedSomewhere(cfg: Config, events: seq<Event>, n: nat)
    requires n <= |events|
    ensures Run(Fresh, cfg, events[..n]).processed <==> Marked(cfg, events, n)
    decreases n
  {
    if n > 0 {
      MarkedSomewhere(cfg, events, n - 1);
      RunOneMore(Fresh, cfg, events, n - 1);
      MarkedByStep(Run(Fresh, cfg, events[..n - 1]), cfg, events[n - 1]);
      assert MarksAt(cfg, events, n - 1) == MarksProcessed(Run(Fresh, cfg, events[..n - 1]), cfg, events[n - 1]);
      hide Run, Step, MarksAt, MarksProcessed, Marked, Unmarks;
      MarkedOneMore(cfg, events, n - 1, n);
    }
  }

  /** Unless a split is opening, a new one begins only after another opens. */
  lemma SplitStandsStep(l: Ledger, cfg: Config, e: Event)
    requires !l.opening && !e.OpenSplit?
    ensures Step(l, cfg, e).split == l.split && !Step(l, cfg, e).opening
  {
    hide FullySent, Charged, WithStatus, WithRetries, PendingRows, PlannedRow, Plan.Valid, Told, Aggregate;
  }

  lemma {:induction false} SplitStands(cfg: Config, events: seq<Event>, i: nat, j: nat)
    requires i <= j <= |events| && !Run(Fresh, cfg, events[..i]).opening
    requires forall q :: i <= q < j ==> !events[q].OpenSplit?
    ensures Run(Fresh, cfg, events[..j]).split == Run(Fresh, cfg, events[..i]).split
    ensures !Run(Fresh, cfg, events[..j]).opening
    decreases j
  {
    if i < j {
      SplitStands(cfg, events, i, j - 1);
      RunOneMore(Fresh, cfg, events, j - 1);
      hide Run, Step;
      SplitStandsStep(Run(Fresh, cfg, events[..j - 1]), cfg, events[j - 1]);
    }
  }

  lemma {:induction false} GroundsAlong(cfg: Config, events: seq<Event>, i: nat)
    requires Proper(events) && ConcludesMatch(cfg, events) && i < |events| && MarksAt(cfg, events, i)
    ensures MarkingGrounds(Run(Fresh, cfg, events[..i]), cfg, events[i])
    decreases |events|
  {
    hide Run, MarksProcessed, MarkingGrounds;
    var before := events[..|events| - 1];
    if i == |before| {
      GroundsHold(cfg, before, events[i]);
    } else {
      assert before[..i] == events[..i] && before[i] == events[i];
      GroundsAlong(cfg, before, i);
    }
  }

  /** Over runs: a file's status is 'processed' exactly when some event of the run marked
      it and none since set another status. Each mark had its grounds, and a mark that
      still stands is about the current split, unless it fell between the opening of
      that split and the deletion of the old rows. A unanimous "already there" about
      one chunk is enough, whatever became of the others. */
  lemma ProcessedMeans(cfg: Config, events: seq<Event>)
    requires Proper(events) && ConcludesMatch(cfg, events)
    ensures Run(Fresh, cfg, events).processed <==> Marked(cfg, events, |events|)
    ensures forall i: nat :: i < |events| && MarkStands(cfg, events, i, |events|)
              ==> && MarkingGrounds(Run(Fresh, cfg, events[..i]), cfg, events[i])
                  && (Run(Fresh, cfg, events[..i]).opening
                      || Run(Fresh, cfg, events[..i]).split == Run(Fresh, cfg, events).split)
  {
    assert events[..|events|] == events;
    MarkedSomewhere(cfg, events, |events|);
    forall i: nat | i < |events| && MarkStands(cfg, events, i, |events|)
      ensures MarkingGrounds(Run(Fresh, cfg, events[..i]), cfg, events[i])
      ensures Run(Fresh, cfg, events[..i]).opening
              || Run(Fresh, cfg, events[..i]).split == Run(Fresh, cfg, events).split
    {
      assert !events[i].OpenSplit?;
      hide Run, MarksAt, MarkingGrounds, Proper, ConcludesMatch;
      GroundsAlong(cfg, events, i);
      if !Run(Fresh, cfg, events[..i]).opening {
        SplitStands(cfg, events, i, |events|);
      }
    }
  }
}
