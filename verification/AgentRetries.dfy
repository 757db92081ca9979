/** Retry accounting and resend fidelity over runs of the agent's ledger. */
module AgentRetries {
  import opened Basics
  import opened TransferPlans
  import opened AgentDatabase
  import opened AgentLedger

  // ---------- Retry accounting ----------

  /** Failures one target can charge in a pass before it answers after all. */
  function Spare(cfg: Config): nat { if cfg.maxRetries == 0 then 0 else cfg.maxRetries - 1 }

  /** The largest counter a row can reach: one pass begun below the limit may charge
      every target's spare attempts and one more failure. */
  function Cap(cfg: Config): nat { cfg.abandonLimit + cfg.targets * Spare(cfg) }

  /** In terms of the configuration: (limit - 1) + maxRetries * targets bounds it. */
  lemma CapWithinDocumented(cfg: Config)
    requires cfg.targets > 0 && cfg.maxRetries > 0
    ensures Cap(cfg) <= cfg.abandonLimit - 1 + cfg.maxRetries * cfg.targets
  {
    assert cfg.targets * cfg.maxRetries == cfg.targets * Spare(cfg) + cfg.targets;
  }

  ghost predicate ResendWithin(l: Ledger, cfg: Config, c: Resend) {
    && c.target <= cfg.targets && c.attempts <= cfg.maxRetries
    && c.row.retries < cfg.abandonLimit
    && c.row.retries <= c.accumulator <= c.row.retries + c.target * Spare(cfg) + c.attempts
    && c.number !in l.listed
    && (c.number in l.rows ==> l.rows[c.number].retries <= c.accumulator)
  }

  /** No row is ahead of what the pass in flight believes of it: a row inserted since
      the listing starts at zero. */
  ghost predicate Bounded(l: Ledger, cfg: Config) {
    && (forall n :: n in l.rows ==> l.rows[n].retries <= Cap(cfg))
    && (forall n :: n in l.listed ==> l.listed[n].retries < cfg.abandonLimit)
    && (forall n :: n in l.listed && n in l.rows ==> l.rows[n].retries <= l.listed[n].retries)
    && (l.current.Some? ==> ResendWithin(l, cfg, l.current.value))
  }

  lemma ProductMonotone(a: nat, b: nat, k: nat)
    requires a <= b
    ensures a * k <= b * k
    ensures (a + 1) * k == a * k + k
  {
  }

  /** One more failed attempt still fits the cap. */
  lemma AttemptFits(cfg: Config, c: Resend)
    requires c.target < cfg.targets && c.attempts < cfg.maxRetries && c.row.retries < cfg.abandonLimit
    requires c.accumulator <= c.row.retries + c.target * Spare(cfg) + c.attempts
    ensures c.accumulator + 1 <= Cap(cfg)
  {
    ProductMonotone(c.target + 1, cfg.targets, Spare(cfg));
    ProductMonotone(c.target, cfg.targets, Spare(cfg));
  }

  lemma AttemptKeepsBounded(l: Ledger, cfg: Config, stored: bool)
    requires Bounded(l, cfg) && Attempting(l, cfg)
    ensures Bounded(AttemptFailed(l, stored), cfg)
  {
    AttemptFits(cfg, l.current.value);
    hide Cap, Spare;
  }

  lemma AnswerKeepsBounded(l: Ledger, cfg: Config, already: bool)
    requires Bounded(l, cfg) && Attempting(l, cfg)
    ensures Bounded(Answered(l, already), cfg)
  {
    ProductMonotone(l.current.value.target, l.current.value.target, Spare(cfg));
    hide Cap;
  }

  lemma ChargeKeepsBounded(l: Ledger, cfg: Config, n: int, counted: bool, marked: bool)
    requires Bounded(l, cfg) && n in l.listed && l.current.None?
    ensures Bounded(ChargedOnce(l, n, counted, marked), cfg)
  {
    ProductMonotone(0, cfg.targets, Spare(cfg));
    assert l.listed[n].retries + 1 <= Cap(cfg);
    hide Cap, Spare, Charged;
  }

  lemma EmitKeepsBounded(l: Ledger, cfg: Config, results: seq<SendResult>, stored: bool)
    requires Bounded(l, cfg) && CanEmit(l, cfg, results)
    ensures Bounded(Emitted(l, results, stored), cfg)
  {
    assert PlannedRow(l.split.value, l.next).retries == 0 <= Cap(cfg);
    EmittedCases(l, cfg, results, stored);
    hide Cap, Spare, PlannedRow, Plan.Valid, Emitted;
  }

  lemma StatusKeepsBounded(l: Ledger, cfg: Config, n: int, status: Status)
    requires Bounded(l, cfg)
    ensures Bounded(l.(current := None, rows := WithStatus(l.rows, n, status)), cfg)
  {
    hide Cap, ResendWithin;
  }

  lemma EndKeepsBounded(l: Ledger, cfg: Config, stored: bool)
    requires Bounded(l, cfg) && l.current.Some?
    ensures Bounded(Concluded(l, stored), cfg) && Bounded(RefusedAt(l, stored), cfg)
  {
    StatusKeepsBounded(l, cfg, l.current.value.number, Success);
    StatusKeepsBounded(l, cfg, l.current.value.number, Failed);
    hide Cap, ResendWithin, WithStatus;
  }

  lemma StepKeepsBounded(l: Ledger, cfg: Config, e: Event)
    requires Bounded(l, cfg)
    ensures Bounded(Step(l, cfg, e), cfg)
  {
    hide Cap, Spare, Emitted, ChargedOnce, AttemptFailed, Answered, Concluded, RefusedAt, FullySent, CanEmit;
    match e
    case Emit(results, stored) =>
      if CanEmit(l, cfg, results) {
        EmitKeepsBounded(l, cfg, results, stored);
      }
    case TargetAnswers(already) =>
      if Attempting(l, cfg) {
        AnswerKeepsBounded(l, cfg, already);
      }
    case AttemptFails(stored) =>
      if Attempting(l, cfg) {
        AttemptKeepsBounded(l, cfg, stored);
      }
    case ChargeOnce(n, counted, marked) =>
      if n in l.listed && l.current.None? {
        ChargeKeepsBounded(l, cfg, n, counted, marked);
      }
    case TargetRefuses(stored) =>
      if l.current.Some? {
        EndKeepsBounded(l, cfg, stored);
      }
    case Conclude(stored) =>
      if l.current.Some? {
        EndKeepsBounded(l, cfg, stored);
      }
    case Resume(n) =>
      if n in l.listed {
        ProductMonotone(0, 0, Spare(cfg));
      }
    case _ =>
  }

  lemma {:induction false} RunKeepsBounded(cfg: Config, events: seq<Event>)
    ensures Bounded(Run(Fresh, cfg, events), cfg)
    decreases |events|
  {
    if events != [] {
      RunKeepsBounded(cfg, events[..|events| - 1]);
      StepKeepsBounded(Run(Fresh, cfg, events[..|events| - 1]), cfg, events[|events| - 1]);
    }
  }

  /** In every reachable state, whatever splits, passes and clean-ups interleave: a
      row's counter is within the cap, and a row at the limit is neither in the
      running pass's listing nor in the next one. */
  lemma RetryAccounting(cfg: Config, events: seq<Event>, n: int)
    ensures var l := Run(Fresh, cfg, events);
            n in l.rows ==>
              && l.rows[n].retries <= Cap(cfg)
              && (l.rows[n].retries >= cfg.abandonLimit ==> n !in l.listed && n !in Step(l, cfg, BeginPass).listed)
  {
    RunKeepsBounded(cfg, events);
    hide Run, Cap;
  }

  // ---------- The counter and the failures charged ----------

  /** The counter follows the failures charged, and falls behind only when a write
      of it was lost. */
  ghost predicate CounterOf(h: History, n: int, counter: nat) {
    n in h.charged && counter <= h.charged[n] && (h.lossless ==> counter == h.charged[n])
  }

  /** The pass works from rows of the current split. */
  predicate ListingCurrent(l: Ledger) { l.listedIn == l.history.begun }

  ghost predicate ResendCounted(l: Ledger, c: Resend) {
    && c.number < l.next
    && (c.number in l.rows ==> CounterOf(l.history, c.number, c.accumulator)
                               && (l.history.lossless ==> l.rows[c.number].retries == c.accumulator))
  }

  ghost predicate Counted(l: Ledger) {
    && l.listedIn <= l.history.begun
    && (forall n :: n in l.rows ==> CounterOf(l.history, n, l.rows[n].retries))
    && (ListingCurrent(l) ==>
          && (forall n :: n in l.listed ==> n < l.next)
          && (forall n :: n in l.listed && n in l.rows ==> l.rows[n].retries == l.listed[n].retries)
          && (l.current.Some? ==> ResendCounted(l, l.current.value)))
  }

  /** Every failure the run charges is charged from a listing of the current split. */
  ghost predicate ChargesCurrent(cfg: Config, events: seq<Event>)
    decreases |events|
  {
    events == [] ||
    (var before := events[..|events| - 1];
     && ChargesCurrent(cfg, before)
     && (events[|events| - 1].AttemptFails? || events[|events| - 1].ChargeOnce? ==>
             ListingCurrent(Run(Fresh, cfg, before))))
  }

  lemma AttemptKeepsCounted(l: Ledger, cfg: Config, stored: bool)
    requires Counted(l) && Bounded(l, cfg) && l.current.Some? && ListingCurrent(l)
    ensures Counted(AttemptFailed(l, stored))
  {
    hide Cap, Spare;
  }

  lemma ChargeKeepsCounted(l: Ledger, n: int, counted: bool, marked: bool)
    requires Counted(l) && n in l.listed && l.current.None? && ListingCurrent(l)
    ensures Counted(ChargedOnce(l, n, counted, marked))
  {
  }

  lemma EmitKeepsCounted(l: Ledger, cfg: Config, results: seq<SendResult>, stored: bool)
    requires Counted(l) && CanEmit(l, cfg, results)
    ensures Counted(Emitted(l, results, stored))
  {
    assert PlannedRow(l.split.value, l.next).retries == 0;
    EmittedCases(l, cfg, results, stored);
    hide PlannedRow, Plan.Valid, Emitted;
  }

  lemma PassKeepsCounted(l: Ledger, cfg: Config)
    requires RowsFollow(l) && Counted(l)
    ensures Counted(Step(l, cfg, BeginPass))
  {
    hide Plan.Valid, PlannedRow;
  }

  lemma EndKeepsCounted(l: Ledger, stored: bool)
    requires Counted(l) && l.current.Some?
    ensures Counted(Concluded(l, stored)) && Counted(RefusedAt(l, stored))
  {
    hide ResendCounted;
  }

  lemma StepKeepsCounted(l: Ledger, cfg: Config, e: Event)
    requires RowsFollow(l) && Bounded(l, cfg) && Counted(l)
    requires e.AttemptFails? || e.ChargeOnce? ==> ListingCurrent(l)
    ensures Counted(Step(l, cfg, e))
  {
    hide RowsFollow, Bounded, Emitted, ChargedOnce, AttemptFailed, Concluded, RefusedAt, FullySent, CanEmit;
    match e
    case Emit(results, stored) =>
      if CanEmit(l, cfg, results) {
        EmitKeepsCounted(l, cfg, results, stored);
      }
    case BeginPass => PassKeepsCounted(l, cfg);
    case AttemptFails(stored) =>
      if Attempting(l, cfg) {
        AttemptKeepsCounted(l, cfg, stored);
      }
    case ChargeOnce(n, counted, marked) =>
      if n in l.listed && l.current.None? {
        ChargeKeepsCounted(l, n, counted, marked);
      }
    case TargetRefuses(stored) =>
      if l.current.Some? {
        EndKeepsCounted(l, stored);
      }
    case Conclude(stored) =>
      if l.current.Some? {
        EndKeepsCounted(l, stored);
      }
    case GiveUp(_) => DropKeepsCounted(l, cfg, e);
    case DropListed(_) => DropKeepsCounted(l, cfg, e);
    case BeginSplit(_) =>
    case _ => QuietKeepsCounted(l, cfg, e);
  }

  lemma DropKeepsCounted(l: Ledger, cfg: Config, e: Event)
    requires Counted(l) && Drops(e)
    ensures Counted(Step(l, cfg, e))
  {
    DropStep(l, cfg, e);
    hide Step;
  }

  lemma AnswerKeepsCounted(l: Ledger, already: bool)
    requires Counted(l) && l.current.Some?
    ensures Counted(Answered(l, already))
  {
  }

  lemma ResumeKeepsCounted(l: Ledger, n: int)
    requires Counted(l) && n in l.listed
    ensures Counted(Resumed(l, n))
  {
  }

  lemma StillCounted(l: Ledger, l': Ledger)
    requires Counted(l) && l'.rows == l.rows && l'.next == l.next
    requires l'.history == l.history && l'.listedIn == l.listedIn
    requires l'.listed in {l.listed, map[]} && l'.current in {l.current, None}
    ensures Counted(l')
  {
  }

  lemma QuietKeepsCounted(l: Ledger, cfg: Config, e: Event)
    requires Counted(l) && Quiet(e) && !e.BeginPass?
    ensures Counted(Step(l, cfg, e))
  {
    if e.Resume? {
      hide Counted, Resumed;
      if e.n in l.listed {
        ResumeKeepsCounted(l, e.n);
      }
    } else if e.TargetAnswers? {
      hide Counted, Answered;
      if l.current.Some? {
        AnswerKeepsCounted(l, e.already);
      }
    } else {
      hide FullySent, Counted;
      StillCounted(l, Step(l, cfg, e));
    }
  }

  lemma {:induction false} RunKeepsCounted(cfg: Config, events: seq<Event>)
    requires Proper(events) && ChargesCurrent(cfg, events)
    ensures Counted(Run(Fresh, cfg, events))
    decreases |events|
  {
    if events != [] {
      var before := events[..|events| - 1];
      RunKeepsCounted(cfg, before);
      RunKeepsRowsFollow(cfg, before);
      RunKeepsBounded(cfg, before);
      hide Counted, Bounded, RowsFollow, Step;
      StepKeepsCounted(Run(Fresh, cfg, before), cfg, events[|events| - 1]);
    }
  }

  /** Unless a pass goes on charging from a listing that a new split has made stale, a
      row's counter is the number of failures charged to it since it was inserted,
      as long as no counter write was lost, and never more. */
  lemma CounterEqualsCharges(cfg: Config, events: seq<Event>, n: int)
    requires Proper(events) && ChargesCurrent(cfg, events)
    ensures var l := Run(Fresh, cfg, events);
            n in l.rows ==>
              && n in l.history.charged && l.rows[n].retries <= l.history.charged[n]
              && (l.history.lossless ==> l.rows[n].retries == l.history.charged[n])
  {
    RunKeepsCounted(cfg, events);
  }

  /** A charge keeps an exact counter exact precisely when the row still has the counter
      the pass last saw: what a compare-and-set on `retries` would require. A row
      re-inserted under the same number does not. */
  lemma ChargeExactIff(l: Ledger)
    requires l.current.Some? && l.current.value.number in l.rows
    requires var n := l.current.value.number; n in l.history.charged && l.rows[n].retries == l.history.charged[n]
    ensures var n := l.current.value.number;
            var l' := AttemptFailed(l, true);
            l'.rows[n].retries == l'.history.charged[n] <==> l.rows[n].retries == l.current.value.accumulator
  {
  }

  // ---------- Counters never decrease ----------

  /** Every row that survives has at least the counter it had. */
  ghost predicate NoLower(rows: ChunkRows, rows': ChunkRows) {
    forall n :: n in rows && n in rows' ==> rows[n].retries <= rows'[n].retries
  }

  lemma UpdatesNeverLower(rows: ChunkRows, n: int, status: Status, retries: nat)
    requires n in rows ==> rows[n].retries <= retries
    ensures NoLower(rows, rows) && NoLower(rows, map[])
    ensures NoLower(rows, WithStatus(rows, n, status)) && NoLower(rows, WithRetries(rows, n, retries))
    ensures NoLower(rows, WithStatus(WithRetries(rows, n, retries), n, status))
  {
  }

  lemma EmitNeverLowers(l: Ledger, cfg: Config, results: seq<SendResult>, stored: bool)
    requires CanEmit(l, cfg, results)
    ensures NoLower(l.rows, Emitted(l, results, stored).rows)
  {
    hide Plan.Valid, PlannedRow, Aggregate, Told;
  }

  lemma ChargeNeverLowers(l: Ledger, cfg: Config, n: int, counted: bool, marked: bool)
    requires Bounded(l, cfg) && n in l.listed
    ensures NoLower(l.rows, ChargedOnce(l, n, counted, marked).rows)
  {
    UpdatesNeverLower(l.rows, n, Failed, l.listed[n].retries + 1);
    hide Charged, NoLower, WithStatus, WithRetries;
  }

  lemma ResendNeverLowers(l: Ledger, cfg: Config, flag: bool)
    requires Bounded(l, cfg) && l.current.Some?
    ensures NoLower(l.rows, AttemptFailed(l, flag).rows)
    ensures NoLower(l.rows, Concluded(l, flag).rows)
    ensures NoLower(l.rows, RefusedAt(l, flag).rows)
  {
    var c := l.current.value;
    assert c.number in l.rows ==> l.rows[c.number].retries <= c.accumulator + 1;
    hide Charged, NoLower, WithStatus, WithRetries, Bounded, ResendWithin;
    UpdatesNeverLower(l.rows, c.number, Success, c.accumulator + 1);
    UpdatesNeverLower(l.rows, c.number, Failed, c.accumulator + 1);
  }

  lemma StepNeverLowers(l: Ledger, cfg: Config, e: Event)
    requires Bounded(l, cfg) && !e.BeginSplit?
    ensures NoLower(l.rows, Step(l, cfg, e).rows)
  {
    hide Bounded, NoLower, FullySent, Emitted, CanEmit, ChargedOnce, AttemptFailed, Concluded, RefusedAt, PendingRows;
    UpdatesNeverLower(l.rows, 0, Failed, if 0 in l.rows then l.rows[0].retries else 0);
    if Quiet(e) {
      QuietStep(l, cfg, e);
      hide Step;
    } else if Drops(e) {
      DropStep(l, cfg, e);
      hide Step;
    } else if e.Emit? {
      if CanEmit(l, cfg, e.results) {
        EmitNeverLowers(l, cfg, e.results, e.stored);
      }
    } else if e.ChargeOnce? {
      if e.n in l.listed {
        ChargeNeverLowers(l, cfg, e.n, e.counted, e.marked);
      }
    } else if l.current.Some? {
      ResendNeverLowers(l, cfg, e.stored);
    }
  }

  /** Without a new split, a row of an already emitted chunk is never inserted again. */
  lemma NoReinsertion(l: Ledger, cfg: Config, e: Event, n: int)
    requires !e.BeginSplit? && n < l.next && n in Step(l, cfg, e).rows
    ensures n in l.rows && l.next <= Step(l, cfg, e).next
  {
    if e.Emit? {
      hide Plan.Valid, PlannedRow, Aggregate, Told;
    } else {
      ResendKeepsCores(l, cfg, e);
      hide Step;
    }
  }

  lemma {:induction false} RowsBetween(cfg: Config, events: seq<Event>, i: nat, j: nat, n: int)
    requires i <= j <= |events| && forall m :: i <= m < j ==> !events[m].BeginSplit?
    requires n < Run(Fresh, cfg, events[..i]).next && n in Run(Fresh, cfg, events[..j]).rows
    ensures n in Run(Fresh, cfg, events[..i]).rows
    ensures i < j ==> Run(Fresh, cfg, events[..i + 1]).next > n
    decreases j - i
  {
    if i < j {
      RunOneMore(Fresh, cfg, events, i);
      hide Step, Run;
      NextGrows(Run(Fresh, cfg, events[..i]), cfg, events[i]);
      RowsBetween(cfg, events, i + 1, j, n);
      NoReinsertion(Run(Fresh, cfg, events[..i]), cfg, events[i], n);
    }
  }

  lemma NextGrows(l: Ledger, cfg: Config, e: Event)
    requires !e.BeginSplit?
    ensures l.next <= Step(l, cfg, e).next
  {
    if !e.Emit? {
      ResendKeepsCores(l, cfg, e);
      hide Step;
    }
  }

  /** Over runs: between two points without a new split in between, a row present at
      both has at the later one at least the counter it had at the earlier one. */
  lemma {:induction false} CounterNeverDecreases(cfg: Config, events: seq<Event>, i: nat, j: nat, n: int)
    requires Proper(events) && i <= j <= |events| && forall m :: i <= m < j ==> !events[m].BeginSplit?
    requires n in Run(Fresh, cfg, events[..i]).rows && n in Run(Fresh, cfg, events[..j]).rows
    ensures Run(Fresh, cfg, events[..i]).rows[n].retries <= Run(Fresh, cfg, events[..j]).rows[n].retries
    decreases j - i
  {
    if i < j {
      var l := Run(Fresh, cfg, events[..i]);
      RunKeepsRowsFollow(cfg, events[..i]);
      RunKeepsBounded(cfg, events[..i]);
      RunOneMore(Fresh, cfg, events, i);
      assert n < l.next;
      hide Step, Run, Bounded, RowsFollow;
      RowsBetween(cfg, events, i, j, n);
      NextGrows(l, cfg, events[i]);
      RowsBetween(cfg, events, i + 1, j, n);
      StepNeverLowers(l, cfg, events[i]);
      CounterNeverDecreases(cfg, events, i + 1, j, n);
    }
  }

  // ---------- Resend fidelity ----------

  datatype Rebuilt = Rebuilt(offset: nat, data: Bytes) | Unusable

  /** The legacy fallback for rows stored without an offset. */
  predicate UsesFallback(n: int, row: ChunkRow) { row.offset == 0 && n > 0 }

  /** What the resend pass reads for a listed row: its range, cut at the file's end. */
  function Rebuild(content: Bytes, n: int, row: ChunkRow): Rebuilt {
    if n < 0 || row.size == 0 then Unusable
    else if UsesFallback(n, row) && n > UINT64_MAX / row.size then Unusable
    else
      var offset := if UsesFallback(n, row) then n * row.size else row.offset;
      if offset >= |content| then Unusable
      else Rebuilt(offset, content[offset..offset + Min(row.size, |content| - offset)])
  }

  /** For a row of a split and an unchanged file, the resend sends the bytes, offset,
      digest, total and transfer id of the first send, and never falls back. */
  lemma RebuildsPlannedChunk(sp: Split, n: nat, row: ChunkRow)
    requires sp.plan.Valid() && n < sp.plan.Count() && Core(row) == PlannedRow(sp, n)
    ensures !UsesFallback(n, row)
    ensures Rebuild(sp.plan.content, n, row) == Rebuilt(sp.plan.cuts[n], sp.plan.Piece(n))
    ensures row.total == sp.plan.Declared(n) && row.transferId == sp.transferId
    ensures row.digest == sp.digest(sp.plan.Piece(n))
  {
    PiecePlacement(sp.plan, n);
    assert row.offset == sp.plan.cuts[n] && row.size == |sp.plan.Piece(n)|;
  }

  /** A row stored without its offset is rebuilt right exactly when the number times its
      own size is where the chunk starts: true of full chunks of a fixed split, but not
      of a shorter last one. */
  lemma LegacyRowIff(sp: Split, n: nat, row: ChunkRow)
    requires sp.plan.Valid() && 0 < n < sp.plan.Count() && Core(row) == PlannedRow(sp, n)
    requires |sp.plan.content| <= UINT64_MAX
    ensures Rebuild(sp.plan.content, n, row.(offset := 0)) == Rebuilt(sp.plan.cuts[n], sp.plan.Piece(n))
       <==> n * row.size == sp.plan.cuts[n]
  {
    PiecePlacement(sp.plan, n);
    assert row.size == |sp.plan.Piece(n)| > 0;
    if n * row.size == sp.plan.cuts[n] {
      AtMostQuotient(n, row.size, UINT64_MAX);
    }
  }

  lemma AtMostQuotient(n: nat, d: nat, limit: nat)
    requires d > 0 && n * d <= limit
    ensures n <= limit / d
  {
    var q := limit / d;
    assert limit == q * d + limit % d;
    ProductMonotone(q, q, d);
    if n >= q + 1 {
      ProductMonotone(q + 1, n, d);
    }
  }

  /** The listed rows, and the one being resent, are planned rows of the split they
      were listed from. */
  ghost predicate ListingPlanned(l: Ledger) {
    (l.listed != map[] || l.current.Some?) ==>
      && l.listedOf.Some? && l.listedOf.value.plan.Valid()
      && (forall n :: n in l.listed ==>
            0 <= n < l.listedOf.value.plan.Count() && Core(l.listed[n]) == PlannedRow(l.listedOf.value, n))
      && (l.current.Some? ==>
            var c := l.current.value;
            0 <= c.number < l.listedOf.value.plan.Count() && Core(c.row) == PlannedRow(l.listedOf.value, c.number))
  }

  lemma PassIsPlanned(l: Ledger, cfg: Config)
    requires RowsFollow(l) && ListingPlanned(l)
    ensures ListingPlanned(Step(l, cfg, BeginPass))
  {
    hide Plan.Valid, PlannedRow;
    var l' := Step(l, cfg, BeginPass);
    forall n | n in l'.listed && l'.listed != l.listed ensures Core(l'.listed[n]) == Core(l.rows[n]) {
    }
  }

  /** Outside the beginning of a pass, listed rows only leave the listing, and the row
      being resent comes from it. */
  ghost predicate ListingShrinks(l: Ledger, l': Ledger) {
    && l'.listedOf == l.listedOf
    && (forall n :: n in l'.listed ==> n in l.listed && l'.listed[n] == l.listed[n])
    && (l'.current.Some? ==>
          var c := l'.current.value;
          || (l.current.Some? && l.current.value.number == c.number && l.current.value.row == c.row)
          || (c.number in l.listed && l.listed[c.number] == c.row))
  }

  lemma NothingShrinks(l: Ledger)
    ensures ListingShrinks(l, l)
  {
  }

  lemma CurrentShrinks(l: Ledger, flag: bool)
    requires l.current.Some?
    ensures ListingShrinks(l, AttemptFailed(l, flag)) && ListingShrinks(l, Answered(l, flag))
    ensures ListingShrinks(l, RefusedAt(l, flag)) && ListingShrinks(l, Concluded(l, flag))
  {
    hide Charged, WithStatus, WithRetries;
  }

  lemma ListedShrinks(l: Ledger, n: int, counted: bool, marked: bool)
    requires n in l.listed
    ensures ListingShrinks(l, ChargedOnce(l, n, counted, marked)) && ListingShrinks(l, Resumed(l, n))
  {
    hide Charged, WithStatus, WithRetries;
  }

  lemma StepShrinks(l: Ledger, cfg: Config, e: Event)
    requires !e.BeginPass?
    ensures ListingShrinks(l, Step(l, cfg, e))
  {
    hide Emitted, CanEmit, FullySent, Charged, Told, WithStatus, WithRetries;
    if e.Emit? {
      if CanEmit(l, cfg, e.results) {
        EmittedCases(l, cfg, e.results, e.stored);
      }
    } else if Drops(e) {
      DropStep(l, cfg, e);
      hide Step;
    } else if e.ChargeOnce? || e.Resume? {
      hide ListingShrinks, ChargedOnce, Resumed;
      assert ListingShrinks(l, l) by { NothingShrinks(l); }
      if e.n in l.listed {
        ListedShrinks(l, e.n, e.ChargeOnce? && e.counted, e.ChargeOnce? && e.marked);
      }
    } else if e.AttemptFails? || e.TargetAnswers? || e.TargetRefuses? || e.Conclude? {
      hide ListingShrinks, AttemptFailed, Answered, RefusedAt, Concluded;
      assert ListingShrinks(l, l) by { NothingShrinks(l); }
      if l.current.Some? {
        CurrentShrinks(l, true);
        CurrentShrinks(l, false);
      }
    }
  }

  lemma StepKeepsPlanned(l: Ledger, cfg: Config, e: Event)
    requires RowsFollow(l) && ListingPlanned(l)
    ensures ListingPlanned(Step(l, cfg, e))
  {
    if e.BeginPass? {
      PassIsPlanned(l, cfg);
    } else {
      StepShrinks(l, cfg, e);
      hide Step, RowsFollow, Plan.Valid, PlannedRow;
    }
  }

  lemma {:induction false} RunKeepsPlanned(cfg: Config, events: seq<Event>)
    requires Proper(events)
    ensures ListingPlanned(Run(Fresh, cfg, events))
    decreases |events|
  {
    if events != [] {
      var before := events[..|events| - 1];
      RunKeepsPlanned(cfg, before);
      RunKeepsRowsFollow(cfg, before);
      hide ListingPlanned, RowsFollow, Step;
      StepKeepsPlanned(Run(Fresh, cfg, before), cfg, events[|events| - 1]);
    }
  }

  /** Over every run, stale listings included: a chunk being resent is a chunk of the
      split it was listed from, and while the file is as that split read it, the
      resend rebuilds its range and bytes and keeps its digest, total and id. */
  lemma ResendFidelity(cfg: Config, events: seq<Event>)
    requires Proper(events)
    ensures var l := Run(Fresh, cfg, events);
            l.current.Some? ==>
              var c := l.current.value;
              && l.listedOf.Some? && l.listedOf.value.plan.Valid() && 0 <= c.number < l.listedOf.value.plan.Count()
              && !UsesFallback(c.number, c.row)
              && Rebuild(l.listedOf.value.plan.content, c.number, c.row)
                   == Rebuilt(l.listedOf.value.plan.cuts[c.number], l.listedOf.value.plan.Piece(c.number))
              && c.row.total == l.listedOf.value.plan.Declared(c.number)
              && c.row.digest == l.listedOf.value.digest(l.listedOf.value.plan.Piece(c.number))
              && c.row.transferId == l.listedOf.value.transferId
  {
    RunKeepsPlanned(cfg, events);
    var l := Run(Fresh, cfg, events);
    hide Run, Rebuild, UsesFallback, Plan.Valid, PlannedRow;
    if l.current.Some? {
      RebuildsPlannedChunk(l.listedOf.value, l.current.value.number, l.current.value.row);
    }
  }

  // ---------- Late success updates ----------

  /** A listing made since the last split began is one of the current split. */
  ghost predicate ListingPlaced(l: Ledger) {
    && l.listedIn <= l.history.begun
    && ((l.listed != map[] || l.current.Some?) && ListingCurrent(l) ==> l.listedOf == l.split)
  }

  lemma StepKeepsPlaced(l: Ledger, cfg: Config, e: Event)
    requires ListingPlaced(l)
    ensures ListingPlaced(Step(l, cfg, e))
  {
    hide Emitted, CanEmit, FullySent, Told, WithStatus, WithRetries, PendingRows;
    if e.Emit? && CanEmit(l, cfg, e.results) {
      EmittedCases(l, cfg, e.results, e.stored);
    }
  }

  lemma {:induction false} RunKeepsPlaced(cfg: Config, events: seq<Event>)
    ensures ListingPlaced(Run(Fresh, cfg, events))
    decreases |events|
  {
    if events != [] {
      RunKeepsPlaced(cfg, events[..|events| - 1]);
      hide ListingPlaced, Step;
      StepKeepsPlaced(Run(Fresh, cfg, events[..|events| - 1]), cfg, events[|events| - 1]);
    }
  }

  /** In every run, a late success update can miss the chunk it resent only when a
      split has begun since the pass listed it. */
  lemma MismatchMeansNewSplit(cfg: Config, events: seq<Event>)
    requires Proper(events) && !Matches(Run(Fresh, cfg, events))
    ensures Run(Fresh, cfg, events).listedIn < Run(Fresh, cfg, events).history.begun
  {
    RunKeepsPlanned(cfg, events);
    RunKeepsPlaced(cfg, events);
    RunKeepsRowsFollow(cfg, events);
    hide Run, Plan.Valid, PlannedRow;
  }

  /** Marking the resent chunk's row is sound when the row under that number stands for
      the chunk that was listed, or is gone. The converse needs the history: a row of
      another chunk may by then have been acknowledged by all targets, over several
      passes, without having become a success; in every other case marking it is
      unsound. */
  lemma MarkingSound(l: Ledger, cfg: Config)
    requires SuccessMeansAcked(l, cfg) && ResendSound(l, cfg)
    requires l.current.Some? && l.current.value.target == cfg.targets && !l.current.value.allExist
    ensures Matches(l) ==> SuccessMeansAcked(Step(l, cfg, Conclude(true)), cfg)
    ensures var n := l.current.value.number;
            && (SuccessMeansAcked(Step(l, cfg, Conclude(true)), cfg)
                <==> (n !in l.rows || AckedBy(l, n, l.rows[n], cfg.targets)))
  {
    var l' := Step(l, cfg, Conclude(true));
    var n := l.current.value.number;
    if Matches(l) {
      ConcludeKeepsAcked(l, cfg, true);
    }
    if n in l.rows {
      assert Core(l'.rows[n]) == Core(l.rows[n]);
      assert AckedBy(l', n, l'.rows[n], cfg.targets) <==> AckedBy(l, n, l.rows[n], cfg.targets);
    }
    forall k | k in l'.rows && k != n ensures l'.rows[k] == l.rows[k] {
    }
  }
}
