/** Three runs that go wrong: a resend pass and a clean-up whose listing outlives a new
    split of changed content, and a clean-up between the opening of a split and the
    deletion of the old rows. */
module AgentRaces {
  import opened Basics
  import opened TransferPlans
  import opened AgentDatabase
  import opened AgentLedger

  /** Two splits of one chunk each, for contents with different transfer ids. */
  ghost predicate SingleChunks(a: Split, b: Split) {
    && SingleChunk(a) && SingleChunk(b) && a.transferId != b.transferId
  }

  ghost predicate SingleChunk(sp: Split) { sp.plan.Valid() && sp.plan.Count() == 1 }

  lemma RunOfTwo(l: Ledger, cfg: Config, a: Event, b: Event)
    ensures Run(l, cfg, [a]) == Step(l, cfg, a)
    ensures Run(l, cfg, [a, b]) == Step(Step(l, cfg, a), cfg, b)
  {
    hide Step;
    assert [a][..0] == [] && Run(l, cfg, [a]) == Step(l, cfg, a);
    assert [a, b][..1] == [a] && Run(l, cfg, [a, b]) == Step(Run(l, cfg, [a]), cfg, b);
  }

  lemma OneRowFullySent(rows: ChunkRows)
    requires rows.Keys == {0} && rows[0].status.Success? && rows[0].total == 1
    ensures FullySent(rows)
  {
    assert |rows| == |rows.Keys| == 1;
  }

  /** A one-chunk split starts and its chunk goes to the only target. */
  function Begin(sp: Split, result: SendResult): seq<Event> { [BeginSplit(sp), Emit([result], true)] }

  function Sending(sp: Split, result: SendResult): seq<Event> { [OpenSplit] + Begin(sp, result) }

  /** What the file looks like then; the background thread has not moved. */
  ghost predicate Sent(l: Ledger, sp: Split, result: SendResult, l': Ledger)
    requires SingleChunk(sp)
  {
    var row := PlannedRow(sp, 0);
    && l'.rows == map[0 := row.(status := if result.Acknowledged? then Success else Failed)]
    && row.total == 1 && row.status.Pending?
    && l'.split == Some(sp) && Epoch(l'.history) == Epoch(l.history) + 1 && !l'.opening
    && l'.current == l.current && l'.listed == l.listed && l'.toMark == l.toMark
    && l'.history.acks == l.history.acks + if result.Acknowledged? then {(0, 0, row)} else {}
  }

  lemma BegunChunkSent(l: Ledger, cfg: Config, sp: Split, result: SendResult)
    requires SingleChunk(sp) && cfg.targets == 1 && !result.AlreadyExists? && l.opening
    ensures var l' := Run(l, cfg, Begin(sp, result));
            Sent(l, sp, result, l') && l'.processed == l.processed
  {
    var row := PlannedRow(sp, 0);
    RunOfTwo(l, cfg, BeginSplit(sp), Emit([result], true));
    assert [result][0] == result;
    assert Aggregate([result]) == result;
    assert AcksOf(0, row, []) == {} && [result][..0] == [];
    assert AcksOf(0, row, [result]) == if result.Acknowledged? then {(0, 0, row)} else {};
  }

  lemma OneChunkSent(l: Ledger, cfg: Config, sp: Split, result: SendResult)
    requires SingleChunk(sp) && cfg.targets == 1 && !result.AlreadyExists?
    ensures Sent(l, sp, result, Run(l, cfg, Sending(sp, result)))
  {
    RunOfTwo(l, cfg, OpenSplit, OpenSplit);
    RunAppend(l, cfg, [OpenSplit], Begin(sp, result));
    BegunChunkSent(Step(l, cfg, OpenSplit), cfg, sp, result);
    hide Run, Begin, Plan.Valid, PlannedRow;
  }

  // ---------- A resend pass with a stale listing ----------

  lemma ChunkListed(l: Ledger, cfg: Config, row: ChunkRow)
    requires cfg.targets > 0 && Idle(l) && l.rows == map[0 := row]
    requires row.status.Failed? && row.retries < cfg.abandonLimit
    ensures var l' := Run(l, cfg, [BeginPass, Resume(0)]);
            && l'.current == Some(Resend(0, row, row.retries, 0, 0, true)) && l'.listed == map[]
            && l'.history == l.history && l'.toMark.None?
  {
    RunOfTwo(l, cfg, BeginPass, Resume(0));
    var l1 := Step(l, cfg, BeginPass);
    assert l1.listed == map[0 := row];
    assert l1.listed - {0} == map[];
  }

  lemma OldChunkListed(a: Split, limit: nat)
    requires SingleChunk(a) && limit > 0
    ensures var l := Run(Fresh, Config(1, 1, limit), Sending(a, Refused) + [BeginPass, Resume(0)]);
            && l.current == Some(Resend(0, PlannedRow(a, 0).(status := Failed), 0, 0, 0, true))
            && l.history.acks == {} && l.listed == map[]
  {
    var cfg := Config(1, 1, limit);
    OneChunkSent(Fresh, cfg, a, Refused);
    RunAppend(Fresh, cfg, Sending(a, Refused), [BeginPass, Resume(0)]);
    assert PlannedRow(a, 0).retries == 0;
    hide Run, Sending, PlannedRow, Plan.Valid;
    ChunkListed(Run(Fresh, cfg, Sending(a, Refused)), cfg, PlannedRow(a, 0).(status := Failed));
  }

  lemma LateAnswerMarks(l: Ledger, cfg: Config, listedRow: ChunkRow, row: ChunkRow)
    requires cfg.targets == 1 && cfg.maxRetries == 1 && row.total == 1
    requires l.current == Some(Resend(0, listedRow, 0, 0, 0, true)) && l.rows == map[0 := row] && l.history.acks == {}
    ensures var l' := Run(l, cfg, [TargetAnswers(false), Conclude(true)]);
            FullySent(l'.rows) && l'.split == l.split && l'.history.acks == {(0, 0, Core(listedRow))}
  {
    hide FullySent, Core;
    RunOfTwo(l, cfg, TargetAnswers(false), Conclude(true));
    var l1 := Step(l, cfg, TargetAnswers(false));
    assert l1.current == Some(Resend(0, listedRow, 0, 1, 0, false)) && l1.rows == l.rows;
    OneRowFullySent(Step(l1, cfg, Conclude(true)).rows);
  }

  /** A pass listed the old chunk, the new split's send failed, and the late success of
      the old resend marks the new row: the query reports a file no target has. */
  lemma StaleListingReportsUnsentFile(a: Split, b: Split, limit: nat)
    requires SingleChunks(a, b) && limit > 0
    ensures var l := Run(Fresh, Config(1, 1, limit),
                         Sending(a, Refused) + [BeginPass, Resume(0)]
                         + Sending(b, Refused) + [TargetAnswers(false), Conclude(true)]);
            && FullySent(l.rows) && l.split == Some(b)
            && (0, 0, PlannedRow(b, 0)) !in l.history.acks
  {
    var cfg := Config(1, 1, limit);
    var s := Sending(a, Refused) + [BeginPass, Resume(0)];
    var l1 := Run(Fresh, cfg, s);
    var l2 := Run(l1, cfg, Sending(b, Refused));
    OldChunkListed(a, limit);
    OneChunkSent(l1, cfg, b, Refused);
    RunAppend(Fresh, cfg, s, Sending(b, Refused));
    RunAppend(Fresh, cfg, s + Sending(b, Refused), [TargetAnswers(false), Conclude(true)]);
    assert PlannedRow(a, 0).transferId != PlannedRow(b, 0).transferId;
    hide Run, Sending, PlannedRow, Plan.Valid;
    LateAnswerMarks(l2, cfg, PlannedRow(a, 0).(status := Failed), PlannedRow(b, 0).(status := Failed));
  }

  // ---------- A clean-up with a stale listing ----------

  /** What the clean-up knows when it has listed the old split. */
  ghost predicate OldSplitListed(l: Ledger, a: Split)
    requires SingleChunk(a)
  {
    && l.toMark.Some? && l.listed == map[] && l.current.None?
    && l.history.acks == {(0, 0, PlannedRow(a, 0))}
  }

  lemma ListSentStep(l: Ledger, cfg: Config)
    requires Idle(l) && FullySent(l.rows)
    ensures Run(l, cfg, [ListSent(true)]) == l.(toMark := Some(Epoch(l.history)))
  {
    RunOfTwo(l, cfg, ListSent(true), ListSent(true));
  }

  lemma SentIsReported(l: Ledger, sp: Split, l': Ledger)
    requires SingleChunk(sp) && Sent(l, sp, Acknowledged, l')
    ensures FullySent(l'.rows)
  {
    hide PlannedRow, Plan.Valid, FullySent;
    OneRowFullySent(l'.rows);
  }

  lemma OldChunkSent(a: Split, cfg: Config)
    requires SingleChunk(a) && cfg.targets == 1
    ensures OldSplitListed(Run(Fresh, cfg, Sending(a, Acknowledged) + [ListSent(true)]), a)
  {
    hide Run, Sending, FullySent, PlannedRow, Plan.Valid;
    OneChunkSent(Fresh, cfg, a, Acknowledged);
    RunAppend(Fresh, cfg, Sending(a, Acknowledged), [ListSent(true)]);
    var l := Run(Fresh, cfg, Sending(a, Acknowledged));
    SentIsReported(Fresh, a, l);
    ListSentStep(l, cfg);
  }

  /** The clean-up listed the old split as fully sent; before it marks the file a split
      of new content begins and its only chunk is refused. The marking drops that
      chunk's row and calls the file processed, so nothing will send it again. */
  lemma CleanUpDropsUnsentSplit(a: Split, b: Split, cfg: Config)
    requires SingleChunks(a, b) && cfg.targets == 1
    ensures var l := Run(Fresh, cfg, Sending(a, Acknowledged) + [ListSent(true)]
                                     + Sending(b, Refused) + [DropListed(true)]);
            && l.processed && l.rows == map[] && l.split == Some(b)
            && (0, 0, PlannedRow(b, 0)) !in l.history.acks
  {
    var s := Sending(a, Acknowledged) + [ListSent(true)];
    var l1 := Run(Fresh, cfg, s);
    var l2 := Run(l1, cfg, Sending(b, Refused));
    OldChunkSent(a, cfg);
    OneChunkSent(l1, cfg, b, Refused);
    RunAppend(Fresh, cfg, s, Sending(b, Refused));
    RunAppend(Fresh, cfg, s + Sending(b, Refused), [DropListed(true)]);
    RunOfTwo(l2, cfg, DropListed(true), DropListed(true));
    DropListedStep(l2, cfg);
    assert PlannedRow(a, 0).transferId != PlannedRow(b, 0).transferId;
    hide Run, Step, Sending, PlannedRow, Plan.Valid;
  }

  // ---------- A marking while a split opens ----------

  /** The clean-up marks the old split after the new one has set the file's status and
      before it deletes the old rows: the status stays 'processed' although the new
      content's only chunk was refused. */
  lemma MarkOutlivesOpening(a: Split, b: Split, cfg: Config)
    requires SingleChunks(a, b) && cfg.targets == 1
    ensures var l := Run(Fresh, cfg, Sending(a, Acknowledged) + [ListSent(true)]
                                     + [OpenSplit, DropListed(true)] + Begin(b, Refused));
            && l.processed && l.split == Some(b) && 0 in l.rows && l.rows[0].status.Failed?
            && (0, 0, PlannedRow(b, 0)) !in l.history.acks
  {
    var s := Sending(a, Acknowledged) + [ListSent(true)];
    var l1 := Run(Fresh, cfg, s);
    var l2 := Run(l1, cfg, [OpenSplit, DropListed(true)]);
    OldChunkSent(a, cfg);
    RunOfTwo(l1, cfg, OpenSplit, DropListed(true));
    assert l2.opening && l2.processed && l2.history == l1.history;
    BegunChunkSent(l2, cfg, b, Refused);
    RunAppend(Fresh, cfg, s, [OpenSplit, DropListed(true)]);
    RunAppend(Fresh, cfg, s + [OpenSplit, DropListed(true)], Begin(b, Refused));
    assert PlannedRow(a, 0).transferId != PlannedRow(b, 0).transferId;
    hide Run, Step, Sending, Begin, PlannedRow, Plan.Valid;
  }
}
