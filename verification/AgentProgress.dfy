/** What the agent achieves when nothing goes wrong: an acknowledged split is reported and
    cleaned up, a pass lists what is still to be sent, and an answered pass heals the
    file. */
module AgentProgress {
  import opened Basics
  import opened TransferPlans
  import opened AgentDatabase
  import opened AgentLedger
  import AgentSending

  // ---------- A split whose chunks are all acknowledged ----------

  function AllAcknowledge(targets: nat): Event { Emit(seq(targets, _ => Acknowledged), true) }

  /** The split opens, begins, and broadcasts its first k chunks successfully. */
  function Sending(sp: Split, k: nat, targets: nat): seq<Event> {
    if k == 0 then [OpenSplit, BeginSplit(sp)] else Sending(sp, k - 1, targets) + [AllAcknowledge(targets)]
  }

  ghost predicate AllSucceeded(sp: Split, k: nat, rows: ChunkRows)
    requires sp.plan.Valid() && k <= sp.plan.Count()
  {
    rows.Keys == Below(k) && forall n :: n in rows.Keys ==> rows[n] == PlannedRow(sp, n).(status := Success)
  }

  lemma OneMoreSucceeds(sp: Split, k: nat, rows: ChunkRows)
    requires sp.plan.Valid() && k < sp.plan.Count() && AllSucceeded(sp, k, rows)
    ensures k !in rows && AllSucceeded(sp, k + 1, rows[k := PlannedRow(sp, k).(status := Success)])
  {
    hide PlannedRow, Plan.Valid;
    assert k !in rows.Keys;
    assert rows[k := PlannedRow(sp, k).(status := Success)].Keys == rows.Keys + {k};
  }

  /** k chunks are out and stored as successes; the background thread has not moved. */
  ghost predicate Broadcast(l: Ledger, sp: Split, k: nat, l': Ledger)
    requires sp.plan.Valid() && k <= sp.plan.Count()
  {
    && l'.running && l'.split == Some(sp) && l'.next == k && AllSucceeded(sp, k, l'.rows)
    && l'.listed == l.listed && l'.current == l.current && l'.toMark == l.toMark
  }

  lemma AggregateOfAll(targets: nat)
    requires targets > 0
    ensures Aggregate(seq(targets, _ => Acknowledged)) == Acknowledged
  {
    var results := seq(targets, _ => Acknowledged);
    assert results[0] == Acknowledged;
  }

  lemma BroadcastOneMore(l: Ledger, cfg: Config, sp: Split, k: nat, x: Ledger)
    requires sp.plan.Valid() && k < sp.plan.Count() && cfg.targets > 0 && Broadcast(l, sp, k, x)
    ensures Broadcast(l, sp, k + 1, Step(x, cfg, AllAcknowledge(cfg.targets)))
  {
    OneMoreSucceeds(sp, k, x.rows);
    EmitSucceeds(x, cfg);
    hide Step, PlannedRow, Plan.Valid, AllSucceeded, AllAcknowledge;
  }

  lemma EmitSucceeds(l: Ledger, cfg: Config)
    requires cfg.targets > 0 && l.running && l.split.Some? && l.split.value.plan.Valid()
    requires l.next < l.split.value.plan.Count() && l.next !in l.rows
    ensures var l' := Step(l, cfg, AllAcknowledge(cfg.targets));
            l' == l.(rows := l.rows[l.next := PlannedRow(l.split.value, l.next).(status := Success)],
                     next := l.next + 1, history := l'.history)
  {
    AggregateOfAll(cfg.targets);
    hide Aggregate, PlannedRow, Plan.Valid, Told;
  }

  lemma {:induction false} SplitProceeds(l: Ledger, cfg: Config, sp: Split, k: nat)
    requires sp.plan.Valid() && k <= sp.plan.Count() && cfg.targets > 0
    ensures Broadcast(l, sp, k, Run(l, cfg, Sending(sp, k, cfg.targets)))
  {
    if k == 0 {
      assert [OpenSplit, BeginSplit(sp)][..1] == [OpenSplit] && [OpenSplit][..0] == [];
      assert Run(l, cfg, [OpenSplit]) == Step(l, cfg, OpenSplit);
      assert Run(l, cfg, [OpenSplit, BeginSplit(sp)]) == Step(Step(l, cfg, OpenSplit), cfg, BeginSplit(sp));
    } else {
      SplitProceeds(l, cfg, sp, k - 1);
      var before := Sending(sp, k - 1, cfg.targets);
      assert Sending(sp, k, cfg.targets)[..|before|] == before;
      BroadcastOneMore(l, cfg, sp, k - 1, Run(l, cfg, before));
    }
  }

  /** From every state: a split all of whose chunks every target acknowledges, with all
      rows stored, ends with the file reported as fully sent. */
  lemma SplitIsReported(l: Ledger, cfg: Config, sp: Split)
    requires sp.plan.Valid() && cfg.targets > 0
    ensures FullySent(Run(l, cfg, Sending(sp, sp.plan.Count(), cfg.targets)).rows)
  {
    SplitProceeds(l, cfg, sp, sp.plan.Count());
    var l' := Run(l, cfg, Sending(sp, sp.plan.Count(), cfg.targets));
    hide Run, Sending, FullySent, Plan.Valid;
    PlannedRows(l, l', sp);
    CompleteIsFullySent(l');
  }

  lemma PlannedRows(l: Ledger, l': Ledger, sp: Split)
    requires sp.plan.Valid() && Broadcast(l, sp, sp.plan.Count(), l')
    ensures RowsFollow(l')
  {
    forall n | n in l'.rows ensures 0 <= n < l'.next && Core(l'.rows[n]) == PlannedRow(sp, n) {
      assert n in l'.rows.Keys;
      PlannedCore(sp, n, Success);
    }
  }

  // ---------- Clean-up and passes ----------

  /** Between passes a fully sent file is marked processed and its rows go. */
  lemma CleanUpFinishes(l: Ledger, cfg: Config)
    requires Idle(l) && FullySent(l.rows)
    ensures var l' := Run(l, cfg, [ListSent(true), DropListed(true)]);
            l'.processed && l'.rows == map[] && Idle(l')
  {
    assert [ListSent(true), DropListed(true)][..1] == [ListSent(true)] && [ListSent(true)][..0] == [];
    assert Run(l, cfg, [ListSent(true)]) == Step(l, cfg, ListSent(true));
    assert Run(l, cfg, [ListSent(true), DropListed(true)]) == Step(Step(l, cfg, ListSent(true)), cfg, DropListed(true));
  }

  /** A pass lists exactly the rows that are not successes and still below the limit, and
      changes nothing. */
  lemma PassListsPending(l: Ledger, cfg: Config, n: int)
    requires Idle(l) && cfg.targets > 0
    ensures var l' := Step(l, cfg, BeginPass);
            && (n in l'.listed <==> n in l.rows && l.rows[n].status != Success && l.rows[n].retries < cfg.abandonLimit)
            && (n in l'.listed ==> l'.listed[n] == l.rows[n])
            && l'.rows == l.rows && l'.processed == l.processed && l'.current.None?
  {
  }

  /** After a pass in which every listed chunk was answered, a file with the rows of all
      its chunks and none given up is fully sent. */
  lemma AnsweredPassIsReported(l: Ledger, l': Ledger, cfg: Config)
    requires RowsFollow(l) && l.split.Some? && l.rows.Keys == Below(l.split.value.plan.Count())
    requires forall n :: n in l.rows ==> l.rows[n].status.Success? || l.rows[n].retries < cfg.abandonLimit
    requires AgentSending.Healed(l.rows, l'.rows, PendingRows(l.rows, cfg.abandonLimit).Keys)
    ensures FullySent(l'.rows)
  {
    var x := l.(rows := l'.rows);
    assert forall n :: n in l.rows ==>
                         n in l'.rows && Core(l'.rows[n]) == Core(l.rows[n]) && l'.rows[n].status.Success?;
    CompleteIsFullySent(x);
  }
}
