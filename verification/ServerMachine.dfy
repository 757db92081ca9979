/** The receiving server as a step system: chunk deliveries, finalization tasks, the
    thread pool's shared queue and restarts over all output files. A crash inside a delivery is that delivery cut
    at some stage, followed by a restart, which forgets everything in memory. */
module ServerMachine {
  import opened Basics
  import opened TransferPlans
  import opened ServerFile

  /** The client namespace, relative directory and file name of an output file. */
  datatype Key = Key(client: Bytes, directory: Bytes, filename: Bytes)

  datatype Limits = Limits(maxFileSize: nat, maxClientStorage: nat, queueCapacity: nat)

  /** `tasks` are the finalizations in the thread pool's queue. The pool is shared:
      `others` is the number of client connections waiting in the same queue, and
      `stopped` says that it refuses everything. */
  datatype Server = Server(
    files: map<Key, FileState>, versioned: map<Key, Key>, tasks: seq<Key>, others: nat, stopped: bool)

  /** One packet handed to the receiver. `intact` is the digest test, `reach` how
      far its effects get, `freshKey` the name a versioned copy would be given. */
  datatype Delivery = Delivery(key: Key, packet: Packet, policy: Policy, intact: bool, reach: Reach, freshKey: Key)

  datatype Event =
    | Deliver(delivery: Delivery)
    | Finalize(task: nat, finish: Finish)
    | ConnectionQueued
    | ConnectionTaken
    | PoolStops
    | Restart(order: seq<Key>)
    | BlindRestart                          // the start-up query for unfinished files failed
  {
    predicate StartsUp() { Restart? || BlindRestart? }
  }

  /** The pool takes one more task. */
  predicate HasRoom(s: Server, limits: Limits) {
    !s.stopped && |s.tasks| + s.others < limits.queueCapacity
  }

  function At(s: Server, k: Key): FileState {
    if k in s.files then s.files[k] else Absent
  }

  // ---------- Storage accounting ----------

  function Size(f: FileState): nat {
    if f.bytes.Some? then |f.bytes.value| else 0
  }

  function Share(f: FileState, k: Key, client: Bytes): nat {
    if k.client == client then Size(f) else 0
  }

  /** Total size of a client's files. */
  ghost function Usage(files: map<Key, FileState>, client: Bytes): nat {
    if !exists k :: k in files then 0
    else
      var k :| k in files;
      Share(files[k], k, client) + Usage(files - {k}, client)
  }

  lemma {:induction false} UsageWithout(files: map<Key, FileState>, client: Bytes, k: Key)
    requires k in files
    ensures Usage(files, client) == Share(files[k], k, client) + Usage(files - {k}, client)
    decreases |files|
  {
    var n :| n in files && Usage(files, client) == Share(files[n], n, client) + Usage(files - {n}, client);
    if n != k {
      UsageWithout(files - {n}, client, k);
      UsageWithout(files - {k}, client, n);
      assert files - {n} - {k} == files - {k} - {n};
    }
  }

  /** Changing one file changes its client's total by that file's size change only. */
  lemma UsageUpdate(files: map<Key, FileState>, client: Bytes, k: Key, f: FileState)
    ensures Usage(files[k := f], client) + (if k in files then Share(files[k], k, client) else 0)
         == Usage(files, client) + Share(f, k, client)
  {
    UsageWithout(files[k := f], client, k);
    if k in files {
      UsageWithout(files, client, k);
      assert files[k := f] - {k} == files - {k};
    } else {
      assert files[k := f] - {k} == files;
    }
  }

  // ---------- Deliveries ----------

  ghost predicate Admissible(files: map<Key, FileState>, limits: Limits, k: Key, removed: FileState, p: Packet) {
    && p.TargetSize() <= limits.maxFileSize
    && (p.fileSize > 0 ==> p.offset <= p.fileSize && |p.data| <= p.fileSize - p.offset)
    && (removed.bytes.None? ==>
          var used := Usage(files[k := removed], k.client);
          used < UINT64_MAX && used + p.TargetSize() <= limits.maxClientStorage)
  }

  /** The stage a delivery can get to: no file is created without admission. */
  ghost function AdmittedReach(s: Server, limits: Limits, k: Key, d: Delivery, replace: bool, reset: bool): Reach {
    var removed := Progress(At(s, k), d.packet, replace, reset, FileRemoved);
    if d.reach.Rank() > FileRemoved.Rank() && !Admissible(s.files, limits, k, removed, d.packet) then FileRemoved
    else d.reach
  }

  ghost function Into(
    s: Server, limits: Limits, d: Delivery, k: Key, viaVersion: bool, replace: bool, reset: bool): (Server, Answer)
  {
    var reach := AdmittedReach(s, limits, k, d, replace, reset);
    var r := Accepted(At(s, k), d.packet, replace, reset, d.intact, reach, HasRoom(s, limits));
    (s.(files := s.files[k := r.file],
        versioned := if r.answer.JustCompleted? && viaVersion then s.versioned - {d.key} else s.versioned,
        tasks := if r.enqueue then s.tasks + [k] else s.tasks),
     r.answer)
  }

  predicate UsesVersionMap(s: Server, d: Delivery) {
    !d.packet.IsFirst() && d.policy.Versioned? && d.key in s.versioned
  }

  function LookupKey(s: Server, d: Delivery): Key {
    if UsesVersionMap(s, d) then s.versioned[d.key] else d.key
  }

  /** The pre-check's verdict; a failed read is answered Failed. */
  function Decided(f: FileState, d: Delivery): Verdict {
    if d.reach.Unchecked? then Answered(Failed) else PreCheck(f, d.policy, d.packet)
  }

  /** The pre-check chose a fresh name, which stays chosen, before a read failed. */
  predicate SwitchedInVain(s: Server, d: Delivery) {
    d.reach == Unchecked(true) && PreCheck(At(s, LookupKey(s, d)), d.policy, d.packet).UseFreshName?
  }

  /** The key whose file the delivery acts on. */
  function EffectiveKey(s: Server, d: Delivery): Key {
    if Decided(At(s, LookupKey(s, d)), d).UseFreshName? then d.freshKey else LookupKey(s, d)
  }

  ghost function Receive(s: Server, limits: Limits, d: Delivery): (Server, Answer) {
    var k := LookupKey(s, d);
    match Decided(At(s, k), d)
    case Answered(a) => (if SwitchedInVain(s, d) then s.(versioned := s.versioned[d.key := d.freshKey]) else s, a)
    case UseFreshName =>
      Into(s.(versioned := s.versioned[d.key := d.freshKey]), limits, d, d.freshKey, true, false, false)
    case Proceed(replace, reset) => Into(s, limits, d, k, UsesVersionMap(s, d), replace, reset)
  }

  // ---------- Restart ----------

  /** Pre-populating one in-progress file: a counter while chunks are missing,
      otherwise the flag goes up before the task is offered to the queue. */
  ghost function Reloaded(f: FileState): FileState {
    var total := MaxTotal(f.rows);
    if f.rows == map[] || f.record.Some? || total == 0 then f
    else if |Successes(f.rows)| < total then f.(remaining := Some(total - |Successes(f.rows)|))
    else f.(finalizing := true)
  }

  /** Reloading one listed file; the queue may refuse the task. */
  ghost function RecoverOne(s: Server, limits: Limits, k: Key): Server {
    var f := Reloaded(At(s, k));
    var offered := f.finalizing && !At(s, k).finalizing;
    s.(files := s.files[k := f],
       tasks := if offered && HasRoom(s, limits) then s.tasks + [k] else s.tasks)
  }

  ghost function Recover(s: Server, limits: Limits, order: seq<Key>): Server
    decreases order
  {
    if order == [] then s else Recover(RecoverOne(s, limits, order[0]), limits, order[1..])
  }

  function Forgotten(s: Server): Server {
    Server(map k | k in s.files :: Crashed(s.files[k]), map[], [], 0, false)
  }

  ghost function Step(s: Server, limits: Limits, e: Event): Server {
    match e
    case Deliver(d) => Receive(s, limits, d).0
    case Finalize(i, finish) =>
      if i < |s.tasks| then
        var k := s.tasks[i];
        s.(files := s.files[k := Finalized(At(s, k), finish)], tasks := s.tasks[..i] + s.tasks[i + 1..])
      else s
    case ConnectionQueued => if HasRoom(s, limits) then s.(others := s.others + 1) else s
    case ConnectionTaken => if s.others > 0 then s.(others := s.others - 1) else s
    case PoolStops => s.(stopped := true)
    case Restart(order) => Recover(Forgotten(s), limits, order)
    case BlindRestart => Forgotten(s)
  }

  ghost function Run(s: Server, limits: Limits, events: seq<Event>): Server
    decreases |events|
  {
    if events == [] then s
    else Step(Run(s, limits, events[..|events| - 1]), limits, events[|events| - 1])
  }
}
