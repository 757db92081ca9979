/** The agent's connection pool as lock-held steps of acquiring, releasing, keep-alive
    and shutting-down threads, in any interleaving. */
module PoolMachine {
  import opened Basics

  type Connection = nat

  /** Where a connection the pool counts is: in the queue, with a wrapper, on its way
      back, about to be counted out, or in the hands of the keep-alive pass. */
  datatype Place = Idle | CheckedOut | Returning | Dying | Probed

  /** A keep-alive pass: entries still to probe, entries that survived, and whether
      the in-flight counter has been raised yet. */
  datatype Pass = Pass(pending: seq<Connection>, survivors: seq<Connection>, counted: bool)

  /** What acquire meets when it looks at the front entry. */
  datatype Entry = Live | Dead | Throws

  /** `size` is the pool's own count. `place`, `creating` and `lost` are bookkeeping
      for the proof: every counted connection, creations under way, and counted
      entries or slots that an exception dropped. */
  datatype Pool = Pool(
    maxSize: nat, size: nat, idle: seq<Connection>, inFlight: nat, shuttingDown: bool, drained: bool,
    pass: Option<Pass>, place: map<Connection, Place>, creating: nat, lost: nat)

  function Empty(maxSize: nat): Pool { Pool(maxSize, 0, [], 0, false, false, None, map[], 0, 0) }

  datatype Event =
    | Acquire(look: Connection -> Entry, late: bool)   // late: shutdown begins while entries are discarded
    | Created(c: Connection)
    | CreationFailed
    | CreationThrows
    | GiveBack(c: Connection, connected: bool)
    | Push(c: Connection)
    | Bury(c: Connection)
    | PassBegins
    | PassCounts
    | PassProbes(alive: bool)
    | PassThrows
    | PassEnds
    | PassEndThrows(done: nat)                          // after the first `done` survivors
    | BeginShutdown
    | Drain

  datatype Outcome = NoConnection | TimesOut | Took(c: Connection) | Creates | WaitsForPass | Threw | ShouldNotHappen

  function Decremented(n: nat): nat { if n > 0 then n - 1 else 0 }

  function Moved(place: map<Connection, Place>, s: seq<Connection>, to: Place): map<Connection, Place> {
    map c | c in place :: if c in s then to else place[c]
  }

  function Without(place: map<Connection, Place>, s: seq<Connection>): map<Connection, Place> {
    map c | c in place && c !in s :: place[c]
  }

  // ---------- Steps ----------

  /** The front entry leaves the queue and is no longer counted. */
  function Discarded(p: Pool): Pool
    requires p.idle != []
  {
    p.(idle := p.idle[1..], size := Decremented(p.size), place := p.place - {p.idle[0]})
  }

  /** The lock-held part of acquire once the wait condition holds: dead entries are
      discarded from the front, a live one is taken, else a slot is reserved. An
      exception over an entry already popped leaves it counted. */
  function Acquired(p: Pool, look: Connection -> Entry, late: bool): (Pool, Outcome)
    decreases |p.idle|
  {
    if p.idle != [] then
      var c := p.idle[0];
      match look(c)
      case Live => (p.(idle := p.idle[1..], place := p.place[c := CheckedOut]), Took(c))
      case Throws => (p.(idle := p.idle[1..], place := p.place - {c}, lost := p.lost + 1), Threw)
      case Dead => Acquired(Discarded(p), look, late)
    else if late then (p.(shuttingDown := true), NoConnection)
    else if p.inFlight > 0 then (p, WaitsForPass)
    else if p.size < p.maxSize then (p.(size := p.size + 1, creating := p.creating + 1), Creates)
    else (p, ShouldNotHappen)
  }

  function AcquireStep(p: Pool, look: Connection -> Entry, late: bool): (Pool, Outcome) {
    if p.shuttingDown then (p, NoConnection)
    else if p.idle == [] && p.size >= p.maxSize then (p, TimesOut)
    else Acquired(p, look, late)
  }

  predicate Placed(p: Pool, c: Connection, at: Place) { c in p.place && p.place[c] == at }

  /** The survivors go back to the queue, or are counted out when shutdown has begun. */
  function PassEnded(p: Pool, survivors: seq<Connection>): Pool {
    if p.shuttingDown then p.(pass := None, place := Moved(p.place, survivors, Dying))
    else p.(pass := None, place := Moved(p.place, survivors, Idle), idle := p.idle + survivors)
  }

  function Step(p: Pool, e: Event): Pool {
    match e
    case Acquire(look, late) => AcquireStep(p, look, late).0
    case Created(c) =>
      if p.creating > 0 && c !in p.place then p.(creating := p.creating - 1, place := p.place[c := CheckedOut]) else p
    case CreationFailed =>
      if p.creating > 0 then p.(creating := p.creating - 1, size := Decremented(p.size)) else p
    case CreationThrows =>
      if p.creating > 0 then p.(creating := p.creating - 1, lost := p.lost + 1) else p
    case GiveBack(c, connected) =>
      if Placed(p, c, CheckedOut) then
        p.(place := p.place[c := if connected && !p.shuttingDown then Returning else Dying])
      else p
    case Push(c) =>
      if !Placed(p, c, Returning) then p
      else if p.size <= p.maxSize then p.(idle := p.idle + [c], place := p.place[c := Idle])
      else p.(size := Decremented(p.size), place := p.place - {c})
    case Bury(c) =>
      if Placed(p, c, Dying) then p.(size := Decremented(p.size), place := p.place - {c}) else p
    case PassBegins =>
      if p.pass.None? && !p.shuttingDown && p.idle != [] then
        p.(pass := Some(Pass(p.idle, [], false)), place := Moved(p.place, p.idle, Probed), idle := [])
      else p
    case PassCounts =>
      if p.pass.Some? && !p.pass.value.counted then
        p.(inFlight := p.inFlight + |p.pass.value.pending|, pass := Some(p.pass.value.(counted := true)))
      else p
    case PassProbes(alive) =>
      if p.pass.Some? && p.pass.value.counted && p.pass.value.pending != [] then
        var c := p.pass.value.pending[0];
        var rest := p.pass.value.(pending := p.pass.value.pending[1..]);
        p.(inFlight := Decremented(p.inFlight),
           pass := Some(if alive then rest.(survivors := rest.survivors + [c]) else rest),
           place := if alive || c !in p.place then p.place else p.place[c := Dying])
      else p
    case PassThrows =>
      if p.pass.Some? && p.pass.value.pending != [] then
        var held := p.pass.value.pending + p.pass.value.survivors;
        p.(inFlight := if !p.pass.value.counted then p.inFlight
                       else if p.inFlight >= |p.pass.value.pending| then p.inFlight - |p.pass.value.pending|
                       else 0,
           pass := None, place := Without(p.place, held), lost := p.lost + |held|)
      else p
    case PassEnds =>
      if p.pass.Some? && p.pass.value.counted && p.pass.value.pending == [] then
        PassEnded(p, p.pass.value.survivors)
      else p
    case PassEndThrows(done) =>
      if p.pass.Some? && p.pass.value.counted && p.pass.value.pending == [] && done < |p.pass.value.survivors| then
        var s := p.pass.value.survivors;
        PassEnded(p.(place := Without(p.place, s[done..]), lost := p.lost + |s| - done), s[..done])
      else p
    case BeginShutdown => p.(shuttingDown := true)
    case Drain =>
      if p.shuttingDown && p.pass.None? && !p.drained then
        p.(idle := [], place := Without(p.place, p.idle), size := 0, drained := true)
      else p
  }

  function Run(p: Pool, events: seq<Event>): Pool
    decreases |events|
  {
    if events == [] then p else Step(Run(p, events[..|events| - 1]), events[|events| - 1])
  }

  // ---------- The invariant ----------

  ghost predicate Distinct(s: seq<Connection>) {
    forall i, j :: 0 <= i < j < |s| ==> s[i] != s[j]
  }

  function Held(p: Pool): seq<Connection> {
    if p.pass.Some? then p.pass.value.pending + p.pass.value.survivors else []
  }

  /** The queue and the pass hold exactly the connections placed there, each once. */
  ghost predicate PlacesAgree(p: Pool) {
    && Distinct(p.idle) && Distinct(Held(p))
    && (forall c :: c in p.idle <==> Placed(p, c, Idle))
    && (forall c :: c in Held(p) <==> Placed(p, c, Probed))
  }

  /** Conservation until the pool is drained; a zero count from then on. */
  ghost predicate Conserved(p: Pool) {
    && PlacesAgree(p)
    && (!p.drained ==> p.size == |p.place| + p.creating + p.lost && p.size <= p.maxSize)
    && (p.drained ==> p.size == 0 && p.shuttingDown)
    && p.inFlight == (if p.pass.Some? && p.pass.value.counted then |p.pass.value.pending| else 0)
  }

  // ---------- Counting ----------

  lemma Removed(place: map<Connection, Place>, c: Connection)
    requires c in place
    ensures |place - {c}| == |place| - 1
  {
    assert (place - {c}).Keys == place.Keys - {c};
  }

  lemma Replaced(place: map<Connection, Place>, c: Connection, at: Place)
    ensures |place[c := at]| == if c in place then |place| else |place| + 1
  {
    assert place[c := at].Keys == place.Keys + {c};
  }

  lemma MovedSize(place: map<Connection, Place>, s: seq<Connection>, to: Place)
    ensures |Moved(place, s, to)| == |place|
  {
    assert Moved(place, s, to).Keys == place.Keys;
  }

  lemma {:induction false} WithoutSize(place: map<Connection, Place>, s: seq<Connection>)
    requires Distinct(s) && forall c :: c in s ==> c in place
    ensures |Without(place, s)| == |place| - |s|
    decreases |s|
  {
    if s == [] {
      assert Without(place, s) == place;
    } else {
      var c, rest := s[0], s[1..];
      assert c !in rest;
      WithoutSize(place - {c}, rest);
      Removed(place, c);
      assert Without(place, s) == Without(place - {c}, rest);
    }
  }

  // ---------- Every step keeps it ----------

  lemma FrontFacts(s: seq<Connection>)
    requires s != [] && Distinct(s)
    ensures Distinct(s[1..]) && s[0] !in s[1..]
    ensures forall c :: c in s <==> c == s[0] || c in s[1..]
  {
    assert s == [s[0]] + s[1..];
  }

  /** The front entry may be taken, discarded or lost. */
  lemma FrontConserves(p: Pool)
    requires Conserved(p) && !p.shuttingDown && p.idle != []
    ensures Conserved(p.(idle := p.idle[1..], place := p.place[p.idle[0] := CheckedOut]))
    ensures Conserved(p.(idle := p.idle[1..], place := p.place - {p.idle[0]}, lost := p.lost + 1))
    ensures Conserved(Discarded(p)) && Discarded(p).size < Discarded(p).maxSize
    ensures Discarded(p).idle == p.idle[1..] && !Discarded(p).shuttingDown
  {
    FrontFacts(p.idle);
    Removed(p.place, p.idle[0]);
    Replaced(p.place, p.idle[0], CheckedOut);
    hide Distinct, Held;
  }

  /** Discarding dead entries keeps the invariant, and the fallback after them is
      never reached: a slot is free whenever the queue has run empty. */
  lemma {:induction false} AcquiredConserves(p: Pool, look: Connection -> Entry, late: bool)
    requires Conserved(p) && !p.shuttingDown && (p.idle != [] || p.size < p.maxSize)
    ensures Conserved(Acquired(p, look, late).0)
    ensures !Acquired(p, look, late).1.ShouldNotHappen?
    ensures var (q, outcome) := Acquired(p, look, late);
            outcome.Took? ==> outcome.c in p.idle && Placed(q, outcome.c, CheckedOut)
    decreases |p.idle|
  {
    if p.idle != [] {
      FrontConserves(p);
      if look(p.idle[0]).Dead? {
        hide Conserved, Discarded;
        AcquiredConserves(Discarded(p), look, late);
      }
    }
  }

  lemma Joined(s: seq<Connection>, t: seq<Connection>)
    requires Distinct(s) && Distinct(t) && forall c :: c in s ==> c !in t
    ensures Distinct(s + t) && forall c :: c in s + t <==> c in s || c in t
  {
    forall i, j | 0 <= i < j < |s + t| ensures (s + t)[i] != (s + t)[j] {
      if i < |s| <= j {
        assert s[i] in s && t[j - |s|] in t;
      }
    }
  }

  lemma BeginAgrees(p: Pool)
    requires PlacesAgree(p) && p.pass.None?
    ensures PlacesAgree(p.(pass := Some(Pass(p.idle, [], false)), place := Moved(p.place, p.idle, Probed), idle := []))
  {
    assert p.idle + [] == p.idle;
  }

  lemma EndAgrees(p: Pool, s: seq<Connection>)
    requires PlacesAgree(p) && p.pass.Some? && p.pass.value.pending == [] && s == p.pass.value.survivors
    ensures PlacesAgree(p.(pass := None, place := Moved(p.place, s, Dying)))
    ensures PlacesAgree(p.(pass := None, place := Moved(p.place, s, Idle), idle := p.idle + s))
  {
    assert Held(p) == s;
    Joined(p.idle, s);
  }

  lemma PassStepConserves(p: Pool, e: Event)
    requires Conserved(p) && (e.PassBegins? || e.PassEnds? || e.PassCounts? || e.PassThrows? || e.Drain?)
    ensures Conserved(Step(p, e))
  {
    match e
    case PassBegins =>
      if p.pass.None? {
        BeginAgrees(p);
      }
      MovedSize(p.place, p.idle, Probed);
    case PassEnds =>
      if p.pass.Some? && p.pass.value.pending == [] {
        EndAgrees(p, p.pass.value.survivors);
        MovedSize(p.place, p.pass.value.survivors, Dying);
        MovedSize(p.place, p.pass.value.survivors, Idle);
      }
    case PassThrows =>
      WithoutSize(p.place, Held(p));
    case Drain =>
    case PassCounts =>
  }

  /** The pass with the survivors from `done` on lost. */
  function Kept(p: Pool, done: nat): Pool
    requires p.pass.Some? && done < |p.pass.value.survivors|
  {
    var s := p.pass.value.survivors;
    p.(place := Without(p.place, s[done..]), lost := p.lost + |s| - done, pass := Some(Pass([], s[..done], true)))
  }

  lemma SplitFacts(s: seq<Connection>, done: nat)
    requires Distinct(s) && done <= |s|
    ensures Distinct(s[..done]) && Distinct(s[done..])
    ensures forall c :: c in s[..done] <==> c in s && c !in s[done..]
    ensures forall c :: c in s[done..] ==> c in s
  {
    assert s == s[..done] + s[done..];
  }

  lemma KeptAgrees(p: Pool, done: nat)
    requires PlacesAgree(p) && p.pass.Some? && p.pass.value.pending == [] && done < |p.pass.value.survivors|
    ensures PlacesAgree(Kept(p, done))
    ensures |Kept(p, done).place| == |p.place| - |p.pass.value.survivors| + done
  {
    var s := p.pass.value.survivors;
    assert Held(p) == s && Held(Kept(p, done)) == s[..done];
    SplitFacts(s, done);
    hide Distinct, Held;
    WithoutSize(p.place, s[done..]);
  }

  /** The first survivors go back, the others are lost. */
  lemma EndThrowConserves(p: Pool, done: nat)
    requires Conserved(p)
    ensures Conserved(Step(p, PassEndThrows(done)))
  {
    if p.pass.Some? && p.pass.value.counted && p.pass.value.pending == [] && done < |p.pass.value.survivors| {
      KeptAgrees(p, done);
      PassStepConserves(Kept(p, done), PassEnds);
      hide PlacesAgree, Without, Moved;
      assert Step(p, PassEndThrows(done)) == Step(Kept(p, done), PassEnds);
    }
  }

  /** Taking the first entry off the pass, to the survivors or out of the pass. */
  lemma ProbeHolds(p: Pool, alive: bool)
    requires Distinct(Held(p)) && p.pass.Some? && p.pass.value.counted && p.pass.value.pending != []
    ensures var held, held' := Held(p), Held(Step(p, PassProbes(alive)));
            var c := p.pass.value.pending[0];
            && c in held && Distinct(held')
            && forall d :: d in held' <==> d in held && (alive || d != c)
  {
    var pass := p.pass.value;
    var c, rest := pass.pending[0], pass.pending[1..] + pass.survivors;
    var held' := Held(Step(p, PassProbes(alive)));
    assert Held(p) == [c] + rest && Held(p)[1..] == rest;
    FrontFacts(Held(p));
    if alive {
      assert held' == rest + [c];
      Rotated(c, rest);
    } else {
      assert held' == rest;
    }
  }

  lemma ProbeConserves(p: Pool, alive: bool)
    requires Conserved(p)
    ensures Conserved(Step(p, PassProbes(alive)))
  {
    if p.pass.Some? && p.pass.value.counted && p.pass.value.pending != [] {
      ProbeHolds(p, alive);
      Replaced(p.place, p.pass.value.pending[0], Dying);
      hide Distinct, Held;
    }
  }

  lemma Rotated(c: Connection, s: seq<Connection>)
    requires Distinct([c] + s)
    ensures Distinct(s + [c]) && forall d :: d in s + [c] <==> d in [c] + s
  {
    var t := [c] + s;
    forall i, j | 0 <= i < j < |s + [c]| ensures (s + [c])[i] != (s + [c])[j] {
      assert t[i + 1] == s[i] && t[0] == c;
      assert j < |s| ==> t[j + 1] == s[j];
    }
  }

  lemma PushConserves(p: Pool, c: Connection)
    requires Conserved(p)
    ensures Conserved(Step(p, Push(c)))
  {
    Replaced(p.place, c, Idle);
    if Placed(p, c, Returning) {
      Joined(p.idle, [c]);
    }
  }

  lemma BuryConserves(p: Pool, c: Connection)
    requires Conserved(p)
    ensures Conserved(Step(p, Bury(c)))
  {
    if c in p.place {
      Removed(p.place, c);
    }
  }

  lemma HandOverConserves(p: Pool, e: Event)
    requires Conserved(p) && (e.Created? || e.CreationFailed? || e.CreationThrows? || e.GiveBack? || e.BeginShutdown?)
    ensures Conserved(Step(p, e))
  {
    if e.Created? {
      Replaced(p.place, e.c, CheckedOut);
    } else if e.GiveBack? {
      Replaced(p.place, e.c, Returning);
      Replaced(p.place, e.c, Dying);
    }
  }

  lemma StepConserves(p: Pool, e: Event)
    requires Conserved(p)
    ensures Conserved(Step(p, e))
  {
    match e
    case Acquire(look, late) =>
      if !p.shuttingDown && (p.idle != [] || p.size < p.maxSize) {
        AcquiredConserves(p, look, late);
      }
    case PassEndThrows(done) => EndThrowConserves(p, done);
    case PassProbes(alive) => ProbeConserves(p, alive);
    case PassBegins => PassStepConserves(p, e);
    case PassEnds => PassStepConserves(p, e);
    case PassCounts => PassStepConserves(p, e);
    case PassThrows => PassStepConserves(p, e);
    case Drain => PassStepConserves(p, e);
    case Push(c) => PushConserves(p, c);
    case Bury(c) => BuryConserves(p, c);
    case _ => HandOverConserves(p, e);
  }

  lemma {:induction false} RunConserves(maxSize: nat, events: seq<Event>)
    ensures Conserved(Run(Empty(maxSize), events))
    decreases |events|
  {
    if events != [] {
      RunConserves(maxSize, events[..|events| - 1]);
      StepConserves(Run(Empty(maxSize), events[..|events| - 1]), events[|events| - 1]);
    }
  }

  // ---------- Main results ----------

  ghost function At(p: Pool, place: Place): set<Connection> {
    set c | c in p.place && p.place[c] == place
  }

  /** Under every interleaving, until the pool is drained: the count is the idle
      connections, those checked out or on their way back or out, those held by
      keep-alive and those being created, plus what exceptions lost; it is at most
      the maximum; after draining it stays zero; and giving a connection back a
      second time changes nothing. */
  lemma PoolConservation(maxSize: nat, events: seq<Event>)
    ensures var p := Run(Empty(maxSize), events);
            && (!p.drained ==>
                  && p.size == |p.idle| + |At(p, CheckedOut)| + |At(p, Returning)| + |At(p, Dying)|
                               + |Held(p)| + p.creating + p.lost
                  && p.size <= p.maxSize)
            && (p.drained ==> p.size == 0)
            && (forall c, first, again ::
                  Step(Step(p, GiveBack(c, first)), GiveBack(c, again)) == Step(p, GiveBack(c, first)))
  {
    RunConserves(maxSize, events);
    CountPlaces(Run(Empty(maxSize), events));
  }

  lemma {:induction false} DistinctSize(s: seq<Connection>, t: set<Connection>)
    requires Distinct(s) && forall c :: c in s <==> c in t
    ensures |s| == |t|
    decreases |s|
  {
    if s == [] {
      assert t == {};
    } else {
      FrontFacts(s);
      DistinctSize(s[1..], t - {s[0]});
    }
  }

  lemma CountPlaces(p: Pool)
    requires PlacesAgree(p)
    ensures |p.place| == |p.idle| + |At(p, CheckedOut)| + |At(p, Returning)| + |At(p, Dying)| + |Held(p)|
  {
    DistinctSize(p.idle, At(p, Idle));
    DistinctSize(Held(p), At(p, Probed));
    Partition(p);
  }

  lemma Partition(p: Pool)
    ensures |p.place| == |At(p, Idle)| + |At(p, CheckedOut)| + |At(p, Returning)| + |At(p, Dying)| + |At(p, Probed)|
  {
    var idle, out, back, dying, probed := At(p, Idle), At(p, CheckedOut), At(p, Returning), At(p, Dying), At(p, Probed);
    AllPlaced(p);
    DisjointSize(dying, probed);
    DisjointSize(back, dying + probed);
    DisjointSize(out, back + (dying + probed));
    DisjointSize(idle, out + (back + (dying + probed)));
    assert |p.place| == |p.place.Keys|;
  }

  lemma AllPlaced(p: Pool)
    ensures p.place.Keys == At(p, Idle) + (At(p, CheckedOut) + (At(p, Returning) + (At(p, Dying) + At(p, Probed))))
  {
    forall c | c in p.place
      ensures c in At(p, Idle) || c in At(p, CheckedOut) || c in At(p, Returning)
        || c in At(p, Dying) || c in At(p, Probed)
    {
      var at := p.place[c];
      assert at.Idle? || at.CheckedOut? || at.Returning? || at.Dying? || at.Probed?;
    }
  }

  lemma DisjointSize(a: set<Connection>, b: set<Connection>)
    requires a !! b
    ensures |a + b| == |a| + |b|
  {
  }

  /** The branches marked "should not happen" are unreachable: acquire's last fallback,
      and closing a connection on release because the pool is overbooked. A
      decrement before draining never meets a zero. */
  lemma UnreachableBranches(maxSize: nat, events: seq<Event>, look: Connection -> Entry, late: bool)
    ensures var p := Run(Empty(maxSize), events);
            !AcquireStep(p, look, late).1.ShouldNotHappen? && p.size <= p.maxSize
    ensures var p := Run(Empty(maxSize), events);
            !p.drained && ((exists c :: Placed(p, c, Dying)) || p.creating > 0) ==> p.size > 0
  {
    RunConserves(maxSize, events);
    var p := Run(Empty(maxSize), events);
    if !p.shuttingDown && (p.idle != [] || p.size < p.maxSize) {
      AcquiredConserves(p, look, late);
    }
    if c :| Placed(p, c, Dying) {
      Removed(p.place, c);
    }
  }

  /** A connection is in one place: never idle twice, and never idle while a wrapper or
      the keep-alive pass holds it. */
  lemma OnePlaceEach(maxSize: nat, events: seq<Event>, c: Connection)
    ensures var p := Run(Empty(maxSize), events);
            && Distinct(p.idle)
            && (c in p.idle ==> !Placed(p, c, CheckedOut) && !Placed(p, c, Returning) && c !in Held(p))
  {
    RunConserves(maxSize, events);
  }

  // ---------- What acquire and give-back achieve ----------

  ghost predicate DeadBefore(p: Pool, look: Connection -> Entry, i: nat)
    requires i <= |p.idle|
  {
    forall j :: 0 <= j < i ==> look(p.idle[j]).Dead?
  }

  /** The first entry that is not dead decides; those before it are gone and counted
      out. */
  lemma {:induction false} FirstDecides(p: Pool, look: Connection -> Entry, late: bool, i: nat)
    requires i < |p.idle| <= p.size && DeadBefore(p, look, i) && !look(p.idle[i]).Dead?
    ensures var (q, outcome) := Acquired(p, look, late);
            && outcome == (if look(p.idle[i]).Live? then Took(p.idle[i]) else Threw)
            && q.idle == p.idle[i + 1..] && q.size == p.size - i
    decreases i
  {
    if i > 0 {
      var rest := Discarded(p);
      assert look(p.idle[0]).Dead?;
      assert forall j :: 0 <= j < |rest.idle| ==> rest.idle[j] == p.idle[j + 1];
      FirstDecides(rest, look, late, i - 1);
    }
  }

  lemma {:induction false} AllDiscarded(p: Pool, look: Connection -> Entry, late: bool)
    requires |p.idle| <= p.size <= p.maxSize && DeadBefore(p, look, |p.idle|) && (p.idle != [] || p.size < p.maxSize)
    ensures Acquired(p, look, late).1
         == if late then NoConnection else if p.inFlight > 0 then WaitsForPass else Creates
    decreases |p.idle|
  {
    if p.idle != [] {
      var rest := Discarded(p);
      assert look(p.idle[0]).Dead?;
      assert forall j :: 0 <= j < |rest.idle| ==> rest.idle[j] == p.idle[j + 1];
      AllDiscarded(rest, look, late);
    }
  }

  /** What acquire gives in every reachable state before shutdown: the first idle
      connection that is alive, or the exception of one that throws before it. With
      nothing alive it times out exactly when the queue is empty and existing, nascent
      and lost connections fill the pool; otherwise it gives up if shutdown began
      meanwhile, waits while a keep-alive pass holds entries to probe, and else
      reserves a slot for a new connection. */
  lemma AcquireOutcome(maxSize: nat, events: seq<Event>, look: Connection -> Entry, late: bool)
    requires !Run(Empty(maxSize), events).shuttingDown
    ensures var p := Run(Empty(maxSize), events);
            var (q, outcome) := AcquireStep(p, look, late);
            && (forall i: nat :: i < |p.idle| && DeadBefore(p, look, i) && !look(p.idle[i]).Dead? ==>
                  && outcome == (if look(p.idle[i]).Live? then Took(p.idle[i]) else Threw)
                  && q.idle == p.idle[i + 1..] && q.size == p.size - i)
            && (DeadBefore(p, look, |p.idle|) ==>
                  outcome == if p.idle == [] && |p.place| + p.creating + p.lost == maxSize then TimesOut
                             else if late then NoConnection
                             else if p.pass.Some? && p.pass.value.counted && p.pass.value.pending != []
                             then WaitsForPass
                             else Creates)
  {
    RunConserves(maxSize, events);
    MaxSizeFixed(maxSize, events);
    var p := Run(Empty(maxSize), events);
    CountPlaces(p);
    hide Run, PlacesAgree;
    if DeadBefore(p, look, |p.idle|) && (p.idle != [] || p.size < p.maxSize) {
      AllDiscarded(p, look, late);
    }
    forall i: nat | i < |p.idle| && DeadBefore(p, look, i) && !look(p.idle[i]).Dead?
      ensures var (q, outcome) := AcquireStep(p, look, late);
              && outcome == (if look(p.idle[i]).Live? then Took(p.idle[i]) else Threw)
              && q.idle == p.idle[i + 1..] && q.size == p.size - i
    {
      FirstDecides(p, look, late, i);
    }
  }

  /** A connection given back alive before shutdown joins the end of the queue and stays
      counted; any other leaves the pool and frees its slot. */
  lemma GiveBackOutcome(maxSize: nat, events: seq<Event>, c: Connection, connected: bool)
    requires var p := Run(Empty(maxSize), events); Placed(p, c, CheckedOut) && !p.drained
    ensures var p := Run(Empty(maxSize), events);
            var q := Step(p, GiveBack(c, connected));
            if connected && !p.shuttingDown then
              var r := Step(q, Push(c)); r.idle == p.idle + [c] && r.size == p.size && Placed(r, c, Idle)
            else
              var r := Step(q, Bury(c)); r.idle == p.idle && r.size == p.size - 1 && c !in r.place
  {
    RunConserves(maxSize, events);
    var p := Run(Empty(maxSize), events);
    Removed(p.place, c);
    hide PlacesAgree;
  }

  // ---------- What exceptions lose ----------

  /** An exception takes effect: acquire is left with an entry popped, a creation is
      left with its slot reserved, or a pass is left with entries in hand. */
  predicate Throws(p: Pool, e: Event) {
    match e
    case Acquire(look, late) => AcquireStep(p, look, late).1.Threw?
    case CreationThrows => p.creating > 0
    case PassThrows => p.pass.Some? && p.pass.value.pending != []
    case PassEndThrows(done) =>
      p.pass.Some? && p.pass.value.counted && p.pass.value.pending == [] && done < |p.pass.value.survivors|
    case _ => false
  }

  /** What one step loses: the popped entry, the reserved slot, or the entries held. */
  function Loss(p: Pool, e: Event): nat {
    if !Throws(p, e) then 0
    else match e
      case PassThrows => |Held(p)|
      case PassEndThrows(done) => |p.pass.value.survivors| - done
      case _ => 1
  }

  lemma {:induction false} AcquireLoses(p: Pool, look: Connection -> Entry, late: bool)
    ensures Acquired(p, look, late).0.lost == p.lost + if Acquired(p, look, late).1.Threw? then 1 else 0
    decreases |p.idle|
  {
    if p.idle != [] && look(p.idle[0]).Dead? {
      AcquireLoses(Discarded(p), look, late);
    }
  }

  lemma LostByStep(p: Pool, e: Event)
    ensures Step(p, e).lost == p.lost + Loss(p, e)
    ensures Loss(p, e) > 0 <==> Throws(p, e)
  {
    if e.Acquire? {
      AcquireLoses(p, e.look, e.late);
    }
  }

  /** The count is that of existing and nascent connections exactly when no exception
      left acquire, a creation or a keep-alive pass at one of these points. */
  lemma {:induction false} CountExactIff(maxSize: nat, events: seq<Event>)
    ensures Run(Empty(maxSize), events).lost == 0
       <==> forall i :: 0 <= i < |events| ==> !Throws(Run(Empty(maxSize), events[..i]), events[i])
    decreases |events|
  {
    hide Step, Throws;
    if events != [] {
      var n := |events| - 1;
      CountExactIff(maxSize, events[..n]);
      LostByStep(Run(Empty(maxSize), events[..n]), events[n]);
      forall i | 0 <= i < n ensures events[..n][..i] == events[..i] && events[..n][i] == events[i] {
      }
    }
  }

  /** Once as many entries are lost as the pool may hold, it is unusable until it is
      shut down: nothing is idle or checked out, and every acquire times out. */
  lemma LossExhaustsPool(maxSize: nat, events: seq<Event>, look: Connection -> Entry, late: bool)
    requires var p := Run(Empty(maxSize), events); p.lost >= maxSize && !p.shuttingDown
    ensures var p := Run(Empty(maxSize), events);
            p.place == map[] && p.creating == 0 && AcquireStep(p, look, late) == (p, TimesOut)
  {
    RunConserves(maxSize, events);
    MaxSizeFixed(maxSize, events);
    var p := Run(Empty(maxSize), events);
    assert !p.drained;
    assert |p.place| == 0;
    CountPlaces(p);
  }

  lemma {:induction false} AcquireKeepsMax(p: Pool, look: Connection -> Entry, late: bool)
    ensures Acquired(p, look, late).0.maxSize == p.maxSize && Acquired(p, look, late).0.drained == p.drained
    ensures Acquired(p, look, late).0.pass == p.pass
    ensures forall c :: Placed(Acquired(p, look, late).0, c, Returning) ==> Placed(p, c, Returning)
    decreases |p.idle|
  {
    if p.idle != [] && look(p.idle[0]).Dead? {
      AcquireKeepsMax(Discarded(p), look, late);
    }
  }

  lemma {:induction false} MaxSizeFixed(maxSize: nat, events: seq<Event>)
    ensures Run(Empty(maxSize), events).maxSize == maxSize
    decreases |events|
  {
    if events != [] {
      var before := Run(Empty(maxSize), events[..|events| - 1]);
      MaxSizeFixed(maxSize, events[..|events| - 1]);
      if events[|events| - 1].Acquire? {
        AcquireKeepsMax(before, events[|events| - 1].look, events[|events| - 1].late);
      }
    }
  }

  // ---------- A release that races shutdown ----------

  lemma DrainedStep(p: Pool, e: Event)
    requires Conserved(p) && p.drained && p.pass.None? && p.idle == []
    requires forall c :: !Placed(p, c, Returning)
    ensures var q := Step(p, e);
            q.drained && q.pass.None? && q.idle == [] && forall c :: !Placed(q, c, Returning)
  {
    var q := Step(p, e);
    assert p.shuttingDown;
    forall c ensures !Placed(q, c, Returning) {
      assert !Placed(p, c, Returning);
    }
  }

  lemma {:induction false} DrainedStaysEmpty(maxSize: nat, events: seq<Event>, more: seq<Event>)
    requires var p := Run(Empty(maxSize), events);
             p.drained && p.pass.None? && p.idle == [] && forall c :: !Placed(p, c, Returning)
    ensures var p := Run(Empty(maxSize), events + more);
            p.drained && p.pass.None? && p.idle == [] && forall c :: !Placed(p, c, Returning)
    decreases |more|
  {
    if more == [] {
      assert events + more == events;
    } else {
      var before := more[..|more| - 1];
      assert (events + more)[..|events + more| - 1] == events + before;
      DrainedStaysEmpty(maxSize, events, before);
      RunConserves(maxSize, events + before);
      DrainedStep(Run(Empty(maxSize), events + before), more[|more| - 1]);
    }
  }

  lemma DrainFacts(p: Pool)
    requires Conserved(p) && p.shuttingDown && p.pass.None? && !p.drained
    ensures var q := Step(p, Drain);
            && q.drained && q.pass.None? && q.idle == [] && q.size == 0
            && forall c :: Placed(q, c, Returning) <==> Placed(p, c, Returning)
  {
  }

  /** When the pool has just been drained, a connection can still end up in its queue,
      where nothing will close it, exactly when some release had passed its
      shutdown test but not yet pushed. */
  lemma StrandedIff(maxSize: nat, events: seq<Event>)
    requires var p := Run(Empty(maxSize), events); p.shuttingDown && p.pass.None? && !p.drained
    ensures var p := Run(Empty(maxSize), events);
            (exists more: seq<Event> :: Run(Empty(maxSize), events + [Drain] + more).idle != [])
            <==> exists c :: Placed(p, c, Returning)
  {
    var p := Run(Empty(maxSize), events);
    var after := events + [Drain];
    assert after[..|events|] == events;
    var q := Run(Empty(maxSize), after);
    RunConserves(maxSize, events);
    DrainFacts(p);
    hide Conserved;
    if c: Connection :| Placed(p, c, Returning) {
      assert (after + [Push(c)])[..|after|] == after;
      assert Run(Empty(maxSize), after + [Push(c)]).idle == [c];
    } else {
      forall more: seq<Event> ensures Run(Empty(maxSize), after + more).idle == [] {
        DrainedStaysEmpty(maxSize, after, more);
      }
    }
  }
}
