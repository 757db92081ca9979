/** Sequence numbers in one direction of a secure session: sender and receiver
    counters over a network that may drop, repeat, reorder and damage packets of
    that direction. Only packets the peer encrypted decrypt (ideal authenticity). */
module SecureSession {
  import opened Basics
  import opened SecureEnvelope

  /** The keys of a session as both ends hold them. */
  datatype Session = Session(aead: Aead, key: Bytes, sessionId: Bytes)

  /** `log` is every packet encrypted so far, in order, with its sequence number. */
  datatype Channel = Channel(next: nat, log: seq<Opened>, expected: nat, accepted: seq<Bytes>, connected: bool)

  const START := Channel(1, [], 1, [], true)

  /** A send takes a number; the encryption may still fail, which uses it up. */
  datatype Event = Send(plain: Bytes, encrypted: bool) | Arrive(packet: Bytes)

  predicate CanIssue(next: nat) { next != UINT64_MAX }

  predicate CanAccept(expected: nat, sequence: nat) { expected != UINT64_MAX && sequence == expected }

  ghost function Step(session: Session, c: Channel, e: Event): Channel {
    match e
    case Send(plain, encrypted) =>
      if !CanIssue(c.next) then c
      else c.(next := c.next + 1,
              log := if encrypted && c.next < UINT64_MAX then c.log + [Opened(plain, c.next)] else c.log)
    case Arrive(packet) =>
      if !c.connected then c
      else
        match Decrypted(session.aead, packet, session.key, session.sessionId)
        case None => c.(connected := false)
        case Some(o) =>
          if CanAccept(c.expected, o.sequence) then c.(expected := c.expected + 1, accepted := c.accepted + [o.plain])
          else c.(connected := false)
  }

  ghost function Run(session: Session, events: seq<Event>): Channel
    decreases |events|
  {
    if events == [] then START else Step(session, Run(session, events[..|events| - 1]), events[|events| - 1])
  }

  /** Ideal authenticity: what decrypts was encrypted by the peer in this direction. */
  ghost predicate Authentic(session: Session, c: Channel, e: Event) {
    e.Arrive? ==>
      var r := Decrypted(session.aead, e.packet, session.key, session.sessionId);
      r.Some? ==> r.value in c.log
  }

  ghost predicate AuthenticRun(session: Session, events: seq<Event>)
    decreases |events|
  {
    events == [] ||
    (var before := events[..|events| - 1];
     AuthenticRun(session, before) && Authentic(session, Run(session, before), events[|events| - 1]))
  }

  /** Numbers in the log increase, and the accepted packets are its first ones. */
  ghost predicate InOrder(c: Channel) {
    && 1 <= c.next <= UINT64_MAX
    && (forall i :: 0 <= i < |c.log| ==> i + 1 <= c.log[i].sequence < c.next)
    && (forall i, j :: 0 <= i < j < |c.log| ==> c.log[i].sequence < c.log[j].sequence)
    && c.expected == |c.accepted| + 1 <= c.next
    && |c.accepted| <= |c.log|
    && forall i :: 0 <= i < |c.accepted| ==> c.log[i] == Opened(c.accepted[i], i + 1)
  }

  /** In order, a logged packet carries the expected number exactly when it is the
      first one not yet accepted and no number was lost before it. */
  lemma ExpectedIsNext(c: Channel, o: Opened)
    requires InOrder(c) && o in c.log
    ensures o.sequence == c.expected <==>
              |c.accepted| < |c.log| && o == c.log[|c.accepted|] && c.log[|c.accepted|].sequence == c.expected
  {
    var j :| 0 <= j < |c.log| && c.log[j] == o;
    var a := |c.accepted|;
    if o.sequence == c.expected {
      assert a <= j;
      assert a + 1 <= c.log[a].sequence;
      assert j == a;
    }
  }

  lemma StepKeepsOrder(session: Session, c: Channel, e: Event)
    requires InOrder(c) && Authentic(session, c, e)
    ensures InOrder(Step(session, c, e))
  {
    hide Decrypted;
    if e.Arrive? {
      var r := Decrypted(session.aead, e.packet, session.key, session.sessionId);
      if r.Some? {
        ExpectedIsNext(c, r.value);
        if CanAccept(c.expected, r.value.sequence) {
          var first := c.log[|c.accepted|];
          assert first == Opened(r.value.plain, |c.accepted| + 1) && first.sequence < c.next;
        }
      }
    } else {
      assert c.log != [] ==> |c.log| <= c.log[|c.log| - 1].sequence < c.next;
    }
  }

  lemma {:induction false} RunKeepsOrder(session: Session, events: seq<Event>)
    requires AuthenticRun(session, events)
    ensures InOrder(Run(session, events))
    decreases |events|
  {
    if events != [] {
      RunKeepsOrder(session, events[..|events| - 1]);
      StepKeepsOrder(session, Run(session, events[..|events| - 1]), events[|events| - 1]);
    }
  }

  function Plains(log: seq<Opened>): (r: seq<Bytes>)
    ensures |r| == |log| && forall i :: 0 <= i < |log| ==> r[i] == log[i].plain
  {
    seq(|log|, i requires 0 <= i < |log| => log[i].plain)
  }

  /** However the network behaves, the packets accepted are a prefix of the packets
      the peer encrypted, in order and without gaps or repeats; and no counter
      leaves the 64-bit range. */
  lemma AcceptedIsPrefix(session: Session, events: seq<Event>)
    requires AuthenticRun(session, events)
    ensures var c := Run(session, events);
            && c.accepted <= Plains(c.log)
            && 1 <= c.expected <= c.next <= UINT64_MAX
  {
    RunKeepsOrder(session, events);
  }

  /** In a reachable, connected channel an authentic packet is accepted exactly when
      it is the next one in the log and no number before it was lost to a failed
      encryption. The bounds on the two counters agree, so they never stand in the
      way: every number the sender can issue, the receiver can accept. */
  lemma AcceptedIff(session: Session, events: seq<Event>, packet: Bytes)
    requires AuthenticRun(session, events + [Arrive(packet)])
    requires Run(session, events).connected
    ensures var c := Run(session, events);
            var r := Decrypted(session.aead, packet, session.key, session.sessionId);
            Step(session, c, Arrive(packet)).accepted != c.accepted <==>
              && r.Some? && |c.accepted| < |c.log| && r.value == c.log[|c.accepted|]
              && c.log[|c.accepted|].sequence == |c.accepted| + 1
    ensures forall n :: 1 <= n && CanIssue(n) ==> CanAccept(n, n)
  {
    hide Decrypted;
    assert (events + [Arrive(packet)])[..|events|] == events;
    RunKeepsOrder(session, events);
    var c := Run(session, events);
    var r := Decrypted(session.aead, packet, session.key, session.sessionId);
    if r.Some? {
      assert r.value in c.log;
      ExpectedIsNext(c, r.value);
      var j :| 0 <= j < |c.log| && c.log[j] == r.value;
      assert c.log[j].sequence < c.next;
    }
  }

  /** Why authenticity is assumed per direction: the header does not name one, and both
      directions share key and session id. A packet sent back to its sender decrypts
      there, and is accepted exactly when its number is the one expected, although
      the peer never encrypted it. */
  lemma ReflectedPacket(session: Session, back: Channel, plain: Bytes, sequence: nat, nonce: Bytes)
    requires session.aead.Lawful() && |nonce| == NONCE_SIZE
    requires sequence < UINT64_MAX && CanEncrypt(plain, session.sessionId, sequence)
    requires InOrder(back) && back.connected
    ensures var packet := Wire(SealedEnvelope(session.aead, plain, session.key, session.sessionId, sequence, nonce));
            && (Step(session, back, Arrive(packet)).accepted == back.accepted + [plain] <==> sequence == back.expected)
            && (Authentic(session, back, Arrive(packet)) <==> Opened(plain, sequence) in back.log)
  {
    DecryptUndoesEncrypt(session.aead, plain, session.key, session.sessionId, sequence, nonce);
    hide Decrypted, Wire, SealedEnvelope, CanEncrypt, InOrder;
    assert |back.accepted + [plain]| > |back.accepted|;
  }

  /** The first packet a side sends, reflected before it has received any, is accepted
      from an empty log. */
  lemma ReflectionBreaksPrefix(session: Session, plain: Bytes, nonce: Bytes)
    requires session.aead.Lawful() && |nonce| == NONCE_SIZE && CanEncrypt(plain, session.sessionId, 1)
    ensures var packet := Wire(SealedEnvelope(session.aead, plain, session.key, session.sessionId, 1, nonce));
            var c := Run(session, [Arrive(packet)]);
            c.accepted == [plain] && c.log == []
  {
    DecryptUndoesEncrypt(session.aead, plain, session.key, session.sessionId, 1, nonce);
    hide Decrypted, Wire, SealedEnvelope, CanEncrypt;
    ReflectedPacket(session, START, plain, 1, nonce);
    var packet := Wire(SealedEnvelope(session.aead, plain, session.key, session.sessionId, 1, nonce));
    assert [Arrive(packet)][..0] == [];
    assert Run(session, [Arrive(packet)]) == Step(session, START, Arrive(packet));
  }

  // ---------- What a run achieves ----------

  /** Packets that reached the receiver, and packets the sender encrypted. */
  function Arrivals(events: seq<Event>): nat
    decreases |events|
  {
    if events == [] then 0
    else Arrivals(events[..|events| - 1]) + if events[|events| - 1].Arrive? then 1 else 0
  }

  function Sends(events: seq<Event>): nat
    decreases |events|
  {
    if events == [] then 0
    else Sends(events[..|events| - 1]) + if events[|events| - 1].Send? then 1 else 0
  }

  function Encrypted(events: seq<Event>): seq<Bytes>
    decreases |events|
  {
    if events == [] then []
    else
      var e := events[|events| - 1];
      Encrypted(events[..|events| - 1]) + if e.Send? && e.encrypted then [e.plain] else []
  }

  /** The receiver stays connected exactly while it accepts everything that arrives. */
  lemma {:induction false} ConnectedIff(session: Session, events: seq<Event>)
    ensures var c := Run(session, events);
            |c.accepted| <= Arrivals(events) && (c.connected <==> |c.accepted| == Arrivals(events))
    decreases |events|
  {
    if events != [] {
      ConnectedIff(session, events[..|events| - 1]);
      hide Decrypted;
    }
  }

  /** Short of the largest number, every send takes the next number, and every one that
      is encrypted is in the log. */
  lemma {:induction false} SendsAreLogged(session: Session, events: seq<Event>)
    requires Sends(events) < UINT64_MAX
    ensures var c := Run(session, events);
            c.next == 1 + Sends(events) && Plains(c.log) == Encrypted(events)
    decreases |events|
  {
    if events != [] {
      var before := events[..|events| - 1];
      SendsAreLogged(session, before);
      hide Decrypted;
      var c := Run(session, before);
      var e := events[|events| - 1];
      if e.Send? && e.encrypted {
        assert Plains(c.log + [Opened(e.plain, c.next)]) == Plains(c.log) + [e.plain];
      }
    }
  }

  /** Without a lost number the log is numbered 1, 2, 3, ... */
  lemma {:induction false} NoGaps(session: Session, events: seq<Event>)
    requires Sends(events) < UINT64_MAX && |Encrypted(events)| == Sends(events)
    ensures forall i :: 0 <= i < |Run(session, events).log| ==> Run(session, events).log[i].sequence == i + 1
    decreases |events|
  {
    if events != [] {
      var before := events[..|events| - 1];
      EncryptedAtMostSends(before);
      NoGaps(session, before);
      SendsAreLogged(session, before);
      hide Decrypted;
    }
  }

  lemma {:induction false} EncryptedAtMostSends(events: seq<Event>)
    ensures |Encrypted(events)| <= Sends(events)
    decreases |events|
  {
    if events != [] {
      EncryptedAtMostSends(events[..|events| - 1]);
    }
  }

  /** Each arrival so far decrypted to the packet that was next in the log. */
  ghost predicate InTurn(session: Session, events: seq<Event>)
    decreases |events|
  {
    events == [] ||
    (var before, e := events[..|events| - 1], events[|events| - 1];
     && InTurn(session, before)
     && (e.Arrive? ==>
           var c := Run(session, before);
           && Arrivals(before) < |c.log|
           && Decrypted(session.aead, e.packet, session.key, session.sessionId) == Some(c.log[Arrivals(before)])))
  }

  /** The next packet of an ungapped log, arriving, is accepted. */
  lemma NextIsAccepted(session: Session, c: Channel, packet: Bytes)
    requires c.connected && c.expected == |c.accepted| + 1 && |c.accepted| < |c.log| < UINT64_MAX
    requires forall i :: 0 <= i < |c.log| ==> c.log[i].sequence == i + 1
    requires Decrypted(session.aead, packet, session.key, session.sessionId) == Some(c.log[|c.accepted|])
    ensures Step(session, c, Arrive(packet))
         == c.(expected := c.expected + 1, accepted := c.accepted + [c.log[|c.accepted|].plain])
  {
    hide Decrypted;
  }

  lemma SendStep(session: Session, c: Channel, e: Event)
    requires e.Send?
    ensures var c' := Step(session, c, e);
            && c'.accepted == c.accepted && c'.expected == c.expected && c'.connected == c.connected
            && Plains(c.log) <= Plains(c'.log)
  {
    if e.encrypted && CanIssue(c.next) && c.next < UINT64_MAX {
      assert Plains(c.log + [Opened(e.plain, c.next)]) == Plains(c.log) + [e.plain];
    }
  }

  /** So far everything that arrived was accepted, and it is the first part of the log. */
  ghost predicate CaughtUp(c: Channel, arrivals: nat) {
    && c.connected && |c.accepted| == arrivals <= |c.log| && c.expected == arrivals + 1
    && c.accepted == Plains(c.log)[..arrivals]
  }

  lemma CaughtUpStep(session: Session, c: Channel, e: Event, arrivals: nat)
    requires CaughtUp(c, arrivals) && |c.log| < UINT64_MAX
    requires forall i :: 0 <= i < |c.log| ==> c.log[i].sequence == i + 1
    requires e.Arrive? ==>
               arrivals < |c.log|
               && Decrypted(session.aead, e.packet, session.key, session.sessionId) == Some(c.log[arrivals])
    ensures CaughtUp(Step(session, c, e), arrivals + if e.Arrive? then 1 else 0)
  {
    if e.Arrive? {
      NextIsAccepted(session, c, e.packet);
      hide Step, Decrypted;
      assert Plains(c.log)[..arrivals + 1] == Plains(c.log)[..arrivals] + [c.log[arrivals].plain];
    } else {
      SendStep(session, c, e);
      hide Step;
    }
  }

  lemma {:induction false} InTurnCatchesUp(session: Session, events: seq<Event>)
    requires Sends(events) < UINT64_MAX && |Encrypted(events)| == Sends(events) && InTurn(session, events)
    ensures CaughtUp(Run(session, events), Arrivals(events))
    decreases |events|
  {
    if events != [] {
      var before, e := events[..|events| - 1], events[|events| - 1];
      EncryptedAtMostSends(before);
      InTurnCatchesUp(session, before);
      SendsAreLogged(session, before);
      NoGaps(session, before);
      hide Step, Decrypted, CaughtUp;
      CaughtUpStep(session, Run(session, before), e, Arrivals(before));
    }
  }

  /** A network that delivers every packet in turn, and a sender that loses no number:
      every arrival is accepted, and once all have arrived the receiver has exactly
      what was sent. */
  lemma InTurnIsAccepted(session: Session, events: seq<Event>)
    requires Sends(events) < UINT64_MAX && |Encrypted(events)| == Sends(events) && InTurn(session, events)
    ensures var c := Run(session, events);
            && c.connected && |c.accepted| == Arrivals(events) <= |Encrypted(events)|
            && c.accepted == Encrypted(events)[..Arrivals(events)]
  {
    InTurnCatchesUp(session, events);
    SendsAreLogged(session, events);
    hide Run;
  }

  lemma {:induction false} GapStays(session: Session, events: seq<Event>, more: seq<Event>)
    requires AuthenticRun(session, events + more)
    requires var c := Run(session, events);
             |c.accepted| < |c.log| && c.log[|c.accepted|].sequence != |c.accepted| + 1
    ensures var c, c' := Run(session, events), Run(session, events + more);
            c'.accepted == c.accepted && c.log <= c'.log
    decreases |more|
  {
    if more == [] {
      assert events + more == events;
    } else {
      var before := more[..|more| - 1];
      assert (events + more)[..|events + more| - 1] == events + before;
      GapStays(session, events, before);
      RunKeepsOrder(session, events + before);
      var c := Run(session, events + before);
      hide Decrypted;
      match more[|more| - 1]
      case Send(_, _) =>
      case Arrive(packet) =>
        var r := Decrypted(session.aead, packet, session.key, session.sessionId);
        if r.Some? {
          ExpectedIsNext(c, r.value);
        }
    }
  }

  /** A number lost before the next packet in the log ends the channel: nothing is
      ever accepted again. */
  lemma LostNumberEndsChannel(session: Session, events: seq<Event>, more: seq<Event>)
    requires AuthenticRun(session, events + more)
    requires var c := Run(session, events);
             |c.accepted| < |c.log| && c.log[|c.accepted|].sequence != |c.accepted| + 1
    ensures Run(session, events + more).accepted == Run(session, events).accepted
  {
    GapStays(session, events, more);
  }

  // ---------- The counters as the code keeps them ----------

  class Endpoint {
    var sessionId: Bytes
    var nextOutbound: nat
    var expectedInbound: nat
    var connected: bool

    constructor ()
      ensures sessionId == [] && nextOutbound == 1 && expectedInbound == 1 && connected
    {
      sessionId, nextOutbound, expectedInbound, connected := [], 1, 1, true;
    }

    /** An empty id is refused; a new id restarts both counters. */
    method SetSecureSessionId(id: Bytes) returns (ok: bool)
      modifies this
      ensures ok <==> id != []
      ensures ok ==> sessionId == id && nextOutbound == START.next && expectedInbound == START.expected
      ensures !ok ==> sessionId == old(sessionId) && nextOutbound == old(nextOutbound)
                      && expectedInbound == old(expectedInbound)
      ensures connected == old(connected)
    {
      ok := id != [];
      if ok {
        sessionId, nextOutbound, expectedInbound := id, 1, 1;
      }
    }

    method TakeNextSecureOutboundSequence() returns (n: Option<nat>)
      modifies this`nextOutbound
      ensures n.Some? <==> sessionId != [] && CanIssue(old(nextOutbound))
      ensures n.Some? ==> n.value == old(nextOutbound) && nextOutbound == n.value + 1
      ensures n.None? ==> nextOutbound == old(nextOutbound)
    {
      if sessionId == [] || nextOutbound == UINT64_MAX {
        return None;
      }
      n := Some(nextOutbound);
      nextOutbound := nextOutbound + 1;
    }

    method AcceptSecureInboundSequence(sequence: nat) returns (ok: bool)
      modifies this`expectedInbound
      ensures ok <==> sessionId != [] && CanAccept(old(expectedInbound), sequence)
      ensures expectedInbound == old(expectedInbound) + if ok then 1 else 0
    {
      if sessionId == [] || expectedInbound == UINT64_MAX || sequence != expectedInbound {
        return false;
      }
      expectedInbound := expectedInbound + 1;
      ok := true;
    }

    /** Sending one packet advances this endpoint as the channel's sender. */
    method SendPacket(session: Session, plain: Bytes, nonce: Bytes, ghost c: Channel)
      returns (packet: Option<Bytes>, ghost e: Event)
      requires session.aead.Lawful() && |nonce| == NONCE_SIZE
      requires sessionId == session.sessionId != [] && nextOutbound == c.next <= UINT64_MAX
      modifies this`nextOutbound
      ensures e.Send? && e.plain == plain && nextOutbound == Step(session, c, e).next
      ensures packet.Some? <==> |Step(session, c, e).log| > |c.log|
      ensures packet.Some? <==> c.next < UINT64_MAX && CanEncrypt(plain, session.sessionId, c.next)
      ensures packet.Some? ==>
                && Step(session, c, e).log == c.log + [Opened(plain, c.next)]
                && Decrypted(session.aead, packet.value, session.key, session.sessionId) == Some(Opened(plain, c.next))
    {
      var n := TakeNextSecureOutboundSequence();
      if n.None? {
        return None, Send(plain, false);
      }
      packet := EncryptPacket(session.aead, plain, session.key, sessionId, n.value, nonce);
      e := Send(plain, packet.Some?);
      if packet.Some? {
        DecryptUndoesEncrypt(session.aead, plain, session.key, sessionId, n.value, nonce);
      }
    }

    /** Receiving one packet: decrypt, check the number, or close the connection. */
    method ReceivePacket(session: Session, packet: Bytes, ghost c: Channel) returns (plain: Option<Bytes>)
      requires sessionId == session.sessionId != [] && expectedInbound == c.expected && connected == c.connected
      modifies this`expectedInbound, this`connected
      ensures var c' := Step(session, c, Arrive(packet));
              && expectedInbound == c'.expected && connected == c'.connected
              && (plain.Some? <==> c'.accepted != c.accepted)
              && (plain.Some? ==> c'.accepted == c.accepted + [plain.value])
    {
      if !connected {
        return None;
      }
      var received := DecryptPacket(session.aead, packet, session.key, sessionId);
      hide Decrypted;
      if received.None? {
        connected := false;
        return None;
      }
      var ok := AcceptSecureInboundSequence(received.value.sequence);
      if !ok {
        connected := false;
        return None;
      }
      plain := Some(received.value.plain);
      assert |c.accepted + [received.value.plain]| != |c.accepted|;
    }
  }
}
