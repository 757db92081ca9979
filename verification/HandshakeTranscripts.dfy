/** The transcripts the handshake signs and derives keys from: no two runs or roles
    share one, and both ends of a completed run derive from the same inputs. */
module HandshakeTranscripts {
  import opened Basics
  import opened HandshakeText

  datatype Kind = Signed | Certified
  datatype Role = Client | Server | KeyDerivation

  /** What a transcript covers. `fields` are all but the client id, in order. */
  datatype Transcript = Transcript(kind: Kind, role: Role, clientId: string, fields: seq<string>) {
    predicate Valid() {
      && |fields| == FieldCount(kind, role)
      && forall i :: 0 <= i < |fields| ==> '|' !in fields[i]
    }
  }

  function FieldCount(kind: Kind, role: Role): nat {
    (if kind.Signed? then 4 else 6) + match role case Client => 0 case Server => 1 case KeyDerivation => 2
  }

  function Label(kind: Kind, role: Role): string {
    (match kind case Signed => "TransferUDT signed handshake v1"
     case Certified => "TransferUDT certificate handshake v1")
    + (match role case Client => "|client|" case Server => "|server|" case KeyDerivation => "|kdf|")
  }

  function Text(t: Transcript): string {
    Label(t.kind, t.role) + Join([t.clientId] + t.fields, '|')
  }

  // ---------- The six transcripts ----------

  function SignedClient(c: SignedChallenge, clientId: string, nonce: string, key: string): Transcript {
    Transcript(Signed, Client, clientId, [c.nonce, c.key, nonce, key])
  }

  function SignedServer(c: SignedChallenge, r: SignedResponse): Transcript {
    Transcript(Signed, Server, r.clientId, [c.nonce, c.key, r.nonce, r.key, r.signature])
  }

  function SignedKdf(c: SignedChallenge, r: SignedResponse, serverSignature: string): Transcript {
    Transcript(Signed, KeyDerivation, r.clientId, [c.nonce, c.key, r.nonce, r.key, r.signature, serverSignature])
  }

  function CertifiedClient(
    c: CertificateChallenge, clientId: string, nonce: string, key: string, certificate: string): Transcript
  {
    Transcript(Certified, Client, clientId, [c.nonce, c.key, c.certificate, nonce, key, certificate])
  }

  function CertifiedServer(c: CertificateChallenge, r: CertificateResponse): Transcript {
    Transcript(Certified, Server, r.clientId,
               [c.nonce, c.key, c.certificate, r.nonce, r.key, r.certificate, r.signature])
  }

  function CertifiedKdf(c: CertificateChallenge, r: CertificateResponse, serverSignature: string): Transcript {
    Transcript(Certified, KeyDerivation, r.clientId,
               [c.nonce, c.key, c.certificate, r.nonce, r.key, r.certificate, r.signature, serverSignature])
  }

  // ---------- Uniqueness ----------

  /** Bar-free tails of equal length can be cut off, whatever the front contains. */
  lemma {:induction false} TailsUnique(a: string, xs: seq<string>, b: string, ys: seq<string>)
    requires |xs| == |ys| && Join([a] + xs, '|') == Join([b] + ys, '|')
    requires forall i :: 0 <= i < |xs| ==> '|' !in xs[i] && '|' !in ys[i]
    ensures a == b && xs == ys
    decreases |xs|
  {
    if xs != [] {
      var n := |xs| - 1;
      assert ([a] + xs)[..n + 1] == [a] + xs[..n] && ([b] + ys)[..n + 1] == [b] + ys[..n];
      LastBar(Join([a] + xs[..n], '|'), xs[n], Join([b] + ys[..n], '|'), ys[n]);
      TailsUnique(a, xs[..n], b, ys[..n]);
      assert xs == xs[..n] + [xs[n]] && ys == ys[..n] + [ys[n]];
    }
  }

  lemma LastBarPosition(a: string, s: string)
    requires '|' !in s
    ensures var whole := a + "|" + s;
            && whole[|a|] == '|' && whole[..|a|] == a && whole[|a| + 1..] == s
            && forall i :: |a| < i < |whole| ==> whole[i] != '|'
  {
    var whole := a + "|" + s;
    assert forall i :: |a| < i < |whole| ==> whole[i] == s[i - |a| - 1];
  }

  lemma LastBar(a: string, s: string, b: string, t: string)
    requires '|' !in s && '|' !in t && a + "|" + s == b + "|" + t
    ensures a == b && s == t
  {
    LastBarPosition(a, s);
    LastBarPosition(b, t);
    assert |a| == |b|;
  }

  /** The label tells kind and role from two characters. */
  lemma LabelMarks(kind: Kind, role: Role, rest: string)
    ensures var s := Label(kind, role) + rest;
            && |s| > 32 && (s[12] == 's' <==> kind.Signed?)
            && (kind.Signed? ==> (s[32] == 'c' <==> role.Client?) && (s[32] == 's' <==> role.Server?))
            && (kind.Certified? ==> |s| > 37 && (s[37] == 'c' <==> role.Client?) && (s[37] == 's' <==> role.Server?))
  {
    var name := match kind
      case Signed => "TransferUDT signed handshake v1"
      case Certified => "TransferUDT certificate handshake v1";
    assert |name| == if kind.Signed? then 31 else 36;
    assert name[12] == if kind.Signed? then 's' else 'c';
    var s := Label(kind, role) + rest;
    assert s[12] == name[12];
    var tag := match role case Client => "|client|" case Server => "|server|" case KeyDerivation => "|kdf|";
    assert s[|name| + 1] == tag[1];
  }

  /** Equal texts mean equal transcripts: same handshake, same role, same client id
      (which may itself contain bars) and same fields. */
  lemma TranscriptUnique(t: Transcript, u: Transcript)
    requires t.Valid() && u.Valid() && Text(t) == Text(u)
    ensures t == u
  {
    LabelMarks(t.kind, t.role, Join([t.clientId] + t.fields, '|'));
    LabelMarks(u.kind, u.role, Join([u.clientId] + u.fields, '|'));
    assert t.kind == u.kind && t.role == u.role;
    var n := |Label(t.kind, t.role)|;
    assert Text(t)[n..] == Join([t.clientId] + t.fields, '|');
    assert Text(u)[n..] == Join([u.clientId] + u.fields, '|');
    TailsUnique(t.clientId, t.fields, u.clientId, u.fields);
  }

  /** The signed texts written out. */
  lemma SignedTexts(c: SignedChallenge, r: SignedResponse, sig: string)
    ensures Text(SignedClient(c, r.clientId, r.nonce, r.key))
         == "TransferUDT signed handshake v1|client|"
            + (r.clientId + "|" + c.nonce + "|" + c.key + "|" + r.nonce + "|" + r.key)
    ensures Text(SignedServer(c, r))
         == "TransferUDT signed handshake v1|server|"
            + (r.clientId + "|" + c.nonce + "|" + c.key + "|" + r.nonce + "|" + r.key + "|" + r.signature)
    ensures Text(SignedKdf(c, r, sig))
         == "TransferUDT signed handshake v1|kdf|"
            + (r.clientId + "|" + c.nonce + "|" + c.key + "|" + r.nonce + "|" + r.key + "|" + r.signature + "|" + sig)
  {
    Join5(r.clientId, c.nonce, c.key, r.nonce, r.key, '|');
    JoinPushed([r.clientId, c.nonce, c.key, r.nonce, r.key], r.signature, '|');
    JoinPushed([r.clientId, c.nonce, c.key, r.nonce, r.key] + [r.signature], sig, '|');
    var t, u, v := SignedClient(c, r.clientId, r.nonce, r.key), SignedServer(c, r), SignedKdf(c, r, sig);
    assert [v.clientId] + v.fields == [r.clientId, c.nonce, c.key, r.nonce, r.key] + [r.signature] + [sig];
    assert [t.clientId] + t.fields == [r.clientId, c.nonce, c.key, r.nonce, r.key];
    assert [u.clientId] + u.fields == [r.clientId, c.nonce, c.key, r.nonce, r.key] + [r.signature];
    hide Join;
  }

  lemma CertifiedTexts(c: CertificateChallenge, r: CertificateResponse, sig: string)
    ensures Text(CertifiedClient(c, r.clientId, r.nonce, r.key, r.certificate))
         == "TransferUDT certificate handshake v1|client|"
            + (r.clientId + "|" + c.nonce + "|" + c.key + "|" + c.certificate + "|" + r.nonce
               + "|" + r.key + "|" + r.certificate)
    ensures Text(CertifiedServer(c, r))
         == "TransferUDT certificate handshake v1|server|"
            + (r.clientId + "|" + c.nonce + "|" + c.key + "|" + c.certificate + "|" + r.nonce
               + "|" + r.key + "|" + r.certificate + "|" + r.signature)
    ensures Text(CertifiedKdf(c, r, sig))
         == "TransferUDT certificate handshake v1|kdf|"
            + (r.clientId + "|" + c.nonce + "|" + c.key + "|" + c.certificate + "|" + r.nonce
               + "|" + r.key + "|" + r.certificate + "|" + r.signature + "|" + sig)
  {
    var front := [r.clientId, c.nonce, c.key, c.certificate, r.nonce];
    Join5(r.clientId, c.nonce, c.key, c.certificate, r.nonce, '|');
    JoinPushed(front, r.key, '|');
    JoinPushed(front + [r.key], r.certificate, '|');
    JoinPushed(front + [r.key] + [r.certificate], r.signature, '|');
    JoinPushed(front + [r.key] + [r.certificate] + [r.signature], sig, '|');
    var t, u := CertifiedClient(c, r.clientId, r.nonce, r.key, r.certificate), CertifiedServer(c, r);
    var v := CertifiedKdf(c, r, sig);
    assert [v.clientId] + v.fields == front + [r.key] + [r.certificate] + [r.signature] + [sig];
    assert [t.clientId] + t.fields == front + [r.key] + [r.certificate];
    assert [u.clientId] + u.fields == front + [r.key] + [r.certificate] + [r.signature];
    hide Join;
  }

  /** A signed text determines everything it is about, the other side's challenge
      included: no two challenges or responses give the same one. */
  lemma SignedTextsDetermine(c: SignedChallenge, r: SignedResponse, c': SignedChallenge, r': SignedResponse)
    requires c.Valid() && r.Valid() && c'.Valid() && r'.Valid()
    ensures Text(SignedClient(c, r.clientId, r.nonce, r.key)) == Text(SignedClient(c', r'.clientId, r'.nonce, r'.key))
       <==> c == c' && r.clientId == r'.clientId && r.nonce == r'.nonce && r.key == r'.key
    ensures Text(SignedServer(c, r)) == Text(SignedServer(c', r')) <==> c == c' && r == r'
  {
    var t, t' := SignedClient(c, r.clientId, r.nonce, r.key), SignedClient(c', r'.clientId, r'.nonce, r'.key);
    var u, u' := SignedServer(c, r), SignedServer(c', r');
    assert t.Valid() && t'.Valid() && u.Valid() && u'.Valid();
    hide Text;
    if Text(t) == Text(t') {
      TranscriptUnique(t, t');
      SameFields(t.fields, t'.fields);
    }
    if Text(u) == Text(u') {
      TranscriptUnique(u, u');
      SameFields(u.fields, u'.fields);
    }
  }

  lemma CertifiedTextsDetermine(
    c: CertificateChallenge, r: CertificateResponse, c': CertificateChallenge, r': CertificateResponse)
    requires c.Valid() && r.Valid() && c'.Valid() && r'.Valid()
    ensures Text(CertifiedClient(c, r.clientId, r.nonce, r.key, r.certificate))
         == Text(CertifiedClient(c', r'.clientId, r'.nonce, r'.key, r'.certificate))
       <==> c == c' && r.(signature := "") == r'.(signature := "")
    ensures Text(CertifiedServer(c, r)) == Text(CertifiedServer(c', r')) <==> c == c' && r == r'
  {
    var t := CertifiedClient(c, r.clientId, r.nonce, r.key, r.certificate);
    var t' := CertifiedClient(c', r'.clientId, r'.nonce, r'.key, r'.certificate);
    var u, u' := CertifiedServer(c, r), CertifiedServer(c', r');
    assert t.Valid() && t'.Valid() && u.Valid() && u'.Valid();
    hide Text;
    if Text(t) == Text(t') {
      TranscriptUnique(t, t');
      SameFields(t.fields, t'.fields);
    }
    if Text(u) == Text(u') {
      TranscriptUnique(u, u');
      SameFields(u.fields, u'.fields);
    }
  }

  lemma SameFields(xs: seq<string>, ys: seq<string>)
    requires xs == ys
    ensures |xs| == |ys| && (|xs| >= 4 ==> xs[0] == ys[0] && xs[1] == ys[1] && xs[2] == ys[2] && xs[3] == ys[3])
    ensures |xs| >= 5 ==> xs[4] == ys[4]
    ensures |xs| >= 6 ==> xs[5] == ys[5]
    ensures |xs| >= 7 ==> xs[6] == ys[6]
  {
  }

  /** What a run signs on each side and derives its key from: valid transcripts with
      pairwise different texts, so that none can stand in for another. */
  ghost predicate RolesApart(client: Transcript, server: Transcript, kdf: Transcript) {
    && client.Valid() && server.Valid() && kdf.Valid()
    && Text(client) != Text(server) && Text(client) != Text(kdf) && Text(server) != Text(kdf)
  }

  lemma DifferentRoles(client: Transcript, server: Transcript, kdf: Transcript)
    requires client.Valid() && server.Valid() && kdf.Valid()
    requires client.role.Client? && server.role.Server? && kdf.role.KeyDerivation?
    ensures RolesApart(client, server, kdf)
  {
    hide Text;
    if Text(client) == Text(server) {
      TranscriptUnique(client, server);
    }
    if Text(client) == Text(kdf) {
      TranscriptUnique(client, kdf);
    }
    if Text(server) == Text(kdf) {
      TranscriptUnique(server, kdf);
    }
  }

  // ---------- The session secret ----------

  /** X25519 (section 5 of RFC 7748) and HKDF (section 2 of RFC 5869). */
  datatype Derivation = Derivation(
    publicOf: string -> string, agree: (string, string) -> Bytes, hkdf: (Bytes, string, string) -> string)
  {
    /** Both parties of an exchange compute the same shared secret. */
    ghost predicate Symmetric() {
      forall a, b :: agree(a, publicOf(b)) == agree(b, publicOf(a))
    }
  }

  const SIGNED_SALT := "TransferUDT signed handshake v1"
  const CERTIFICATE_SALT := "TransferUDT certificate handshake v1"

  function SignedSecret(
    d: Derivation, ownPrivate: string, peerPublic: string, c: SignedChallenge, r: SignedResponse,
    serverSignature: string)
    : Option<string>
  {
    if !c.Valid() || !r.Valid() || !IsSignature(serverSignature) then None
    else Some(d.hkdf(d.agree(ownPrivate, peerPublic), Text(SignedKdf(c, r, serverSignature)), SIGNED_SALT))
  }

  function CertificateSecret(
    d: Derivation, ownPrivate: string, peerPublic: string, c: CertificateChallenge, r: CertificateResponse,
    serverSignature: string)
    : Option<string>
  {
    if !c.Valid() || !r.Valid() || !IsSignature(serverSignature) then None
    else Some(d.hkdf(d.agree(ownPrivate, peerPublic), Text(CertifiedKdf(c, r, serverSignature)), CERTIFICATE_SALT))
  }

  /** Both ends of a completed signed handshake derive the same secret, each from its
      own private key and what it read off the wire; and the texts the client signs,
      the server signs and the secret is derived from differ. */
  lemma SignedEndsAgree(
    d: Derivation, serverPrivate: string, clientPrivate: string,
    challenge: SignedChallenge, challengeMessage: string, challengeAtClient: SignedChallenge,
    response: SignedResponse, responseAtServer: SignedResponse, serverSignature: string)
    requires d.Symmetric()
    requires challenge.key == d.publicOf(serverPrivate) && response.key == d.publicOf(clientPrivate)
    requires BuildSignedChallenge(challenge) == Some(challengeMessage)
    requires TryParseSignedChallenge(challengeMessage) == Some(challengeAtClient)
    requires TryParseSignedResponse(PrintSignedResponse(response)) == Some(responseAtServer) && response.Valid()
    ensures SignedSecret(d, clientPrivate, challengeAtClient.key, challengeAtClient, response, serverSignature)
         == SignedSecret(d, serverPrivate, responseAtServer.key, challenge, responseAtServer, serverSignature)
    ensures IsSignature(serverSignature) ==>
              RolesApart(SignedClient(challengeAtClient, response.clientId, response.nonce, response.key),
                         SignedServer(challenge, responseAtServer),
                         SignedKdf(challenge, responseAtServer, serverSignature))
  {
    if IsSignature(serverSignature) {
      SignedRolesApart(challenge, response, serverSignature);
    }
    hide RolesApart;
    SignedChallengeRoundTrip(challenge, challengeMessage);
    SignedResponseRoundTrip(response, PrintSignedResponse(response));
    assert d.agree(clientPrivate, d.publicOf(serverPrivate)) == d.agree(serverPrivate, d.publicOf(clientPrivate));
  }

  lemma SignedRolesApart(c: SignedChallenge, r: SignedResponse, serverSignature: string)
    requires c.Valid() && r.Valid() && IsSignature(serverSignature)
    ensures RolesApart(SignedClient(c, r.clientId, r.nonce, r.key), SignedServer(c, r),
                       SignedKdf(c, r, serverSignature))
  {
    DifferentRoles(SignedClient(c, r.clientId, r.nonce, r.key), SignedServer(c, r), SignedKdf(c, r, serverSignature));
  }

  lemma CertifiedRolesApart(c: CertificateChallenge, r: CertificateResponse, serverSignature: string)
    requires c.Valid() && r.Valid() && IsSignature(serverSignature)
    ensures RolesApart(CertifiedClient(c, r.clientId, r.nonce, r.key, r.certificate), CertifiedServer(c, r),
                       CertifiedKdf(c, r, serverSignature))
  {
    DifferentRoles(CertifiedClient(c, r.clientId, r.nonce, r.key, r.certificate), CertifiedServer(c, r),
                   CertifiedKdf(c, r, serverSignature));
  }

  /** The same for the certificate handshake. */
  lemma CertificateEndsAgree(
    d: Derivation, serverPrivate: string, clientPrivate: string,
    challenge: CertificateChallenge, challengeAtClient: CertificateChallenge,
    response: CertificateResponse, responseAtServer: CertificateResponse, serverSignature: string)
    requires d.Symmetric() && challenge.Valid() && response.Valid()
    requires challenge.key == d.publicOf(serverPrivate) && response.key == d.publicOf(clientPrivate)
    requires TryParseCertificateChallenge(PrintCertificateChallenge(challenge)) == Some(challengeAtClient)
    requires TryParseCertificateResponse(PrintCertificateResponse(response)) == Some(responseAtServer)
    ensures CertificateSecret(d, clientPrivate, challengeAtClient.key, challengeAtClient, response, serverSignature)
         == CertificateSecret(d, serverPrivate, responseAtServer.key, challenge, responseAtServer, serverSignature)
    ensures IsSignature(serverSignature) ==>
              RolesApart(CertifiedClient(challengeAtClient, response.clientId, response.nonce,
                                         response.key, response.certificate),
                         CertifiedServer(challenge, responseAtServer),
                         CertifiedKdf(challenge, responseAtServer, serverSignature))
  {
    if IsSignature(serverSignature) {
      CertifiedRolesApart(challenge, response, serverSignature);
    }
    hide RolesApart;
    CertificateChallengeRoundTrip(challenge, PrintCertificateChallenge(challenge));
    CertificateResponseRoundTrip(response, PrintCertificateResponse(response));
    assert d.agree(clientPrivate, d.publicOf(serverPrivate)) == d.agree(serverPrivate, d.publicOf(clientPrivate));
  }

  /** The key-derivation input determines the whole run: ends of signed handshakes that
      feed the same text saw the same nonces, keys, signatures and client id. */
  lemma DerivationInputDeterminesRun(
    c: SignedChallenge, r: SignedResponse, sig: string, c': SignedChallenge, r': SignedResponse, sig': string)
    requires c.Valid() && r.Valid() && IsSignature(sig) && c'.Valid() && r'.Valid() && IsSignature(sig')
    ensures Text(SignedKdf(c, r, sig)) == Text(SignedKdf(c', r', sig')) <==> c == c' && r == r' && sig == sig'
  {
    if Text(SignedKdf(c, r, sig)) == Text(SignedKdf(c', r', sig')) {
      var t, u := SignedKdf(c, r, sig), SignedKdf(c', r', sig');
      assert t.Valid() && u.Valid();
      TranscriptUnique(t, u);
      assert t.fields[0] == u.fields[0] && t.fields[1] == u.fields[1] && t.fields[2] == u.fields[2];
      assert t.fields[3] == u.fields[3] && t.fields[4] == u.fields[4] && t.fields[5] == u.fields[5];
    }
  }

  /** Ends of certificate handshakes that feed the same text saw the same nonces, keys,
      certificates, signatures and client id. */
  lemma CertificateInputDeterminesRun(
    c: CertificateChallenge, r: CertificateResponse, sig: string,
    c': CertificateChallenge, r': CertificateResponse, sig': string)
    requires c.Valid() && r.Valid() && IsSignature(sig) && c'.Valid() && r'.Valid() && IsSignature(sig')
    ensures Text(CertifiedKdf(c, r, sig)) == Text(CertifiedKdf(c', r', sig')) <==> c == c' && r == r' && sig == sig'
  {
    if Text(CertifiedKdf(c, r, sig)) == Text(CertifiedKdf(c', r', sig')) {
      var t, u := CertifiedKdf(c, r, sig), CertifiedKdf(c', r', sig');
      assert t.Valid() && u.Valid();
      TranscriptUnique(t, u);
      assert t.fields[0] == u.fields[0] && t.fields[1] == u.fields[1] && t.fields[2] == u.fields[2];
      assert t.fields[3] == u.fields[3] && t.fields[4] == u.fields[4] && t.fields[5] == u.fields[5];
      assert t.fields[6] == u.fields[6] && t.fields[7] == u.fields[7];
    }
  }

  /** Neither hash nor agreement collides: the secret determines what it is derived from. */
  ghost predicate CollisionFree(d: Derivation) {
    forall z, t, s, z', t', s' :: d.hkdf(z, t, s) == d.hkdf(z', t', s') ==> z == z' && t == t' && s == s'
  }

  /** Without collisions the session secret determines the run: ends that hold the same
      one saw the same messages and agreed on the same shared value, in the same kind
      of handshake; and there is one exactly for valid messages. */
  lemma SecretDeterminesRun(
    d: Derivation, a: string, b: string, c: SignedChallenge, r: SignedResponse, sig: string,
    a': string, b': string, c': SignedChallenge, r': SignedResponse, sig': string)
    requires CollisionFree(d)
    ensures SignedSecret(d, a, b, c, r, sig).Some? <==> c.Valid() && r.Valid() && |sig| % 2 == 0 && IsLowerHex(sig)
    ensures SignedSecret(d, a, b, c, r, sig).Some? ==>
              (SignedSecret(d, a, b, c, r, sig) == SignedSecret(d, a', b', c', r', sig')
               <==> c == c' && r == r' && sig == sig' && d.agree(a, b) == d.agree(a', b'))
  {
    if SignedSecret(d, a, b, c, r, sig).Some? && SignedSecret(d, a', b', c', r', sig').Some? {
      DerivationInputDeterminesRun(c, r, sig, c', r', sig');
    }
    hide Text;
  }

  lemma CertificateSecretDeterminesRun(
    d: Derivation, a: string, b: string, c: CertificateChallenge, r: CertificateResponse, sig: string,
    a': string, b': string, c': CertificateChallenge, r': CertificateResponse, sig': string)
    requires CollisionFree(d)
    ensures CertificateSecret(d, a, b, c, r, sig).Some? <==> c.Valid() && r.Valid() && |sig| % 2 == 0 && IsLowerHex(sig)
    ensures CertificateSecret(d, a, b, c, r, sig).Some? ==>
              (CertificateSecret(d, a, b, c, r, sig) == CertificateSecret(d, a', b', c', r', sig')
               <==> c == c' && r == r' && sig == sig' && d.agree(a, b) == d.agree(a', b'))
  {
    if CertificateSecret(d, a, b, c, r, sig).Some? && CertificateSecret(d, a', b', c', r', sig').Some? {
      CertificateInputDeterminesRun(c, r, sig, c', r', sig');
    }
    hide Text;
  }

  /** No signed run feeds what some certificate run feeds. */
  lemma DerivationKindsApart(
    c: SignedChallenge, r: SignedResponse, sig: string, c': CertificateChallenge, r': CertificateResponse, sig': string)
    requires c.Valid() && r.Valid() && IsSignature(sig) && c'.Valid() && r'.Valid() && IsSignature(sig')
    ensures Text(SignedKdf(c, r, sig)) != Text(CertifiedKdf(c', r', sig'))
  {
    var t, u := SignedKdf(c, r, sig), CertifiedKdf(c', r', sig');
    assert t.Valid() && u.Valid();
    if Text(t) == Text(u) {
      TranscriptUnique(t, u);
    }
  }
}
