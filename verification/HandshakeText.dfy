/** The handshake's text messages and transcripts. Signatures, HMAC, key agreement
    and key derivation are parameters. */
module HandshakeText {
  import opened Basics

  // ---------- Splitting and joining ----------

  /** The parts between separators; every separator counts, so parts can be empty. */
  function Split(s: string, mark: char): (parts: seq<string>)
    ensures |parts| >= 1
    ensures forall i :: 0 <= i < |parts| ==> mark !in parts[i]
    decreases |s|
  {
    if s == "" then [""]
    else if s[|s| - 1] == mark then Split(s[..|s| - 1], mark) + [""]
    else
      var front := Split(s[..|s| - 1], mark);
      front[..|front| - 1] + [front[|front| - 1] + [s[|s| - 1]]]
  }

  function Join(parts: seq<string>, mark: char): string
    requires |parts| >= 1
    decreases |parts|
  {
    if |parts| == 1 then parts[0]
    else Join(parts[..|parts| - 1], mark) + [mark] + parts[|parts| - 1]
  }

  lemma JoinPushed(parts: seq<string>, last: string, mark: char)
    requires |parts| >= 1
    ensures Join(parts + [last], mark) == Join(parts, mark) + [mark] + last
  {
    assert (parts + [last])[..|parts|] == parts;
  }

  /** Joined texts written out. */
  lemma Join3(a: string, b: string, c: string, mark: char)
    ensures Join([a, b, c], mark) == a + [mark] + b + [mark] + c
  {
    JoinPushed([a], b, mark);
    JoinPushed([a, b], c, mark);
    assert [a] + [b] == [a, b] && [a, b] + [c] == [a, b, c];
  }

  lemma Join4(a: string, b: string, c: string, d: string, mark: char)
    ensures Join([a, b, c, d], mark) == a + [mark] + b + [mark] + c + [mark] + d
  {
    Join3(a, b, c, mark);
    JoinPushed([a, b, c], d, mark);
    assert [a, b, c] + [d] == [a, b, c, d];
  }

  lemma Join5(a: string, b: string, c: string, d: string, e: string, mark: char)
    ensures Join([a, b, c, d, e], mark) == a + [mark] + b + [mark] + c + [mark] + d + [mark] + e
  {
    Join4(a, b, c, d, mark);
    JoinPushed([a, b, c, d], e, mark);
    assert [a, b, c, d] + [e] == [a, b, c, d, e];
  }

  lemma JoinExtended(parts: seq<string>, more: string, mark: char)
    requires |parts| >= 1
    ensures Join(parts[..|parts| - 1] + [parts[|parts| - 1] + more], mark) == Join(parts, mark) + more
  {
    var n := |parts| - 1;
    var longer := parts[..n] + [parts[n] + more];
    assert longer[..n] == parts[..n] && longer[n] == parts[n] + more;
  }

  lemma {:induction false} JoinUndoesSplit(s: string, mark: char)
    ensures Join(Split(s, mark), mark) == s
    decreases |s|
  {
    if s != "" {
      var front, last := s[..|s| - 1], s[|s| - 1];
      JoinUndoesSplit(front, mark);
      var parts := Split(front, mark);
      assert s == front + [last];
      if last == mark {
        assert (parts + [""])[..|parts|] == parts;
      } else {
        JoinExtended(parts, [last], mark);
      }
    }
  }

  /** Splitting past a mark-free tail. */
  lemma {:induction false} SplitTail(front: string, tail: string, mark: char)
    requires mark !in tail
    ensures var parts := Split(front, mark);
            Split(front + tail, mark) == parts[..|parts| - 1] + [parts[|parts| - 1] + tail]
    decreases |tail|
  {
    var parts := Split(front, mark);
    if tail == "" {
      assert front + tail == front && parts[|parts| - 1] + "" == parts[|parts| - 1];
    } else {
      var shorter, last := tail[..|tail| - 1], tail[|tail| - 1];
      SplitTail(front, shorter, mark);
      assert (front + tail)[..|front + tail| - 1] == front + shorter;
      assert last in tail;
      assert parts[|parts| - 1] + shorter + [last] == parts[|parts| - 1] + tail by {
        assert tail == shorter + [last];
      }
    }
  }

  lemma {:induction false} SplitUndoesJoin(parts: seq<string>, mark: char)
    requires |parts| >= 1 && forall i :: 0 <= i < |parts| ==> mark !in parts[i]
    ensures Split(Join(parts, mark), mark) == parts
    decreases |parts|
  {
    var last := parts[|parts| - 1];
    if |parts| == 1 {
      SplitTail("", last, mark);
      assert "" + last == last;
    } else {
      var before := parts[..|parts| - 1];
      SplitUndoesJoin(before, mark);
      var front := Join(before, mark) + [mark];
      assert front[..|front| - 1] == Join(before, mark);
      assert Split(front, mark) == before + [""];
      SplitTail(front, last, mark);
      assert (before + [""])[..|before|] == before && "" + last == last;
      assert before + [last] == parts;
    }
  }

  /** The index of the first mark at or after start, or |s|. */
  method Find(s: string, mark: char, start: nat) returns (index: nat)
    requires start <= |s|
    ensures start <= index <= |s| && mark !in s[start..index]
    ensures index < |s| ==> s[index] == mark
  {
    index := start;
    while index < |s| && s[index] != mark
      invariant start <= index <= |s| && mark !in s[start..index]
    {
      assert s[start..index + 1] == s[start..index] + [s[index]];
      index := index + 1;
    }
  }

  /** One more part: up to the next separator, or to the end. */
  lemma SplitStep(value: string, start: nat, separator: nat, parts: seq<string>, mark: char)
    requires start <= separator <= |value| && mark !in value[start..separator]
    requires Split(value[..start], mark) == parts + [""]
    ensures Split(value[..separator], mark) == parts + [value[start..separator]]
    ensures separator < |value| && value[separator] == mark ==>
              Split(value[..separator + 1], mark) == parts + [value[start..separator]] + [""]
  {
    var part := value[start..separator];
    SplitTail(value[..start], part, mark);
    assert value[..start] + part == value[..separator];
    assert (parts + [""])[..|parts|] == parts && "" + part == part;
    if separator < |value| && value[separator] == mark {
      assert value[..separator + 1][..separator] == value[..separator];
    }
  }

  /** The code's loop over separators computes the split. */
  method SplitSpaceSeparated(value: string) returns (parts: seq<string>)
    ensures parts == Split(value, ' ')
  {
    parts := [];
    var start := 0;
    hide Split;
    assert Split(value[..0], ' ') == [] + [""] by { SplitNothing(' '); }
    while start <= |value|
      invariant 0 <= start <= |value|
      invariant Split(value[..start], ' ') == parts + [""]
      decreases |value| - start
    {
      var separator := Find(value, ' ', start);
      SplitStep(value, start, separator, parts, ' ');
      parts := parts + [value[start..separator]];
      if separator == |value| {
        assert value[..separator] == value;
        break;
      }
      start := separator + 1;
    }
  }

  lemma SplitNothing(mark: char)
    ensures Split("", mark) == [""]
  {
  }

  // ---------- Field rules ----------

  const MAX_CERTIFICATE_HEX: nat := 2 * 24 * 1024

  predicate IsLowerHex(s: string) {
    s != "" && forall i :: 0 <= i < |s| ==> '0' <= s[i] <= '9' || 'a' <= s[i] <= 'f'
  }

  predicate IsHexOf(s: string, bytes: nat) { |s| == 2 * bytes && IsLowerHex(s) }

  predicate IsSignature(s: string) { |s| % 2 == 0 && IsLowerHex(s) }

  predicate IsCertificate(s: string) { |s| % 2 == 0 && |s| <= MAX_CERTIFICATE_HEX && IsLowerHex(s) }

  predicate IsClientId(s: string) {
    0 < |s| <= 128 && ' ' !in s && '\t' !in s && '\r' !in s && '\n' !in s
  }

  lemma HexHasNoMarks(s: string)
    requires IsLowerHex(s)
    ensures ' ' !in s && '|' !in s
  {
  }

  // ---------- Messages ----------

  datatype SignedChallenge = SignedChallenge(nonce: string, key: string) {
    predicate Valid() { IsHexOf(nonce, 32) && IsHexOf(key, 32) }
  }

  datatype SignedResponse = SignedResponse(clientId: string, nonce: string, key: string, signature: string) {
    predicate Valid() { IsClientId(clientId) && IsHexOf(nonce, 32) && IsHexOf(key, 32) && IsSignature(signature) }
  }

  datatype CertificateChallenge = CertificateChallenge(nonce: string, key: string, certificate: string) {
    predicate Valid() { IsHexOf(nonce, 32) && IsHexOf(key, 32) && IsCertificate(certificate) }
  }

  datatype CertificateResponse = CertificateResponse(
    clientId: string, nonce: string, key: string, certificate: string, signature: string)
  {
    predicate Valid() {
      && IsClientId(clientId) && IsHexOf(nonce, 32) && IsHexOf(key, 32)
      && IsCertificate(certificate) && IsSignature(signature)
    }
  }

  const SIGNED_CHALLENGE := "AUTH_SIGNED_CHALLENGE_V1 "
  const SIGNED_RESPONSE := "AUTH_SIGNED_RESPONSE_V1 "
  const CERTIFICATE_CHALLENGE := "AUTH_CERT_CHALLENGE_V1 "
  const CERTIFICATE_RESPONSE := "AUTH_CERT_RESPONSE_V1 "
  const SECURE_SESSION := "SECURE_SESSION_V1 "

  /** The text after a prefix. */
  function Payload(message: string, prefix: string): Option<string> {
    if prefix <= message then Some(message[|prefix|..]) else None
  }

  /** Cutting at the first space. */
  function Cut(s: string): Option<(string, string)> {
    if s == "" then None
    else if s[0] == ' ' then Some(("", s[1..]))
    else
      var (front, back) :- Cut(s[1..]);
      Some(([s[0]] + front, back))
  }

  lemma {:induction false} CutMeans(s: string)
    ensures Cut(s).Some? ==> ' ' !in Cut(s).value.0 && s == Cut(s).value.0 + " " + Cut(s).value.1
    ensures Cut(s).None? ==> ' ' !in s
  {
    if s != "" && s[0] != ' ' {
      CutMeans(s[1..]);
      assert s == [s[0]] + s[1..];
    } else if s != "" {
      assert s == "" + " " + s[1..];
    }
  }

  lemma {:induction false} CutUndoes(front: string, back: string)
    requires ' ' !in front
    ensures Cut(front + " " + back) == Some((front, back))
  {
    var s := front + " " + back;
    if front == "" {
      assert s[1..] == back;
    } else {
      assert front[0] in front;
      CutUndoes(front[1..], back);
      assert s[1..] == front[1..] + " " + back;
      assert front == [front[0]] + front[1..];
    }
  }

  function BuildSignedChallenge(c: SignedChallenge): Option<string> {
    if c.Valid() then Some(SIGNED_CHALLENGE + c.nonce + " " + c.key) else None
  }

  function TryParseSignedChallenge(message: string): Option<SignedChallenge> {
    var payload :- Payload(message, SIGNED_CHALLENGE);
    var (nonce, key) :- Cut(payload);
    var c := SignedChallenge(nonce, key);
    if c.Valid() then Some(c) else None
  }

  /** Parsing accepts exactly the messages that are built, and returns what they were
      built from. */
  lemma SignedChallengeRoundTrip(c: SignedChallenge, message: string)
    ensures TryParseSignedChallenge(message) == Some(c) <==> BuildSignedChallenge(c) == Some(message)
  {
    if c.Valid() {
      HexHasNoMarks(c.nonce);
      CutUndoes(c.nonce, c.key);
      var built := SIGNED_CHALLENGE + c.nonce + " " + c.key;
      assert built == SIGNED_CHALLENGE + (c.nonce + " " + c.key);
    }
    if SIGNED_CHALLENGE <= message {
      CutMeans(message[|SIGNED_CHALLENGE|..]);
      assert message == SIGNED_CHALLENGE + message[|SIGNED_CHALLENGE|..];
    }
  }

  function PrintSignedResponse(r: SignedResponse): string {
    SIGNED_RESPONSE + Join([r.clientId, r.nonce, r.key, r.signature], ' ')
  }

  function TryParseSignedResponse(message: string): Option<SignedResponse> {
    var payload :- Payload(message, SIGNED_RESPONSE);
    var parts := Split(payload, ' ');
    if |parts| != 4 then None else
    var r := SignedResponse(parts[0], parts[1], parts[2], parts[3]);
    if r.Valid() then Some(r) else None
  }

  function PrintCertificateChallenge(c: CertificateChallenge): string {
    CERTIFICATE_CHALLENGE + Join([c.nonce, c.key, c.certificate], ' ')
  }

  function TryParseCertificateChallenge(message: string): Option<CertificateChallenge> {
    var payload :- Payload(message, CERTIFICATE_CHALLENGE);
    var parts := Split(payload, ' ');
    if |parts| != 3 then None else
    var c := CertificateChallenge(parts[0], parts[1], parts[2]);
    if c.Valid() then Some(c) else None
  }

  function PrintCertificateResponse(r: CertificateResponse): string {
    CERTIFICATE_RESPONSE + Join([r.clientId, r.nonce, r.key, r.certificate, r.signature], ' ')
  }

  function TryParseCertificateResponse(message: string): Option<CertificateResponse> {
    var payload :- Payload(message, CERTIFICATE_RESPONSE);
    var parts := Split(payload, ' ');
    if |parts| != 5 then None else
    var r := CertificateResponse(parts[0], parts[1], parts[2], parts[3], parts[4]);
    if r.Valid() then Some(r) else None
  }

  /** A message is its prefix and its fields joined exactly when splitting the rest of
      it gives the fields. */
  lemma FieldsRoundTrip(message: string, prefix: string, fields: seq<string>)
    requires |fields| >= 1 && forall i :: 0 <= i < |fields| ==> ' ' !in fields[i]
    ensures message == prefix + Join(fields, ' ')
      <==> Payload(message, prefix).Some? && Split(Payload(message, prefix).value, ' ') == fields
  {
    SplitUndoesJoin(fields, ' ');
    if prefix <= message {
      JoinUndoesSplit(message[|prefix|..], ' ');
      assert message == prefix + message[|prefix|..];
    }
    assert (prefix + Join(fields, ' '))[|prefix|..] == Join(fields, ' ');
  }

  lemma SignedResponseRoundTrip(r: SignedResponse, message: string)
    ensures TryParseSignedResponse(message) == Some(r) <==> r.Valid() && message == PrintSignedResponse(r)
  {
    if r.Valid() {
      HexHasNoMarks(r.nonce);
      HexHasNoMarks(r.key);
      HexHasNoMarks(r.signature);
      FieldsRoundTrip(message, SIGNED_RESPONSE, [r.clientId, r.nonce, r.key, r.signature]);
    }
  }

  lemma CertificateChallengeRoundTrip(c: CertificateChallenge, message: string)
    ensures TryParseCertificateChallenge(message) == Some(c) <==> c.Valid() && message == PrintCertificateChallenge(c)
  {
    if c.Valid() {
      HexHasNoMarks(c.nonce);
      HexHasNoMarks(c.key);
      HexHasNoMarks(c.certificate);
      FieldsRoundTrip(message, CERTIFICATE_CHALLENGE, [c.nonce, c.key, c.certificate]);
    }
  }

  lemma CertificateResponseRoundTrip(r: CertificateResponse, message: string)
    ensures TryParseCertificateResponse(message) == Some(r) <==> r.Valid() && message == PrintCertificateResponse(r)
  {
    if r.Valid() {
      HexHasNoMarks(r.nonce);
      HexHasNoMarks(r.key);
      HexHasNoMarks(r.certificate);
      HexHasNoMarks(r.signature);
      FieldsRoundTrip(message, CERTIFICATE_RESPONSE, [r.clientId, r.nonce, r.key, r.certificate, r.signature]);
    }
  }

  /** The messages as they go over the wire, field by field. */
  lemma MessageTexts(c: SignedChallenge, r: SignedResponse, cc: CertificateChallenge, cr: CertificateResponse)
    ensures c.Valid() ==> BuildSignedChallenge(c) == Some("AUTH_SIGNED_CHALLENGE_V1 " + c.nonce + " " + c.key)
    ensures PrintSignedResponse(r)
         == "AUTH_SIGNED_RESPONSE_V1 " + (r.clientId + " " + r.nonce + " " + r.key + " " + r.signature)
    ensures PrintCertificateChallenge(cc)
         == "AUTH_CERT_CHALLENGE_V1 " + (cc.nonce + " " + cc.key + " " + cc.certificate)
    ensures PrintCertificateResponse(cr)
         == "AUTH_CERT_RESPONSE_V1 "
            + (cr.clientId + " " + cr.nonce + " " + cr.key + " " + cr.certificate + " " + cr.signature)
  {
    Join4(r.clientId, r.nonce, r.key, r.signature, ' ');
    Join3(cc.nonce, cc.key, cc.certificate, ' ');
    Join5(cr.clientId, cr.nonce, cr.key, cr.certificate, cr.signature, ' ');
    hide Join;
  }

  // ---------- The session message ----------

  /** HMAC in lowercase hexadecimal: message, then key (section 2 of RFC 2104). */
  type Hmac = (string, string) -> string

  function SessionMac(hmac: Hmac, id: string, secret: string): string {
    hmac("TransferUDT secure session v1|" + id, secret)
  }

  function BuildSecureSession(hmac: Hmac, id: string, secret: string): Option<string> {
    if IsHexOf(id, 16) && secret != "" then Some(SECURE_SESSION + id + " " + SessionMac(hmac, id, secret)) else None
  }

  function TryParseSecureSession(hmac: Hmac, message: string, secret: string): Option<string> {
    if secret == "" then None else
    var payload :- Payload(message, SECURE_SESSION);
    var (id, signature) :- Cut(payload);
    if Cut(signature).Some? || !IsHexOf(id, 16) || !IsHexOf(signature, 32) then None
    else if signature == SessionMac(hmac, id, secret) then Some(id) else None
  }

  /** Under an HMAC without collisions the session message fixes session and secret. */
  lemma SessionMacDetermines(hmac: Hmac, id: string, secret: string, id': string, secret': string)
    requires forall m, k, m', k' :: hmac(m, k) == hmac(m', k') ==> m == m' && k == k'
    ensures SessionMac(hmac, id, secret) == SessionMac(hmac, id', secret') <==> id == id' && secret == secret'
  {
    var prefix := "TransferUDT secure session v1|";
    assert (prefix + id)[|prefix|..] == id && (prefix + id')[|prefix|..] == id';
  }

  lemma SecureSessionRoundTrip(hmac: Hmac, id: string, secret: string, message: string)
    requires IsHexOf(SessionMac(hmac, id, secret), 32)
    ensures TryParseSecureSession(hmac, message, secret) == Some(id)
       <==> BuildSecureSession(hmac, id, secret) == Some(message)
  {
    var mac := SessionMac(hmac, id, secret);
    HexHasNoMarks(mac);
    CutMeans(mac);
    if IsHexOf(id, 16) {
      HexHasNoMarks(id);
      CutUndoes(id, mac);
      assert SECURE_SESSION + id + " " + mac == SECURE_SESSION + (id + " " + mac);
    }
    if SECURE_SESSION <= message {
      CutMeans(message[|SECURE_SESSION|..]);
      assert message == SECURE_SESSION + message[|SECURE_SESSION|..];
    }
  }
}
