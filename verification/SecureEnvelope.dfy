/** The session envelope around every packet: what the sender builds, what the
    receiver parses and authenticates, and the length limits on both sides.
    Authenticated encryption itself is a parameter. */
module SecureEnvelope {
  import opened Basics
  import opened BigEndian
  import ChunkPacket

  const MAGIC: Bytes := [0x54, 0x55, 0x44, 0x54, 0x53, 0x45, 0x43, 0x31]
  const VERSION: nat := 2
  const NONCE_SIZE: nat := 12
  const TAG_SIZE: nat := 16
  const SESSION_ID_BYTES: nat := 16
  const HEADER_SIZE: nat := 56
  const MAX_CONTROL_MESSAGE: nat := 64 * 1024
  const OVERHEAD: nat := 80

  datatype Sealed = Sealed(cipher: Bytes, tag: Bytes)

  /** AES-256-GCM under an already derived key: key, nonce, authenticated data, and
      plaintext or ciphertext with tag (section 7 of NIST SP 800-38D). */
  datatype Aead = Aead(
    seal: (Bytes, Bytes, Bytes, Bytes) -> Sealed,
    open: (Bytes, Bytes, Bytes, Sealed) -> Option<Bytes>)
  {
    /** Decryption undoes encryption, and lengths are those of a counter mode. */
    ghost predicate Lawful() {
      forall key, nonce, aad, plain ::
        && |seal(key, nonce, aad, plain).cipher| == |plain| && |seal(key, nonce, aad, plain).tag| == TAG_SIZE
        && open(key, nonce, aad, seal(key, nonce, aad, plain)) == Some(plain)
    }
  }

  // ---------- Hexadecimal session ids ----------

  function HexDigit(v: int): (b: byte)
    requires 0 <= v < 16
  {
    if v < 10 then 0x30 + v else 0x61 + v - 10
  }

  predicate IsHexDigit(b: byte) { 0x30 <= b <= 0x39 || 0x61 <= b <= 0x66 }

  function HexValue(b: byte): (v: int)
    requires IsHexDigit(b)
    ensures 0 <= v < 16 && HexDigit(v) == b
  {
    if b <= 0x39 then b - 0x30 else b - 0x61 + 10
  }

  predicate IsHex(s: Bytes) { forall i :: 0 <= i < |s| ==> IsHexDigit(s[i]) }

  function HexAt(data: Bytes, j: nat): byte
    requires j < 2 * |data|
  {
    HexDigit(if j % 2 == 0 then data[j / 2] / 16 else data[j / 2] % 16)
  }

  function ByteAt(s: Bytes, i: nat): byte
    requires 2 * i + 1 < |s| && IsHex(s)
  {
    HexValue(s[2 * i]) * 16 + HexValue(s[2 * i + 1])
  }

  function ToHex(data: Bytes): (s: Bytes)
    ensures |s| == 2 * |data|
  {
    seq(2 * |data|, j requires 0 <= j < 2 * |data| => HexAt(data, j))
  }

  function FromHex(s: Bytes): (data: Bytes)
    requires |s| % 2 == 0 && IsHex(s)
    ensures 2 * |data| == |s|
  {
    seq(|s| / 2, i requires 0 <= i < |s| / 2 => ByteAt(s, i))
  }

  lemma DigitIsHex(v: int)
    requires 0 <= v < 16
    ensures IsHexDigit(HexDigit(v)) && HexValue(HexDigit(v)) == v
  {
  }

  lemma FromHexUndoes(data: Bytes)
    ensures IsHex(ToHex(data)) && FromHex(ToHex(data)) == data
  {
    forall j | 0 <= j < 2 * |data| ensures IsHexDigit(ToHex(data)[j]) {
      DigitIsHex(if j % 2 == 0 then data[j / 2] / 16 else data[j / 2] % 16);
    }
    forall i | 0 <= i < |data| ensures FromHex(ToHex(data))[i] == data[i] {
      assert ToHex(data)[2 * i] == HexDigit(data[i] / 16) && ToHex(data)[2 * i + 1] == HexDigit(data[i] % 16);
      DigitIsHex(data[i] / 16);
      DigitIsHex(data[i] % 16);
    }
  }

  lemma PairIsHex(a: byte, b: byte)
    requires IsHexDigit(a) && IsHexDigit(b)
    ensures var v := HexValue(a) * 16 + HexValue(b);
            v < 256 && HexDigit(v / 16) == a && HexDigit(v % 16) == b
  {
  }

  lemma ToHexUndoes(s: Bytes)
    requires |s| % 2 == 0 && IsHex(s)
    ensures ToHex(FromHex(s)) == s
  {
    forall j | 0 <= j < |s| ensures ToHex(FromHex(s))[j] == s[j] {
      var i := j / 2;
      assert FromHex(s)[i] == ByteAt(s, i);
      PairIsHex(s[2 * i], s[2 * i + 1]);
    }
  }

  /** The codec loops. */
  method EncodeHex(data: Bytes) returns (out: Bytes)
    ensures out == ToHex(data)
  {
    out := [];
    for i := 0 to |data|
      invariant |out| == 2 * i
      invariant forall j :: 0 <= j < 2 * i ==> out[j] == HexAt(data, j)
    {
      assert HexAt(data, 2 * i) == HexDigit(data[i] / 16) && HexAt(data, 2 * i + 1) == HexDigit(data[i] % 16);
      out := out + [HexDigit(data[i] / 16)];
      out := out + [HexDigit(data[i] % 16)];
    }
  }

  method DecodeHex(s: Bytes) returns (bytes: Bytes)
    requires |s| % 2 == 0 && IsHex(s)
    ensures bytes == FromHex(s)
  {
    bytes := [];
    var index := 0;
    while index < |s|
      invariant 0 <= index <= |s| && index == 2 * |bytes|
      invariant forall i :: 0 <= i < |bytes| ==> bytes[i] == ByteAt(s, i)
    {
      bytes := bytes + [HexValue(s[index]) * 16 + HexValue(s[index + 1])];
      index := index + 2;
    }
  }

  predicate IsValidSessionId(sessionId: Bytes) { |sessionId| == 2 * SESSION_ID_BYTES && IsHex(sessionId) }

  // ---------- The envelope ----------

  datatype Envelope = Envelope(sessionId: Bytes, sequence: uint64, nonce: Bytes, tag: Bytes, cipher: Bytes) {
    predicate WellFormed() {
      && |sessionId| == SESSION_ID_BYTES && sequence > 0
      && |nonce| == NONCE_SIZE && |tag| == TAG_SIZE
      && OVERHEAD + |cipher| < UINT32_LIMIT
    }
  }

  function HeaderFields(sessionId: Bytes, sequence: uint64, cipherLength: uint32, rest: Bytes): Bytes {
    U32(VERSION)
    + (U32(SESSION_ID_BYTES)
       + (U64(sequence) + (U32(NONCE_SIZE) + (U32(TAG_SIZE) + (U32(cipherLength) + (sessionId + rest))))))
  }

  /** The header, which is also the authenticated data. */
  function Header(sessionId: Bytes, sequence: uint64, cipherLength: nat): Bytes
    requires OVERHEAD + cipherLength < UINT32_LIMIT
  {
    U32(OVERHEAD + cipherLength) + (MAGIC + HeaderFields(sessionId, sequence, cipherLength, []))
  }

  function Wire(e: Envelope): Bytes
    requires e.WellFormed()
  {
    U32(OVERHEAD + |e.cipher|)
    + (MAGIC + HeaderFields(e.sessionId, e.sequence, |e.cipher|, e.nonce + (e.tag + e.cipher)))
  }

  /** The receiver authenticates exactly the header bytes the sender did, and the
      content is 80 bytes longer than the plaintext. */
  lemma WireStartsWithHeader(e: Envelope)
    requires e.WellFormed()
    ensures |Wire(e)| == 4 + OVERHEAD + |e.cipher|
    ensures |Header(e.sessionId, e.sequence, |e.cipher|)| == HEADER_SIZE
    ensures Wire(e) == Header(e.sessionId, e.sequence, |e.cipher|) + (e.nonce + (e.tag + e.cipher))
    ensures Wire(e)[..HEADER_SIZE] == Header(e.sessionId, e.sequence, |e.cipher|)
  {
    var tail := e.nonce + (e.tag + e.cipher);
    assert HeaderFields(e.sessionId, e.sequence, |e.cipher|, []) + tail
        == HeaderFields(e.sessionId, e.sequence, |e.cipher|, tail);
  }

  /** The packet byte by byte; version 2, a 16-byte session id, 12-byte nonce and 16-byte
      tag. */
  lemma WireLayout(e: Envelope)
    requires e.WellFormed()
    ensures Wire(e) ==
            U32(80 + |e.cipher|) + [0x54, 0x55, 0x44, 0x54, 0x53, 0x45, 0x43, 0x31] + U32(2) + U32(16)
            + U64(e.sequence) + U32(12) + U32(16) + U32(|e.cipher|) + e.sessionId + e.nonce + e.tag + e.cipher
  {
    hide U32, U64;
  }

  /** Parsing as a function of the packet; only the session-bound version counts. */
  function ParsedEnvelope(packet: Bytes): Option<Envelope> {
    var (contentLength, body) :- TakeU32(packet);
    if |body| != contentLength || !(MAGIC <= body) then None else ParsedFields(body[|MAGIC|..])
  }

  function ParsedFields(s: Bytes): Option<Envelope> {
    var (version, s1) :- TakeU32(s);
    if version != VERSION then None else
    var (idLength, s2) :- TakeU32(s1);
    var (sequence, s3) :- TakeU64(s2);
    var (nonceLength, s4) :- TakeU32(s3);
    var (tagLength, s5) :- TakeU32(s4);
    var (cipherLength, s6) :- TakeU32(s5);
    ParsedTail(idLength, sequence, nonceLength, tagLength, cipherLength, s6)
  }

  function ParsedTail(
    idLength: nat, sequence: uint64, nonceLength: nat, tagLength: nat, cipherLength: nat, s: Bytes): Option<Envelope>
  {
    if idLength != SESSION_ID_BYTES || sequence == 0 || |s| < idLength then None else
    var payload := s[idLength..];
    if nonceLength != NONCE_SIZE || tagLength != TAG_SIZE || |payload| != NONCE_SIZE + TAG_SIZE + cipherLength then None
    else Some(Envelope(s[..idLength], sequence, payload[..NONCE_SIZE],
                       payload[NONCE_SIZE..NONCE_SIZE + TAG_SIZE], payload[NONCE_SIZE + TAG_SIZE..]))
  }

  lemma TailUndone(e: Envelope)
    requires e.WellFormed()
    ensures ParsedTail(SESSION_ID_BYTES, e.sequence, NONCE_SIZE, TAG_SIZE, |e.cipher|,
                       e.sessionId + (e.nonce + (e.tag + e.cipher))) == Some(e)
  {
    var payload := e.nonce + (e.tag + e.cipher);
    var s := e.sessionId + payload;
    assert s[..SESSION_ID_BYTES] == e.sessionId && s[SESSION_ID_BYTES..] == payload;
    assert payload[..NONCE_SIZE] == e.nonce && payload[NONCE_SIZE..NONCE_SIZE + TAG_SIZE] == e.tag;
    assert payload[NONCE_SIZE + TAG_SIZE..] == e.cipher;
  }

  lemma FieldsUndone(e: Envelope)
    requires e.WellFormed()
    ensures ParsedFields(HeaderFields(e.sessionId, e.sequence, |e.cipher|, e.nonce + (e.tag + e.cipher))) == Some(e)
  {
    var payload := e.nonce + (e.tag + e.cipher);
    var s6 := e.sessionId + payload;
    var s5 := U32(|e.cipher|) + s6;
    var s4 := U32(TAG_SIZE) + s5;
    var s3 := U32(NONCE_SIZE) + s4;
    var s2 := U64(e.sequence) + s3;
    TakeU32Undoes(VERSION, U32(SESSION_ID_BYTES) + s2);
    TakeU32Undoes(SESSION_ID_BYTES, s2);
    TakeU64Undoes(e.sequence, s3);
    TakeU32Undoes(NONCE_SIZE, s4);
    TakeU32Undoes(TAG_SIZE, s5);
    TakeU32Undoes(|e.cipher|, s6);
    TailUndone(e);
    hide TakeU32, TakeU64, U32, U64, ParsedTail;
    assert ParsedFields(U32(VERSION) + (U32(SESSION_ID_BYTES) + s2))
        == ParsedTail(SESSION_ID_BYTES, e.sequence, NONCE_SIZE, TAG_SIZE, |e.cipher|, s6);
  }

  lemma ParseUndoesWire(e: Envelope)
    requires e.WellFormed()
    ensures ParsedEnvelope(Wire(e)) == Some(e)
  {
    WireStartsWithHeader(e);
    var fields := HeaderFields(e.sessionId, e.sequence, |e.cipher|, e.nonce + (e.tag + e.cipher));
    TakeU32Undoes(OVERHEAD + |e.cipher|, MAGIC + fields);
    assert (MAGIC + fields)[|MAGIC|..] == fields;
    FieldsUndone(e);
  }

  lemma TailMeans(idLength: nat, sequence: uint64, nonceLength: nat, tagLength: nat, cipherLength: nat, s: Bytes)
    ensures var r := ParsedTail(idLength, sequence, nonceLength, tagLength, cipherLength, s);
            r.Some? ==>
              && idLength == |r.value.sessionId| == SESSION_ID_BYTES && r.value.sequence == sequence > 0
              && nonceLength == |r.value.nonce| == NONCE_SIZE && tagLength == |r.value.tag| == TAG_SIZE
              && |r.value.cipher| == cipherLength
              && s == r.value.sessionId + (r.value.nonce + (r.value.tag + r.value.cipher))
  {
    var r := ParsedTail(idLength, sequence, nonceLength, tagLength, cipherLength, s);
    if r.Some? {
      assert s[idLength..] == r.value.nonce + (r.value.tag + r.value.cipher);
      assert s == s[..idLength] + s[idLength..];
    }
  }

  lemma FieldsMean(s: Bytes)
    ensures var r := ParsedFields(s);
            r.Some? ==>
              && |r.value.sessionId| == SESSION_ID_BYTES && r.value.sequence > 0
              && |r.value.nonce| == NONCE_SIZE && |r.value.tag| == TAG_SIZE && |r.value.cipher| < UINT32_LIMIT
              && s == HeaderFields(r.value.sessionId, r.value.sequence, |r.value.cipher|,
                                   r.value.nonce + (r.value.tag + r.value.cipher))
  {
    var r := ParsedFields(s);
    if r.Some? {
      var e := r.value;
      var s1 := TakeU32(s).value.1;
      var s2 := TakeU32(s1).value.1;
      var s3 := TakeU64(s2).value.1;
      var s4 := TakeU32(s3).value.1;
      var s5 := TakeU32(s4).value.1;
      var s6 := TakeU32(s5).value.1;
      TakeU32Means(s);
      TakeU32Means(s1);
      TakeU64Means(s2);
      TakeU32Means(s3);
      TakeU32Means(s4);
      TakeU32Means(s5);
      TailMeans(TakeU32(s1).value.0, TakeU64(s2).value.0, TakeU32(s3).value.0,
                TakeU32(s4).value.0, TakeU32(s5).value.0, s6);
      hide TakeU32, TakeU64, U32, U64, ParsedTail;
      var payload := e.nonce + (e.tag + e.cipher);
      assert s5 == U32(|e.cipher|) + (e.sessionId + payload);
      assert s3 == U32(NONCE_SIZE) + (U32(TAG_SIZE) + s5);
      assert s == U32(VERSION) + (U32(SESSION_ID_BYTES) + (U64(e.sequence) + s3));
    }
  }

  /** A packet that parses is byte for byte the wire image of its envelope. */
  lemma WireUndoesParse(packet: Bytes)
    ensures var r := ParsedEnvelope(packet);
            r.Some? ==> r.value.WellFormed() && Wire(r.value) == packet
  {
    TakeU32Means(packet);
    if ParsedEnvelope(packet).Some? {
      var (contentLength, body) := TakeU32(packet).value;
      FieldsMean(body[|MAGIC|..]);
      assert body == MAGIC + body[|MAGIC|..];
      assert |body| == OVERHEAD + |ParsedEnvelope(packet).value.cipher|;
    }
  }

  // ---------- Encrypting and decrypting ----------

  /** The packet's own length prefix matches its size. */
  predicate ValidPacketLength(packet: Bytes) {
    TakeU32(packet).Some? && |TakeU32(packet).value.1| == TakeU32(packet).value.0
  }

  /** Sizes OpenSSL takes as int. */
  predicate FitsInt(size: nat) { size < INT32_LIMIT }

  predicate CanEncrypt(plain: Bytes, sessionId: Bytes, sequence: uint64) {
    ValidPacketLength(plain) && IsValidSessionId(sessionId) && sequence != 0 && FitsInt(|plain|)
  }

  function SealedEnvelope(
    aead: Aead, plain: Bytes, key: Bytes, sessionId: Bytes, sequence: uint64, nonce: Bytes): Envelope
    requires CanEncrypt(plain, sessionId, sequence)
  {
    var raw := FromHex(sessionId);
    var sealed := aead.seal(key, nonce, Header(raw, sequence, |plain|), plain);
    Envelope(raw, sequence, nonce, sealed.tag, sealed.cipher)
  }

  datatype Opened = Opened(plain: Bytes, sequence: uint64)

  ghost function Decrypted(aead: Aead, packet: Bytes, key: Bytes, sessionId: Bytes): Option<Opened> {
    if !IsValidSessionId(sessionId) then None else
    var e :- ParsedEnvelope(packet);
    if ToHex(e.sessionId) != sessionId || !FitsInt(|e.cipher|) || |packet| < HEADER_SIZE then None else
    var plain :- aead.open(key, e.nonce, packet[..HEADER_SIZE], Sealed(e.cipher, e.tag));
    if ValidPacketLength(plain) then Some(Opened(plain, e.sequence)) else None
  }

  lemma SealedWellFormed(
    aead: Aead, plain: Bytes, key: Bytes, sessionId: Bytes, sequence: uint64, nonce: Bytes)
    requires aead.Lawful() && |nonce| == NONCE_SIZE && CanEncrypt(plain, sessionId, sequence)
    ensures var e := SealedEnvelope(aead, plain, key, sessionId, sequence, nonce);
            && e.WellFormed() && |e.cipher| == |plain|
            && e.sessionId == FromHex(sessionId) && e.sequence == sequence && e.nonce == nonce
            && ToHex(e.sessionId) == sessionId
            && Sealed(e.cipher, e.tag) == aead.seal(key, nonce, Header(e.sessionId, sequence, |plain|), plain)
  {
    ToHexUndoes(sessionId);
  }

  /** Decrypting what was encrypted returns the plaintext and the sequence number. */
  lemma DecryptUndoesEncrypt(
    aead: Aead, plain: Bytes, key: Bytes, sessionId: Bytes, sequence: uint64, nonce: Bytes)
    requires aead.Lawful() && |nonce| == NONCE_SIZE && CanEncrypt(plain, sessionId, sequence)
    ensures var e := SealedEnvelope(aead, plain, key, sessionId, sequence, nonce);
            && e.WellFormed()
            && |Wire(e)| == 4 + OVERHEAD + |plain|
            && Decrypted(aead, Wire(e), key, sessionId) == Some(Opened(plain, sequence))
  {
    var e := SealedEnvelope(aead, plain, key, sessionId, sequence, nonce);
    SealedWellFormed(aead, plain, key, sessionId, sequence, nonce);
    ParseUndoesWire(e);
    WireStartsWithHeader(e);
    hide Wire, ParsedEnvelope, Header, SealedEnvelope, ToHex, FromHex;
    assert aead.open(key, nonce, Header(e.sessionId, sequence, |plain|),
                     aead.seal(key, nonce, Header(e.sessionId, sequence, |plain|), plain)) == Some(plain);
  }

  /** Whatever the receiver accepts is the wire image of one envelope for its session,
      whose payload the cipher opened under exactly that envelope's header; in no
      other session, under whatever key, is it accepted. */
  lemma DecryptedMeans(aead: Aead, packet: Bytes, key: Bytes, sessionId: Bytes)
    ensures var r := Decrypted(aead, packet, key, sessionId);
            r.Some? ==>
              exists e: Envelope :: e.WellFormed() && packet == Wire(e) && ToHex(e.sessionId) == sessionId
                && e.sequence == r.value.sequence && 0 < e.sequence
                && aead.open(key, e.nonce, Header(e.sessionId, e.sequence, |e.cipher|), Sealed(e.cipher, e.tag))
                     == Some(r.value.plain)
    ensures Decrypted(aead, packet, key, sessionId).Some? ==>
              forall key', other :: Decrypted(aead, packet, key', other).Some? ==> other == sessionId
  {
    WireUndoesParse(packet);
    if Decrypted(aead, packet, key, sessionId).Some? {
      WireStartsWithHeader(ParsedEnvelope(packet).value);
    }
  }

  // ---------- Limits ----------

  function MaxContentLength(plainLength: nat): nat { plainLength + OVERHEAD }

  const MAX_CONTROL_CONTENT: nat := MaxContentLength(4 + MAX_CONTROL_MESSAGE)

  predicate ControlLengthAccepted(content: nat) { content != 0 && content <= MAX_CONTROL_CONTENT }

  function ControlPacket(message: Bytes): Bytes
    requires |message| < UINT32_LIMIT
  {
    Field(message)
  }

  function ReadControl(plain: Bytes): Option<Bytes> {
    var (length, rest) :- TakeU32(plain);
    if length > MAX_CONTROL_MESSAGE || |rest| != length then None else Some(rest)
  }

  /** A control message of legal size passes the receiver's limit, decrypts and reads
      back; a longer one would not pass. */
  lemma ControlRoundTrip(aead: Aead, message: Bytes, key: Bytes, sessionId: Bytes, sequence: uint64, nonce: Bytes)
    requires aead.Lawful() && |nonce| == NONCE_SIZE && IsValidSessionId(sessionId) && sequence != 0
    requires FitsInt(4 + |message|)
    ensures CanEncrypt(ControlPacket(message), sessionId, sequence)
    ensures var e := SealedEnvelope(aead, ControlPacket(message), key, sessionId, sequence, nonce);
            && e.WellFormed()
            && (ControlLengthAccepted(|Wire(e)| - 4) <==> |message| <= MAX_CONTROL_MESSAGE)
            && Decrypted(aead, Wire(e), key, sessionId) == Some(Opened(ControlPacket(message), sequence))
            && (ReadControl(ControlPacket(message)) == if |message| <= MAX_CONTROL_MESSAGE then Some(message) else None)
  {
    TakeU32Undoes(|message|, message);
    DecryptUndoesEncrypt(aead, ControlPacket(message), key, sessionId, sequence, nonce);
  }

  predicate ChunkLengthAccepted(content: nat) {
    content != 0 && content <= MaxContentLength(ChunkPacket.MAX_PACKET_BYTES)
  }

  /** The server's packet limit is stated on the plaintext without its own length
      prefix, so it passes exactly the chunk packets of at most the packet limit
      with the prefix counted; every in-bounds chunk is below that. */
  lemma ChunkLimitExact(aead: Aead, m: ChunkPacket.Message,
    key: Bytes, sessionId: Bytes, sequence: uint64, nonce: Bytes)
    requires aead.Lawful() && |nonce| == NONCE_SIZE && m.Encodable()
    requires IsValidSessionId(sessionId) && sequence != 0 && FitsInt(|ChunkPacket.Wire(m)|)
    ensures CanEncrypt(ChunkPacket.Wire(m), sessionId, sequence)
    ensures var e := SealedEnvelope(aead, ChunkPacket.Wire(m), key, sessionId, sequence, nonce);
            && e.WellFormed()
            && (ChunkLengthAccepted(|Wire(e)| - 4) <==> |ChunkPacket.Wire(m)| <= ChunkPacket.MAX_PACKET_BYTES)
            && (m.InBounds() ==> ChunkLengthAccepted(|Wire(e)| - 4))
  {
    TakeU32Undoes(ChunkPacket.ContentLength(m), ChunkPacket.Names(m));
    ChunkPacket.WireLength(m);
    DecryptUndoesEncrypt(aead, ChunkPacket.Wire(m), key, sessionId, sequence, nonce);
  }

  // ---------- The code that builds and parses packets ----------

  /** The header fields are appended one by one. */
  method BuildHeader(rawSessionId: Bytes, sequence: uint64, plainLength: nat) returns (header: Bytes)
    requires |rawSessionId| == SESSION_ID_BYTES && OVERHEAD + plainLength < UINT32_LIMIT
    ensures header == Header(rawSessionId, sequence, plainLength)
  {
    hide U32, U64;
    var contentLength := 36 + |rawSessionId| + NONCE_SIZE + TAG_SIZE + plainLength;
    header := U32(contentLength);
    header := header + MAGIC;
    header := header + U32(VERSION);
    header := header + U32(|rawSessionId|);
    header := header + U64(sequence);
    header := header + U32(NONCE_SIZE);
    header := header + U32(TAG_SIZE);
    header := header + U32(plainLength);
    header := header + rawSessionId;
  }

  /** EncryptPacket: checks, header, encryption under the header, payload. `nonce` is
      the random draw. */
  method EncryptPacket(aead: Aead, plain: Bytes, key: Bytes, sessionId: Bytes, sequence: uint64, nonce: Bytes)
    returns (packet: Option<Bytes>)
    requires aead.Lawful() && |nonce| == NONCE_SIZE
    ensures packet.Some? <==> CanEncrypt(plain, sessionId, sequence)
    ensures packet.Some? ==>
              var e := SealedEnvelope(aead, plain, key, sessionId, sequence, nonce);
              e.WellFormed() && packet.value == Wire(e)
  {
    if !ValidPacketLength(plain) || !IsValidSessionId(sessionId) || sequence == 0 || !FitsInt(|plain|) {
      return None;
    }
    SealedWellFormed(aead, plain, key, sessionId, sequence, nonce);
    ToHexUndoes(sessionId);
    var rawSessionId := DecodeHex(sessionId);
    ghost var e := SealedEnvelope(aead, plain, key, sessionId, sequence, nonce);
    WireStartsWithHeader(e);
    hide FromHex, ToHex, Header, Wire, Aead.Lawful, ValidPacketLength, SealedEnvelope, IsHex, Envelope.WellFormed;
    var out := BuildHeader(rawSessionId, sequence, |plain|);
    var sealed := aead.seal(key, nonce, out, plain);
    Associative(out, nonce, sealed.tag + sealed.cipher);
    Associative(out + nonce, sealed.tag, sealed.cipher);
    out := out + nonce;
    out := out + sealed.tag;
    out := out + sealed.cipher;
    packet := Some(out);
  }

  /** ParseEnvelope advances an offset through the packet. */
  method ParseEnvelope(packet: Bytes) returns (envelope: Option<Envelope>)
    ensures envelope == ParsedEnvelope(packet)
  {
    var contentLength, start := ReadUint32(packet, 0);
    assert packet[0..] == packet;
    assert contentLength.Some? ==> |packet[start..]| == |packet| - 4;
    if contentLength.None? || |packet| != start + contentLength.value || |packet| < 4 + |MAGIC|
       || packet[start..start + |MAGIC|] != MAGIC
    {
      assert contentLength.Some? && |packet| >= 12 ==> packet[start..][..|MAGIC|] == packet[start..start + |MAGIC|];
      return None;
    }
    assert packet[start..][..|MAGIC|] == MAGIC;
    assert packet[start..][|MAGIC|..] == packet[start + |MAGIC|..];
    envelope := ParseFields(packet, start + |MAGIC|);
  }

  method ParseFields(packet: Bytes, start: nat) returns (envelope: Option<Envelope>)
    requires start <= |packet|
    ensures envelope == ParsedFields(packet[start..])
  {
    hide TakeU32, TakeU64;
    var version, offset := ReadUint32(packet, start);
    if version.None? || version.value != VERSION { return None; }
    var idLength;
    idLength, offset := ReadUint32(packet, offset);
    if idLength.None? { return None; }
    var sequence;
    sequence, offset := ReadUint64(packet, offset);
    if sequence.None? { return None; }
    var nonceLength;
    nonceLength, offset := ReadUint32(packet, offset);
    if nonceLength.None? { return None; }
    var tagLength;
    tagLength, offset := ReadUint32(packet, offset);
    if tagLength.None? { return None; }
    var cipherLength;
    cipherLength, offset := ReadUint32(packet, offset);
    if cipherLength.None? || idLength.value != SESSION_ID_BYTES || sequence.value == 0
       || |packet| - offset < idLength.value {
      return None;
    }
    var rest := packet[offset..];
    offset := offset + SESSION_ID_BYTES;
    assert packet[offset..] == rest[SESSION_ID_BYTES..];
    if nonceLength.value != NONCE_SIZE || tagLength.value != TAG_SIZE
       || |packet| - offset != nonceLength.value as int + tagLength.value as int + cipherLength.value
    {
      return None;
    }
    envelope := Some(Envelope(rest[..SESSION_ID_BYTES], sequence.value, packet[offset..][..NONCE_SIZE],
                              packet[offset..][NONCE_SIZE..NONCE_SIZE + TAG_SIZE],
                              packet[offset..][NONCE_SIZE + TAG_SIZE..]));
  }

  method DecryptPacket(aead: Aead, packet: Bytes, key: Bytes, sessionId: Bytes) returns (r: Option<Opened>)
    ensures r == Decrypted(aead, packet, key, sessionId)
  {
    if !IsValidSessionId(sessionId) {
      return None;
    }
    var envelope := ParseEnvelope(packet);
    if envelope.None? {
      return None;
    }
    var e := envelope.value;
    WireUndoesParse(packet);
    WireStartsWithHeader(e);
    var id := EncodeHex(e.sessionId);
    if id != sessionId || !FitsInt(|e.cipher|) {
      return None;
    }
    var plain := aead.open(key, e.nonce, packet[..HEADER_SIZE], Sealed(e.cipher, e.tag));
    if plain.None? || !ValidPacketLength(plain.value) {
      return None;
    }
    r := Some(Opened(plain.value, e.sequence));
  }
}
