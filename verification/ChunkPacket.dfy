/** The chunk packet: the agent's serializer, the server's parser, and the
    bijection between them over the parser's bounds. */
module ChunkPacket {
  import opened Basics
  import opened BigEndian
  import opened PathNames

  const MAX_CHUNK_BYTES: nat := 4 * 1024 * 1024
  const MAX_PACKET_BYTES: nat := MAX_CHUNK_BYTES + 256 * 1024
  const MAX_FILE_BYTES: nat := 100 * 1024 * 1024 * 1024
  const MAX_TOTAL_CHUNKS: nat := 1_000_000
  const MAX_SERVER_ADDRESS: nat := 128
  const HEX_LENGTH: nat := 64

  datatype Message = Message(
    filename: Bytes, directory: Bytes, serverAddress: Bytes, transferId: Bytes,
    number: int32, total: int32, offset: uint64, fileSize: uint64,
    digest: Bytes, data: Bytes)
  {
    /** Every length fits its 32-bit prefix, the outer one included. */
    predicate Encodable() {
      56 + |filename| + |directory| + |serverAddress| + |transferId| + |digest| + |data| < UINT32_LIMIT
    }

    /** What the parser insists on. A zero total leaves the number unconstrained. */
    predicate InBounds() {
      && |filename| <= MAX_FILENAME && IsSafeFilename(filename)
      && |directory| <= MAX_DIRECTORY && IsSafeRelativeDirectory(directory)
      && |serverAddress| <= MAX_SERVER_ADDRESS
      && |transferId| == HEX_LENGTH && IsLowerHex(transferId)
      && 0 <= total <= MAX_TOTAL_CHUNKS
      && (total > 0 ==> 0 <= number < total)
      && 0 < fileSize <= MAX_FILE_BYTES
      && |digest| == HEX_LENGTH && IsLowerHex(digest)
      && 0 < |data| <= MAX_CHUNK_BYTES
      && offset < fileSize && |data| <= fileSize - offset
    }
  }

  // ---------- The wire image ----------

  function Names(m: Message): Bytes
    requires m.Encodable()
  {
    Field(m.filename) + (Field(m.directory) + (Field(m.serverAddress) + (Field(m.transferId) + Numbers(m))))
  }

  function Numbers(m: Message): Bytes
    requires m.Encodable()
  {
    U32(AsUint32(m.number)) + (U32(AsUint32(m.total)) + (U64(m.offset) + (U64(m.fileSize) + Payload(m))))
  }

  function Payload(m: Message): Bytes
    requires m.Encodable()
  {
    Field(m.digest) + (Field(m.data) + [])
  }

  function ContentLength(m: Message): nat {
    4 + |m.filename| + 4 + |m.directory| + 4 + |m.serverAddress| + 4 + |m.transferId|
    + 4 + 4 + 8 + 8 + 4 + |m.digest| + 4 + |m.data|
  }

  function Wire(m: Message): Bytes
    requires m.Encodable()
  {
    U32(ContentLength(m)) + Names(m)
  }

  lemma PayloadIs(m: Message)
    requires m.Encodable()
    ensures Payload(m) == Field(m.digest) + Field(m.data)
  {
  }

  lemma WireLength(m: Message)
    requires m.Encodable()
    ensures |Names(m)| == ContentLength(m) && |Wire(m)| == 4 + ContentLength(m)
  {
  }

  lemma PayloadLayout(m: Message)
    requires m.Encodable()
    ensures Payload(m) == U32(|m.digest|) + m.digest + U32(|m.data|) + m.data
  {
    PayloadIs(m);
    hide U32;
  }

  lemma NumbersLayout(m: Message)
    requires m.Encodable()
    ensures Numbers(m)
         == U32(AsUint32(m.number)) + U32(AsUint32(m.total)) + U64(m.offset) + U64(m.fileSize) + Payload(m)
  {
    hide U32, U64, AsUint32, Payload;
  }

  /** The packet byte by byte: its length, then every field in its place. */
  lemma WireLayout(m: Message)
    requires m.Encodable()
    ensures var names := U32(|m.filename|) + m.filename + U32(|m.directory|) + m.directory
                         + U32(|m.serverAddress|) + m.serverAddress + U32(|m.transferId|) + m.transferId;
            var numbers := U32(AsUint32(m.number)) + U32(AsUint32(m.total)) + U64(m.offset) + U64(m.fileSize);
            var payload := U32(|m.digest|) + m.digest + U32(|m.data|) + m.data;
            Wire(m) == U32(|names| + |numbers| + |payload|) + names + numbers + payload
  {
    PayloadLayout(m);
    NumbersLayout(m);
    hide U32, U64, AsUint32, Payload, Numbers;
  }

  // ---------- Parsing as a function of the buffer ----------

  function Parsed(buffer: Bytes): Option<Message> {
    var (length, body) :- TakeU32(buffer);
    if length > MAX_PACKET_BYTES || |body| != length then None else ParsedNames(body)
  }

  function ParsedNames(body: Bytes): Option<Message> {
    var (filename, s1) :- TakeField(body, 1, MAX_FILENAME);
    if !IsSafeFilename(filename) then None else
    var (directory, s2) :- TakeField(s1, 0, MAX_DIRECTORY);
    if !IsSafeRelativeDirectory(directory) then None else
    var (serverAddress, s3) :- TakeField(s2, 0, MAX_SERVER_ADDRESS);
    var (transferId, s4) :- TakeField(s3, HEX_LENGTH, HEX_LENGTH);
    if !IsLowerHex(transferId) then None else
    ParsedNumbers(filename, directory, serverAddress, transferId, s4)
  }

  function ParsedNumbers(
    filename: Bytes, directory: Bytes, serverAddress: Bytes, transferId: Bytes, s: Bytes): Option<Message>
  {
    var (number, s1) :- TakeU32(s);
    var (total, s2) :- TakeU32(s1);
    if total > MAX_TOTAL_CHUNKS || (total > 0 && number >= total) then None else
    var (offset, s3) :- TakeU64(s2);
    var (fileSize, s4) :- TakeU64(s3);
    if fileSize == 0 || fileSize > MAX_FILE_BYTES then None else
    ParsedPayload(Message(filename, directory, serverAddress, transferId,
                          AsInt32(number), AsInt32(total), offset, fileSize, [], []), s4)
  }

  function ParsedPayload(m: Message, s: Bytes): Option<Message> {
    var (digest, s1) :- TakeField(s, HEX_LENGTH, HEX_LENGTH);
    if !IsLowerHex(digest) then None else
    var (data, rest) :- TakeField(s1, 1, MAX_CHUNK_BYTES);
    if m.offset >= m.fileSize || |data| > m.fileSize - m.offset || rest != [] then None
    else Some(m.(digest := digest, data := data))
  }

  // ---------- Printing then parsing ----------

  lemma PayloadUndone(m: Message)
    requires m.Encodable() && m.InBounds()
    ensures ParsedPayload(m.(digest := [], data := []), Payload(m)) == Some(m)
  {
    TakeFieldUndoes(m.digest, Field(m.data) + [], HEX_LENGTH, HEX_LENGTH);
    TakeFieldUndoes(m.data, [], 1, MAX_CHUNK_BYTES);
  }

  lemma NumbersUndone(m: Message)
    requires m.Encodable() && m.InBounds()
    ensures ParsedNumbers(m.filename, m.directory, m.serverAddress, m.transferId, Numbers(m)) == Some(m)
  {
    hide U32, U64, Payload, ParsedPayload, TakeU32, TakeU64;
    TakeU32Undoes(AsUint32(m.number), U32(AsUint32(m.total)) + (U64(m.offset) + (U64(m.fileSize) + Payload(m))));
    TakeU32Undoes(AsUint32(m.total), U64(m.offset) + (U64(m.fileSize) + Payload(m)));
    TakeU64Undoes(m.offset, U64(m.fileSize) + Payload(m));
    TakeU64Undoes(m.fileSize, Payload(m));
    PayloadUndone(m);
  }

  lemma NamesUndone(m: Message)
    requires m.Encodable() && m.InBounds()
    ensures ParsedNames(Names(m)) == Some(m)
  {
    TakeFieldUndoes(m.filename, Field(m.directory) + (Field(m.serverAddress) + (Field(m.transferId) + Numbers(m))),
                    1, MAX_FILENAME);
    TakeFieldUndoes(m.directory, Field(m.serverAddress) + (Field(m.transferId) + Numbers(m)), 0, MAX_DIRECTORY);
    TakeFieldUndoes(m.serverAddress, Field(m.transferId) + Numbers(m), 0, MAX_SERVER_ADDRESS);
    TakeFieldUndoes(m.transferId, Numbers(m), HEX_LENGTH, HEX_LENGTH);
    NumbersUndone(m);
  }

  /** Every message within the parser's bounds fits the packet limit. */
  lemma InBoundsFits(m: Message)
    requires m.InBounds()
    ensures m.Encodable() && |Wire(m)| <= 4 + MAX_PACKET_BYTES
  {
    WireLength(m);
  }

  /** Parsing undoes serializing, for every message within the parser's bounds. */
  lemma ParseUndoesSerialize(m: Message)
    requires m.InBounds()
    ensures m.Encodable() && Parsed(Wire(m)) == Some(m)
  {
    InBoundsFits(m);
    WireLength(m);
    TakeU32Undoes(ContentLength(m), Names(m));
    NamesUndone(m);
  }

  // ---------- Parsing then printing ----------

  lemma PayloadMeans(m: Message, s: Bytes)
    ensures var r := ParsedPayload(m, s);
            r.Some? ==>
              && r.value == m.(digest := r.value.digest, data := r.value.data)
              && |r.value.digest| == HEX_LENGTH && IsLowerHex(r.value.digest)
              && 0 < |r.value.data| <= MAX_CHUNK_BYTES && |r.value.data| <= m.fileSize - m.offset
              && (r.value.Encodable() ==> s == Payload(r.value))
  {
    TakeFieldMeans(s, HEX_LENGTH, HEX_LENGTH);
    if TakeField(s, HEX_LENGTH, HEX_LENGTH).Some? {
      TakeFieldMeans(TakeField(s, HEX_LENGTH, HEX_LENGTH).value.1, 1, MAX_CHUNK_BYTES);
    }
  }

  lemma NumbersMeans(filename: Bytes, directory: Bytes, serverAddress: Bytes, transferId: Bytes, s: Bytes)
    requires IsSafeFilename(filename) && IsSafeRelativeDirectory(directory)
    requires |serverAddress| <= MAX_SERVER_ADDRESS && |transferId| == HEX_LENGTH && IsLowerHex(transferId)
    ensures var r := ParsedNumbers(filename, directory, serverAddress, transferId, s);
            r.Some? ==>
              && r.value.InBounds() && r.value.Encodable() && s == Numbers(r.value)
              && r.value.filename == filename && r.value.directory == directory
              && r.value.serverAddress == serverAddress && r.value.transferId == transferId
  {
    var r1 := TakeU32(s);
    TakeU32Means(s);
    if r1.Some? {
      var r2 := TakeU32(r1.value.1);
      TakeU32Means(r1.value.1);
      if r2.Some? && r2.value.0 <= MAX_TOTAL_CHUNKS {
        var r3 := TakeU64(r2.value.1);
        TakeU64Means(r2.value.1);
        if r3.Some? {
          var r4 := TakeU64(r3.value.1);
          TakeU64Means(r3.value.1);
          if r4.Some? {
            PayloadMeans(Message(filename, directory, serverAddress, transferId, AsInt32(r1.value.0),
                                 AsInt32(r2.value.0), r3.value.0, r4.value.0, [], []), r4.value.1);
          }
        }
      }
    }
  }

  lemma NamesMeans(body: Bytes)
    ensures var r := ParsedNames(body);
            r.Some? ==> r.value.InBounds() && r.value.Encodable() && body == Names(r.value)
  {
    var r1 := TakeField(body, 1, MAX_FILENAME);
    TakeFieldMeans(body, 1, MAX_FILENAME);
    if r1.Some? && IsSafeFilename(r1.value.0) {
      var r2 := TakeField(r1.value.1, 0, MAX_DIRECTORY);
      TakeFieldMeans(r1.value.1, 0, MAX_DIRECTORY);
      if r2.Some? && IsSafeRelativeDirectory(r2.value.0) {
        var r3 := TakeField(r2.value.1, 0, MAX_SERVER_ADDRESS);
        TakeFieldMeans(r2.value.1, 0, MAX_SERVER_ADDRESS);
        if r3.Some? {
          var r4 := TakeField(r3.value.1, HEX_LENGTH, HEX_LENGTH);
          TakeFieldMeans(r3.value.1, HEX_LENGTH, HEX_LENGTH);
          if r4.Some? && IsLowerHex(r4.value.0) {
            NumbersMeans(r1.value.0, r2.value.0, r3.value.0, r4.value.0, r4.value.1);
          }
        }
      }
    }
  }

  /** Any buffer the parser accepts is byte for byte the serialization of its
      result, which lies within the bounds. */
  lemma SerializeUndoesParse(buffer: Bytes)
    ensures var r := Parsed(buffer);
            r.Some? ==> r.value.InBounds() && r.value.Encodable() && Wire(r.value) == buffer
  {
    TakeU32Means(buffer);
    if TakeU32(buffer).Some? {
      var body := TakeU32(buffer).value.1;
      NamesMeans(body);
      if ParsedNames(body).Some? {
        WireLength(ParsedNames(body).value);
      }
    }
  }

  // ---------- The image is unique, so acceptance is exactly the bounds ----------

  lemma NumbersUnique(m: Message, k: Message)
    requires m.Encodable() && k.Encodable() && Numbers(m) == Numbers(k)
    ensures m.number == k.number && m.total == k.total && m.offset == k.offset && m.fileSize == k.fileSize
    ensures m.digest == k.digest && m.data == k.data
  {
    hide U32, U64, Field;
    U32Unique(AsUint32(m.number), AsUint32(k.number),
              U32(AsUint32(m.total)) + (U64(m.offset) + (U64(m.fileSize) + Payload(m))),
              U32(AsUint32(k.total)) + (U64(k.offset) + (U64(k.fileSize) + Payload(k))));
    U32Unique(AsUint32(m.total), AsUint32(k.total),
              U64(m.offset) + (U64(m.fileSize) + Payload(m)), U64(k.offset) + (U64(k.fileSize) + Payload(k)));
    U64Unique(m.offset, k.offset, U64(m.fileSize) + Payload(m), U64(k.fileSize) + Payload(k));
    U64Unique(m.fileSize, k.fileSize, Payload(m), Payload(k));
    FieldUnique(m.digest, k.digest, Field(m.data) + [], Field(k.data) + []);
    FieldUnique(m.data, k.data, [], []);
  }

  /** No two messages share a wire image. */
  lemma WireUnique(m: Message, k: Message)
    requires m.Encodable() && k.Encodable() && Wire(m) == Wire(k)
    ensures m == k
  {
    assert Wire(m)[4..] == Names(m) && Wire(k)[4..] == Names(k);
    hide Field, Numbers;
    FieldUnique(m.filename, k.filename,
                Field(m.directory) + (Field(m.serverAddress) + (Field(m.transferId) + Numbers(m))),
                Field(k.directory) + (Field(k.serverAddress) + (Field(k.transferId) + Numbers(k))));
    FieldUnique(m.directory, k.directory,
                Field(m.serverAddress) + (Field(m.transferId) + Numbers(m)),
                Field(k.serverAddress) + (Field(k.transferId) + Numbers(k)));
    FieldUnique(m.serverAddress, k.serverAddress, Field(m.transferId) + Numbers(m), Field(k.transferId) + Numbers(k));
    FieldUnique(m.transferId, k.transferId, Numbers(m), Numbers(k));
    NumbersUnique(m, k);
  }

  /** The server accepts a serialized message exactly when it is within bounds. */
  lemma AcceptedIffInBounds(m: Message)
    requires m.Encodable()
    ensures Parsed(Wire(m)).Some? <==> m.InBounds()
    ensures Parsed(Wire(m)).Some? ==> Parsed(Wire(m)).value == m
  {
    SerializeUndoesParse(Wire(m));
    if Parsed(Wire(m)).Some? {
      WireUnique(Parsed(Wire(m)).value, m);
    }
    if m.InBounds() {
      ParseUndoesSerialize(m);
    }
  }

  // ---------- The serializer and the parser ----------

  method Put(buffer: array<byte>, offset: nat, part: Bytes) returns (next: nat)
    requires offset + |part| <= buffer.Length
    modifies buffer
    ensures next == offset + |part|
    ensures buffer[..next] == old(buffer[..offset]) + part
  {
    for i := 0 to |part|
      invariant buffer[..offset + i] == old(buffer[..offset]) + part[..i]
    {
      buffer[offset + i] := part[i];
      assert buffer[..offset + i + 1] == buffer[..offset + i] + [part[i]];
    }
    next := offset + |part|;
    assert part[..|part|] == part;
  }

  /** A length prefix, then the bytes when there are any. */
  method PutField(buffer: array<byte>, offset: nat, value: Bytes) returns (next: nat)
    requires |value| < UINT32_LIMIT && offset + 4 + |value| <= buffer.Length
    modifies buffer
    ensures next == offset + 4 + |value|
    ensures buffer[..next] == old(buffer[..offset]) + Field(value)
  {
    next := Put(buffer, offset, U32(|value|));
    if |value| > 0 {
      next := Put(buffer, next, value);
    }
  }

  method SerializeNames(m: Message, buffer: array<byte>, start: nat) returns (offset: nat)
    requires m.Encodable()
        && start + 16 + |m.filename| + |m.directory| + |m.serverAddress| + |m.transferId| <= buffer.Length
    modifies buffer
    ensures offset == start + 16 + |m.filename| + |m.directory| + |m.serverAddress| + |m.transferId|
    ensures buffer[..offset] + Numbers(m) == old(buffer[..start]) + Names(m)
  {
    hide Field, Numbers;
    ghost var before := buffer[..start];
    offset := PutField(buffer, start, m.filename);
    offset := PutField(buffer, offset, m.directory);
    assert buffer[..offset] == before + (Field(m.filename) + Field(m.directory));
    offset := PutField(buffer, offset, m.serverAddress);
    offset := PutField(buffer, offset, m.transferId);
    assert buffer[..offset]
      == before + (Field(m.filename) + Field(m.directory) + Field(m.serverAddress) + Field(m.transferId));
    assert Names(m) == Field(m.filename) + Field(m.directory) + Field(m.serverAddress)
      + Field(m.transferId) + Numbers(m);
  }

  method SerializeNumbers(m: Message, buffer: array<byte>, start: nat) returns (offset: nat)
    requires m.Encodable() && start + 24 <= buffer.Length
    modifies buffer
    ensures offset == start + 24
    ensures buffer[..offset] + Payload(m) == old(buffer[..start]) + Numbers(m)
  {
    offset := Put(buffer, start, U32(AsUint32(m.number)));
    offset := Put(buffer, offset, U32(AsUint32(m.total)));
    offset := Put(buffer, offset, U32(m.offset / UINT32_LIMIT));
    offset := Put(buffer, offset, U32(m.offset % UINT32_LIMIT));
    offset := Put(buffer, offset, U32(m.fileSize / UINT32_LIMIT));
    offset := Put(buffer, offset, U32(m.fileSize % UINT32_LIMIT));
  }

  method Serialize(m: Message) returns (buffer: array<byte>)
    requires m.Encodable()
    ensures fresh(buffer) && buffer[..] == Wire(m)
  {
    hide Field, Numbers, Payload, Names;
    WireLength(m);
    var contentLength := ContentLength(m);
    buffer := new byte[4 + contentLength];
    var offset := Put(buffer, 0, U32(contentLength));
    offset := SerializeNames(m, buffer, offset);
    assert buffer[..offset] + Numbers(m) == Wire(m);
    offset := SerializeNumbers(m, buffer, offset);
    assert buffer[..offset] + Payload(m) == Wire(m);
    offset := PutField(buffer, offset, m.digest);
    offset := PutField(buffer, offset, m.data);
    assert Payload(m) == Field(m.digest) + Field(m.data) by { PayloadIs(m); }
    assert buffer[..] == buffer[..offset];
  }

  /** A length within lo..hi, then that many bytes. */
  method ReadField(buffer: Bytes, offset: nat, lo: nat, hi: nat) returns (value: Option<Bytes>, next: nat)
    requires offset <= |buffer|
    ensures offset <= next <= |buffer|
    ensures value.Some? == TakeField(buffer[offset..], lo, hi).Some?
    ensures value.Some? ==> TakeField(buffer[offset..], lo, hi) == Some((value.value, buffer[next..]))
  {
    var length;
    length, next := ReadUint32(buffer, offset);
    if length.None? || length.value < lo || length.value > hi || !EnsureAvailable(next, |buffer|, length.value) {
      return None, next;
    }
    var n := length.value;
    assert buffer[next..][..n] == buffer[next..next + n];
    assert buffer[next..][n..] == buffer[next + n..];
    return Some(buffer[next..next + n]), next + n;
  }

  method ParseNames(buffer: Bytes, start: nat) returns (m: Option<Message>)
    requires start <= |buffer|
    ensures m == ParsedNames(buffer[start..])
  {
    hide TakeField, IsSafeFilename, IsSafeRelativeDirectory, IsLowerHex, ParsedNumbers;
    var filename, offset := ReadField(buffer, start, 1, MAX_FILENAME);
    if filename.None? || !IsSafeFilename(filename.value) { return None; }
    var directory;
    directory, offset := ReadField(buffer, offset, 0, MAX_DIRECTORY);
    if directory.None? || !IsSafeRelativeDirectory(directory.value) { return None; }
    var serverAddress;
    serverAddress, offset := ReadField(buffer, offset, 0, MAX_SERVER_ADDRESS);
    if serverAddress.None? { return None; }
    var transferId;
    transferId, offset := ReadField(buffer, offset, HEX_LENGTH, HEX_LENGTH);
    if transferId.None? || !IsLowerHex(transferId.value) { return None; }
    m := ParseNumbers(buffer, offset, filename.value, directory.value, serverAddress.value, transferId.value);
  }

  method ParseNumbers(
    buffer: Bytes, start: nat, filename: Bytes, directory: Bytes, serverAddress: Bytes, transferId: Bytes)
    returns (m: Option<Message>)
    requires start <= |buffer|
    ensures m == ParsedNumbers(filename, directory, serverAddress, transferId, buffer[start..])
  {
    hide TakeU32, TakeU64, ParsedPayload;
    var number, offset := ReadUint32(buffer, start);
    if number.None? { return None; }
    var total;
    total, offset := ReadUint32(buffer, offset);
    if total.None? || total.value > MAX_TOTAL_CHUNKS || (total.value > 0 && number.value >= total.value) {
      return None;
    }
    var chunkOffset;
    chunkOffset, offset := ReadUint64(buffer, offset);
    if chunkOffset.None? { return None; }
    var fileSize;
    fileSize, offset := ReadUint64(buffer, offset);
    if fileSize.None? || fileSize.value == 0 || fileSize.value > MAX_FILE_BYTES { return None; }
    var header := Message(filename, directory, serverAddress, transferId,
                          AsInt32(number.value), AsInt32(total.value), chunkOffset.value, fileSize.value, [], []);
    m := ParsePayload(buffer, offset, header);
  }

  method ParsePayload(buffer: Bytes, start: nat, header: Message) returns (m: Option<Message>)
    requires start <= |buffer|
    ensures m == ParsedPayload(header, buffer[start..])
  {
    var digest, offset := ReadField(buffer, start, HEX_LENGTH, HEX_LENGTH);
    if digest.None? || !IsLowerHex(digest.value) { return None; }
    var data;
    data, offset := ReadField(buffer, offset, 1, MAX_CHUNK_BYTES);
    if data.None? || header.offset >= header.fileSize || |data.value| > header.fileSize - header.offset { return None; }
    if offset != |buffer| { return None; }
    m := Some(header.(digest := digest.value, data := data.value));
  }

  /** The parser advances an offset through the buffer and never leaves it; its
      verdict is that of `Parsed`. */
  method Parse(buffer: Bytes) returns (m: Option<Message>)
    ensures m == Parsed(buffer)
    ensures m.Some? <==> exists k: Message :: k.InBounds() && k.Encodable() && Wire(k) == buffer
  {
    hide TakeU32, ParsedNames;
    var length, offset := ReadUint32(buffer, 0);
    assert buffer[0..] == buffer;
    if length.Some? && length.value <= MAX_PACKET_BYTES && |buffer| == offset + length.value {
      m := ParseNames(buffer, offset);
    } else {
      m := None;
    }
    SerializeUndoesParse(buffer);
    forall k: Message | k.InBounds() && k.Encodable() && Wire(k) == buffer ensures m == Some(k) {
      ParseUndoesSerialize(k);
    }
  }
}
