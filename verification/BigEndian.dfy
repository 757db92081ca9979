/** Integers in network byte order, and the length-prefixed fields both wire
    formats are made of. */
module BigEndian {
  import opened Basics

  const INT32_LIMIT: nat := 0x8000_0000

  type uint32 = x: int | 0 <= x < 0x1_0000_0000

  type uint64 = x: int | 0 <= x < 0x1_0000_0000_0000_0000

  type int32 = x: int | -0x8000_0000 <= x < 0x8000_0000

  /** `static_cast<int>` of an unsigned 32-bit value, and back. */
  function AsInt32(u: uint32): (i: int32)
    ensures AsUint32(i) == u
  {
    if u < INT32_LIMIT then u else u - UINT32_LIMIT
  }

  function AsUint32(i: int32): uint32 { if i < 0 then i + UINT32_LIMIT else i }

  function U32(v: uint32): (b: Bytes)
    ensures |b| == 4
  {
    var high, low := v / 0x1_0000, v % 0x1_0000;
    [high / 256, high % 256, low / 256, low % 256]
  }

  function FromU32(b: Bytes): (v: uint32)
    requires |b| == 4
  {
    (b[0] as int * 256 + b[1]) * 0x1_0000 + (b[2] as int * 256 + b[3])
  }

  lemma U32Encodes(b: Bytes)
    requires |b| == 4
    ensures U32(FromU32(b)) == b
  {
    var high, low := b[0] as int * 256 + b[1], b[2] as int * 256 + b[3];
    assert high / 256 == b[0] && high % 256 == b[1] && low / 256 == b[2] && low % 256 == b[3];
    assert FromU32(b) / 0x1_0000 == high && FromU32(b) % 0x1_0000 == low;
  }

  lemma U32Decodes(v: uint32)
    ensures FromU32(U32(v)) == v
  {
  }

  function U64(v: uint64): (b: Bytes)
    ensures |b| == 8
  {
    U32(v / UINT32_LIMIT) + U32(v % UINT32_LIMIT)
  }

  function FromU64(b: Bytes): (v: uint64)
    requires |b| == 8
  {
    FromU32(b[..4]) * UINT32_LIMIT + FromU32(b[4..])
  }

  lemma U64Encodes(b: Bytes)
    requires |b| == 8
    ensures U64(FromU64(b)) == b
  {
    var v := FromU64(b);
    assert v / UINT32_LIMIT == FromU32(b[..4]) && v % UINT32_LIMIT == FromU32(b[4..]);
    U32Encodes(b[..4]);
    U32Encodes(b[4..]);
  }

  lemma U64Decodes(v: uint64)
    ensures FromU64(U64(v)) == v
  {
    U32Decodes(v / UINT32_LIMIT);
    U32Decodes(v % UINT32_LIMIT);
    assert U64(v)[..4] == U32(v / UINT32_LIMIT) && U64(v)[4..] == U32(v % UINT32_LIMIT);
  }

  lemma U32Unique(a: uint32, b: uint32, s: Bytes, t: Bytes)
    requires U32(a) + s == U32(b) + t
    ensures a == b && s == t
  {
    TakeU32Undoes(a, s);
    TakeU32Undoes(b, t);
  }

  lemma U64Unique(a: uint64, b: uint64, s: Bytes, t: Bytes)
    requires U64(a) + s == U64(b) + t
    ensures a == b && s == t
  {
    TakeU64Undoes(a, s);
    TakeU64Undoes(b, t);
  }

  lemma FieldUnique(a: Bytes, b: Bytes, s: Bytes, t: Bytes)
    requires |a| < UINT32_LIMIT && |b| < UINT32_LIMIT && Field(a) + s == Field(b) + t
    ensures a == b && s == t
  {
    TakeFieldUndoes(a, s, 0, UINT32_LIMIT);
    TakeFieldUndoes(b, t, 0, UINT32_LIMIT);
  }

  /** A byte string behind its 32-bit length. */
  function Field(value: Bytes): Bytes
    requires |value| < UINT32_LIMIT
  {
    U32(|value|) + value
  }

  /** The number bytes stand for, most significant first. */
  function Value(b: Bytes): int {
    if b == [] then 0 else 256 * Value(b[..|b| - 1]) + b[|b| - 1] as int
  }

  lemma ValueOfFour(front: Bytes, b: Bytes)
    requires |b| == 4
    ensures Value(front + b) == 0x1_0000_0000 * Value(front)
                                + 0x100_0000 * (b[0] as int) + 0x1_0000 * (b[1] as int)
                                + 0x100 * (b[2] as int) + b[3] as int
  {
    var three, two, one := front + b[..3], front + b[..2], front + b[..1];
    assert (front + b)[..|front| + 3] == three && three[..|front| + 2] == two;
    assert two[..|front| + 1] == one && one[..|front|] == front;
    assert Value(front + b) == 256 * Value(three) + b[3] as int;
    assert Value(three) == 256 * Value(two) + b[2] as int;
    assert Value(two) == 256 * Value(one) + b[1] as int;
    assert Value(one) == 256 * Value(front) + b[0] as int;
  }

  /** Encoded integers are big-endian. */
  lemma EncodedValues(v: uint32, w: uint64)
    ensures Value(U32(v)) == v && Value(U64(w)) == w
  {
    ValueOfU32([], v);
    ValueOfU32([], w / UINT32_LIMIT);
    ValueOfU32(U32(w / UINT32_LIMIT), w % UINT32_LIMIT);
    assert [] + U32(v) == U32(v) && [] + U32(w / UINT32_LIMIT) == U32(w / UINT32_LIMIT);
  }

  lemma ValueOfU32(front: Bytes, v: uint32)
    ensures Value(front + U32(v)) == UINT32_LIMIT * Value(front) + v
  {
    ValueOfFour(front, U32(v));
  }

  // ---------- Consuming from the front ----------

  function TakeU32(s: Bytes): Option<(uint32, Bytes)> {
    if |s| < 4 then None else Some((FromU32(s[..4]), s[4..]))
  }

  function TakeU64(s: Bytes): Option<(uint64, Bytes)> {
    if |s| < 8 then None else Some((FromU64(s[..8]), s[8..]))
  }

  /** A field whose length must lie in lo..hi. */
  function TakeField(s: Bytes, lo: nat, hi: nat): Option<(Bytes, Bytes)> {
    var (n, rest) :- TakeU32(s);
    if n < lo || n > hi || n > |rest| then None else Some((rest[..n], rest[n..]))
  }

  lemma TakeU32Undoes(v: uint32, rest: Bytes)
    ensures TakeU32(U32(v) + rest) == Some((v, rest))
  {
    U32Decodes(v);
    assert (U32(v) + rest)[..4] == U32(v) && (U32(v) + rest)[4..] == rest;
  }

  lemma TakeU32Means(s: Bytes)
    ensures TakeU32(s).Some? ==> s == U32(TakeU32(s).value.0) + TakeU32(s).value.1
  {
    if |s| >= 4 {
      U32Encodes(s[..4]);
      assert s == s[..4] + s[4..];
    }
  }

  lemma TakeU64Undoes(v: uint64, rest: Bytes)
    ensures TakeU64(U64(v) + rest) == Some((v, rest))
  {
    U64Decodes(v);
    assert (U64(v) + rest)[..8] == U64(v) && (U64(v) + rest)[8..] == rest;
  }

  lemma TakeU64Means(s: Bytes)
    ensures TakeU64(s).Some? ==> s == U64(TakeU64(s).value.0) + TakeU64(s).value.1
  {
    if |s| >= 8 {
      U64Encodes(s[..8]);
      assert s == s[..8] + s[8..];
    }
  }

  lemma TakeFieldUndoes(value: Bytes, rest: Bytes, lo: nat, hi: nat)
    requires |value| < UINT32_LIMIT
    ensures lo <= |value| <= hi ==> TakeField(Field(value) + rest, lo, hi) == Some((value, rest))
    ensures !(lo <= |value| <= hi) ==> TakeField(Field(value) + rest, lo, hi) == None
  {
    assert Field(value) + rest == U32(|value|) + (value + rest);
    TakeU32Undoes(|value|, value + rest);
    assert (value + rest)[..|value|] == value && (value + rest)[|value|..] == rest;
  }

  lemma TakeFieldMeans(s: Bytes, lo: nat, hi: nat)
    requires hi < UINT32_LIMIT
    ensures var r := TakeField(s, lo, hi);
            r.Some? ==> lo <= |r.value.0| <= hi && s == Field(r.value.0) + r.value.1
  {
    TakeU32Means(s);
    if TakeU32(s).Some? {
      var (n, rest) := TakeU32(s).value;
      if n <= |rest| {
        assert rest == rest[..n] + rest[n..];
        assert U32(n) + (rest[..n] + rest[n..]) == U32(n) + rest[..n] + rest[n..];
      }
    }
  }

  // ---------- Reading at an advancing offset ----------

  predicate EnsureAvailable(offset: nat, totalSize: nat, bytesToRead: nat) {
    !(offset > totalSize || bytesToRead > totalSize - offset)
  }

  method ReadUint32(buffer: Bytes, offset: nat) returns (value: Option<uint32>, next: nat)
    requires offset <= |buffer|
    ensures offset <= next <= |buffer|
    ensures value.Some? == TakeU32(buffer[offset..]).Some?
    ensures value.Some? ==> TakeU32(buffer[offset..]) == Some((value.value, buffer[next..]))
  {
    if !EnsureAvailable(offset, |buffer|, 4) {
      return None, offset;
    }
    assert buffer[offset..][..4] == buffer[offset..offset + 4];
    assert buffer[offset..][4..] == buffer[offset + 4..];
    return Some(FromU32(buffer[offset..offset + 4])), offset + 4;
  }

  method ReadUint64(buffer: Bytes, offset: nat) returns (value: Option<uint64>, next: nat)
    requires offset <= |buffer|
    ensures offset <= next <= |buffer|
    ensures value.Some? == TakeU64(buffer[offset..]).Some?
    ensures value.Some? ==> TakeU64(buffer[offset..]) == Some((value.value, buffer[next..]))
  {
    if !EnsureAvailable(offset, |buffer|, 8) {
      return None, offset;
    }
    var high, low := FromU32(buffer[offset..offset + 4]), FromU32(buffer[offset + 4..offset + 8]);
    var b := buffer[offset..][..8];
    assert b[..4] == buffer[offset..offset + 4] && b[4..] == buffer[offset + 4..offset + 8];
    assert buffer[offset..][8..] == buffer[offset + 8..];
    return Some(high * UINT32_LIMIT + low), offset + 8;
  }
}
