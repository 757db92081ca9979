/** The chunk plan of one transfer: which bytes each numbered chunk carries and
    which total count it declares. Every chunk the agent emits for a transfer id
    belongs to one such plan. */
module TransferPlans {
  import opened Basics

  type TransferId = Bytes

  /** `cuts` are the chunk boundaries: chunk i covers content[cuts[i]..cuts[i+1]]. */
  datatype Plan = Plan(content: Bytes, cuts: seq<nat>, adaptive: bool) {
    ghost predicate Valid() {
      && |cuts| >= 2
      && cuts[0] == 0
      && cuts[|cuts| - 1] == |content|
      && forall i, j :: 0 <= i < j < |cuts| ==> cuts[i] < cuts[j]
    }

    ghost function Count(): (n: nat)
      requires Valid()
      ensures n > 0
    {
      |cuts| - 1
    }

    /** Fixed mode declares the total in every chunk; adaptive mode only in the last. */
    ghost function Declared(i: nat): nat
      requires Valid() && i < Count()
    {
      if adaptive && i != Count() - 1 then 0 else Count()
    }

    ghost function Piece(i: nat): Bytes
      requires Valid() && i < Count()
    {
      assert cuts[i] < cuts[i + 1] && cuts[i + 1] <= cuts[|cuts| - 1];
      content[cuts[i]..cuts[i + 1]]
    }

    /** Does `bytes` hold chunk i of the content in place? */
    ghost predicate Holds(bytes: Bytes, i: nat)
      requires Valid() && i < Count() && |bytes| == |content|
    {
      assert cuts[i] < cuts[i + 1] && cuts[i + 1] <= cuts[|cuts| - 1];
      bytes[cuts[i]..cuts[i + 1]] == Piece(i)
    }
  }

  /** Chunk i lies inside the content and does not reach into any other chunk. */
  lemma PiecePlacement(p: Plan, i: nat)
    requires p.Valid() && i < p.Count()
    ensures p.cuts[i] < p.cuts[i + 1] <= |p.content|
    ensures |p.Piece(i)| == p.cuts[i + 1] - p.cuts[i]
    ensures forall j :: 0 <= j < p.Count() && j != i ==> p.cuts[j + 1] <= p.cuts[i] || p.cuts[i + 1] <= p.cuts[j]
  {
    assert i + 1 == |p.cuts| - 1 || p.cuts[i + 1] < p.cuts[|p.cuts| - 1];
    forall j | 0 <= j < p.Count() && j != i
      ensures p.cuts[j + 1] <= p.cuts[i] || p.cuts[i + 1] <= p.cuts[j]
    {
      if j < i {
        assert j + 1 == i || p.cuts[j + 1] < p.cuts[i];
      } else {
        assert i + 1 == j || p.cuts[i + 1] < p.cuts[j];
      }
    }
  }

  /** The chunks tile the content: bytes that hold the first k chunks agree with
      the content up to the k-th boundary. */
  lemma {:induction false} ChunksDeterminePrefix(p: Plan, bytes: Bytes, k: nat)
    requires p.Valid() && |bytes| == |p.content| && k <= p.Count()
    requires forall i :: 0 <= i < k ==> p.Holds(bytes, i)
    ensures p.cuts[k] <= |bytes| && bytes[..p.cuts[k]] == p.content[..p.cuts[k]]
  {
    if k > 0 {
      ChunksDeterminePrefix(p, bytes, k - 1);
      PiecePlacement(p, k - 1);
      assert p.Holds(bytes, k - 1);
      var a, b := p.cuts[k - 1], p.cuts[k];
      assert bytes[..b] == bytes[..a] + bytes[a..b];
      assert p.content[..b] == p.content[..a] + p.content[a..b];
    }
  }

  /** Bytes of the right length that hold every chunk are exactly the content. */
  lemma ChunksDetermineContent(p: Plan, bytes: Bytes)
    requires p.Valid() && |bytes| == |p.content|
    requires forall i :: 0 <= i < p.Count() ==> p.Holds(bytes, i)
    ensures bytes == p.content
  {
    ChunksDeterminePrefix(p, bytes, p.Count());
    assert bytes[..|bytes|] == bytes && p.content[..|bytes|] == p.content;
  }

  /** The file after `data` is written at `offset`; a gap or tail is zero filled. */
  function Overlay(bytes: Bytes, offset: nat, data: Bytes): Bytes {
    var long := if |bytes| < offset + |data| then bytes + Zeros(offset + |data| - |bytes|) else bytes;
    long[..offset] + data + long[offset + |data|..]
  }

  /** A write inside the file keeps its length and every byte outside the range. */
  lemma OverlayInside(bytes: Bytes, offset: nat, data: Bytes)
    requires offset + |data| <= |bytes|
    ensures |Overlay(bytes, offset, data)| == |bytes|
    ensures Overlay(bytes, offset, data)[offset..offset + |data|] == data
    ensures forall a, b :: 0 <= a <= b <= |bytes| && (b <= offset || offset + |data| <= a)
              ==> Overlay(bytes, offset, data)[a..b] == bytes[a..b]
  {
  }

  /** Writing over the range of chunk i leaves every other chunk in place, and a
      write of chunk i itself puts it in place. */
  lemma OverlayPiece(p: Plan, bytes: Bytes, i: nat, data: Bytes)
    requires p.Valid() && i < p.Count() && |bytes| == |p.content|
    requires |data| == |p.Piece(i)|
    ensures p.cuts[i] + |data| <= |bytes| && |Overlay(bytes, p.cuts[i], data)| == |bytes|
    ensures forall j :: 0 <= j < p.Count() && j != i && p.Holds(bytes, j)
             ==> p.Holds(Overlay(bytes, p.cuts[i], data), j)
    ensures data == p.Piece(i) ==> p.Holds(Overlay(bytes, p.cuts[i], data), i)
  {
    PiecePlacement(p, i);
    OverlayInside(bytes, p.cuts[i], data);
    forall j | 0 <= j < p.Count() && j != i && p.Holds(bytes, j)
      ensures p.Holds(Overlay(bytes, p.cuts[i], data), j)
    {
      PiecePlacement(p, j);
    }
  }
}
