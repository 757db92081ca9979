/** The keys the server files its state under: the client namespace, the directory
    key, the reconstruction key, and the path on disk. */
module FileKeys {
  import opened Basics
  import opened PathNames
  import SecureEnvelope

  const UNDERSCORE: byte := 0x5F
  /** The prefix "id_" */
  const ID_PREFIX: Bytes := [0x69, 0x64, UNDERSCORE]

  // ---------- Client namespaces ----------

  /** Letters, digits, '-', '.', '@' stand for themselves. */
  predicate IsPlain(b: byte) { IsLetter(b) || 0x30 <= b <= 0x39 || b == 0x2D || b == DOT || b == 0x40 }

  function EscapedByte(b: byte): Bytes {
    if IsPlain(b) then [b] else [UNDERSCORE, SecureEnvelope.HexDigit(b / 16), SecureEnvelope.HexDigit(b % 16)]
  }

  function Escaped(id: Bytes): Bytes {
    if id == [] then [] else EscapedByte(id[0]) + Escaped(id[1..])
  }

  predicate FallsBack(id: Bytes) { id == [] || IsDotName(id) }

  /** The escaped id behind "id_"; empty and dot ids fall back to the address. */
  function Namespace(address: Bytes, id: Bytes): Bytes {
    if FallsBack(id) then address else ID_PREFIX + Escaped(id)
  }

  function Unescaped(s: Bytes): Option<Bytes>
    decreases |s|
  {
    if s == [] then Some([])
    else if s[0] != UNDERSCORE then
      var rest :- Unescaped(s[1..]);
      Some([s[0]] + rest)
    else if |s| < 3 || !SecureEnvelope.IsHexDigit(s[1]) || !SecureEnvelope.IsHexDigit(s[2]) then None
    else
      var rest :- Unescaped(s[3..]);
      Some([SecureEnvelope.HexValue(s[1]) * 16 + SecureEnvelope.HexValue(s[2])] + rest)
  }

  lemma HexOfByte(b: byte)
    ensures var hi, lo := SecureEnvelope.HexDigit(b / 16), SecureEnvelope.HexDigit(b % 16);
            && SecureEnvelope.IsHexDigit(hi) && SecureEnvelope.IsHexDigit(lo)
            && SecureEnvelope.HexValue(hi) * 16 + SecureEnvelope.HexValue(lo) == b
  {
  }

  /** The escaping is uniquely decodable. */
  lemma {:induction false} UnescapeUndoes(id: Bytes)
    ensures Unescaped(Escaped(id)) == Some(id)
  {
    if id != [] {
      var head, tail := EscapedByte(id[0]), Escaped(id[1..]);
      UnescapeUndoes(id[1..]);
      HexOfByte(id[0]);
      assert (head + tail)[|head|..] == tail;
      assert id == [id[0]] + id[1..];
    }
  }

  /** Escaping uses no separator and no bar. */
  lemma {:induction false} EscapedShape(id: Bytes)
    ensures forall i :: 0 <= i < |Escaped(id)| ==> IsPlain(Escaped(id)[i]) || Escaped(id)[i] == UNDERSCORE
    ensures Escaped(id) == [] <==> id == []
  {
    if id != [] {
      EscapedShape(id[1..]);
      HexOfByte(id[0]);
    }
  }

  /** Only the dot names escape to dot names. */
  /** An ordinary id is kept as it is. */
  lemma {:induction false} OrdinaryIdKept(address: Bytes, id: Bytes)
    requires id != [] && id != [0x2E] && id != [0x2E, 0x2E]
    requires forall i :: 0 <= i < |id| ==>
               || 0x41 <= id[i] <= 0x5A || 0x61 <= id[i] <= 0x7A || 0x30 <= id[i] <= 0x39
               || id[i] == 0x2D || id[i] == 0x2E || id[i] == 0x40
    ensures Namespace(address, id) == [0x69, 0x64, 0x5F] + id
  {
    PlainKept(id);
  }

  lemma {:induction false} PlainKept(id: Bytes)
    requires forall i :: 0 <= i < |id| ==> IsPlain(id[i])
    ensures Escaped(id) == id
  {
    if id != [] {
      PlainKept(id[1..]);
      assert id == [id[0]] + id[1..];
    }
  }

  lemma EscapedDots(id: Bytes)
    ensures IsDotName(Escaped(id)) <==> IsDotName(id)
  {
    assert id == [DOT] ==> Escaped(id) == [DOT] + Escaped(id[1..]);
    assert id == [DOT, DOT] ==> id[1..] == [DOT] && Escaped(id[1..]) == [DOT] + Escaped([]);
    UnescapeUndoes(id);
    var dot: Bytes := [DOT];
    assert dot[1..] == [] && Unescaped(dot) == Some([DOT] + []);
    var dots: Bytes := [DOT, DOT];
    assert dots[0] == DOT && dots[1..] == dot;
    assert Unescaped(dots) == Some([DOT] + Unescaped(dot).value);
  }

  /** A dotted address. */
  predicate IsAddress(a: Bytes) { a != [] && forall i :: 0 <= i < |a| ==> 0x30 <= a[i] <= 0x39 || a[i] == DOT }

  /** Two clients share a namespace exactly when they present the same id, or both fall
      back from the same address; empty and dot ids are the only ones that do. */
  lemma NamespacesSeparate(addressA: Bytes, a: Bytes, addressB: Bytes, b: Bytes)
    requires IsAddress(addressA) && IsAddress(addressB)
    ensures Namespace(addressA, a) == Namespace(addressB, b)
      <==> (if FallsBack(a) then FallsBack(b) && addressA == addressB else !FallsBack(b) && a == b)
  {
    UnescapeUndoes(a);
    UnescapeUndoes(b);
    if !FallsBack(a) {
      assert Namespace(addressA, a)[0] == 0x69 && Namespace(addressA, a)[3..] == Escaped(a);
    }
    if !FallsBack(b) {
      assert Namespace(addressB, b)[0] == 0x69 && Namespace(addressB, b)[3..] == Escaped(b);
    }
  }

  /** No namespace contains a separator or a bar, and none is empty or a dot name. */
  lemma NamespaceShape(address: Bytes, id: Bytes)
    requires IsAddress(address) && !IsDotName(address)
    ensures var n := Namespace(address, id);
            && n != [] && !IsDotName(n)
            && forall i :: 0 <= i < |n| ==> !IsSeparator(n[i]) && n[i] != PIPE
  {
    EscapedShape(id);
  }

  lemma EscapedFrom(id: Bytes, i: nat)
    requires i < |id|
    ensures Escaped(id[i..]) == EscapedByte(id[i]) + Escaped(id[i + 1..])
  {
    assert id[i..][1..] == id[i + 1..];
  }

  /** The escaping loop. */
  method BuildAuthenticatedClientNamespace(address: Bytes, id: Bytes) returns (name: Bytes)
    ensures name == Namespace(address, id)
  {
    if id == [] {
      return address;
    }
    var sanitized: Bytes := [];
    assert id[0..] == id && id[|id|..] == [] && Escaped([]) == [];
    hide Escaped, IsPlain, SecureEnvelope.HexDigit;
    for i := 0 to |id|
      invariant sanitized + Escaped(id[i..]) == Escaped(id)
    {
      EscapedFrom(id, i);
      ghost var before := sanitized;
      if IsPlain(id[i]) {
        sanitized := sanitized + [id[i]];
      } else {
        sanitized := sanitized + [UNDERSCORE];
        sanitized := sanitized + [SecureEnvelope.HexDigit(id[i] / 16)];
        sanitized := sanitized + [SecureEnvelope.HexDigit(id[i] % 16)];
      }
      assert sanitized == before + EscapedByte(id[i]);
      Associative(before, EscapedByte(id[i]), Escaped(id[i + 1..]));
    }
    assert sanitized == Escaped(id);
    EscapedShape(id);
    EscapedDots(id);
    if sanitized == [] || IsDotName(sanitized) {
      return address;
    }
    name := ID_PREFIX + sanitized;
  }

  // ---------- Directory and reconstruction keys ----------

  function DirectoryKey(client: Bytes, directory: Bytes): Bytes { client + [SLASH] + directory }

  function ReconstructionKey(client: Bytes, directory: Bytes, filename: Bytes): Bytes {
    DirectoryKey(client, directory) + [PIPE] + filename
  }

  lemma MarkPosition(a: Bytes, s: Bytes, mark: byte)
    ensures var whole := a + [mark] + s;
            && whole[|a|] == mark && whole[..|a|] == a && whole[|a| + 1..] == s
            && (mark !in a ==> forall i :: 0 <= i < |a| ==> whole[i] != mark)
            && (mark !in s ==> forall i :: |a| < i < |whole| ==> whole[i] != mark)
  {
    var whole := a + [mark] + s;
    assert forall i :: 0 <= i < |a| ==> whole[i] == a[i];
    assert forall i :: |a| < i < |whole| ==> whole[i] == s[i - |a| - 1];
  }

  /** Splitting at the first mark. */
  lemma FirstMark(a: Bytes, s: Bytes, b: Bytes, t: Bytes, mark: byte)
    requires mark !in a && mark !in b && a + [mark] + s == b + [mark] + t
    ensures a == b && s == t
  {
    MarkPosition(a, s, mark);
    MarkPosition(b, t, mark);
    assert |a| == |b|;
  }

  /** Splitting at the last mark. */
  lemma LastMark(a: Bytes, s: Bytes, b: Bytes, t: Bytes, mark: byte)
    requires mark !in s && mark !in t && a + [mark] + s == b + [mark] + t
    ensures a == b && s == t
  {
    MarkPosition(a, s, mark);
    MarkPosition(b, t, mark);
    assert |a| == |b|;
  }

  lemma SafeNameHasNoBar(filename: Bytes)
    requires IsSafeFilename(filename)
    ensures PIPE !in filename && SLASH !in filename && BACKSLASH !in filename
  {
  }

  /** In-memory state: the reconstruction key determines client, directory and file. */
  lemma KeysSeparate(
    client: Bytes, directory: Bytes, filename: Bytes, client': Bytes, directory': Bytes, filename': Bytes)
    requires SLASH !in client && SLASH !in client'
    requires IsSafeFilename(filename) && IsSafeFilename(filename')
    ensures ReconstructionKey(client, directory, filename) == ReconstructionKey(client', directory', filename')
      <==> client == client' && directory == directory' && filename == filename'
  {
    SafeNameHasNoBar(filename);
    SafeNameHasNoBar(filename');
    if ReconstructionKey(client, directory, filename) == ReconstructionKey(client', directory', filename') {
      LastMark(DirectoryKey(client, directory), filename, DirectoryKey(client', directory'), filename', PIPE);
      FirstMark(client, directory, client', directory', SLASH);
    }
  }

  // ---------- Paths on disk ----------

  /** The path below the storage root, as its segments. */
  function DiskPath(client: Bytes, directory: Bytes, filename: Bytes): seq<Bytes> {
    Segments(DirectoryKey(client, directory) + [SLASH] + filename)
  }

  predicate IsName(s: Bytes) { s != [] && forall i :: 0 <= i < |s| ==> !IsSeparator(s[i]) }

  lemma {:induction false} OneSegment(name: Bytes)
    requires IsName(name)
    ensures Segments(name) == [name]
  {
    if |name| > 1 {
      OneSegment(name[1..]);
      assert name == [name[0]] + name[1..];
    } else {
      assert name == [name[0]] && name[1..] == [];
    }
  }

  lemma SegmentsUnfold(s: Bytes)
    requires s != []
    ensures IsSeparator(s[0]) ==> Segments(s) == Segments(s[1..])
    ensures !IsSeparator(s[0]) && (|s| == 1 || IsSeparator(s[1])) ==> Segments(s) == [[s[0]]] + Segments(s[1..])
    ensures !IsSeparator(s[0]) && |s| > 1 && !IsSeparator(s[1]) ==>
              Segments(s[1..]) != [] && Segments(s) == [[s[0]] + Segments(s[1..])[0]] + Segments(s[1..])[1..]
  {
  }

  lemma {:induction false} SegmentsAppend(d: Bytes, tail: Bytes)
    ensures Segments(d + [SLASH] + tail) == Segments(d) + Segments(tail)
  {
    var s := d + [SLASH] + tail;
    SegmentsUnfold(s);
    if d == [] {
      assert s[1..] == tail;
    } else {
      SegmentsAppend(d[1..], tail);
      SegmentsUnfold(d);
      hide Segments;
      assert s[1..] == d[1..] + [SLASH] + tail;
      var rest, more := Segments(d[1..]), Segments(tail);
      assert Segments(s[1..]) == rest + more;
      assert |d| > 1 ==> s[1] == d[1];
      if |d| > 1 && !IsSeparator(d[0]) && !IsSeparator(d[1]) {
        Reassociate([d[0]] + rest[0], rest, more);
      } else {
        assert [[d[0]]] + (rest + more) == [[d[0]]] + rest + more;
      }
    }
  }

  lemma Reassociate(first: Bytes, rest: seq<Bytes>, more: seq<Bytes>)
    requires rest != []
    ensures (rest + more)[0] == rest[0]
    ensures [first] + (rest + more)[1..] == [first] + rest[1..] + more
  {
    assert (rest + more)[1..] == rest[1..] + more;
  }

  lemma DiskPathParts(client: Bytes, directory: Bytes, filename: Bytes)
    requires IsName(client) && IsName(filename)
    ensures DiskPath(client, directory, filename) == [client] + Segments(directory) + [filename]
  {
    SegmentsAppend(DirectoryKey(client, directory), filename);
    SegmentsAppend(client, directory);
    OneSegment(client);
    OneSegment(filename);
  }

  /** Two files share a path on disk exactly when client, file name and the segments of
      the directory agree; the text of the directory need not. */
  lemma SamePathIff(
    client: Bytes, directory: Bytes, filename: Bytes, client': Bytes, directory': Bytes, filename': Bytes)
    requires IsName(client) && IsName(client') && IsSafeFilename(filename) && IsSafeFilename(filename')
    ensures DiskPath(client, directory, filename) == DiskPath(client', directory', filename')
      <==> client == client' && Segments(directory) == Segments(directory') && filename == filename'
  {
    DiskPathParts(client, directory, filename);
    DiskPathParts(client', directory', filename');
    var p, p' := DiskPath(client, directory, filename), DiskPath(client', directory', filename');
    if p == p' {
      assert p[0] == client && p'[0] == client' && p[|p| - 1] == filename && p'[|p'| - 1] == filename';
      assert p[1..|p| - 1] == Segments(directory) && p'[1..|p'| - 1] == Segments(directory');
    }
  }

  /** What a path resolves to: "." stays, ".." goes up (and above the root nowhere). */
  function Resolved(segments: seq<Bytes>): seq<Bytes>
    decreases |segments|
  {
    if segments == [] then []
    else
      var n := |segments| - 1;
      var before := Resolved(segments[..n]);
      if segments[n] == [DOT] then before
      else if segments[n] == [DOT, DOT] then (if before == [] then [] else before[..|before| - 1])
      else before + [segments[n]]
  }

  lemma {:induction false} ResolvesToItself(segments: seq<Bytes>)
    requires forall i :: 0 <= i < |segments| ==> !IsDotName(segments[i])
    ensures Resolved(segments) == segments
    decreases |segments|
  {
    if segments != [] {
      var n := |segments| - 1;
      ResolvesToItself(segments[..n]);
      assert segments == segments[..n] + [segments[n]];
    }
  }

  /** A file the parser admits lies inside its client's directory: its path resolves to
      itself, beginning with the namespace and ending with the file name. */
  lemma PathStaysInside(address: Bytes, id: Bytes, directory: Bytes, filename: Bytes)
    requires IsAddress(address) && !IsDotName(address)
    requires IsSafeRelativeDirectory(directory) && IsSafeFilename(filename)
    ensures var path := Resolved(DiskPath(Namespace(address, id), directory, filename));
            path == [Namespace(address, id)] + Segments(directory) + [filename]
  {
    NamespaceShape(address, id);
    var client := Namespace(address, id);
    DiskPathParts(client, directory, filename);
    hide Namespace, Segments;
    SafeSegments(directory, filename);
    ResolvesToItself([client] + Segments(directory) + [filename]);
  }

  lemma SafeSegments(directory: Bytes, filename: Bytes)
    requires IsSafeRelativeDirectory(directory) && IsSafeFilename(filename)
    ensures !IsDotName(filename) && forall i :: 0 <= i < |Segments(directory)| ==> !IsDotName(Segments(directory)[i])
  {
  }

  /** The directory text the agent sends: its segments joined by single slashes. */
  function Joined(segments: seq<Bytes>): Bytes {
    if segments == [] then []
    else if |segments| == 1 then segments[0]
    else segments[0] + [SLASH] + Joined(segments[1..])
  }

  /** A name of letters, digits, '-', '_' and '.' that is not made of dots alone. */
  predicate IsOrdinary(name: Bytes) {
    && (forall i :: 0 <= i < |name| ==>
          || 0x41 <= name[i] <= 0x5A || 0x61 <= name[i] <= 0x7A || 0x30 <= name[i] <= 0x39
          || name[i] == 0x2D || name[i] == 0x5F || name[i] == 0x2E)
    && (exists i :: 0 <= i < |name| && name[i] != 0x2E)
  }

  lemma {:induction false} JoinedSegments(names: seq<Bytes>)
    requires forall i :: 0 <= i < |names| ==> IsName(names[i])
    ensures Segments(Joined(names)) == names
  {
    if |names| == 1 {
      OneSegment(names[0]);
    } else if |names| > 1 {
      SegmentsAppend(names[0], Joined(names[1..]));
      OneSegment(names[0]);
      JoinedSegments(names[1..]);
      hide Segments, IsName;
      assert names == [names[0]] + names[1..];
    }
  }

  lemma {:induction false} JoinedOrdinary(names: seq<Bytes>)
    requires forall i :: 0 <= i < |names| ==> IsOrdinary(names[i])
    ensures var d := Joined(names);
            && (forall i :: 0 <= i < |d| ==> d[i] >= 0x2D && d[i] != COLON && d[i] != BACKSLASH)
            && (names != [] ==> d != [] && !IsSeparator(d[0]) && !IsSeparator(d[|d| - 1]))
  {
    if |names| > 1 {
      JoinedOrdinary(names[1..]);
    }
  }

  lemma OrdinaryNameIsSafe(name: Bytes)
    requires IsOrdinary(name)
    ensures name != [] && !IsDotName(name) && (|name| <= MAX_FILENAME ==> IsSafeFilename(name))
    ensures IsName(name)
  {
  }

  lemma OrdinaryDirectoryIsSafe(names: seq<Bytes>)
    requires forall i :: 0 <= i < |names| ==> IsOrdinary(names[i])
    requires |Joined(names)| <= MAX_DIRECTORY
    ensures IsSafeRelativeDirectory(Joined(names)) && Segments(Joined(names)) == names
  {
    forall i | 0 <= i < |names| ensures IsName(names[i]) && !IsDotName(names[i]) {
      OrdinaryNameIsSafe(names[i]);
    }
    JoinedOrdinary(names);
    hide IsOrdinary, Joined, Segments, IsDotName, IsName;
    JoinedSegments(names);
  }

  /** Ordinary names are admitted: as file names up to 255 bytes, and joined by slashes as
      directories up to 4096. */
  lemma OrdinaryPathsAreAdmitted(names: seq<Bytes>, filename: Bytes)
    requires forall i :: 0 <= i < |names| ==> IsOrdinary(names[i])
    requires IsOrdinary(filename) && |filename| <= 255 && |Joined(names)| <= 4096
    ensures IsSafeFilename(filename) && IsSafeRelativeDirectory(Joined(names)) && Segments(Joined(names)) == names
  {
    hide IsOrdinary, Joined, Segments, IsSafeFilename, IsSafeRelativeDirectory;
    OrdinaryNameIsSafe(filename);
    OrdinaryDirectoryIsSafe(names);
  }

  predicate IsCanonical(directory: Bytes) { directory == Joined(Segments(directory)) }

  /** For directories in that form, sharing a path means having the same key. */
  lemma CanonicalPathsSeparate(
    client: Bytes, directory: Bytes, filename: Bytes, client': Bytes, directory': Bytes, filename': Bytes)
    requires IsName(client) && IsName(client') && IsSafeFilename(filename) && IsSafeFilename(filename')
    requires IsCanonical(directory) && IsCanonical(directory')
    ensures DiskPath(client, directory, filename) == DiskPath(client', directory', filename')
      <==> ReconstructionKey(client, directory, filename) == ReconstructionKey(client', directory', filename')
  {
    SamePathIff(client, directory, filename, client', directory', filename');
    KeysSeparate(client, directory, filename, client', directory', filename');
  }

  /** Without that form they need not: "a//b" and "a\\b" both pass the parser and name
      the same directory as "a/b", under three different keys. */
  lemma DirectoriesShareDiskPath(client: Bytes, filename: Bytes)
    requires IsName(client) && IsSafeFilename(filename)
    ensures var one, two, back := [0x61, SLASH, 0x62], [0x61, SLASH, SLASH, 0x62], [0x61, BACKSLASH, 0x62];
            && IsSafeRelativeDirectory(one) && IsSafeRelativeDirectory(two) && IsSafeRelativeDirectory(back)
            && DiskPath(client, one, filename) == DiskPath(client, two, filename) == DiskPath(client, back, filename)
            && ReconstructionKey(client, one, filename) != ReconstructionKey(client, two, filename)
            && ReconstructionKey(client, one, filename) != ReconstructionKey(client, back, filename)
  {
    var one, two, back: Bytes := [0x61, SLASH, 0x62], [0x61, SLASH, SLASH, 0x62], [0x61, BACKSLASH, 0x62];
    var b: Bytes := [0x62];
    OneSegment(b);
    assert one[1..] == [SLASH, 0x62] && one[1..][1..] == b;
    assert back[1..] == [BACKSLASH, 0x62] && back[1..][1..] == b;
    assert two[1..] == [SLASH, SLASH, 0x62] && two[1..][1..] == [SLASH, 0x62] && two[1..][1..][1..] == b;
    assert Segments([SLASH, 0x62]) == Segments(b) && Segments([BACKSLASH, 0x62]) == Segments(b);
    assert Segments([SLASH, SLASH, 0x62]) == Segments(b);
    assert Segments(one) == [[0x61], b] && Segments(back) == [[0x61], b] && Segments(two) == [[0x61], b];
    SamePathIff(client, one, filename, client, two, filename);
    SamePathIff(client, one, filename, client, back, filename);
    assert SLASH !in client;
    KeysSeparate(client, one, filename, client, two, filename);
    KeysSeparate(client, one, filename, client, back, filename);
  }
}
