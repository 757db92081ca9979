/** The names a chunk packet may carry: file names without separators and relative
    directories without dot segments, as a Windows path splits them. */
module PathNames {
  import opened Basics

  const SLASH: byte := 0x2F
  const BACKSLASH: byte := 0x5C
  const DOT: byte := 0x2E
  const COLON: byte := 0x3A
  const PIPE: byte := 0x7C

  const MAX_FILENAME: nat := 255
  const MAX_DIRECTORY: nat := 4096

  /** The characters < > : " / \ | ? * */
  const FORBIDDEN_IN_NAMES: set<byte> := {0x3C, 0x3E, COLON, 0x22, SLASH, BACKSLASH, PIPE, 0x3F, 0x2A}

  predicate HasControlChars(s: Bytes) { exists i :: 0 <= i < |s| && s[i] < 32 }

  predicate IsSeparator(b: byte) { b == SLASH || b == BACKSLASH }

  predicate IsLetter(b: byte) { 0x41 <= b <= 0x5A || 0x61 <= b <= 0x7A }

  predicate IsLowerHex(s: Bytes) {
    s != [] && forall i :: 0 <= i < |s| ==> 0x30 <= s[i] <= 0x39 || 0x61 <= s[i] <= 0x66
  }

  predicate IsDotName(s: Bytes) { s == [DOT] || s == [DOT, DOT] }

  predicate IsSafeFilename(name: Bytes) {
    && 0 < |name| <= MAX_FILENAME
    && !HasControlChars(name)
    && (forall i :: 0 <= i < |name| ==> name[i] !in FORBIDDEN_IN_NAMES)
    && !IsDotName(name)
  }

  /** The non-empty segments between separators; adjacent separators count as one. */
  function Segments(s: Bytes): (r: seq<Bytes>)
    ensures forall i :: 0 <= i < |r| ==> r[i] != [] && forall j :: 0 <= j < |r[i]| ==> !IsSeparator(r[i][j])
  {
    if s == [] then []
    else if IsSeparator(s[0]) then Segments(s[1..])
    else if |s| == 1 || IsSeparator(s[1]) then [[s[0]]] + Segments(s[1..])
    else
      var rest := Segments(s[1..]);
      if rest == [] then [[s[0]]] else [[s[0]] + rest[0]] + rest[1..]
  }

  predicate HasDrivePrefix(s: Bytes) { |s| >= 2 && IsLetter(s[0]) && s[1] == COLON }

  /** No root, no trailing separator, no "." or ".." segment; empty is allowed. */
  predicate IsSafeRelativeDirectory(d: Bytes) {
    d == [] ||
    (&& |d| <= MAX_DIRECTORY
     && !HasControlChars(d)
     && !HasDrivePrefix(d)
     && !IsSeparator(d[0]) && !IsSeparator(d[|d| - 1])
     && forall i :: 0 <= i < |Segments(d)| ==> !IsDotName(Segments(d)[i]))
  }
}
