/**
 * Bytes as the tool writes them to stdout, the constants the parser looks
 * for, white-space trimming as bytes.TrimSpace / strings.TrimSpace do it,
 * and the conversions between bytes and Go strings.
 */
module Bytes {
  import opened Seqs

  newtype byte = b: int | 0 <= b < 0x100

  type Bytes = seq<byte>

  const CR: byte := 13
  const LF: byte := 10

  /** "\r\n", the line break inside a header section */
  const CRLF: Bytes := [CR, LF]
  /** "\r\n\r\n", the end of a header section (section 2.1 of RFC 9112) */
  const Delim: Bytes := [CR, LF, CR, LF]
  /** "\n" */
  const NewLine: Bytes := [LF]
  /** " " */
  const Space: Bytes := [32]
  /** ":" */
  const Colon: Bytes := [58]

  /** The ASCII white space Go trims: '\t', '\n', '\v', '\f', '\r' and ' '. */
  predicate IsSpace(b: byte) {
    9 <= b <= 13 || b == 32
  }

  /** s without its trailing white space */
  function TrimRight(s: Bytes): (r: Bytes)
    ensures |r| <= |s|
  {
    if s == [] || !IsSpace(s[|s| - 1]) then s else TrimRight(s[..|s| - 1])
  }

  /** TrimRight keeps a prefix of s, empty or ending in a byte that is not white space, and cuts off only white space. */
  lemma {:induction false} TrimRightShape(s: Bytes)
    ensures var r := TrimRight(s); r == s[..|r|] && (r == [] || !IsSpace(r[|r| - 1]))
    ensures forall i :: |TrimRight(s)| <= i < |s| ==> IsSpace(s[i])
    decreases |s|
  {
    if s != [] && IsSpace(s[|s| - 1]) {
      var t := s[..|s| - 1];
      TrimRightShape(t);
      var n := |TrimRight(t)|;
      assert t[..n] == s[..n];
      forall i | n <= i < |t| ensures IsSpace(s[i]) {
        assert s[i] == t[i];
      }
    }
  }

  /** s without its leading white space */
  function TrimLeft(s: Bytes): (r: Bytes)
    ensures |r| <= |s|
  {
    if s == [] || !IsSpace(s[0]) then s else TrimLeft(s[1..])
  }

  /** TrimLeft keeps a suffix of s, empty or starting with a byte that is not white space, and cuts off only white space. */
  lemma {:induction false} TrimLeftShape(s: Bytes)
    ensures var r := TrimLeft(s); r == s[|s| - |r|..] && (r == [] || !IsSpace(r[0]))
    ensures forall i :: 0 <= i < |s| - |TrimLeft(s)| ==> IsSpace(s[i])
    decreases |s|
  {
    if s != [] && IsSpace(s[0]) {
      var t := s[1..];
      TrimLeftShape(t);
      var n := |TrimLeft(t)|;
      assert t[|t| - n..] == s[|s| - n..];
      forall i | 1 <= i < |s| - n ensures IsSpace(s[i]) {
        assert s[i] == t[i - 1];
      }
    }
  }

  /** bytes.TrimSpace: s without its leading and trailing white space */
  function TrimSpace(s: Bytes): (r: Bytes)
    ensures |r| <= |s|
  {
    TrimLeft(TrimRight(s))
  }

  /** The trimmed bytes are empty, or start and end with bytes that are not white space. */
  lemma TrimSpaceShape(s: Bytes)
    ensures var r := TrimSpace(s); r == [] || (!IsSpace(r[0]) && !IsSpace(r[|r| - 1]))
  {
    var t := TrimRight(s);
    var r := TrimLeft(t);
    TrimRightShape(s);
    TrimLeftShape(t);
    if r != [] {
      assert r[|r| - 1] == t[|t| - 1];
    }
  }

  /** The trimmed bytes are a window of s, ending where TrimRight cut. */
  lemma TrimSpaceWindow(s: Bytes)
    ensures var n := |TrimRight(s)|;
      |TrimSpace(s)| <= n <= |s| && TrimSpace(s) == s[n - |TrimSpace(s)|..n]
  {
    var t := TrimRight(s);
    var n := |t|;
    var r := TrimLeft(t);
    TrimRightShape(s);
    TrimLeftShape(t);
    assert t[n - |r|..] == s[n - |r|..n];
  }

  /** Everything outside that window is white space. */
  lemma TrimSpaceOutside(s: Bytes)
    ensures var n := |TrimRight(s)|;
      (forall i :: 0 <= i < n - |TrimSpace(s)| ==> IsSpace(s[i])) &&
      (forall i :: n <= i < |s| ==> IsSpace(s[i]))
  {
    var t := TrimRight(s);
    var n := |t|;
    TrimRightShape(s);
    TrimLeftShape(t);
    forall i | 0 <= i < n - |TrimSpace(s)| ensures IsSpace(s[i]) {
      assert IsSpace(t[i]);
      assert s[i] == t[i];
    }
  }

  /** Trimming leaves nothing exactly when s is all white space. */
  lemma TrimSpaceEmptyIff(s: Bytes)
    ensures TrimSpace(s) == [] <==> forall i :: 0 <= i < |s| ==> IsSpace(s[i])
  {
    TrimSpaceOutside(s);
    TrimSpaceWindow(s);
    TrimSpaceShape(s);
    var n := |TrimRight(s)|;
    if TrimSpace(s) != [] {
      assert s[n - |TrimSpace(s)|] == TrimSpace(s)[0];
    }
  }

  /** Trimming a trimmed sequence changes nothing. */
  lemma TrimSpaceIdempotent(s: Bytes)
    ensures TrimSpace(TrimSpace(s)) == TrimSpace(s)
  {
    var r := TrimSpace(s);
    TrimSpaceShape(s);
    if r != [] {
      assert TrimRight(r) == r;
    }
  }

  /** Go's string(b): one character per byte */
  function ToText(b: Bytes): (s: string)
    ensures |s| == |b| && forall i :: 0 <= i < |b| ==> s[i] as int == b[i] as int
  {
    seq(|b|, i requires 0 <= i < |b| => b[i] as int as char)
  }

  predicate IsLatin1(s: string) {
    forall i :: 0 <= i < |s| ==> s[i] as int < 0x100
  }

  /** Go's []byte(s) for text whose characters are single bytes */
  function ToBytes(s: string): (b: Bytes)
    requires IsLatin1(s)
    ensures |b| == |s| && forall i :: 0 <= i < |s| ==> b[i] as int == s[i] as int
  {
    seq(|s|, i requires 0 <= i < |s| => s[i] as int as byte)
  }

  lemma TextOfBytes(s: string)
    requires IsLatin1(s)
    ensures ToText(ToBytes(s)) == s
  {
  }
}
