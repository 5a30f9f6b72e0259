/**
 * extractAllResponses (curl.go): the tool's stdout, written with --include,
 * holds one header section per response (a proxy's CONNECT reply, each
 * redirect, the final response), each ended by "\r\n\r\n", then the last
 * body. The scan keeps the sections that start with "HTTP/" and returns
 * them in order together with everything after the last delimiter.
 */
module Extractor {
  import opened Wrappers
  import opened Seqs
  import opened Bytes
  import opened Errors

  /** "HTTP/", the version token a status line starts with (section 4 of RFC 9112) */
  const HttpToken: Bytes := [72, 84, 84, 80, 47]

  /** A block is kept when it starts with "HTTP/" and is longer than that once trimmed. */
  predicate Qualifies(block: Bytes) {
    HasPrefix(block, HttpToken) && |TrimSpace(block)| > |HttpToken|
  }

  /** The blocks the scan keeps, in scan order */
  function Filter(blocks: seq<Bytes>): (kept: seq<Bytes>)
  {
    Keep(Qualifies, blocks)
  }

  /** The kept blocks are exactly the blocks that qualify. */
  lemma FilterMembers(blocks: seq<Bytes>)
    ensures forall b :: b in Filter(blocks) <==> b in blocks && Qualifies(b)
  {
    KeepMembers(Qualifies, blocks);
  }

  /** Every block the scan passes over: each piece before a delimiter */
  function Scanned(output: Bytes): (blocks: seq<Bytes>)
  {
    var pieces := Split(output, Delim);
    pieces[..|pieces| - 1]
  }

  /** What follows the last delimiter */
  function Rest(output: Bytes): Bytes
  {
    var pieces := Split(output, Delim);
    pieces[|pieces| - 1]
  }

  /** The header blocks, in order, and the last body */
  datatype Extraction = Extraction(blocks: seq<Bytes>, body: Bytes)

  /**
   * The result of extractAllResponses: the kept blocks and the body, or the
   * extraction error when no block is kept.
   */
  function Extract(output: Bytes): (r: Result<Extraction, Error>)
    ensures r.Fail? ==> r.error == ExtractionError
    ensures r.Ok? ==> |r.value.blocks| >= 1
  {
    var kept := Filter(Scanned(output));
    if kept == [] then Fail(ExtractionError) else Ok(Extraction(kept, Rest(output)))
  }

  /**
   * Each extracted block starts with "HTTP/", is longer than 5 bytes once
   * trimmed and holds no delimiter; neither does the body.
   */
  lemma ExtractShape(output: Bytes)
    requires Extract(output).Ok?
    ensures Free(Extract(output).value.body, Delim)
    ensures forall b :: b in Extract(output).value.blocks ==>
      HasPrefix(b, HttpToken) && |TrimSpace(b)| > 5 && Free(b, Delim)
  {
    FilterMembers(Scanned(output));
    SplitFree(output, Delim);
  }

  /** One step of the scan: a delimiter at e cuts off the block before it. */
  lemma ScanStep(s: Bytes, e: int)
    requires 0 <= e && OccursAt(s, Delim, e) && forall j :: 0 <= j < e ==> !OccursAt(s, Delim, j)
    ensures Scanned(s) == [s[..e]] + Scanned(s[e + |Delim|..])
    ensures Rest(s) == Rest(s[e + |Delim|..])
  {
    FindIs(s, Delim, e);
  }

  /** The scan ends where no delimiter is left. */
  lemma ScanEnd(s: Bytes)
    requires Find(s, Delim) == -1
    ensures Scanned(s) == [] && Rest(s) == s
  {
  }

  /** What the scan loop keeps true: the blocks kept so far, then those still ahead, are all the kept blocks. */
  ghost predicate ScanInvariant(output: Bytes, pos: int, headers: seq<Bytes>) {
    0 <= pos <= |output| &&
    headers + Filter(Scanned(output[pos..])) == Filter(Scanned(output)) &&
    Rest(output[pos..]) == Rest(output)
  }

  /** One turn of the scan loop: the block before the next delimiter is kept or passed over. */
  lemma Advance(output: Bytes, pos: int, end: int, headers: seq<Bytes>)
    requires ScanInvariant(output, pos, headers)
    requires end == Find(output[pos..], Delim) && end >= 0
    ensures pos + end + |Delim| <= |output|
    ensures ScanInvariant(output, pos + end + |Delim|,
      if Qualifies(output[pos..pos + end]) then headers + [output[pos..pos + end]] else headers)
  {
    var next := pos + end + |Delim|;
    var block := output[pos..pos + end];
    ScanStep(output[pos..], end);
    assert output[pos..][..end] == block;
    assert output[pos..][end + |Delim|..] == output[next..];
    var later := Filter(Scanned(output[next..]));
    if Qualifies(block) {
      assert headers + [block] + later == headers + ([block] + later);
    } else {
      assert [] + later == later;
    }
  }

  /** When no delimiter is left, the blocks kept so far are all of them and the rest is the body. */
  lemma Finish(output: Bytes, pos: int, headers: seq<Bytes>)
    requires ScanInvariant(output, pos, headers) && Find(output[pos..], Delim) == -1
    ensures headers == Filter(Scanned(output)) && output[pos..] == Rest(output)
  {
    ScanEnd(output[pos..]);
  }

  /** extractAllResponses itself: the loop that walks the delimiters. */
  method ExtractAllResponses(output: Bytes) returns (r: Result<Extraction, Error>)
    ensures r == Extract(output)
  {
    var headers: seq<Bytes> := [];
    var lastBody: Bytes := [];
    var lastHeaderIndex := -1;
    var pos := 0;
    assert output[pos..] == output;
    while true
      invariant ScanInvariant(output, pos, headers)
      invariant lastHeaderIndex == |headers| - 1
      decreases |output| - pos
    {
      var end := Find(output[pos..], Delim);
      if end == -1 {
        Finish(output, pos, headers);
        break;
      }
      Advance(output, pos, end, headers);
      var block := output[pos..pos + end];
      if Qualifies(block) {
        headers := headers + [block];
        lastHeaderIndex := |headers| - 1;
      }
      pos := pos + end + |Delim|;
    }
    if lastHeaderIndex != -1 {
      lastBody := output[pos..];
    }
    if |headers| == 0 {
      return Fail(ExtractionError);
    }
    return Ok(Extraction(headers, lastBody));
  }

  /** Extraction fails, with exactly the extraction error, if and only if no scanned block qualifies. */
  lemma ExtractFailsIff(output: Bytes)
    ensures Extract(output).Fail? <==> forall b :: b in Scanned(output) ==> !Qualifies(b)
    ensures Extract(output).Fail? ==> Message(Extract(output).error) == "unable to extract valid HTTP responses"
  {
    var kept := Filter(Scanned(output));
    FilterMembers(Scanned(output));
    if kept != [] {
      assert kept[0] in kept;
    }
  }

  /** Output without a delimiter, the empty output among it, yields the extraction error. */
  lemma UndelimitedFails(output: Bytes)
    requires Free(output, Delim)
    ensures Extract(output) == Fail(ExtractionError)
  {
    FindNone(output, Delim);
  }

  /** A block followed by the delimiter, as it stands in the output */
  function Terminated(block: Bytes): Bytes
  {
    block + Delim
  }

  /** The blocks, each followed by the delimiter */
  function Framed(blocks: seq<Bytes>): Bytes
  {
    Flatten(Terminated, blocks)
  }

  lemma {:induction false} JoinFramed(pieces: seq<Bytes>)
    requires |pieces| >= 1
    ensures Join(pieces, Delim) == Framed(pieces[..|pieces| - 1]) + pieces[|pieces| - 1]
    decreases |pieces|
  {
    if |pieces| > 1 {
      var tail := pieces[1..];
      JoinFramed(tail);
      assert pieces[..|pieces| - 1] == [pieces[0]] + tail[..|tail| - 1];
      FlattenConcat(Terminated, [pieces[0]], tail[..|tail| - 1]);
      assert Flatten(Terminated, [pieces[0]]) == Terminated(pieces[0]) by {
        assert [pieces[0]][..0] == [];
      }
    }
  }

  /** The output is every scanned block followed by the delimiter, then the rest. */
  lemma ScanReassembles(output: Bytes)
    ensures output == Framed(Scanned(output)) + Rest(output)
  {
    JoinFramed(Split(output, Delim));
    SplitJoinBack(output, Delim);
  }

  /**
   * Framing blocks that hold no delimiter and do not end in "\r\n", and
   * appending a body with no delimiter, is undone by the scan.
   */
  lemma ScanFramed(blocks: seq<Bytes>, body: Bytes)
    requires forall k :: 0 <= k < |blocks| ==> Separable(blocks[k], Delim)
    requires Free(body, Delim)
    ensures Scanned(Framed(blocks) + body) == blocks
    ensures Rest(Framed(blocks) + body) == body
  {
    var pieces := blocks + [body];
    assert pieces[..|pieces| - 1] == blocks;
    JoinFramed(pieces);
    SplitJoin(pieces, Delim);
  }

  /** A block can be framed unambiguously exactly when it holds no delimiter and does not end in "\r\n". */
  lemma SeparableIff(block: Bytes)
    ensures Separable(block, Delim) <==> Free(block, Delim) && !(|block| >= 2 && block[|block| - 2..] == CRLF)
  {
    var s := block + Delim;
    var n := |block|;
    assert s[..n] == block;
    forall j | 0 <= j < n && j + 4 <= n ensures OccursAt(block, Delim, j) <==> OccursAt(s, Delim, j) {
      OccursInPrefix(s, n, Delim, j);
    }
    if n >= 2 && block[n - 2..] == CRLF {
      assert s[n - 2..n + 2] == Delim;
      assert OccursAt(s, Delim, n - 2);
    }
    forall j | 0 <= j < n && n < j + 4 && !(n >= 2 && block[n - 2..] == CRLF) ensures !OccursAt(s, Delim, j) {
      NotAcross(block, j);
    }
  }

  /** A delimiter cannot straddle the end of a block that does not end in "\r\n". */
  lemma NotAcross(block: Bytes, j: int)
    requires 0 <= j < |block| < j + 4 && !(|block| >= 2 && block[|block| - 2..] == CRLF)
    ensures !OccursAt(block + Delim, Delim, j)
  {
    var s, n := block + Delim, |block|;
    var w := s[j..j + 4];
    if j == n - 1 {
      assert w[1] == s[n] == CR;
    } else if j == n - 2 {
      var tail := block[n - 2..];
      assert w[0] == tail[0] && w[1] == tail[1];
      assert tail == [tail[0], tail[1]];
    } else {
      assert w[3] == s[n] == CR;
    }
  }

  /**
   * Round trip: extracting from framed qualifying blocks and a body gives
   * those blocks and that body back.
   */
  lemma ExtractFramed(blocks: seq<Bytes>, body: Bytes)
    requires |blocks| >= 1
    requires forall k :: 0 <= k < |blocks| ==> Separable(blocks[k], Delim) && Qualifies(blocks[k])
    requires Free(body, Delim)
    ensures Extract(Framed(blocks) + body) == Ok(Extraction(blocks, body))
  {
    ScanFramed(blocks, body);
    FilterKeepsQualifying(blocks);
  }

  /** A sequence of qualifying blocks is kept whole. */
  lemma FilterKeepsQualifying(blocks: seq<Bytes>)
    requires forall k :: 0 <= k < |blocks| ==> Qualifies(blocks[k])
    ensures Filter(blocks) == blocks
  {
    KeepAll(Qualifies, blocks);
  }
}
