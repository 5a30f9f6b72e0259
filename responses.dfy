/**
 * The second half of Request (curl.go): each kept block parsed into header
 * fields (parseHeaders), the status code read from the first line of the
 * last block (getStatusCode and the code before it), and the outcome of a
 * run of the tool turned into a response or an error.
 */
module Responses {
  import opened Wrappers
  import opened Seqs
  import opened Bytes
  import opened Numeric
  import opened Errors
  import opened Extractor

  /** One "name: value" line, both sides trimmed */
  datatype Field = Field(name: Bytes, value: Bytes)

  /** http.Header: each canonical name with its values in the order they were added */
  type Header = map<Bytes, seq<Bytes>>

  /**
   * The field of one line: a line holding a colon is cut at its first
   * colon and both sides are trimmed; a line without one gives nothing.
   */
  function LineField(line: Bytes): Option<Field>
  {
    var i := Find(line, Colon);
    if i < 0 then None else Some(Field(TrimSpace(line[..i]), TrimSpace(line[i + 1..])))
  }

  /** A line has a field exactly when it holds a colon, and the name holds none. */
  lemma LineFieldIff(line: Bytes)
    ensures LineField(line).Some? <==> 58 in line
    ensures LineField(line).Some? ==> 58 !in LineField(line).value.name
  {
    var i := Find(line, Colon);
    if i < 0 {
      forall j | 0 <= j < |line| ensures line[j] != 58 {
        OccursSingle(line, 58, j);
      }
    } else {
      forall j | 0 <= j < i ensures line[j] != 58 {
        OccursSingle(line, 58, j);
      }
      OccursSingle(line, 58, i);
      TrimSpaceWithin(line[..i], 58);
    }
  }

  /** The name and the value of a field carry no white space at either end. */
  lemma LineFieldTrimmed(line: Bytes)
    requires LineField(line).Some?
    ensures var f := LineField(line).value; f.name == TrimSpace(f.name) && f.value == TrimSpace(f.value)
  {
    var i := Find(line, Colon);
    TrimSpaceIdempotent(line[..i]);
    TrimSpaceIdempotent(line[i + 1..]);
  }

  /** Trimming only drops bytes. */
  lemma TrimSpaceWithin(s: Bytes, c: byte)
    requires c !in s
    ensures c !in TrimSpace(s)
  {
    TrimSpaceWindow(s);
    var r := TrimSpace(s);
    var n := |TrimRight(s)|;
    forall k | 0 <= k < |r| ensures r[k] != c {
      assert r[k] == s[n - |r| + k];
    }
  }

  function LineFields(line: Bytes): seq<Field>
  {
    match LineField(line)
    case Some(f) => [f]
    case None => []
  }

  /** The fields of a sequence of lines, in line order */
  function FieldsOf(lines: seq<Bytes>): (fs: seq<Field>)
    ensures |fs| <= |lines|
    decreases |lines|
  {
    if lines == [] then [] else FieldsOf(lines[..|lines| - 1]) + LineFields(lines[|lines| - 1])
  }

  /** The fields of a block: its "\r\n" lines that hold a colon */
  function Fields(block: Bytes): seq<Field>
  {
    FieldsOf(Split(block, CRLF))
  }

  /** Header.Add: the value appended to those under the canonical form of the name */
  function Add(h: Header, canon: Bytes -> Bytes, f: Field): Header
  {
    var key := canon(f.name);
    h[key := (if key in h then h[key] else []) + [f.value]]
  }

  /** The fields added one after another, the first one first */
  function Accumulate(h: Header, canon: Bytes -> Bytes, fs: seq<Field>): Header
    decreases |fs|
  {
    if fs == [] then h else Add(Accumulate(h, canon, fs[..|fs| - 1]), canon, fs[|fs| - 1])
  }

  /** The values of the fields whose canonical name is key, in field order */
  function ValuesFor(fs: seq<Field>, canon: Bytes -> Bytes, key: Bytes): (vs: seq<Bytes>)
    ensures |vs| <= |fs|
    decreases |fs|
  {
    if fs == [] then []
    else
      var last := fs[|fs| - 1];
      ValuesFor(fs[..|fs| - 1], canon, key) + (if canon(last.name) == key then [last.value] else [])
  }

  /** The parsed header of a block */
  function Parsed(block: Bytes, canon: Bytes -> Bytes): Header
  {
    Accumulate(map[], canon, Fields(block))
  }

  /**
   * The values under a name are the values of exactly the fields with that
   * canonical name, in line order; a name none of them has is absent.
   */
  lemma {:induction false} AccumulateValues(fs: seq<Field>, canon: Bytes -> Bytes, key: Bytes)
    ensures key in Accumulate(map[], canon, fs) <==> ValuesFor(fs, canon, key) != []
    ensures key in Accumulate(map[], canon, fs) ==> Accumulate(map[], canon, fs)[key] == ValuesFor(fs, canon, key)
    decreases |fs|
  {
    if fs != [] {
      AccumulateValues(fs[..|fs| - 1], canon, key);
    }
  }

  /** The header is empty exactly when there are no fields. */
  lemma AccumulateEmpty(fs: seq<Field>, canon: Bytes -> Bytes)
    ensures Accumulate(map[], canon, fs) == map[] <==> fs == []
  {
    if fs != [] {
      var last := fs[|fs| - 1];
      assert canon(last.name) in Accumulate(map[], canon, fs);
    }
  }

  /** A colon stands in some line exactly when it stands in the block the lines were cut from. */
  lemma {:induction false} ColonInJoin(lines: seq<Bytes>)
    requires |lines| >= 1
    ensures 58 in Join(lines, CRLF) <==> exists k :: 0 <= k < |lines| && 58 in lines[k]
    decreases |lines|
  {
    if |lines| > 1 {
      ColonInJoin(lines[1..]);
      var rest := Join(lines[1..], CRLF);
      assert Join(lines, CRLF) == lines[0] + CRLF + rest;
      assert 58 !in CRLF;
      if 58 in rest {
        var k :| 0 <= k < |lines[1..]| && 58 in lines[1..][k];
        assert 58 in lines[k + 1];
      }
      if exists k :: 0 < k < |lines| && 58 in lines[k] {
        var k :| 0 < k < |lines| && 58 in lines[k];
        assert 58 in lines[1..][k - 1];
      }
    }
  }

  lemma {:induction false} FieldsOfEmpty(lines: seq<Bytes>)
    ensures FieldsOf(lines) == [] <==> forall k :: 0 <= k < |lines| ==> 58 !in lines[k]
    decreases |lines|
  {
    if lines != [] {
      FieldsOfEmpty(lines[..|lines| - 1]);
      LineFieldIff(lines[|lines| - 1]);
    }
  }

  /** A block yields no fields, and so an empty header, exactly when it holds no colon. */
  lemma NoFieldsIff(block: Bytes, canon: Bytes -> Bytes)
    ensures Fields(block) == [] <==> 58 !in block
    ensures Parsed(block, canon) == map[] <==> 58 !in block
  {
    var lines := Split(block, CRLF);
    SplitJoinBack(block, CRLF);
    ColonInJoin(lines);
    FieldsOfEmpty(lines);
    AccumulateEmpty(Fields(block), canon);
  }

  lemma FieldsSnoc(lines: seq<Bytes>, n: int)
    requires 0 <= n < |lines|
    ensures FieldsOf(lines[..n + 1]) == FieldsOf(lines[..n]) + LineFields(lines[n])
  {
    assert lines[..n + 1][..n] == lines[..n];
  }

  lemma AccumulateSnoc(h: Header, canon: Bytes -> Bytes, fs: seq<Field>, f: Field)
    ensures Accumulate(h, canon, fs + [f]) == Add(Accumulate(h, canon, fs), canon, f)
  {
    assert (fs + [f])[..|fs|] == fs;
  }

  /** The header after one more line: the line's field added, when it has one */
  function AddLine(h: Header, canon: Bytes -> Bytes, line: Bytes): Header
  {
    match LineField(line)
    case Some(f) => Add(h, canon, f)
    case None => h
  }

  /** One turn of the parse loop: the header of one line more. */
  lemma ParseStep(lines: seq<Bytes>, n: int, canon: Bytes -> Bytes)
    requires 0 <= n < |lines|
    ensures Accumulate(map[], canon, FieldsOf(lines[..n + 1])) ==
      AddLine(Accumulate(map[], canon, FieldsOf(lines[..n])), canon, lines[n])
  {
    FieldsSnoc(lines, n);
    var fs := FieldsOf(lines[..n]);
    match LineField(lines[n])
    case Some(f) =>
      AccumulateSnoc(map[], canon, fs, f);
    case None =>
      assert fs + [] == fs;
  }

  /**
   * The body of the parse loop: a line with a colon adds its trimmed name
   * and value. The imperative form of AddLine; LineFieldIff, LineFieldTrimmed
   * and ParseStep carry its properties.
   */
  method ParseLine(h: Header, canon: Bytes -> Bytes, line: Bytes) returns (r: Header)
    ensures r == AddLine(h, canon, line)
  {
    r := h;
    var i := Find(line, Colon);
    if i >= 0 {
      var key := TrimSpace(line[..i]);
      var value := TrimSpace(line[i + 1..]);
      r := Add(r, canon, Field(key, value));
    }
  }

  /** parseHeaders: the loop over the "\r\n" lines of a block */
  method ParseHeaders(block: Bytes, canon: Bytes -> Bytes) returns (result: Header)
    ensures result == Parsed(block, canon)
  {
    result := map[];
    var lines := Split(block, CRLF);
    for n := 0 to |lines|
      invariant result == Accumulate(map[], canon, FieldsOf(lines[..n]))
    {
      ParseStep(lines, n, canon);
      result := ParseLine(result, canon, lines[n]);
    }
    assert lines[..|lines|] == lines;
  }

  /** getStatusCode: the field as an integer, or the format error naming the field */
  function GetStatusCode(field: string): (r: Result<int64, Error>)
    ensures r.Ok? <==> Atoi(field).Some?
    ensures r.Ok? ==> Atoi(field) == Some(r.value)
    ensures r.Fail? ==> (r.error == StatusCodeFormat(field) &&
      Message(r.error) == "invalid status code format: " + field)
  {
    match Atoi(field)
    case Some(code) => Ok(code)
    case None => Fail(StatusCodeFormat(field))
  }

  /** The code on a status line: its second space-separated field */
  function StatusCodeOfLine(line: Bytes): (r: Result<int64, Error>)
    ensures r.Fail? ==> r.error == StatusCodeMissing || r.error.StatusCodeFormat?
  {
    var parts := Split(line, Space);
    if |parts| < 2 then Fail(StatusCodeMissing) else GetStatusCode(ToText(parts[1]))
  }

  /** A line without a space has no second field: "unable to extract status code". */
  lemma NoSpaceMissing(line: Bytes)
    requires 32 !in line
    ensures StatusCodeOfLine(line) == Fail(StatusCodeMissing)
    ensures Message(StatusCodeOfLine(line).error) == "unable to extract status code"
  {
    SeparableByHead(line, Space);
    FindNone(line, Space);
  }

  /**
   * A line with a space-free version and second field: that field, read by
   * getStatusCode, decides, whether or not more fields follow it. A field
   * that is not an integer (say "200\r", when no reason phrase follows)
   * gives the format error naming it.
   */
  lemma StatusFields(version: Bytes, field: Bytes, tail: Bytes)
    requires 32 !in version && 32 !in field
    ensures StatusCodeOfLine(version + Space + field) == GetStatusCode(ToText(field))
    ensures StatusCodeOfLine(version + Space + field + Space + tail) == GetStatusCode(ToText(field))
  {
    SeparableByHead(version, Space);
    SeparableByHead(field, Space);
    SplitAt(version, Space, field);
    FindNone(field, Space);
    assert version + Space + field + Space + tail == version + Space + (field + Space + tail);
    SplitAt(version, Space, field + Space + tail);
    SplitAt(field, Space, tail);
  }

  /** A line holding a space always has a second field, so it never gives "unable to extract status code". */
  lemma SpaceNotMissing(line: Bytes)
    requires 32 in line
    ensures StatusCodeOfLine(line) != Fail(StatusCodeMissing)
  {
    var i :| 0 <= i < |line| && line[i] == 32;
    OccursSingle(line, 32, i);
    var e := Find(line, Space);
    assert e >= 0;
  }

  /** The code of a block: that of its first "\n" line */
  function StatusCode(block: Bytes): Result<int64, Error>
  {
    StatusCodeOfLine(Split(block, NewLine)[0])
  }

  /** "%d" of a code as bytes */
  function DecimalBytes(n: int): (b: Bytes)
    ensures |b| >= 1 && 32 !in b && 10 !in b && 13 !in b && 58 !in b
    ensures ToText(b) == Decimal(n)
  {
    var s := Decimal(n);
    assert forall i :: 0 <= i < |s| ==> s[i] == '-' || IsDigit(s[i]) by {
      forall i | 0 <= i < |s| ensures s[i] == '-' || IsDigit(s[i]) {
        if i > 0 || n >= 0 {
          assert n < 0 ==> s[i] == s[1..][i - 1];
        }
      }
    }
    TextOfBytes(s);
    ToBytes(s)
  }

  /**
   * The status line "version code ..." gives the code, whatever follows
   * it, when the version holds no space.
   */
  lemma StatusOfLine(version: Bytes, code: int64, tail: Bytes)
    requires 32 !in version
    ensures StatusCodeOfLine(version + Space + DecimalBytes(code) + Space + tail) == Ok(code)
  {
    var digits := DecimalBytes(code);
    SeparableByHead(version, Space);
    SeparableByHead(digits, Space);
    assert version + Space + digits + Space + tail == version + Space + (digits + Space + tail);
    SplitAt(version, Space, digits + Space + tail);
    SplitAt(digits, Space, tail);
    AtoiDecimal(code);
  }

  /**
   * Only the first "\n" line counts: lines after it, other status lines
   * among them, do not change the code.
   */
  lemma StatusFromFirstLine(line: Bytes, rest: Bytes)
    requires 10 !in line
    ensures StatusCode(line + NewLine + rest) == StatusCodeOfLine(line)
    ensures StatusCode(line) == StatusCodeOfLine(line)
  {
    SeparableByHead(line, NewLine);
    SplitAt(line, NewLine, rest);
    FindNone(line, NewLine);
  }

  /** What one block contributes to the chain: its parsed header, when that has a field */
  function Piece(canon: Bytes -> Bytes): Bytes -> seq<Header>
  {
    block => var header := Parsed(block, canon); if |header| > 0 then [header] else []
  }

  /**
   * The parsed headers of the blocks, in block order, leaving out every
   * block that parsed to no field.
   */
  function Chain(blocks: seq<Bytes>, canon: Bytes -> Bytes): seq<Header>
  {
    Flatten(Piece(canon), blocks)
  }

  /** The chain of blocks one after another is the chain of each, in that order. */
  lemma ChainConcat(a: seq<Bytes>, b: seq<Bytes>, canon: Bytes -> Bytes)
    ensures Chain(a + b, canon) == Chain(a, canon) + Chain(b, canon)
  {
    FlattenConcat(Piece(canon), a, b);
  }

  /**
   * The headers of the chain are exactly the parsed headers of the blocks
   * that have a field.
   */
  lemma ChainMembers(blocks: seq<Bytes>, canon: Bytes -> Bytes, h: Header)
    ensures h in Chain(blocks, canon) <==>
      |h| > 0 && exists k :: 0 <= k < |blocks| && h == Parsed(blocks[k], canon)
  {
    FlattenMembers(Piece(canon), blocks, h);
    if h in Chain(blocks, canon) {
      var k :| 0 <= k < |blocks| && h in Piece(canon)(blocks[k]);
      PieceHolds(canon, blocks[k], h);
    }
    if |h| > 0 && exists k :: 0 <= k < |blocks| && h == Parsed(blocks[k], canon) {
      var k :| 0 <= k < |blocks| && h == Parsed(blocks[k], canon);
      PieceHolds(canon, blocks[k], h);
    }
  }

  lemma PieceHolds(canon: Bytes -> Bytes, block: Bytes, h: Header)
    ensures h in Piece(canon)(block) <==> |h| > 0 && h == Parsed(block, canon)
  {
  }

  /** The chain is empty exactly when no block holds a colon. */
  lemma ChainEmptyIff(blocks: seq<Bytes>, canon: Bytes -> Bytes)
    ensures Chain(blocks, canon) == [] <==> forall k :: 0 <= k < |blocks| ==> 58 !in blocks[k]
  {
    var chain := Chain(blocks, canon);
    if chain != [] {
      ChainMembers(blocks, canon, chain[0]);
      var k :| 0 <= k < |blocks| && chain[0] == Parsed(blocks[k], canon);
      NoFieldsIff(blocks[k], canon);
    }
    forall k | 0 <= k < |blocks| && 58 in blocks[k] ensures chain != [] {
      NoFieldsIff(blocks[k], canon);
      ChainMembers(blocks, canon, Parsed(blocks[k], canon));
    }
  }

  /** The response handed back: status code, last header, every header of the chain, last body. */
  datatype Response = Response(statusCode: int64, header: Header, headers: seq<Header>, body: Bytes)

  /**
   * headers[len(headers)-1] of Request as written: the last header of the
   * chain, or None where the index is out of range and Go panics.
   */
  function ResponseHeaderAsWritten(chain: seq<Header>): Option<Header>
  {
    if |chain| - 1 < 0 then None else Some(chain[|chain| - 1])
  }

  /** The header of the response: the last of the chain, or the empty header when the chain is empty. */
  function ResponseHeader(chain: seq<Header>): Header
  {
    if chain == [] then map[] else chain[|chain| - 1]
  }

  /**
   * What Request makes of the tool's stdout: the extraction error, the
   * status-line errors of the last block, the HTTP error for a code of 400
   * or more (with statusText's text for it), or the response.
   */
  function Classify(output: Bytes, canon: Bytes -> Bytes, statusText: int64 -> string): Result<Response, Error>
  {
    match Extract(output)
    case Fail(e) => Fail(e)
    case Ok(x) =>
      var chain := Chain(x.blocks, canon);
      match StatusCode(x.blocks[|x.blocks| - 1])
      case Fail(e) => Fail(e)
      case Ok(code) =>
        if code >= 400 then Fail(HttpError(code, statusText(code)))
        else Ok(Response(code, ResponseHeader(chain), chain, x.body))
  }

  /**
   * The outcomes of classifying stdout: the extraction error exactly when
   * extraction fails; otherwise the status code of the last block decides,
   * an HTTP error carries that code, which is at least 400, and a response
   * carries a code below 400, the chain of the extracted blocks, its last
   * header and the body.
   */
  lemma ClassifyCases(output: Bytes, canon: Bytes -> Bytes, statusText: int64 -> string)
    ensures var r := Classify(output, canon, statusText);
      (Extract(output).Fail? <==> r == Fail(ExtractionError)) &&
      (Extract(output).Ok? ==>
        var x := Extract(output).value;
        var status := StatusCode(x.blocks[|x.blocks| - 1]);
        var chain := Chain(x.blocks, canon);
        (status.Fail? ==> r == Fail(status.error)) &&
        (r.Fail? && IsHttpError(r.error) <==> status.Ok? && status.value >= 400) &&
        (r.Fail? && IsHttpError(r.error) ==> r.error == HttpError(status.value, statusText(status.value))) &&
        (r.Ok? <==> status.Ok? && status.value < 400) &&
        (r.Ok? ==> r.value == Response(status.value, ResponseHeader(chain), chain, x.body)))
  {
  }

  /** A response carries a code below 400, only headers with a field, and the last of them when there is one. */
  lemma ClassifyOk(output: Bytes, canon: Bytes -> Bytes, statusText: int64 -> string, resp: Response)
    requires Classify(output, canon, statusText) == Ok(resp)
    ensures resp.statusCode < 400
    ensures forall h :: h in resp.headers ==> |h| > 0
    ensures resp.headers != [] ==> resp.header == resp.headers[|resp.headers| - 1]
    ensures resp.headers == [] ==> resp.header == map[]
  {
    var x := Extract(output).value;
    var chain := Chain(x.blocks, canon);
    assert resp.headers == chain && resp.header == ResponseHeader(chain);
    forall h | h in chain ensures |h| > 0 {
      ChainMembers(x.blocks, canon, h);
    }
  }

  /**
   * The second half of Request: extraction, the parse of every block, the
   * status line of the last block and the classification of its code.
   */
  method Respond(output: Bytes, canon: Bytes -> Bytes, statusText: int64 -> string) returns (r: Result<Response, Error>)
    ensures r == Classify(output, canon, statusText)
  {
    var extracted := ExtractAllResponses(output);
    if extracted.Fail? {
      return Fail(extracted.error);
    }
    var responses := extracted.value.blocks;
    var lastBody := extracted.value.body;
    var headers := ParseAll(responses, canon);
    var statusCode := ReadStatus(responses[|responses| - 1]);
    if statusCode.Fail? {
      return Fail(statusCode.error);
    }
    if statusCode.value >= 400 {
      return Fail(HttpError(statusCode.value, statusText(statusCode.value)));
    }
    var header := if headers == [] then map[] else headers[|headers| - 1];
    return Ok(Response(statusCode.value, header, headers, lastBody));
  }

  /** The loop of Request over the blocks: each parsed, the non-empty headers kept in order. */
  method ParseAll(responses: seq<Bytes>, canon: Bytes -> Bytes) returns (headers: seq<Header>)
    ensures headers == Chain(responses, canon)
  {
    headers := [];
    for i := 0 to |responses|
      invariant headers == Chain(responses[..i], canon)
    {
      assert responses[..i + 1][..i] == responses[..i];
      var header := ParseHeaders(responses[i], canon);
      if |header| > 0 {
        headers := headers + [header];
      }
    }
    assert responses[..|responses|] == responses;
  }

  /**
   * The status line of a block, split on single spaces, and its second
   * field read as a code. The imperative form of StatusCode; StatusOfLine,
   * StatusFromFirstLine and NoSpaceMissing carry its properties.
   */
  method ReadStatus(lastHeaders: Bytes) returns (r: Result<int64, Error>)
    ensures r == StatusCode(lastHeaders)
  {
    var statusLine := Split(lastHeaders, NewLine)[0];
    var statusParts := Split(statusLine, Space);
    if |statusParts| < 2 {
      return Fail(StatusCodeMissing);
    }
    r := GetStatusCode(ToText(statusParts[1]));
  }

  /**
   * Request as written: None where headers[len(headers)-1] is out of range
   * and Go panics, that is when the code is below 400 but no block parsed
   * to a field.
   */
  function ClassifyAsWritten(output: Bytes, canon: Bytes -> Bytes, statusText: int64 -> string): Option<Result<Response, Error>>
  {
    match Extract(output)
    case Fail(e) => Some(Fail(e))
    case Ok(x) =>
      var chain := Chain(x.blocks, canon);
      match StatusCode(x.blocks[|x.blocks| - 1])
      case Fail(e) => Some(Fail(e))
      case Ok(code) =>
        if code >= 400 then Some(Fail(HttpError(code, statusText(code))))
        else match ResponseHeaderAsWritten(chain)
          case None => None
          case Some(header) => Some(Ok(Response(code, header, chain, x.body)))
  }

  /**
   * The code as written panics exactly on the responses with no header,
   * and agrees with the corrected classification everywhere else.
   */
  lemma AsWrittenPanicsIff(output: Bytes, canon: Bytes -> Bytes, statusText: int64 -> string)
    ensures var r := Classify(output, canon, statusText);
      (ClassifyAsWritten(output, canon, statusText) == None <==> r.Ok? && r.value.headers == []) &&
      (ClassifyAsWritten(output, canon, statusText) != None ==> ClassifyAsWritten(output, canon, statusText) == Some(r))
  {
  }

  /** "HTTP/1.1", "HTTP/1.0", "No Content" and "Connection established\r" as bytes */
  const Http11: Bytes := [72, 84, 84, 80, 47, 49, 46, 49]
  const Http10: Bytes := [72, 84, 84, 80, 47, 49, 46, 48]
  const NoContentText: Bytes := [78, 111, 32, 67, 111, 110, 116, 101, 110, 116]
  const EstablishedCR: Bytes := [67, 111, 110, 110, 101, 99, 116, 105, 111, 110, 32, 101, 115, 116, 97, 98, 108, 105, 115, 104, 101, 100, 13]

  /** "HTTP/1.1 204 No Content": a status line and no field */
  function NoContentLine(): Bytes
  {
    Http11 + Space + DecimalBytes(204) + Space + NoContentText
  }

  /** The line holds no carriage return, line feed or colon. */
  lemma NoContentLineBytes()
    ensures 13 !in NoContentLine() && 10 !in NoContentLine() && 58 !in NoContentLine()
  {
  }

  /** The line is one qualifying block that the scan cuts off whole. */
  lemma NoContentLineQualifies()
    ensures Qualifies(NoContentLine()) && Separable(NoContentLine(), Delim)
  {
    var line := NoContentLine();
    NoContentLineBytes();
    SeparableByHead(line, Delim);
    assert line[..5] == HttpToken;
    assert line[|line| - 1] == NoContentText[9];
    assert TrimRight(line) == line;
    assert TrimLeft(line) == line;
  }

  /** The 204 reply "HTTP/1.1 204 No Content\r\n\r\n" is one block and no body. */
  lemma NoContentExtract()
    ensures Extract(NoContentLine() + Delim) == Ok(Extraction([NoContentLine()], []))
  {
    var line := NoContentLine();
    NoContentLineQualifies();
    FlattenSingle(Terminated, line);
    assert Framed([line]) + [] == line + Delim;
    ExtractFramed([line], []);
  }

  /** Its code is 204. */
  lemma NoContentStatus()
    ensures StatusCode(NoContentLine()) == Ok(204)
  {
    NoContentLineBytes();
    StatusOfLine(Http11, 204, NoContentText);
    StatusFromFirstLine(NoContentLine(), []);
  }

  /** It has no field, so its chain is empty. */
  lemma NoContentChain(canon: Bytes -> Bytes)
    ensures Chain([NoContentLine()], canon) == []
  {
    NoContentLineBytes();
    ChainEmptyIff([NoContentLine()], canon);
  }

  /** As written, "HTTP/1.1 204 No Content\r\n\r\n" makes Request index past the end of its header list. */
  lemma NoContentPanics(canon: Bytes -> Bytes, statusText: int64 -> string)
    ensures ClassifyAsWritten(NoContentLine() + Delim, canon, statusText) == None
  {
    NoContentExtract();
    NoContentStatus();
    NoContentChain(canon);
  }

  /** Corrected, the same reply is a 204 response with an empty header and an empty body. */
  lemma NoContentCorrected(canon: Bytes -> Bytes, statusText: int64 -> string)
    ensures Classify(NoContentLine() + Delim, canon, statusText) == Ok(Response(204, map[], [], []))
  {
    NoContentExtract();
    NoContentStatus();
    NoContentChain(canon);
  }

  /** "HTTP/1.0 200 Connection established\r", the first line of a block behind a proxy */
  function ProxyLine(): Bytes
  {
    Http10 + Space + DecimalBytes(200) + Space + EstablishedCR
  }

  /** The proxy's line holds no line feed. */
  lemma ProxyLineBytes()
    ensures 10 !in ProxyLine()
  {
  }

  /**
   * In a block that starts with the proxy's reply the code is 200, whatever
   * the following lines say, the final response's status line among them.
   */
  lemma ProxyLineDecides(rest: Bytes)
    ensures StatusCode(ProxyLine() + NewLine + rest) == Ok(200)
  {
    StatusOfLine(Http10, 200, EstablishedCR);
    ProxyLineBytes();
    StatusFromFirstLine(ProxyLine(), rest);
  }

  /**
   * A last block with code 404 is the HTTP error with the status text of
   * 404, whose message is "HTTP Error. Not Found (404)" when that text is
   * "Not Found".
   */
  lemma NotFoundClassified(output: Bytes, canon: Bytes -> Bytes, statusText: int64 -> string)
    requires Extract(output).Ok?
    requires StatusCode(Extract(output).value.blocks[|Extract(output).value.blocks| - 1]) == Ok(404)
    requires statusText(404) == "Not Found"
    ensures Classify(output, canon, statusText) == Fail(HttpError(404, "Not Found"))
    ensures Message(Classify(output, canon, statusText).error) == "HTTP Error. Not Found (404)"
  {
    NotFoundMessage();
  }
}
