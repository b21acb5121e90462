/**
  The encoder that exercises the reader: `build_chunked_response` cuts a content into chunks of
  random size and prints them behind a fixed header.
 */
module ChunkedEncoder {
  import opened Basics
  import opened HttpHeaders
  import opened HttpBodies
  import opened HttpResponses

  const STATUS_LINE := Plain("HTTP/1.1 200 OK")
  const TYPE_LINE := NamedLine("Content-Type", " ", "text/plain")
  const ENCODING_LINE := NamedLine("Transfer-Encoding", " ", "chunked")

  function ResponseLines(): seq<HeaderLine> {
    [STATUS_LINE, TYPE_LINE, ENCODING_LINE]
  }

  /** Chunks without the last one. */
  function Body(chunks: seq<string>): string {
    if chunks == [] then ""
    else
      var n := |chunks| - 1;
      Body(chunks[..n]) + Hex(|chunks[n]|) + "\r\n" + chunks[n] + "\r\n"
  }

  lemma ChunkMoves(body: string, size: string, c: string, later: string)
    ensures body + size + "\r\n" + c + "\r\n" + later == body + (size + ("\r\n" + (c + ("\r\n" + later))))
  {
  }

  lemma {:induction false} WireOfBody(chunks: seq<string>, later: seq<string>)
    ensures Body(chunks) + Wire(later) == Wire(chunks + later)
    decreases |chunks|
  {
    if chunks == [] {
      assert chunks + later == later;
    } else {
      var n := |chunks| - 1;
      var c := chunks[n];
      ChunkMoves(Body(chunks[..n]), Hex(|c|), c, Wire(later));
      WireOfBody(chunks[..n], [c] + later);
      assert chunks[..n] + ([c] + later) == chunks + later;
      assert ([c] + later)[1..] == later;
    }
  }

  lemma {:induction false} ConcatSnoc(parts: seq<string>, c: string)
    ensures Concat(parts + [c]) == Concat(parts) + c
  {
    if parts == [] {
      assert parts + [c] == [c] && [c][1..] == [];
    } else {
      ConcatSnoc(parts[1..], c);
      assert (parts + [c])[1..] == parts[1..] + [c];
    }
  }

  /** One more chunk behind what has been printed so far. */
  lemma {:induction false} BodySnoc(header: string, chunks: seq<string>, c: string)
    ensures header + Body(chunks + [c]) == header + Body(chunks) + Hex(|c|) + "\r\n" + c + "\r\n"
  {
    assert (chunks + [c])[..|chunks|] == chunks;
    var b := Body(chunks);
    assert header + (b + Hex(|c|) + "\r\n" + c + "\r\n") == header + b + Hex(|c|) + "\r\n" + c + "\r\n";
  }

  lemma {:induction false} LastChunk(header: string, chunks: seq<string>)
    ensures header + Body(chunks) + "0\r\n\r\n" == header + Wire(chunks)
  {
    WireOfBody(chunks, []);
    assert chunks + [] == chunks;
    assert Wire([]) == "0\r\n\r\n";
    SeqAssoc(header, Body(chunks), Wire([]));
  }

  /** Chunk sizes as they are drawn. */
  ghost predicate Drawn(chunks: seq<string>) {
    forall k :: 0 <= k < |chunks| ==> 1 <= |chunks[k]| <= 199
  }

  lemma DrawnIsGood(chunks: seq<string>)
    requires Drawn(chunks)
    ensures GoodChunks(chunks)
  {
  }

  /** The content cut up to `i`, and the chunks printed. */
  ghost predicate Printed(header: string, content: string, i: nat, chunks: seq<string>, response: string) {
    i <= |content| && Drawn(chunks) && Concat(chunks) == content[..i] && response == header + Body(chunks)
  }

  lemma PrintedNext(header: string, content: string, i: nat, chunks: seq<string>, response: string, n: nat, c: string)
    requires Printed(header, content, i, chunks, response) && 1 <= n <= 199 && i + n <= |content|
    requires c == content[i..i + n]
    ensures Printed(header, content, i + n, chunks + [c], response + Hex(n) + "\r\n" + c + "\r\n")
  {
    ConcatSnoc(chunks, c);
    BodySnoc(header, chunks, c);
    assert content[..i] + c == content[..i + n];
  }

  /** The loop that cuts the content and prints the chunks; `rand(k)` is the k-th random number drawn. */
  method PrintChunks(header: string, content: string, rand: nat -> nat) returns (response: string, chunks: seq<string>)
    requires |content| < TWO_TO_31
    ensures response == header + Wire(chunks)
    ensures Concat(chunks) == content && GoodChunks(chunks) && Drawn(chunks)
  {
    response, chunks := header, [];
    var i, k := 0, 0;
    while i < |content|
      invariant Printed(header, content, i, chunks, response)
    {
      var n := rand(k) % 199 + 1;
      k := k + 1;
      if i + n > |content| {
        n := |content| - i;
      }
      var c := content[i..i + n];
      PrintedNext(header, content, i, chunks, response, n, c);
      response := response + Hex(n) + "\r\n" + c + "\r\n";
      chunks := chunks + [c];
      i := i + n;
    }
    response := response + "0\r\n\r\n";
    LastChunk(header, chunks);
    DrawnIsGood(chunks);
    assert content[..|content|] == content;
  }

  method BuildChunkedResponse(content: string, rand: nat -> nat) returns (response: string, chunks: seq<string>)
    requires |content| < TWO_TO_31
    ensures response == PrintHeader(ResponseLines()) + Wire(chunks)
    ensures Concat(chunks) == content && GoodChunks(chunks) && Drawn(chunks)
  {
    response, chunks := PrintChunks(PrintHeader(ResponseLines()), content, rand);
  }

  lemma StatusLineMeans()
    ensures WellFormed(STATUS_LINE) && Meaning(NO_FIELDS, STATUS_LINE) == NO_FIELDS
  {
  }

  lemma TypeLineMeans()
    ensures WellFormed(TYPE_LINE) && Meaning(NO_FIELDS, TYPE_LINE) == NO_FIELDS
  {
    var name := "Content-Type";
    assert Lower(name[8]) != "content-length"[8];
    assert Lower(name[0]) != "transfer-encoding"[0];
    assert !IsCSpace("text/plain"[0]);
  }

  lemma EncodingLineMatches()
    ensures NameMatches("Transfer-Encoding", "transfer-encoding") && StartsWith("chunked", "chunked")
  {
  }

  lemma EncodingLineWellFormed()
    ensures WellFormed(ENCODING_LINE)
  {
    assert !IsCSpace("chunked"[0]);
  }

  lemma EncodingLineMeans()
    ensures Meaning(NO_FIELDS, ENCODING_LINE) == Fields(-1, true)
  {
    EncodingLineMatches();
    assert Lower("Transfer-Encoding"[0]) != "content-length"[0];
  }

  lemma ResponseLinesMean()
    ensures AllWellFormed(ResponseLines()) && MeaningOf(NO_FIELDS, ResponseLines()) == Fields(-1, true)
  {
    StatusLineMeans();
    TypeLineMeans();
    EncodingLineWellFormed();
    EncodingLineMeans();
    var ls := ResponseLines();
    assert ls[1..] == [TYPE_LINE, ENCODING_LINE] && ls[1..][1..] == [ENCODING_LINE] && ls[1..][1..][1..] == [];
  }

  /** What the encoder prints, received in any segments, is read back as the content. */
  lemma {:induction false} EncodedIsReadBack(chunks: seq<string>, segments: seq<string>)
    requires GoodChunks(chunks) && Concat(segments) == PrintHeader(ResponseLines()) + Wire(chunks)
    ensures Response(segments) == Concat(chunks) && ReadAll(START, segments).status.Done?
  {
    ResponseLinesMean();
    PrintedHeader(ResponseLines());
    ChunkedResponse(PrintHeader(ResponseLines()), chunks, segments);
  }

  // ----- the size of the response buffer -----

  /** What is allocated for a content of `n` bytes. */
  function BufferLength(n: nat): nat {
    256 + n + n / 16
  }

  lemma {:induction false} HexIsShort(n: nat)
    requires 1 <= n <= 199
    ensures |Hex(n)| == if n < 16 then 1 else 2
  {
    if n >= 16 {
      assert Hex(n) == Hex(n / 16) + [HexChar(n % 16)];
      assert |Hex(n / 16)| == 1;
    }
  }

  lemma WireLength(c: string, rest: seq<string>)
    ensures |Wire([c] + rest)| == |Hex(|c|)| + 4 + |c| + |Wire(rest)|
  {
    assert ([c] + rest)[1..] == rest;
  }

  /** No cut of the content takes more room than single bytes do. */
  lemma {:induction false} WireIsBounded(chunks: seq<string>)
    requires Drawn(chunks)
    ensures |Wire(chunks)| <= 5 + 6 * |Concat(chunks)|
    decreases |chunks|
  {
    if chunks != [] {
      var c, rest := chunks[0], chunks[1..];
      WireIsBounded(rest);
      HexIsShort(|c|);
      WireLength(c, rest);
      assert chunks == [c] + rest;
    }
  }

  lemma {:induction false} WireOfBytes(content: string)
    ensures Drawn(Bytes(content)) && Concat(Bytes(content)) == content && |Wire(Bytes(content))| == 5 + 6 * |content|
  {
    if content != "" {
      var c, rest := content[..1], Bytes(content[1..]);
      WireOfBytes(content[1..]);
      HexIsShort(1);
      WireLength(c, rest);
      ConcatFirst(c, rest);
      assert Bytes(content) == [c] + rest && content == c + content[1..];
    }
  }

  lemma HeaderLength()
    ensures |PrintHeader(ResponseLines())| == 73
  {
    var ls := ResponseLines();
    assert ls[1..] == [TYPE_LINE, ENCODING_LINE] && ls[1..][1..] == [ENCODING_LINE] && ls[1..][1..][1..] == [];
    assert |PrintHeader([])| == 2;
    assert |PrintHeader([ENCODING_LINE])| == 30;
    assert |PrintHeader([TYPE_LINE, ENCODING_LINE])| == 56;
  }

  ghost predicate FitsBuffer(content: string, chunks: seq<string>) {
    Drawn(chunks) && Concat(chunks) == content ==>
      |PrintHeader(ResponseLines()) + Wire(chunks)| <= BufferLength(|content|)
  }

  /** The response fits its buffer whatever is drawn iff the content has at most 36 bytes. */
  lemma AlwaysFitsIff(content: string)
    ensures (forall chunks :: FitsBuffer(content, chunks)) <==> |content| <= 36
  {
    HeaderLength();
    if |content| <= 36 {
      forall chunks ensures FitsBuffer(content, chunks) {
        if Drawn(chunks) {
          WireIsBounded(chunks);
        }
      }
    } else {
      WireOfBytes(content);
      assert !FitsBuffer(content, Bytes(content));
    }
  }
}
