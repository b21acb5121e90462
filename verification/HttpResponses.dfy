/**
  `getHTTPResponse` as a function of the segments in which a response arrives, and what it returns
  for plain and for chunked responses, however they are cut into segments.
 */
module HttpResponses {
  import opened Basics
  import opened HttpHeaders
  import Text
  import opened HttpBodies

  /** The state between two reads: `end` is 0 until the end of the headers has been found. */
  datatype Reader = Reader(header: string, end: nat, fields: Fields, decoder: Decoder, status: Status)

  const START := Reader("", 0, NO_FIELDS, Decoder(0, "", ""), More)

  /** How many of `n` bytes of a body are kept, with `used` bytes of content so far. */
  function Kept(length: int, used: nat, n: nat): (m: nat)
    ensures m <= n
  {
    if length > 0 && used + n > length then (if length > used then length - used else 0) else n
  }

  function CheckLength(r: Reader): Reader {
    if r.fields.contentLength > 0 && |r.decoder.content| >= r.fields.contentLength then r.(status := Done) else r
  }

  function Content(r: Reader, b: string): (r': Reader)
    requires Sane(r.decoder)
    ensures Sane(r'.decoder)
  {
    if r.fields.chunked then
      var (d, status) := Decode(r.decoder, b);
      if status.More? then CheckLength(r.(decoder := d)) else r.(decoder := d, status := status)
    else
      var d := r.decoder;
      CheckLength(r.(decoder := d.(content := d.content + b[..Kept(r.fields.contentLength, |d.content|, |b|)])))
  }

  /** One pass through the loop of `getHTTPResponse`. */
  function Receive(r: Reader, b: string): (r': Reader)
    requires Sane(r.decoder)
    ensures Sane(r'.decoder)
  {
    if r.end > 0 then Content(r, b)
    else
      var h := r.header + b;
      var e := HeaderEnd(h);
      if e == 0 then r.(header := h)
      else Content(r.(header := h, end := e, fields := FieldsOf(h, e)), h[e..])
  }

  function ReadAll(r: Reader, segments: seq<string>): (r': Reader)
    requires Sane(r.decoder)
    ensures Sane(r'.decoder)
    decreases |segments|
  {
    if segments == [] || !r.status.More? then r else ReadAll(Receive(r, segments[0]), segments[1..])
  }

  /** What `getHTTPResponse` returns. */
  function Response(segments: seq<string>): string {
    ReadAll(START, segments).decoder.content
  }

  // ----- plain bodies -----

  /** The body of a response that announces `length` bytes, of which `body` has arrived. */
  function Framed(length: int, body: string): string {
    if 0 < length < |body| then body[..length] else body
  }

  /** What the reader must be after the bytes `p` of a plain response with header block `h`. */
  ghost predicate PlainState(h: string, f: Fields, p: string, r: Reader) {
    && Sane(r.decoder)
    && (|p| < |h| ==> r == START.(header := p))
    && (|p| >= |h| ==>
          && r.end == |h| && r.fields == f
          && r.decoder.content == Framed(f.contentLength, p[|h|..])
          && r.status == if 0 < f.contentLength <= |p| - |h| then Done else More)
  }

  lemma PlainContent(h: string, f: Fields, p: string, b: string, r: Reader)
    requires !f.chunked && |p| >= |h| && p + b != "" && r.end == |h| && r.fields == f && Sane(r.decoder)
    requires r.decoder.content == Framed(f.contentLength, p[|h|..]) && r.status.More?
    requires f.contentLength > 0 ==> |p| - |h| < f.contentLength
    ensures PlainState(h, f, p + b, Content(r, b))
  {
    assert (p + b)[|h|..] == p[|h|..] + b;
  }

  lemma PlainReceive(h: string, f: Fields, p: string, b: string, r: Reader)
    requires HeaderEnd(h) == |h| > 0 && !OpenEnded(h) && f == FieldsOf(h, |h|) && !f.chunked
    requires PlainState(h, f, p, r) && r.status.More? && (p <= h || h <= p) && (p + b <= h || h <= p + b)
    ensures PlainState(h, f, p + b, Receive(r, b))
  {
    var q := p + b;
    if |p| >= |h| {
      PlainContent(h, f, p, b, r);
    } else if |q| < |h| {
      var x := h[|q|..];
      assert h == q + x;
      HeaderEndStable(q, x);
    } else {
      var x := q[|h|..];
      assert q == h + x;
      HeaderEndStable(h, x);
      FieldsLocal(h, x);
      var r1 := r.(header := q, end := |h|, fields := f);
      assert h[|h|..] == "" && "" + x == x;
      PlainContent(h, f, h, x, r1);
    }
  }

  lemma {:induction false} PlainRead(h: string, f: Fields, p: string, segments: seq<string>, r: Reader)
    requires HeaderEnd(h) == |h| > 0 && !OpenEnded(h) && f == FieldsOf(h, |h|) && !f.chunked
    requires PlainState(h, f, p, r) && (p <= h || h <= p) && h <= p + Concat(segments)
    ensures ReadAll(r, segments).decoder.content == Framed(f.contentLength, (p + Concat(segments))[|h|..])
    decreases |segments|
  {
    if segments == [] {
      assert p + "" == p;
    } else if !r.status.More? {
      assert (p + Concat(segments))[|h|..] == p[|h|..] + Concat(segments);
    } else {
      var b := segments[0];
      assert p + Concat(segments) == p + b + Concat(segments[1..]);
      assert p + b <= p + Concat(segments);
      PlainReceive(h, f, p, b, r);
      PlainRead(h, f, p + b, segments[1..], Receive(r, b));
    }
  }

  lemma {:induction false} PlainFrom(h: string, body: string, segments: seq<string>)
    requires HeaderEnd(h) == |h| > 0 && !OpenEnded(h) && !FieldsOf(h, |h|).chunked && Concat(segments) == h + body
    ensures Response(segments) == Framed(FieldsOf(h, |h|).contentLength, body)
  {
    assert "" + (h + body) == h + body && (h + body)[|h|..] == body;
    PlainRead(h, FieldsOf(h, |h|), "", segments, START);
  }

  /**
    A response that is not chunked is returned up to its announced length, or whole when none is
    announced, however it was cut into segments.
   */
  lemma {:induction false} PlainResponse(segments: seq<string>)
    requires var w := Concat(segments);
             var e := HeaderEnd(w);
             e > 0 && !OpenEnded(w[..e]) && !FieldsOf(w[..e], e).chunked
    ensures var w := Concat(segments);
            var e := HeaderEnd(w);
            Response(segments) == Framed(FieldsOf(w[..e], e).contentLength, w[e..])
  {
    var w := Concat(segments);
    var e := HeaderEnd(w);
    var h := w[..e];
    assert w == h + w[e..];
    HeaderEndStable(h, w[e..]);
    PlainFrom(h, w[e..], segments);
  }

  /** Without a complete header block nothing is returned. */
  lemma {:induction false} NoHeaderNoContent(p: string, segments: seq<string>)
    requires HeaderEnd(p + Concat(segments)) == 0
    ensures ReadAll(START.(header := p), segments) == START.(header := p + Concat(segments))
    decreases |segments|
  {
    if segments == [] {
      assert p + "" == p;
    } else {
      var q, x := p + segments[0], Concat(segments[1..]);
      assert p + Concat(segments) == q + x;
      HeaderEndStable(q, x);
      NoHeaderNoContent(q, segments[1..]);
    }
  }

  // ----- exactly when the segmentation matters -----

  ghost predicate Segmented(segments: seq<string>, w: string) {
    Concat(segments) == w && forall k :: 0 <= k < |segments| ==> 1 <= |segments[k]| <= 2048
  }

  /** Every way of receiving the same bytes gives the same result. */
  ghost predicate SegmentationFree(h: string) {
    forall body, s, t :: Segmented(s, h + body) && Segmented(t, h + body) ==> Response(s) == Response(t)
  }

  function Bytes(s: string): seq<string> {
    if s == "" then [] else [s[..1]] + Bytes(s[1..])
  }

  lemma {:induction false} ConcatFirst(b: string, rest: seq<string>)
    ensures Concat([b] + rest) == b + Concat(rest)
  {
    assert ([b] + rest)[1..] == rest;
  }

  lemma {:induction false} BytesAreSegments(s: string, tail: seq<string>)
    ensures Concat(Bytes(s) + tail) == s + Concat(tail)
    decreases |s|
  {
    if s == "" {
      assert Bytes(s) + tail == tail;
    } else {
      BytesAreSegments(s[1..], tail);
      BytesFirst(s, tail);
      ConcatFirst(s[..1], Bytes(s[1..]) + tail);
      assert s == s[..1] + s[1..];
      SeqAssoc(s[..1], s[1..], Concat(tail));
    }
  }

  lemma {:induction false} BytesAreSingle(s: string)
    ensures forall k :: 0 <= k < |Bytes(s)| ==> |Bytes(s)[k]| == 1
    decreases |s|
  {
    if s != "" {
      BytesAreSingle(s[1..]);
    }
  }

  /** A segment that does not complete the header block is only collected. */
  lemma OnlyCollected(p: string, b: string)
    requires HeaderEnd(p + b) == 0
    ensures Receive(START.(header := p), b) == START.(header := p + b)
  {
  }

  /** A segment that completes it: what stands behind it is content. */
  lemma EndsHeader(p: string, b: string, e: nat)
    requires e == HeaderEnd(p + b) > 0
    ensures Receive(START.(header := p), b)
         == Content(START.(header := p + b, end := e, fields := FieldsOf(p + b, e)), (p + b)[e..])
  {
  }

  lemma ReadFirst(r: Reader, b: string, rest: seq<string>)
    requires Sane(r.decoder) && r.status.More?
    ensures ReadAll(r, [b] + rest) == ReadAll(Receive(r, b), rest)
  {
    assert ([b] + rest)[1..] == rest;
  }

  lemma BytesFirst(s: string, tail: seq<string>)
    requires s != ""
    ensures Bytes(s) + tail == [s[..1]] + (Bytes(s[1..]) + tail)
  {
  }

  /** Segments that do not complete the header block are only collected. */
  lemma {:induction false} ReadBytes(p: string, s: string, tail: seq<string>)
    requires HeaderEnd(p + s) == 0
    ensures ReadAll(START.(header := p), Bytes(s) + tail) == ReadAll(START.(header := p + s), tail)
    decreases |s|
  {
    if s == "" {
      assert Bytes(s) + tail == tail && p + s == p;
    } else {
      var q := p + s[..1];
      assert p + s == q + s[1..];
      HeaderEndStable(q, s[1..]);
      OnlyCollected(p, s[..1]);
      BytesFirst(s, tail);
      ReadFirst(START.(header := p), s[..1], Bytes(s[1..]) + tail);
      ReadBytes(q, s[1..], tail);
    }
  }

  lemma RecogniseChunkedLocal(h: string, x: string, f: Fields, g: Fields, l: Line)
    requires LineWithin(h, |h|, l) && f.chunked == g.chunked
    ensures Recognise(h + x, f, l).chunked == Recognise(h, g, l).chunked
  {
    var b := h + x;
    assert b[l.start..l.colon] == h[l.start..l.colon] && b[l.value..] == h[l.value..] + x;
    StartsWithLocal(h[l.value..], x, l.eol - l.value);
  }

  lemma {:induction false} FoldChunkedLocal(h: string, x: string, f: Fields, g: Fields, ls: seq<Line>)
    requires LinesWithin(h, |h|, 0, ls) && f.chunked == g.chunked
    ensures Fold(h + x, f, ls).chunked == Fold(h, g, ls).chunked
    decreases |ls|
  {
    if ls != [] {
      assert LineWithin(h, |h|, ls[0]);
      RecogniseChunkedLocal(h, x, f, g, ls[0]);
      FoldChunkedLocal(h, x, Recognise(h + x, f, ls[0]), Recognise(h, g, ls[0]), ls[1..]);
    }
  }

  lemma ChunkedLocal(h: string, x: string)
    ensures FieldsOf(h + x, |h|).chunked == FieldsOf(h, |h|).chunked
  {
    LinesFromLocal(h, x, 0, 0, 0, 0);
    LinesFromWithin(h, |h|, 0, 0, 0, 0);
    FoldChunkedLocal(h, x, NO_FIELDS, NO_FIELDS, Lines(h, |h|));
  }

  const WITNESS := "5abcdef"

  lemma WitnessNumber()
    ensures Atoi(WITNESS) == 5
  {
    assert WITNESS[1..] == "abcdef";
    assert Number(WITNESS, 0) == Number("abcdef", 5) == 5;
  }

  lemma FirstContent(r: Reader, b: string)
    requires !r.fields.chunked && r.decoder.content == "" && Sane(r.decoder)
    ensures Content(r, b).decoder.content == b[..Kept(r.fields.contentLength, 0, |b|)]
  {
    assert "" + b[..Kept(r.fields.contentLength, 0, |b|)] == b[..Kept(r.fields.contentLength, 0, |b|)];
  }

  lemma {:induction false} ReadOne(r: Reader, b: string)
    requires Sane(r.decoder) && r.status.More?
    ensures ReadAll(r, [b]) == Receive(r, b)
  {
    assert [b][1..] == [];
  }

  /** Content that arrives with the end of an open-ended header block is cut at the number it starts with. */
  lemma OpenEndedCuts(h: string, x: string, n: nat)
    requires h != "" && OpenEnded(h) && !FieldsOf(h, |h|).chunked && Atoi(x) == n && 0 < n < |x|
    ensures Content(START.(header := h + x, end := |h|, fields := FieldsOf(h + x, |h|)), x).decoder.content == x[..n]
  {
    OpenEndedReadsOn(h, x);
    ChunkedLocal(h, x);
    FirstContent(START.(header := h + x, end := |h|, fields := FieldsOf(h + x, |h|)), x);
  }

  lemma ArrivesTogether(h: string, p: string, l: string)
    requires h == p + l && HeaderEnd(h) == |h| > 0 && OpenEnded(h) && !FieldsOf(h, |h|).chunked
    ensures ReadAll(START.(header := p), [l + WITNESS]).decoder.content == "5abcd"
  {
    ReadOne(START.(header := p), l + WITNESS);
    SeqAssoc(p, l, WITNESS);
    HeaderEndStable(h, WITNESS);
    EndsHeader(p, l + WITNESS, |h|);
    assert (h + WITNESS)[|h|..] == WITNESS;
    WitnessNumber();
    OpenEndedCuts(h, WITNESS, 5);
    assert WITNESS[..5] == "5abcd";
  }

  lemma ArrivesApart(h: string, p: string, l: string)
    requires h == p + l && HeaderEnd(h) == |h| > 0 && OpenEnded(h) && !FieldsOf(h, |h|).chunked
    ensures ReadAll(START.(header := p), [l, WITNESS]).decoder.content == WITNESS
  {
    var r := START.(header := p);
    OpenEndedReadsOn(h, "");
    assert h + "" == h && h[|h|..] == "" && "" + ""[..0] == "";
    var r1 := Receive(r, l);
    assert r1 == START.(header := h, end := |h|, fields := FieldsOf(h, |h|));
    assert [l, WITNESS][1..] == [WITNESS];
    ReadOne(r1, WITNESS);
    FirstContent(r1, WITNESS);
  }

  lemma {:induction false} WitnessSegments(h: string, p: string, l: string)
    requires h == p + l && |l| == 1
    ensures Segmented(Bytes(p) + [l + WITNESS], h + WITNESS) && Segmented(Bytes(p) + [l, WITNESS], h + WITNESS)
  {
    var together, apart := [l + WITNESS], [l, WITNESS];
    BytesAreSingle(p);
    BytesAreSegments(p, together);
    BytesAreSegments(p, apart);
    assert Concat(together) == l + WITNESS;
    assert Concat(apart) == l + WITNESS by {
      assert apart[1..] == [WITNESS] && [WITNESS][1..] == [];
      assert Concat([WITNESS]) == WITNESS;
    }
    assert p + (l + WITNESS) == h + WITNESS;
  }

  /** The last header byte arrives with the body, or alone: the results differ. */
  lemma OpenEndedMatters(h: string)
    requires HeaderEnd(h) == |h| > 0 && OpenEnded(h) && !FieldsOf(h, |h|).chunked
    ensures var pieces := Bytes(h[..|h| - 1]);
            && Segmented(pieces + [h[|h| - 1..] + WITNESS], h + WITNESS)
            && Segmented(pieces + [h[|h| - 1..], WITNESS], h + WITNESS)
            && Response(pieces + [h[|h| - 1..] + WITNESS]) == "5abcd"
            && Response(pieces + [h[|h| - 1..], WITNESS]) == "5abcdef"
  {
    var p, l := h[..|h| - 1], h[|h| - 1..];
    assert h == p + l && "" + p == p;
    WitnessSegments(h, p, l);
    HeaderEndStable(p, l);
    ReadBytes("", p, [l + WITNESS]);
    ReadBytes("", p, [l, WITNESS]);
    ArrivesTogether(h, p, l);
    ArrivesApart(h, p, l);
  }

  /** For plain responses, the result is independent of the segmentation iff the header block is not open-ended. */
  lemma SegmentationFreeIff(h: string)
    requires HeaderEnd(h) == |h| > 0 && !FieldsOf(h, |h|).chunked
    ensures SegmentationFree(h) <==> !OpenEnded(h)
  {
    if OpenEnded(h) {
      OpenEndedMatters(h);
    } else {
      forall body, s, t | Segmented(s, h + body) && Segmented(t, h + body)
        ensures Response(s) == Response(t)
      {
        PlainFrom(h, body, s);
        PlainFrom(h, body, t);
      }
    }
  }

  // ----- chunked bodies -----

  lemma RestIsNotEmpty(spot: Spot, chunks: seq<string>)
    ensures Rest(spot, chunks) != ""
  {
    WireStartsHex(chunks);
  }

  /** How reading ends when `owed` is to come: with all of it, or at the end of a segment that reached the length. */
  ghost predicate ReadEnds(r: Reader, length: int, owed: string) {
    r.status.Done? && r.decoder.content <= owed && (r.decoder.content == owed || 0 < length <= |r.decoder.content|)
  }

  lemma ChunkedSegment(r: Reader, spot: Spot, chunks: seq<string>, b: string)
    returns (spot': Spot, chunks': seq<string>)
    requires r.end > 0 && r.fields.chunked && r.status.More?
    requires Sane(r.decoder) && Stands(r.decoder, spot, chunks) && b <= Rest(spot, chunks)
    ensures var r', owed := Receive(r, b), Owed(r.decoder, spot, chunks);
            || ReadEnds(r', r.fields.contentLength, owed)
            || (&& r'.end > 0 && r'.fields == r.fields && r'.status.More? && Stands(r'.decoder, spot', chunks')
                && Rest(spot', chunks') == Rest(spot, chunks)[|b|..] && Owed(r'.decoder, spot', chunks') == owed)
  {
    spot', chunks' := SegmentDecodes(r.decoder, spot, chunks, b);
    var d := Decode(r.decoder, b).0;
    assert d.content <= Owed(d, spot', chunks');
  }

  lemma {:induction false} ChunkedRead(r: Reader, spot: Spot, chunks: seq<string>, segments: seq<string>)
    requires r.end > 0 && r.fields.chunked && r.status.More?
    requires Sane(r.decoder) && Stands(r.decoder, spot, chunks) && Concat(segments) == Rest(spot, chunks)
    ensures ReadEnds(ReadAll(r, segments), r.fields.contentLength, Owed(r.decoder, spot, chunks))
    decreases |segments|
  {
    RestIsNotEmpty(spot, chunks);
    var b := segments[0];
    assert Concat(segments)[|b|..] == Concat(segments[1..]);
    var spot', chunks' := ChunkedSegment(r, spot, chunks, b);
    var r' := Receive(r, b);
    if r'.status.More? {
      ChunkedRead(r', spot', chunks', segments[1..]);
    }
  }

  /** A segment that completes the header block `h`: the reader goes on with what stands behind it. */
  lemma HeaderCompletes(h: string, p: string, b: string, x: string, r: Reader)
    requires HeaderEnd(h) == |h| > 0 && !OpenEnded(h) && p + b == h + x && |p| < |h|
    requires r == START.(header := h + x, end := |h|, fields := FieldsOf(h, |h|))
    ensures Receive(START.(header := p), b) == Receive(r, x)
  {
    HeaderEndStable(h, x);
    FieldsLocal(h, x);
  }

  /** A segment that leaves the header block incomplete is only collected. */
  lemma HeaderGrows(h: string, q: string, x: string, p: string, b: string)
    requires HeaderEnd(h) == |h| && h == q + x && x != "" && q == p + b
    ensures Receive(START.(header := p), b) == START.(header := q)
  {
    HeaderEndStable(q, x);
  }

  lemma SplitInside(q: string, later: string, h: string, w: string)
    requires q + later == h + w && |q| < |h|
    ensures h == q + h[|q|..]
  {
    assert q == (q + later)[..|q|] == h[..|q|];
  }

  lemma SplitBehind(q: string, later: string, h: string, w: string)
    requires q + later == h + w && |q| >= |h|
    ensures q == h + q[|h|..] && q[|h|..] + later == w
  {
    assert h == (q + later)[..|h|] == q[..|h|];
    assert w == (q + later)[|h|..] == q[|h|..] + later;
  }

  /** Behind the header block, with the rest `x` of the segment that completed it. */
  lemma ChunkedBehindHeader(r: Reader, x: string, rest: seq<string>, chunks: seq<string>)
    requires r.end > 0 && r.fields.chunked && r.status.More? && r.decoder == START.decoder
    requires GoodChunks(chunks) && x + Concat(rest) == Wire(chunks)
    ensures ReadEnds(ReadAll(Receive(r, x), rest), r.fields.contentLength, Concat(chunks))
  {
    var segments := [x] + rest;
    assert segments[1..] == rest && Concat(segments) == x + Concat(rest);
    assert "" + Wire(chunks) == Wire(chunks);
    ChunkedRead(r, Lead(0), chunks, segments);
  }

  lemma {:induction false} ChunkedFromHeader(h: string, p: string, chunks: seq<string>, segments: seq<string>)
    requires HeaderEnd(h) == |h| > 0 && !OpenEnded(h) && GoodChunks(chunks) && FieldsOf(h, |h|).chunked
    requires |p| < |h| && p + Concat(segments) == h + Wire(chunks)
    ensures ReadEnds(ReadAll(START.(header := p), segments), FieldsOf(h, |h|).contentLength, Concat(chunks))
    decreases |segments|
  {
    var b, rest := segments[0], segments[1..];
    var q := p + b;
    SeqAssoc(p, b, Concat(rest));
    if |q| < |h| {
      SplitInside(q, Concat(rest), h, Wire(chunks));
      HeaderGrows(h, q, h[|q|..], p, b);
      ChunkedFromHeader(h, q, chunks, rest);
    } else {
      var x := q[|h|..];
      var r := START.(header := h + x, end := |h|, fields := FieldsOf(h, |h|));
      SplitBehind(q, Concat(rest), h, Wire(chunks));
      HeaderCompletes(h, p, b, x, r);
      ChunkedBehindHeader(r, x, rest, chunks);
    }
  }

  /** The header announces no length, or one that the content does not exceed. */
  predicate LengthAllows(h: string, content: string) {
    FieldsOf(h, |h|).contentLength <= 0 || FieldsOf(h, |h|).contentLength >= |content|
  }

  /**
    Chunked round trip: any content, cut into any nonempty chunks, encoded, and received in any
    segments, is returned unchanged.
   */
  lemma {:induction false} ChunkedResponse(h: string, chunks: seq<string>, segments: seq<string>)
    requires HeaderEnd(h) == |h| > 0 && !OpenEnded(h) && GoodChunks(chunks)
    requires FieldsOf(h, |h|).chunked && LengthAllows(h, Concat(chunks))
    requires Concat(segments) == h + Wire(chunks)
    ensures Response(segments) == Concat(chunks) && ReadAll(START, segments).status.Done?
  {
    assert "" + Concat(segments) == Concat(segments);
    ChunkedFromHeader(h, "", chunks, segments);
  }

  // ----- chunked responses that announce a length as well -----

  lemma {:induction false} DecodeGrows(d: Decoder, b: string)
    requires Sane(d)
    ensures |Decode(d, b).0.content| <= |d.content| + |b|
    decreases |b|
  {
    if b != "" {
      var (e, rest, status) := Pass(d, b);
      assert |e.content| + |rest| <= |d.content| + |b|;
      if status.More? {
        DecodeGrows(e, rest);
      }
    }
  }

  ghost predicate AllSingle(segments: seq<string>) {
    forall k :: 0 <= k < |segments| ==> |segments[k]| == 1
  }

  /** Read byte by byte, the content stops growing at the announced length. */
  lemma {:induction false} StopsAtLength(r: Reader, segments: seq<string>)
    requires r.end > 0 && r.fields.chunked && r.status.More? && Sane(r.decoder) && AllSingle(segments)
    requires |r.decoder.content| < r.fields.contentLength
    ensures |ReadAll(r, segments).decoder.content| <= r.fields.contentLength
    decreases |segments|
  {
    if segments != [] {
      DecodeGrows(r.decoder, segments[0]);
      var r' := Receive(r, segments[0]);
      if r'.status.More? {
        StopsAtLength(r', segments[1..]);
      }
    }
  }

  lemma NothingBehindHeader(r: Reader)
    requires r.end > 0 && r.fields.chunked && r.status.More? && r.decoder == START.decoder && r.fields.contentLength > 0
    ensures Receive(r, "") == r
  {
    assert Decode(r.decoder, "") == (r.decoder, More);
  }

  lemma {:induction false} SinglesFromHeader(h: string, p: string, w: string, segments: seq<string>)
    requires HeaderEnd(h) == |h| > 0 && !OpenEnded(h)
    requires FieldsOf(h, |h|).chunked && FieldsOf(h, |h|).contentLength > 0
    requires |p| < |h| && p + Concat(segments) == h + w && AllSingle(segments)
    ensures |ReadAll(START.(header := p), segments).decoder.content| <= FieldsOf(h, |h|).contentLength
    decreases |segments|
  {
    if segments != [] {
      var b, rest := segments[0], segments[1..];
      var q := p + b;
      SeqAssoc(p, b, Concat(rest));
      if |q| < |h| {
        SplitInside(q, Concat(rest), h, w);
        HeaderGrows(h, q, h[|q|..], p, b);
        SinglesFromHeader(h, q, w, rest);
      } else {
        var r := START.(header := h, end := |h|, fields := FieldsOf(h, |h|));
        SplitBehind(q, Concat(rest), h, w);
        assert q[|h|..] == "" && h + "" == h;
        HeaderCompletes(h, p, b, "", r);
        NothingBehindHeader(r);
        StopsAtLength(r, rest);
      }
    }
  }

  ghost predicate AlwaysWhole(h: string, chunks: seq<string>) {
    forall segments :: Segmented(segments, h + Wire(chunks)) ==> Response(segments) == Concat(chunks)
  }

  lemma ByteByByte(w: string)
    ensures Segmented(Bytes(w), w) && AllSingle(Bytes(w))
  {
    BytesAreSegments(w, []);
    BytesAreSingle(w);
    assert Bytes(w) + [] == Bytes(w) && w + Concat([]) == w;
  }

  /** With both a length and chunks, the whole content is returned however it is cut iff the length allows for it. */
  lemma {:induction false} AlwaysWholeIff(h: string, chunks: seq<string>)
    requires HeaderEnd(h) == |h| > 0 && !OpenEnded(h) && GoodChunks(chunks) && FieldsOf(h, |h|).chunked
    ensures AlwaysWhole(h, chunks) <==> LengthAllows(h, Concat(chunks))
  {
    if LengthAllows(h, Concat(chunks)) {
      forall segments | Segmented(segments, h + Wire(chunks)) ensures Response(segments) == Concat(chunks) {
        ChunkedResponse(h, chunks, segments);
      }
    } else {
      var w := h + Wire(chunks);
      ByteByByte(w);
      assert "" + Concat(Bytes(w)) == w;
      SinglesFromHeader(h, "", Wire(chunks), Bytes(w));
      assert START.(header := "") == START;
    }
  }

  // ----- responses with a printed length -----

  /** A header without a length and not chunked: the whole body is returned. */
  lemma {:induction false} UnannouncedResponse(ls: seq<HeaderLine>, body: string, segments: seq<string>)
    requires ls != [] && AllWellFormed(ls) && Concat(segments) == PrintHeader(ls) + body
    requires forall i :: 0 <= i < |ls| ==> !IsLengthLine(ls[i]) && !IsChunkedLine(ls[i])
    ensures Response(segments) == body
  {
    PrintedHeader(ls);
    SilentLines(NO_FIELDS, ls);
    PlainFrom(PrintHeader(ls), body, segments);
  }

  /**
    A header that is not chunked and whose last length line carries `n` as printed: the first `n`
    bytes of the body are returned, or all if there are fewer or `n` is 0.
   */
  lemma {:induction false} AnnouncedResponse(ls: seq<HeaderLine>, m: nat, k: nat, n: nat, body: string,
                                             segments: seq<string>)
    requires ls != [] && AllWellFormed(ls) && Concat(segments) == PrintHeader(ls) + body
    requires LastLength(ls, m) && ls[m].value == Text.Zeros(k) + Text.Digits(n)
    ensures Response(segments) == if 0 < n < |body| then body[..n] else body
  {
    PrintedHeader(ls);
    LastLengthDecides(NO_FIELDS, ls, m);
    PrintedLength(ls[m].value, k, n);
    PlainFrom(PrintHeader(ls), body, segments);
  }

  lemma PrintedLength(value: string, k: nat, n: nat)
    requires value == Text.Zeros(k) + Text.Digits(n)
    ensures Atoi(value) == n
  {
    AtoiReads("", "", k, n, "");
    assert "" + ("" + (value + "")) == value;
  }
}
