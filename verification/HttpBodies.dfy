/**
  The body part of `getHTTPResponse`: the chunked decoder of section 4.1 of RFC 7230 and the
  Content-Length framing of section 3.3.2 of RFC 7230, as functions of the received segments.
 */
module HttpBodies {
  import opened Basics
  import opened HttpHeaders

  /** `chunksize_buf` has 32 bytes, the last one for the terminator. */
  const MAX_DIGITS := 31

  // ----- reading a chunk-size line -----

  predicate AllHex(s: string) {
    forall k :: 0 <= k < |s| ==> IsHex(s[k])
  }

  /** The size accumulated in 32 bits. */
  function HexValue(s: string): (n: nat)
    requires AllHex(s)
    ensures n < TWO_TO_32
  {
    if s == "" then 0 else (HexValue(s[..|s| - 1]) * 16 + HexDigit(s[|s| - 1])) % TWO_TO_32
  }

  function SkipOne(b: string, c: char): (r: string)
    ensures |r| <= |b| && (r != b ==> |r| < |b|)
    ensures b != "" && b[0] == c ==> r == b[1..]
    ensures b == "" || b[0] != c ==> r == b
  {
    if b != "" && b[0] == c then b[1..] else b
  }

  /** The digits collected so far, extended by the hexadecimal digits at the front of `b`. */
  function TakeHex(digits: string, b: string): (r: (string, string))
    requires AllHex(digits) && |digits| <= MAX_DIGITS
    ensures AllHex(r.0) && |r.0| <= MAX_DIGITS && |r.1| <= |b| && (r.1 != b ==> |r.1| < |b|)
    decreases |b|
  {
    if b != "" && IsHex(b[0]) && |digits| < MAX_DIGITS then TakeHex(digits + [b[0]], b[1..]) else (digits, b)
  }

  function SkipExtension(b: string): (r: string)
    ensures |r| <= |b| && (r != b ==> |r| < |b|)
    ensures r == "" || IsEol(r[0])
  {
    if b != "" && !IsEol(b[0]) then SkipExtension(b[1..]) else b
  }

  // ----- the chunked decoder -----

  /** `size` is what is left of the current chunk, `digits` the size line read so far. */
  datatype Decoder = Decoder(size: nat, digits: string, content: string)

  datatype Status = More | Done | TooLarge

  predicate Sane(d: Decoder) {
    d.size < TWO_TO_31 && AllHex(d.digits) && |d.digits| <= MAX_DIGITS
  }

  /** One size line, or what `b` holds of it: the digits, and what is left of `b`. */
  function ReadSize(d: Decoder, b: string): (r: (string, string))
    requires Sane(d)
    ensures AllHex(r.0) && |r.0| <= MAX_DIGITS && |r.1| <= |b|
    ensures b != "" && (r.1 == "" || r.1[0] != '\n') ==> |r.1| < |b|
  {
    var b1 := if d.digits == "" then SkipOne(SkipOne(b, '\r'), '\n') else b;
    var (digits, b2) := TakeHex(d.digits, b1);
    (digits, SkipOne(SkipExtension(b2), '\r'))
  }

  function Copied(d: Decoder, m: nat, b: string): Decoder
    requires m <= d.size && m <= |b|
  {
    d.(size := d.size - m, content := d.content + b[..m])
  }

  function Min(x: nat, y: nat): nat {
    if x < y then x else y
  }

  /** Copies what `b` holds of the current chunk. */
  function Copy(d: Decoder, b: string): (r: (Decoder, string, Status)) {
    var m := Min(d.size, |b|);
    (Copied(d, m, b), b[m..], More)
  }

  /** What follows a size line: nothing more if `b` does not hold its LF, otherwise the chunk. */
  function BeginChunk(d: Decoder, b: string): (r: (Decoder, string, Status))
    requires Sane(d) && d.size == 0
    ensures Sane(r.0) && |r.1| <= |b| && (b != "" && b[0] == '\n' ==> |r.1| < |b|)
  {
    if b == "" || b[0] != '\n' then (d, b, More)
    else
      var size := HexValue(d.digits);
      if size == 0 then (d.(digits := ""), b[1..], Done)
      else if size >= TWO_TO_31 then (d.(digits := ""), b[1..], TooLarge)
      else Copy(d.(size := size, digits := ""), b[1..])
  }

  /** One pass through the loop over the bytes of a segment: decoder, bytes left, and whether to go on. */
  function Pass(d: Decoder, b: string): (r: (Decoder, string, Status))
    requires Sane(d) && b != ""
    ensures Sane(r.0) && (r.2.More? ==> |r.1| < |b|)
  {
    if d.size > 0 then Copy(d, b)
    else
      var (digits, rest) := ReadSize(d, b);
      BeginChunk(d.(digits := digits), rest)
  }

  /** The `while(i < n)` loop over the bytes `b` of one segment. */
  function Decode(d: Decoder, b: string): (r: (Decoder, Status))
    requires Sane(d)
    ensures Sane(r.0)
    decreases |b|
  {
    if b == "" then (d, More)
    else
      var (e, rest, status) := Pass(d, b);
      if status.More? then Decode(e, rest) else (e, status)
  }

  // ----- the encoder's side -----

  /** `printf("%x")`. */
  function Hex(n: nat): (s: string)
    ensures s != "" && AllHex(s)
  {
    if n < 16 then [HexChar(n)] else Hex(n / 16) + [HexChar(n % 16)]
  }

  function Concat(parts: seq<string>): string {
    if parts == [] then "" else parts[0] + Concat(parts[1..])
  }

  function HeadSize(chunks: seq<string>): nat {
    if chunks == [] then 0 else |chunks[0]|
  }

  /** The chunked encoding, last chunk and final empty line included. */
  function Wire(chunks: seq<string>): string
    decreases |chunks|, 1
  {
    Hex(HeadSize(chunks)) + ("\r\n" + AfterSize(chunks))
  }

  /** What follows the size line of the first remaining chunk. */
  function AfterSize(chunks: seq<string>): string
    decreases |chunks|, 0
  {
    if chunks == [] then "\r\n" else chunks[0] + ("\r\n" + Wire(chunks[1..]))
  }

  predicate GoodChunks(chunks: seq<string>) {
    forall k :: 0 <= k < |chunks| ==> 0 < |chunks[k]| < TWO_TO_31
  }

  lemma {:induction false} HexValueOfHex(n: nat)
    requires n < TWO_TO_32
    ensures HexValue(Hex(n)) == n
  {
    var q, r := n / 16, n % 16;
    HexDigitOfChar(r);
    if n >= 16 {
      HexValueOfHex(q);
      HexNext(Hex(q), q, r);
    } else {
      HexNext("", 0, n);
    }
  }

  lemma {:induction false} HexNext(s: string, q: nat, r: nat)
    requires AllHex(s) && HexValue(s) == q && r < 16 && q * 16 + r < TWO_TO_32
    ensures AllHex(s + [HexChar(r)]) && HexValue(s + [HexChar(r)]) == q * 16 + r
  {
    HexDigitOfChar(r);
    assert (s + [HexChar(r)])[..|s|] == s;
  }

  /** The value with `k` zeros behind it. */
  function Shifted(x: nat, k: nat): nat {
    if k == 0 then x else 16 * Shifted(x, k - 1)
  }

  lemma {:induction false} HexLength(n: nat, k: nat)
    requires 1 <= k && n < Shifted(1, k)
    ensures |Hex(n)| <= k
  {
    if n >= 16 {
      HexLength(n / 16, k - 1);
    }
  }

  // ----- where the reader stands in an encoded stream -----

  /** In the data of a chunk; before a size line; within its digits; or between its CR and LF. */
  datatype Spot = InData(left: string) | Lead(n: nat) | InSize(k: nat) | AwaitLf

  /** The bytes still to come. */
  function Rest(spot: Spot, chunks: seq<string>): string {
    match spot
    case InData(left) => left + ("\r\n" + Wire(chunks))
    case Lead(n) => (if n == 2 then "\r\n" else if n == 1 then "\n" else "") + Wire(chunks)
    case InSize(k) => (var h := Hex(HeadSize(chunks)); if k <= |h| then h[k..] else "") + ("\r\n" + AfterSize(chunks))
    case AwaitLf => "\n" + AfterSize(chunks)
  }

  ghost predicate Stands(d: Decoder, spot: Spot, chunks: seq<string>) {
    && GoodChunks(chunks)
    && match spot
       case InData(left) => 0 < |left| == d.size < TWO_TO_31 && d.digits == ""
       case Lead(n) => n <= 2 && d.size == 0 && d.digits == ""
       case InSize(k) => 1 <= k <= |Hex(HeadSize(chunks))| && d.size == 0 && d.digits == Hex(HeadSize(chunks))[..k]
       case AwaitLf => d.size == 0 && d.digits == Hex(HeadSize(chunks))
  }

  /** The content once everything has been read. */
  function Owed(d: Decoder, spot: Spot, chunks: seq<string>): string {
    d.content + (if spot.InData? then spot.left else "") + Concat(chunks)
  }

  lemma SizeLineIsShort(chunks: seq<string>)
    requires GoodChunks(chunks)
    ensures |Hex(HeadSize(chunks))| <= 8
  {
    assert Shifted(1, 8) == TWO_TO_32 by {
      assert Shifted(1, 2) == 256 && Shifted(1, 4) == 65536;
    }
    HexLength(HeadSize(chunks), 8);
  }

  lemma StandsIsSane(d: Decoder, spot: Spot, chunks: seq<string>)
    requires Stands(d, spot, chunks)
    ensures Sane(d)
  {
    SizeLineIsShort(chunks);
  }

  /** Two positions on a size line decode alike when they read the same line. */
  lemma {:induction false} SameRead(d: Decoder, b: string, e: Decoder, c: string)
    requires Sane(d) && Sane(e) && d.size == 0 && e == d.(digits := e.digits) && b != ""
    requires if c == "" then ReadSize(d, b) == (e.digits, "") else ReadSize(d, b) == ReadSize(e, c)
    ensures Decode(d, b) == Decode(e, c)
  {
    if c == "" {
      assert d.(digits := e.digits) == e;
    }
  }

  lemma CopyFirst(d: Decoder, b: string)
    requires d.size > 1 && |b| > 1
    ensures Copy(d, b) == Copy(Copied(d, 1, b), b[1..])
  {
    var m, b1 := Min(d.size, |b|), b[1..];
    assert b[..1] + b1[..m - 1] == b[..m] && b1[m - 1..] == b[m..];
    assert d.content + b[..1] + b1[..m - 1] == d.content + b[..m];
  }

  lemma {:induction false} DataByte(d: Decoder, b: string)
    requires Sane(d) && d.size > 0 && b != ""
    ensures Decode(d, b) == Decode(Copied(d, 1, b), b[1..])
  {
    if d.size > 1 && |b| > 1 {
      CopyFirst(d, b);
      assert Pass(d, b) == Pass(Copied(d, 1, b), b[1..]);
    } else {
      assert Pass(d, b) == (Copied(d, 1, b), b[1..], More);
    }
  }

  lemma {:induction false} LeadCr(d: Decoder, b: string)
    requires Sane(d) && d.size == 0 && d.digits == "" && b != "" && b[0] == '\r' && (|b| > 1 ==> b[1] == '\n')
    ensures Decode(d, b) == Decode(d, b[1..])
  {
    SameRead(d, b, d, b[1..]);
  }

  lemma {:induction false} LeadLf(d: Decoder, b: string)
    requires Sane(d) && d.size == 0 && d.digits == "" && b != "" && b[0] == '\n' && (|b| > 1 ==> IsHex(b[1]))
    ensures Decode(d, b) == Decode(d, b[1..])
  {
    SameRead(d, b, d, b[1..]);
  }

  lemma {:induction false} SizeDigit(d: Decoder, b: string)
    requires Sane(d) && d.size == 0 && |d.digits| < MAX_DIGITS && b != "" && IsHex(b[0])
    ensures Decode(d, b) == Decode(d.(digits := d.digits + [b[0]]), b[1..])
  {
    assert SkipOne(SkipOne(b, '\r'), '\n') == b;
    assert TakeHex(d.digits, b) == TakeHex(d.digits + [b[0]], b[1..]);
    SameRead(d, b, d.(digits := d.digits + [b[0]]), b[1..]);
  }

  lemma {:induction false} SizeCr(d: Decoder, b: string)
    requires Sane(d) && d.size == 0 && d.digits != "" && b != "" && b[0] == '\r' && (|b| > 1 ==> b[1] == '\n')
    ensures Decode(d, b) == Decode(d, b[1..])
  {
    SameRead(d, b, d, b[1..]);
  }

  lemma {:induction false} SizeLf(d: Decoder, b: string)
    requires Sane(d) && d.size == 0 && d.digits != "" && b != "" && b[0] == '\n'
    ensures var n := HexValue(d.digits);
            && (n == 0 ==> Decode(d, b) == (d.(digits := ""), Done))
            && (0 < n < TWO_TO_31 ==> Decode(d, b) == Decode(d.(size := n, digits := ""), b[1..]))
  {
    assert ReadSize(d, b) == (d.digits, b);
    var n := HexValue(d.digits);
    if 0 < n < TWO_TO_31 && |b| == 1 {
      assert Copied(d.(size := n, digits := ""), 0, "") == d.(size := n, digits := "");
    }
  }

  lemma {:induction false} WireStartsHex(chunks: seq<string>)
    ensures Wire(chunks) != "" && Wire(chunks)[0] == Hex(HeadSize(chunks))[0] && IsHex(Wire(chunks)[0])
    ensures Wire(chunks)[1..] == Hex(HeadSize(chunks))[1..] + ("\r\n" + AfterSize(chunks))
  {
  }

  /** Where the reader stands after one more byte. */
  function NextSpot(d: Decoder, spot: Spot, chunks: seq<string>): (r: (Decoder, Spot, seq<string>)) {
    match spot
    case InData(left) =>
      if left == "" then (d, spot, chunks)
      else (Decoder(if d.size > 0 then d.size - 1 else 0, "", d.content + left[..1]),
            if |left| > 1 then InData(left[1..]) else Lead(2), chunks)
    case Lead(n) =>
      if n > 0 then (d, Lead(n - 1), chunks) else (d.(digits := Hex(HeadSize(chunks))[..1]), InSize(1), chunks)
    case InSize(k) =>
      var h := Hex(HeadSize(chunks));
      if k < |h| then (d.(digits := h[..k + 1]), InSize(k + 1), chunks) else (d, AwaitLf, chunks)
    case AwaitLf =>
      if chunks == [] then (d.(digits := ""), Lead(0), [])
      else (d.(size := |chunks[0]|, digits := ""), InData(chunks[0]), chunks[1..])
  }

  predicate Last(spot: Spot, chunks: seq<string>) {
    spot.AwaitLf? && chunks == []
  }

  ghost predicate Advances(d: Decoder, spot: Spot, chunks: seq<string>) {
    var (d', spot', chunks') := NextSpot(d, spot, chunks);
    && Stands(d', spot', chunks') && Rest(spot, chunks) != "" && Rest(spot', chunks') == Rest(spot, chunks)[1..]
    && Owed(d', spot', chunks') == Owed(d, spot, chunks)
  }

  lemma DataAdvances(d: Decoder, left: string, chunks: seq<string>)
    requires Stands(d, InData(left), chunks)
    ensures Advances(d, InData(left), chunks)
  {
    var tail := "\r\n" + Wire(chunks);
    if |left| > 1 {
      assert (left + tail)[1..] == left[1..] + tail;
      assert d.content + left[..1] + left[1..] == d.content + left;
    } else {
      assert left[..1] == left && (left + tail)[1..] == tail;
      assert d.content + left + "" == d.content + left;
    }
  }

  lemma LeadAdvances(d: Decoder, n: nat, chunks: seq<string>)
    requires Stands(d, Lead(n), chunks)
    ensures Advances(d, Lead(n), chunks)
  {
    var w := Wire(chunks);
    assert "" + w == w;
    if n == 2 {
      assert ("\r\n" + w)[1..] == "\n" + w;
    } else if n == 1 {
      assert ("\n" + w)[1..] == w;
    } else {
      WireStartsHex(chunks);
    }
  }

  lemma SizeAdvances(d: Decoder, k: nat, chunks: seq<string>)
    requires Stands(d, InSize(k), chunks)
    ensures Advances(d, InSize(k), chunks)
  {
    var h, tail := Hex(HeadSize(chunks)), "\r\n" + AfterSize(chunks);
    if k < |h| {
      assert (h[k..] + tail)[1..] == h[k + 1..] + tail;
    } else {
      assert h[k..] + tail == tail && h[..k] == h;
      assert tail[1..] == "\n" + AfterSize(chunks);
    }
  }

  lemma LfAdvances(d: Decoder, chunks: seq<string>)
    requires Stands(d, AwaitLf, chunks) && chunks != []
    ensures Advances(d, AwaitLf, chunks)
  {
    assert ("\n" + AfterSize(chunks))[1..] == AfterSize(chunks);
    assert d.content + "" + Concat(chunks) == d.content + chunks[0] + Concat(chunks[1..]);
  }

  lemma NextStands(d: Decoder, spot: Spot, chunks: seq<string>)
    requires Stands(d, spot, chunks) && !Last(spot, chunks)
    ensures Advances(d, spot, chunks)
  {
    match spot
    case InData(left) => DataAdvances(d, left, chunks);
    case Lead(n) => LeadAdvances(d, n, chunks);
    case InSize(k) => SizeAdvances(d, k, chunks);
    case AwaitLf => LfAdvances(d, chunks);
  }

  ghost predicate ByteFirst(d: Decoder, spot: Spot, chunks: seq<string>, b: string) {
    var d' := NextSpot(d, spot, chunks).0;
    Sane(d) && Sane(d') && b != "" && Decode(d, b) == Decode(d', b[1..])
  }

  lemma DataDecodes(d: Decoder, left: string, chunks: seq<string>, b: string)
    requires Stands(d, InData(left), chunks) && b != "" && b[0] == left[0]
    ensures ByteFirst(d, InData(left), chunks, b)
  {
    DataByte(d, b);
    assert b[..1] == left[..1];
  }

  lemma LeadDecodes(d: Decoder, n: nat, chunks: seq<string>, b: string)
    requires Stands(d, Lead(n), chunks) && b != "" && b <= Rest(Lead(n), chunks)
    ensures ByteFirst(d, Lead(n), chunks, b)
  {
    var w := Wire(chunks);
    WireStartsHex(chunks);
    if n == 2 {
      assert b[0] == ("\r\n" + w)[0] && (|b| > 1 ==> b[1] == ("\r\n" + w)[1]);
      LeadCr(d, b);
    } else if n == 1 {
      assert b[0] == ("\n" + w)[0] && (|b| > 1 ==> b[1] == ("\n" + w)[1]);
      LeadLf(d, b);
    } else {
      assert b[0] == ("" + w)[0];
      SizeDigit(d, b);
      assert "" + [b[0]] == Hex(HeadSize(chunks))[..1];
    }
  }

  /** The first bytes of the stream within a size line. */
  lemma RestInSize(k: nat, chunks: seq<string>, h: string, b: string)
    requires h == Hex(HeadSize(chunks)) && k <= |h| && b != "" && b <= Rest(InSize(k), chunks)
    ensures k < |h| ==> b[0] == h[k]
    ensures k == |h| ==> b[0] == '\r' && (|b| > 1 ==> b[1] == '\n')
  {
    var r := Rest(InSize(k), chunks);
    assert b[0] == r[0] && (|b| > 1 ==> b[1] == r[1]);
    if k < |h| {
      assert r[0] == h[k];
    } else {
      assert r[0] == '\r' && r[1] == '\n';
    }
  }

  lemma SizeDigitDecodes(d: Decoder, k: nat, h: string, b: string)
    requires d.size == 0 && AllHex(h) && 1 <= k < |h| <= 8 && d.digits == h[..k] && b != "" && b[0] == h[k]
    ensures var d' := d.(digits := h[..k + 1]);
            Sane(d) && Sane(d') && Decode(d, b) == Decode(d', b[1..])
  {
    assert h[..k] + [h[k]] == h[..k + 1];
    SizeDigit(d, b);
  }

  lemma {:induction false} SizeCrDecodes(d: Decoder, h: string, b: string)
    requires d.size == 0 && AllHex(h) && 1 <= |h| <= 8 && d.digits == h[..|h|]
    requires b != "" && b[0] == '\r' && (|b| > 1 ==> b[1] == '\n')
    ensures Sane(d) && Decode(d, b) == Decode(d, b[1..])
  {
    assert h[..|h|] == h;
    SizeCr(d, b);
  }

  lemma SizeDigitFirst(d: Decoder, k: nat, chunks: seq<string>, h: string, b: string)
    requires h == Hex(HeadSize(chunks)) && 1 <= k < |h| <= 8 && d.size == 0 && d.digits == h[..k]
    requires b != "" && b[0] == h[k]
    ensures ByteFirst(d, InSize(k), chunks, b)
  {
    SizeDigitDecodes(d, k, h, b);
  }

  lemma SizeCrFirst(d: Decoder, k: nat, chunks: seq<string>, h: string, b: string)
    requires h == Hex(HeadSize(chunks)) && 1 <= k == |h| <= 8 && d.size == 0 && d.digits == h[..k]
    requires b != "" && b[0] == '\r' && (|b| > 1 ==> b[1] == '\n')
    ensures ByteFirst(d, InSize(k), chunks, b)
  {
    SizeCrDecodes(d, h, b);
  }

  lemma SizeDecodes(d: Decoder, k: nat, chunks: seq<string>, b: string)
    requires Stands(d, InSize(k), chunks) && b != "" && b <= Rest(InSize(k), chunks)
    ensures ByteFirst(d, InSize(k), chunks, b)
  {
    SizeLineIsShort(chunks);
    var h := Hex(HeadSize(chunks));
    RestInSize(k, chunks, h, b);
    if k < |h| {
      SizeDigitFirst(d, k, chunks, h, b);
    } else {
      SizeCrFirst(d, k, chunks, h, b);
    }
  }

  lemma LfDecodes(d: Decoder, chunks: seq<string>, b: string)
    requires Stands(d, AwaitLf, chunks) && chunks != [] && b != "" && b[0] == '\n'
    ensures ByteFirst(d, AwaitLf, chunks, b)
  {
    SizeLineIsShort(chunks);
    SizeLf(d, b);
    HexValueOfHex(HeadSize(chunks));
  }

  /** Decoding a segment of the stream is decoding its first byte and then the others. */
  lemma DecodesByteByByte(d: Decoder, spot: Spot, chunks: seq<string>, b: string)
    requires Stands(d, spot, chunks) && !Last(spot, chunks) && b != "" && b <= Rest(spot, chunks)
    ensures ByteFirst(d, spot, chunks, b)
  {
    assert b[0] == Rest(spot, chunks)[0];
    match spot
    case InData(left) => DataDecodes(d, left, chunks, b);
    case Lead(n) => LeadDecodes(d, n, chunks, b);
    case InSize(k) => SizeDecodes(d, k, chunks, b);
    case AwaitLf => LfDecodes(d, chunks, b);
  }

  /** A segment was decoded: the content is complete, or the reader stands further on in the stream. */
  ghost predicate Reached(r: (Decoder, Status), owed: string, rest: string, spot: Spot, chunks: seq<string>) {
    || (r.1 == Done && r.0.content == owed)
    || (r.1 == More && Stands(r.0, spot, chunks) && Rest(spot, chunks) == rest && Owed(r.0, spot, chunks) == owed)
  }

  /** The LF of the last size line completes the content. */
  lemma LastLfDecodes(d: Decoder, b: string)
    requires Stands(d, AwaitLf, []) && Sane(d) && b != "" && b <= Rest(AwaitLf, [])
    ensures Decode(d, b).1 == Done && Decode(d, b).0.content == Owed(d, AwaitLf, [])
  {
    assert b[0] == '\n';
    HexValueOfHex(0);
    SizeLf(d, b);
  }

  lemma RestAfter(rest: string, b: string, rest': string)
    requires b != "" && b <= rest && rest' == rest[1..]
    ensures b[1..] <= rest' && rest'[|b| - 1..] == rest[|b|..]
  {
  }

  /** Any segment of the stream leaves the reader further on in it, or completes the content. */
  lemma {:induction false} SegmentDecodes(d: Decoder, spot: Spot, chunks: seq<string>, b: string)
    returns (spot': Spot, chunks': seq<string>)
    requires Stands(d, spot, chunks) && b <= Rest(spot, chunks)
    ensures Sane(d)
    ensures Reached(Decode(d, b), Owed(d, spot, chunks), Rest(spot, chunks)[|b|..], spot', chunks')
    decreases |b|
  {
    StandsIsSane(d, spot, chunks);
    spot', chunks' := spot, chunks;
    if b != "" {
      if Last(spot, chunks) {
        LastLfDecodes(d, b);
      } else {
        NextStands(d, spot, chunks);
        DecodesByteByByte(d, spot, chunks, b);
        var (d1, s1, c1) := NextSpot(d, spot, chunks);
        RestAfter(Rest(spot, chunks), b, Rest(s1, c1));
        spot', chunks' := SegmentDecodes(d1, s1, c1, b[1..]);
      }
    }
  }

  // ----- size lines whose copies stay inside the segment -----

  /** The count handed to `memcpy`, with `room` bytes left in the segment: the comparison is a signed one. */
  function BytesToCopy(size: nat, room: nat): nat {
    var signed := if size >= TWO_TO_31 then size - TWO_TO_32 else size;
    if signed < room then size else room
  }

  /** The copy stays inside the segment exactly for sizes below 2^31, and is then the lesser of size and room. */
  lemma CopyFitsIff(size: nat, room: nat)
    requires size < TWO_TO_32 && room < TWO_TO_31
    ensures BytesToCopy(size, room) <= room <==> size < TWO_TO_31
    ensures size < TWO_TO_31 ==> BytesToCopy(size, room) == Min(size, room)
  {
  }

  lemma {:induction false} HexSnoc(s: string, c: char)
    requires AllHex(s) && IsHex(c)
    ensures AllHex(s + [c]) && HexValue(s + [c]) == (HexValue(s) * 16 + HexDigit(c)) % TWO_TO_32
  {
    assert (s + [c])[..|s|] == s;
  }

  lemma ShiftedBySeven(x: nat)
    ensures Shifted(x, 7) == x * 0x1000_0000
  {
    assert Shifted(x, 1) == x * 16;
    assert Shifted(x, 2) == x * 256;
    assert Shifted(x, 3) == x * 4096;
    assert Shifted(x, 4) == x * 65536;
    assert Shifted(x, 5) == x * 0x10_0000;
    assert Shifted(x, 6) == x * 0x100_0000;
  }

  lemma {:induction false} ShiftedSmall(k: nat)
    requires k <= 7
    ensures 1 <= Shifted(1, k) <= 0x1000_0000
  {
    ShiftedBySeven(1);
    ShiftedGrows(k, 7);
  }

  lemma {:induction false} ShiftedGrows(j: nat, k: nat)
    requires j <= k
    ensures 1 <= Shifted(1, j) <= Shifted(1, k)
  {
    if j < k {
      ShiftedGrows(j, k - 1);
    } else if 0 < k {
      ShiftedGrows(j - 1, k - 1);
    }
  }

  /** `w` is, in 32 bits, `x` with `k` digits behind it whose value is `v`. */
  predicate Joins(x: nat, k: nat, v: nat, w: nat) {
    v < Shifted(1, k) && w == (Shifted(x, k) + v) % TWO_TO_32
  }

  lemma SameRemainder(y: nat, z: nat, q: nat)
    requires y == z + q * TWO_TO_32
    ensures y % TWO_TO_32 == z % TWO_TO_32
  {
  }

  lemma TimesSixteen(y: nat, w: nat, r: nat)
    requires w == y % TWO_TO_32
    ensures (w * 16 + r) % TWO_TO_32 == (16 * y + r) % TWO_TO_32
  {
    SameRemainder(16 * y + r, w * 16 + r, y / TWO_TO_32 * 16);
  }

  lemma JoinedSmall(v: nat, p: nat, r: nat)
    requires v < p && r < 16 && 16 * p <= 0x1000_0000
    ensures (v * 16 + r) % TWO_TO_32 == v * 16 + r < 16 * p
  {
  }

  lemma JoinsNext(x: nat, k: nat, v: nat, w: nat, r: nat)
    requires Joins(x, k, v, w) && k < 7 && r < 16
    ensures Joins(x, k + 1, (v * 16 + r) % TWO_TO_32, (w * 16 + r) % TWO_TO_32)
  {
    ShiftedSmall(k + 1);
    JoinedSmall(v, Shifted(1, k), r);
    TimesSixteen(Shifted(x, k) + v, w, r);
  }

  lemma {:induction false} DigitsNext(t: string, c: char, all: string, v: nat, w: nat)
    requires AllHex(t) && AllHex(all) && IsHex(c)
    requires v == (HexValue(t) * 16 + HexDigit(c)) % TWO_TO_32 && w == (HexValue(all) * 16 + HexDigit(c)) % TWO_TO_32
    ensures AllHex(t + [c]) && AllHex(all + [c]) && HexValue(t + [c]) == v && HexValue(all + [c]) == w
  {
    HexSnoc(t, c);
    HexSnoc(all, c);
  }

  lemma {:induction false} HexJoinedNext(x: nat, t: string, k: nat, c: char, all: string)
    requires AllHex(t) && AllHex(all) && IsHex(c) && k < 7 && Joins(x, k, HexValue(t), HexValue(all))
    ensures AllHex(t + [c]) && AllHex(all + [c]) && Joins(x, k + 1, HexValue(t + [c]), HexValue(all + [c]))
  {
    var r := HexDigit(c);
    JoinsNext(x, k, HexValue(t), HexValue(all), r);
    DigitsNext(t, c, all, (HexValue(t) * 16 + r) % TWO_TO_32, (HexValue(all) * 16 + r) % TWO_TO_32);
  }

  lemma {:induction false} NothingJoined(s: string)
    requires AllHex(s)
    ensures Joins(HexValue(s), 0, HexValue(""), HexValue(s))
  {
  }

  /** Few digits behind `s` shift its value, in 32 bits. */
  lemma {:induction false} HexJoined(s: string, t: string, k: nat, all: string)
    requires AllHex(s) && AllHex(t) && k == |t| <= 7 && all == s + t
    ensures AllHex(all) && Joins(HexValue(s), k, HexValue(t), HexValue(all))
    decreases k
  {
    if k == 0 {
      assert all == s;
      NothingJoined(s);
    } else {
      var init, c := t[..k - 1], t[k - 1];
      assert t == init + [c] && all == s + init + [c];
      HexJoined(s, init, k - 1, s + init);
      HexJoinedNext(HexValue(s), init, k - 1, c, s + init);
    }
  }

  lemma {:induction false} LastDigit(s: string)
    requires AllHex(s) && s != ""
    ensures HexValue(s) % 16 == HexDigit(s[|s| - 1])
  {
    LowDigit(HexValue(s[..|s| - 1]), HexDigit(s[|s| - 1]));
  }

  lemma LowDigit(x: nat, r: nat)
    requires r < 16
    ensures (x * 16 + r) % TWO_TO_32 % 16 == r
  {
  }

  lemma TopDigit(x: nat, v: nat)
    requires v < 0x1000_0000
    ensures (x * 0x1000_0000 + v) % TWO_TO_32 == x % 16 * 0x1000_0000 + v
  {
  }

  /** The eighth digit from the end, if there is one, is below 8. */
  predicate SmallSize(digits: string)
    requires AllHex(digits)
  {
    |digits| < 8 || HexDigit(digits[|digits| - 8]) < 8
  }

  lemma {:induction false} SmallSizeIff(digits: string)
    requires AllHex(digits)
    ensures HexValue(digits) < TWO_TO_31 <==> SmallSize(digits)
  {
    if |digits| < 8 {
      HexJoined("", digits, |digits|, digits);
      ShiftedSmall(|digits|);
    } else {
      var k := |digits| - 7;
      var s, t := digits[..k], digits[k..];
      assert digits == s + t;
      HexJoined(s, t, 7, digits);
      ShiftedSmall(7);
      ShiftedBySeven(HexValue(s));
      LastDigit(s);
      TopDigit(HexValue(s), HexValue(t));
    }
  }

  /** The digits of a size line whose copy stays inside the segment, exactly. */
  lemma CopyStaysInsideIff(digits: string, room: nat)
    requires AllHex(digits) && room < TWO_TO_31
    ensures BytesToCopy(HexValue(digits), room) <= room <==> SmallSize(digits)
  {
    CopyFitsIff(HexValue(digits), room);
    SmallSizeIff(digits);
  }

  lemma {:induction false} EightDigitsLeave(room: nat)
    requires room < TWO_TO_31
    ensures AllHex("80000000") && BytesToCopy(HexValue("80000000"), room) > room
  {
    CopyStaysInsideIff("80000000", room);
  }

  /** The decoder stops as too large exactly at a complete size line whose copy would leave the segment. */
  lemma TooLargeIff(d: Decoder, b: string)
    requires Sane(d) && b != ""
    ensures var (digits, rest) := ReadSize(d, b);
            Pass(d, b).2.TooLarge? <==> d.size == 0 && rest != "" && rest[0] == '\n' && !SmallSize(digits)
  {
    if d.size == 0 {
      SmallSizeIff(ReadSize(d, b).0);
    }
  }

  function LowerAll(s: string): string {
    seq(|s|, i requires 0 <= i < |s| => Lower(s[i]))
  }

  /** Capital digits count like small ones. */
  lemma {:induction false} HexValueIgnoresCase(s: string)
    requires AllHex(s)
    ensures AllHex(LowerAll(s)) && HexValue(LowerAll(s)) == HexValue(s)
  {
    if s != "" {
      var init := s[..|s| - 1];
      HexValueIgnoresCase(init);
      assert LowerAll(s)[..|s| - 1] == LowerAll(init);
    }
  }

  // ----- chunk extensions -----

  /** What may stand between the size and its line end. */
  predicate Extension(ext: string) {
    NoEol(ext) && (ext == "" || !IsHex(ext[0]))
  }

  lemma {:induction false} TakeHexStops(digits: string, h: string, rest: string)
    requires AllHex(digits) && AllHex(h) && |digits| + |h| <= MAX_DIGITS && (rest == "" || !IsHex(rest[0]))
    ensures TakeHex(digits, h + rest) == (digits + h, rest)
    decreases |h|
  {
    if h == "" {
      assert h + rest == rest && digits + h == digits;
    } else {
      assert (h + rest)[1..] == h[1..] + rest;
      TakeHexStops(digits + [h[0]], h[1..], rest);
      assert digits + [h[0]] + h[1..] == digits + h;
    }
  }

  lemma {:induction false} ExtensionSkipped(ext: string, rest: string)
    requires NoEol(ext) && (rest == "" || IsEol(rest[0]))
    ensures SkipExtension(ext + rest) == rest
    decreases |ext|
  {
    if ext == "" {
      assert ext + rest == rest;
    } else {
      assert (ext + rest)[1..] == ext[1..] + rest;
      ExtensionSkipped(ext[1..], rest);
    }
  }

  /** A decoder that waits for the rest of a size, of which it has `digits`. */
  predicate Awaits(d: Decoder, digits: string) {
    Sane(d) && d.size == 0 && d.digits == digits
  }

  lemma SizeRead(d: Decoder, h: string, ext: string, rest: string)
    requires Awaits(d, d.digits) && AllHex(h) && |d.digits| + |h| <= MAX_DIGITS && Extension(ext)
    requires (d.digits == "" ==> h != "") && (rest == "" || IsEol(rest[0]))
    ensures ReadSize(d, h + (ext + rest)) == (d.digits + h, SkipOne(rest, '\r'))
  {
    TakeHexStops(d.digits, h, ext + rest);
    ExtensionSkipped(ext, rest);
  }

  lemma SizeLineRead(d: Decoder, h: string, ext: string, rest: string)
    requires Awaits(d, d.digits) && AllHex(h) && |d.digits| + |h| <= MAX_DIGITS && Extension(ext)
    requires d.digits == "" ==> h != ""
    ensures ReadSize(d, h + (ext + ("\r\n" + rest))) == (d.digits + h, "\n" + rest)
  {
    SizeRead(d, h, ext, "\r\n" + rest);
    assert ("\r\n" + rest)[1..] == "\n" + rest;
  }

  lemma {:induction false} SizeLineDecoded(d: Decoder, h: string, ext: string, rest: string, b: string)
    requires Awaits(d, d.digits) && AllHex(h) && |d.digits| + |h| <= MAX_DIGITS && Extension(ext)
    requires (d.digits == "" ==> h != "") && b == h + (ext + ("\r\n" + rest))
    ensures Pass(d, b) == BeginChunk(d.(digits := d.digits + h), "\n" + rest)
  {
    SizeLineRead(d, h, ext, rest);
  }

  /** An extension that arrives in one piece with its size changes nothing. */
  lemma {:induction false} ExtensionIgnored(d: Decoder, h: string, ext: string, rest: string)
    requires Awaits(d, "") && h != "" && AllHex(h) && |h| <= MAX_DIGITS && Extension(ext)
    ensures Decode(d, h + (ext + ("\r\n" + rest))) == Decode(d, h + ("\r\n" + rest))
  {
    SizeLineDecoded(d, h, ext, rest, h + (ext + ("\r\n" + rest)));
    assert "" + ("\r\n" + rest) == "\r\n" + rest;
    SizeLineDecoded(d, h, "", rest, h + ("\r\n" + rest));
  }

  lemma {:induction false} SizeBegun(d: Decoder, h: string, ext: string)
    requires Awaits(d, "") && h != "" && AllHex(h) && |h| <= MAX_DIGITS && Extension(ext)
    ensures Decode(d, h + ext) == (d.(digits := h), More)
  {
    assert h + (ext + "") == h + ext && d.digits + h == h;
    SizeRead(d, h, ext, "");
    assert Pass(d, h + ext) == (d.(digits := h), "", More);
  }

  /** Cut inside the extension, the hexadecimal digits the next piece starts with are taken for digits of the size. */
  lemma {:induction false} SplitExtension(d: Decoder, h: string, ext: string, g: string, more: string, rest: string)
    requires Awaits(d, "") && h != "" && AllHex(h) && AllHex(g) && |h| + |g| <= MAX_DIGITS
    requires Extension(ext) && Extension(more)
    ensures var (begun, status) := Decode(d, h + ext);
            && status == More
            && Decode(begun, g + (more + ("\r\n" + rest))) == Decode(d, (h + g) + ("\r\n" + rest))
  {
    SizeBegun(d, h, ext);
    var begun := d.(digits := h);
    SizeLineDecoded(begun, g, more, rest, g + (more + ("\r\n" + rest)));
    assert "" + ("\r\n" + rest) == "\r\n" + rest && d.digits + (h + g) == h + g;
    SizeLineDecoded(d, h + g, "", rest, (h + g) + ("\r\n" + rest));
  }

  /** What is decoded behind a size line. */
  function AfterSizeLine(d: Decoder, size: nat, rest: string): (Decoder, Status)
    requires Awaits(d, "")
  {
    if size == 0 then (d, Done) else if size >= TWO_TO_31 then (d, TooLarge) else Decode(d.(size := size), rest)
  }

  lemma {:induction false} CopyThenDecode(d: Decoder, rest: string)
    requires Sane(d) && d.size > 0
    ensures var (e, left, _) := Copy(d, rest); Sane(e) && |left| <= |rest| && Decode(e, left) == Decode(d, rest)
  {
    if rest == "" {
      assert Copied(d, 0, rest) == d;
    }
  }

  lemma {:induction false} SizeLineThen(d: Decoder, h: string, rest: string)
    requires Awaits(d, "") && h != "" && AllHex(h) && |h| <= MAX_DIGITS
    ensures Decode(d, h + ("\r\n" + rest)) == AfterSizeLine(d, HexValue(h), rest)
  {
    var b, size := h + ("\r\n" + rest), HexValue(h);
    assert "" + ("\r\n" + rest) == "\r\n" + rest && d.digits + h == h;
    SizeLineDecoded(d, h, "", rest, b);
    assert ("\n" + rest)[1..] == rest && d.(digits := h).(digits := "") == d;
    if 0 < size < TWO_TO_31 {
      CopyThenDecode(d.(size := size), rest);
    }
  }

  /** Two sizes are as good as each other. */
  predicate SameSize(x: nat, y: nat) {
    x == y || (x >= TWO_TO_31 && y >= TWO_TO_31)
  }

  lemma SizesDiffer(d: Decoder, x: nat, y: nat)
    requires Awaits(d, "")
    ensures SameSize(x, y) <==> AfterSizeLine(d, x, "") == AfterSizeLine(d, y, "")
  {
    assert 0 < x < TWO_TO_31 ==> Decode(d.(size := x), "") == (d.(size := x), More);
    assert 0 < y < TWO_TO_31 ==> Decode(d.(size := y), "") == (d.(size := y), More);
  }

  /** Decoding a size line whole, and cut inside its extension. */
  ghost predicate CutChangesNothing(d: Decoder, h: string, ext: string, g: string, more: string, rest: string)
    requires Awaits(d, "")
  {
    var whole := Decode(d, h + ((ext + (g + more)) + ("\r\n" + rest)));
    var begun := Decode(d, h + ext).0;
    Decode(begun, g + (more + ("\r\n" + rest))) == whole
  }

  lemma {:induction false} CutCompared(d: Decoder, h: string, ext: string, g: string, more: string, rest: string)
    requires Awaits(d, "") && h != "" && AllHex(h) && AllHex(g) && |h| + |g| <= MAX_DIGITS
    requires ext != "" && Extension(ext) && Extension(more)
    ensures CutChangesNothing(d, h, ext, g, more, rest)
       <==> AfterSizeLine(d, HexValue(h + g), rest) == AfterSizeLine(d, HexValue(h), rest)
  {
    HexHasNoEol(g);
    ExtensionIgnored(d, h, ext + (g + more), rest);
    SplitExtension(d, h, ext, g, more, rest);
    SizeLineThen(d, h, rest);
    SizeLineThen(d, h + g, rest);
  }

  lemma HexHasNoEol(g: string)
    requires AllHex(g)
    ensures NoEol(g)
  {
  }

  /** A cut inside an extension never matters iff the digits behind the cut do not change the size. */
  lemma CutHarmlessIff(d: Decoder, h: string, ext: string, g: string, more: string)
    requires Awaits(d, "") && h != "" && AllHex(h) && AllHex(g) && |h| + |g| <= MAX_DIGITS
    requires ext != "" && Extension(ext) && Extension(more)
    ensures (forall rest :: CutChangesNothing(d, h, ext, g, more, rest))
       <==> SameSize(HexValue(h + g), HexValue(h))
  {
    var x, y := HexValue(h + g), HexValue(h);
    forall rest ensures CutChangesNothing(d, h, ext, g, more, rest)
                   <==> AfterSizeLine(d, x, rest) == AfterSizeLine(d, y, rest)
    {
      CutCompared(d, h, ext, g, more, rest);
    }
    SizesDiffer(d, x, y);
    assert CutChangesNothing(d, h, ext, g, more, "") <==> SameSize(x, y);
  }

  /** So `5;a` and its line end, cut behind the semicolon, are misread: 90 bytes are announced instead of 5. */
  lemma CutMisread(d: Decoder)
    requires Awaits(d, "")
    ensures !forall rest :: CutChangesNothing(d, "5", ";", "a", "", rest)
  {
    assert "5" + "a" == "5a" && "5a"[..1] == "5" && "5"[..0] == "";
    assert HexValue("5") == 5;
    assert HexValue("5a") == 90;
    CutHarmlessIff(d, "5", ";", "a", "");
  }
}
