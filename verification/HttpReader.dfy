/**
  `getHTTPResponse` on its buffers: the receive buffer of 2048 bytes, the header and content
  buffers that are reallocated as they fill up, and the 32 bytes for a chunk-size line.  Every
  copy below is an array write, so verification includes that it stays within its buffer.
 */
module HttpReader {
  import opened Basics
  import opened HttpHeaders
  import opened HttpBodies
  import opened HttpResponses

  const RECEIVE_SIZE := 2048

  /** The fields after the line from `start` to `eol`, if it has a name. */
  function AfterLine(b: string, f: Fields, start: nat, colon: nat, value: nat, eol: nat): Fields
    requires (start < colon ==> colon < |b|) && value <= |b|
  {
    if colon > start && value > colon then Recognise(b, f, Line(start, colon, value, eol)) else f
  }

  /** `left` gives what the loop makes of the lines that are found from each loop state. */
  ghost predicate Leaves(b: string, end: nat, left: (Fields, nat, nat, nat, nat) -> Fields) {
    end <= |b| &&
    forall f, i: nat, s: nat, c: nat, v: nat {:trigger Fold(b, f, LinesFrom(b, end, i, s, c, v))} ::
      left(f, i, s, c, v) == Fold(b, f, LinesFrom(b, end, i, s, c, v))
  }

  lemma LeftAtColon(b: string, end: nat, left: (Fields, nat, nat, nat, nat) -> Fields, f: Fields,
                    i: nat, start: nat, colon: nat, value: nat, j: nat)
    requires Leaves(b, end, left) && i + 1 < end && colon <= start && b[i] == ':' && j == SkipBlanks(b, end, i)
    ensures left(f, i, start, colon, value) == left(f, j + 1, start, i, j + 1)
  {
    assert Fold(b, f, LinesFrom(b, end, i, start, colon, value))
        == Fold(b, f, LinesFrom(b, end, j + 1, start, i, j + 1));
  }

  lemma LeftAtOther(b: string, end: nat, left: (Fields, nat, nat, nat, nat) -> Fields, f: Fields,
                    i: nat, start: nat, colon: nat, value: nat)
    requires Leaves(b, end, left) && i + 1 < end && !(colon <= start && b[i] == ':') && !IsEol(b[i])
    ensures left(f, i, start, colon, value) == left(f, i + 1, start, colon, value)
  {
    assert Fold(b, f, LinesFrom(b, end, i, start, colon, value))
        == Fold(b, f, LinesFrom(b, end, i + 1, start, colon, value));
  }

  lemma {:induction false} LeftAtEnd(b: string, end: nat, left: (Fields, nat, nat, nat, nat) -> Fields, f: Fields,
                                     i: nat, start: nat, colon: nat, value: nat)
    requires Leaves(b, end, left) && i + 1 >= end
    ensures left(f, i, start, colon, value) == f
  {
    assert LinesFrom(b, end, i, start, colon, value) == [];
    assert Fold(b, f, LinesFrom(b, end, i, start, colon, value)) == f;
  }

  lemma {:induction false} FoldLineTo(b: string, f: Fields, start: nat, colon: nat, value: nat, i: nat, rest: seq<Line>)
    requires (start < colon ==> colon < |b|) && value <= |b|
    ensures Fold(b, f, LineTo(start, colon, value, i) + rest) == Fold(b, AfterLine(b, f, start, colon, value, i), rest)
  {
    if colon > start && value > colon {
      FoldFirst(b, f, Line(start, colon, value, i), rest);
    } else {
      assert [] + rest == rest;
    }
  }

  /** At a line end the loop recognises the line it has seen and goes on behind all line ends. */
  lemma {:induction false} LeftAtEol(b: string, end: nat, left: (Fields, nat, nat, nat, nat) -> Fields, f: Fields,
                                     i: nat, start: nat, colon: nat, value: nat, next: nat)
    requires Leaves(b, end, left) && i + 1 < end && IsEol(b[i]) && next == SkipEols(b, i)
    requires (start < colon ==> colon < |b|) && value <= |b|
    ensures left(f, i, start, colon, value) == left(AfterLine(b, f, start, colon, value, i), next + 1, next, next, 0)
  {
    var rest := LinesFrom(b, end, next + 1, next, next, 0);
    assert LinesFrom(b, end, i, start, colon, value) == LineTo(start, colon, value, i) + rest;
    FoldLineTo(b, f, start, colon, value, i, rest);
    assert Fold(b, f, LinesFrom(b, end, i, start, colon, value))
        == Fold(b, AfterLine(b, f, start, colon, value, i), LinesFrom(b, end, next + 1, next, next, 0));
  }

  /** A hexadecimal digit, as the size loop reads it. */
  method DigitValue(c: char) returns (n: nat)
    requires IsHex(c)
    ensures n == HexDigit(c)
  {
    if '0' <= c <= '9' {
      n := (c - '0') as nat;
    } else if c >= 'a' {
      n := (c - 'a') as nat + 10;
    } else {
      n := (c - 'A') as nat + 10;
    }
  }

  /** `realloc`: a buffer of `size` bytes with the first `used` bytes of `a`. */
  method Reallocate(a: array<char>, used: nat, size: nat) returns (b: array<char>)
    requires used <= a.Length && used <= size
    ensures fresh(b) && b.Length == size && b[..used] == a[..used]
  {
    b := new char[size];
    forall k | 0 <= k < used {
      b[k] := a[k];
    }
  }

  /** `memcpy` of `m` bytes from `src` at `i` to `dst` at `used`. */
  method CopyBytes(dst: array<char>, used: nat, src: array<char>, i: nat, m: nat)
    requires dst != src && used + m <= dst.Length && i + m <= src.Length
    modifies dst
    ensures dst[..used + m] == old(dst[..used]) + src[i..i + m]
  {
    forall k | 0 <= k < m {
      dst[used + k] := src[i + k];
    }
  }

  class ResponseReader {
    var headerBuf: array<char>
    var headerUsed: nat
    var contentBuf: array<char>
    var contentUsed: nat
    var sizeBuf: array<char>
    var sizeIndex: nat
    var chunkSize: nat
    var endOfHeaders: nat
    var contentLength: int
    var chunked: bool

    ghost predicate Valid()
      reads this, headerBuf, contentBuf, sizeBuf
    {
      && headerBuf != contentBuf && headerBuf != sizeBuf && contentBuf != sizeBuf
      && headerUsed <= headerBuf.Length && contentUsed <= contentBuf.Length
      && sizeBuf.Length == MAX_DIGITS + 1 && sizeIndex <= MAX_DIGITS
      && endOfHeaders <= headerUsed
      && Sane(DecoderView())
    }

    ghost function DecoderView(): Decoder
      reads this, contentBuf, sizeBuf
      requires contentUsed <= contentBuf.Length && sizeIndex <= sizeBuf.Length
    {
      Decoder(chunkSize, sizeBuf[..sizeIndex], contentBuf[..contentUsed])
    }

    ghost function View(status: Status): Reader
      reads this, headerBuf, contentBuf, sizeBuf
      requires Valid()
    {
      Reader(headerBuf[..headerUsed], endOfHeaders, Fields(contentLength, chunked), DecoderView(), status)
    }

    ghost predicate Apart(buf: array<char>)
      reads this
    {
      buf != headerBuf && buf != contentBuf && buf != sizeBuf
    }

    constructor ()
      ensures Valid() && View(More) == START
      ensures fresh(headerBuf) && fresh(contentBuf) && fresh(sizeBuf)
    {
      headerBuf := new char[2048];
      contentBuf := new char[2048];
      sizeBuf := new char[32];
      headerUsed, contentUsed, sizeIndex, chunkSize, endOfHeaders := 0, 0, 0, 0, 0;
      contentLength, chunked := -1, false;
    }

    method AppendHeader(buf: array<char>, n: nat)
      requires Valid() && Apart(buf) && n <= buf.Length
      modifies this`headerBuf, this`headerUsed, headerBuf
      ensures Valid() && Apart(buf) && (headerBuf == old(headerBuf) || fresh(headerBuf))
      ensures headerBuf[..headerUsed] == old(headerBuf[..headerUsed]) + buf[..n]
    {
      if headerUsed + n > headerBuf.Length {
        headerBuf := Reallocate(headerBuf, headerUsed, headerUsed + n);
      }
      CopyBytes(headerBuf, headerUsed, buf, 0, n);
      headerUsed := headerUsed + n;
    }

    method AppendContent(buf: array<char>, i: nat, m: nat)
      requires Valid() && Apart(buf) && i + m <= buf.Length
      modifies this`contentBuf, this`contentUsed, contentBuf
      ensures Valid() && Apart(buf) && (contentBuf == old(contentBuf) || fresh(contentBuf))
      ensures contentBuf[..contentUsed] == old(contentBuf[..contentUsed]) + buf[i..i + m]
    {
      if contentUsed + m > contentBuf.Length {
        var size := if contentLength >= contentUsed + m then contentLength else contentUsed + m;
        contentBuf := Reallocate(contentBuf, contentUsed, size);
      }
      CopyBytes(contentBuf, contentUsed, buf, i, m);
      contentUsed := contentUsed + m;
    }

    /** The search for the end of the headers. */
    method FindEnd() returns (e: nat)
      requires Valid()
      ensures e == HeaderEnd(headerBuf[..headerUsed])
    {
      var i := 0;
      e := 0;
      ghost var b := headerBuf[..headerUsed];
      while i + 1 < headerUsed && e == 0
        invariant e == 0 ==> ScanEnd(b, i) == HeaderEnd(b)
        invariant e > 0 ==> e == HeaderEnd(b)
        decreases headerUsed - i
      {
        if headerBuf[i] == '\r' {
          i := i + 1;
          if headerBuf[i] == '\n' {
            i := i + 1;
            if i < headerUsed && headerBuf[i] == '\r' {
              i := i + 1;
              if i < headerUsed && headerBuf[i] == '\n' {
                e := i + 1;
              }
            }
          }
        } else if headerBuf[i] == '\n' {
          i := i + 1;
          if headerBuf[i] == '\n' {
            e := i + 1;
          }
        }
        i := i + 1;
      }
    }

    /** The blanks after the colon at `colon`. */
    method PassBlanks(colon: nat, end: nat) returns (i: nat)
      requires Valid() && colon < end <= headerUsed
      ensures i == SkipBlanks(headerBuf[..headerUsed], end, colon)
    {
      i := colon;
      while i + 1 < end && (headerBuf[i + 1] == ' ' || headerBuf[i + 1] == '\t')
        invariant colon <= i < end
        invariant SkipBlanks(headerBuf[..headerUsed], end, i) == SkipBlanks(headerBuf[..headerUsed], end, colon)
        decreases end - i
      {
        i := i + 1;
      }
    }

    method PassEols(eol: nat) returns (i: nat)
      requires Valid() && eol <= headerUsed
      ensures i == SkipEols(headerBuf[..headerUsed], eol)
    {
      i := eol;
      while i < headerUsed && (headerBuf[i] == '\r' || headerBuf[i] == '\n')
        invariant eol <= i <= headerUsed
        invariant SkipEols(headerBuf[..headerUsed], i) == SkipEols(headerBuf[..headerUsed], eol)
        decreases headerUsed - i
      {
        i := i + 1;
      }
    }

    /** The name tests on one line. */
    method RecogniseLine(f: Fields, start: nat, colon: nat, value: nat, ghost eol: nat) returns (g: Fields)
      requires Valid() && start <= colon <= headerUsed && value <= headerUsed
      ensures g == Recognise(headerBuf[..headerUsed], f, Line(start, colon, value, eol))
    {
      ghost var b := headerBuf[..headerUsed];
      assert b[start..colon] == headerBuf[start..colon] && b[value..] == headerBuf[value..headerUsed];
      g := f;
      if NameMatches(headerBuf[start..colon], "content-length") {
        g := g.(contentLength := Atoi(headerBuf[value..headerUsed]));
      } else if NameMatches(headerBuf[start..colon], "transfer-encoding")
                && StartsWith(headerBuf[value..headerUsed], "chunked") {
        g := g.(chunked := true);
      }
    }

    method EndLine(f: Fields, start: nat, colon: nat, value: nat, ghost eol: nat) returns (g: Fields)
      requires Valid() && (start < colon ==> colon < headerUsed) && value <= headerUsed
      ensures g == AfterLine(headerBuf[..headerUsed], f, start, colon, value, eol)
    {
      g := f;
      if colon > start && value > colon {
        g := RecogniseLine(f, start, colon, value, eol);
      }
    }

    /** At a colon that ends a name. */
    method AtColon(ghost b: string, ghost left: (Fields, nat, nat, nat, nat) -> Fields, ghost f: Fields,
                   i: nat, ghost start: nat, ghost colon: nat, ghost value: nat) returns (j: nat)
      requires Valid() && b == headerBuf[..headerUsed] && Leaves(b, endOfHeaders, left)
      requires i + 1 < endOfHeaders && colon <= start && headerBuf[i] == ':'
      ensures i <= j < endOfHeaders && left(f, i, start, colon, value) == left(f, j + 1, start, i, j + 1)
    {
      j := PassBlanks(i, endOfHeaders);
      LeftAtColon(b, endOfHeaders, left, f, i, start, colon, value, j);
    }

    /** At the end of a line. */
    method AtEol(ghost b: string, ghost left: (Fields, nat, nat, nat, nat) -> Fields, f: Fields,
                 i: nat, start: nat, colon: nat, value: nat) returns (g: Fields, next: nat)
      requires Valid() && b == headerBuf[..headerUsed] && Leaves(b, endOfHeaders, left)
      requires i + 1 < endOfHeaders && IsEol(headerBuf[i]) && (start < colon ==> colon < |b|) && value <= |b|
      ensures i < next <= |b| && left(f, i, start, colon, value) == left(g, next + 1, next, next, 0)
    {
      g := EndLine(f, start, colon, value, i);
      next := PassEols(i);
      LeftAtEol(b, endOfHeaders, left, f, i, start, colon, value, next);
    }

    /** The loop over the header lines, with its four positions. */
    method FoldLines(ghost b: string, ghost left: (Fields, nat, nat, nat, nat) -> Fields) returns (f: Fields)
      requires Valid() && b == headerBuf[..headerUsed] && Leaves(b, endOfHeaders, left)
      ensures f == left(NO_FIELDS, 0, 0, 0, 0)
    {
      var i: nat, start: nat, colon: nat, value: nat := 0, 0, 0, 0;
      f := NO_FIELDS;
      while i + 1 < endOfHeaders
        invariant (start < colon ==> colon < |b|) && value <= |b|
        invariant left(f, i, start, colon, value) == left(NO_FIELDS, 0, 0, 0, 0)
        decreases endOfHeaders - i
      {
        if colon <= start && headerBuf[i] == ':' {
          var j := AtColon(b, left, f, i, start, colon, value);
          i, colon, value := j, i, j + 1;
        } else if headerBuf[i] == '\r' || headerBuf[i] == '\n' {
          f, i := AtEol(b, left, f, i, start, colon, value);
          start, colon, value := i, i, 0;
        } else {
          LeftAtOther(b, endOfHeaders, left, f, i, start, colon, value);
        }
        i := i + 1;
      }
      LeftAtEnd(b, endOfHeaders, left, f, i, start, colon, value);
    }

    method ParseFields() returns (f: Fields)
      requires Valid()
      ensures f == FieldsOf(headerBuf[..headerUsed], endOfHeaders)
    {
      ghost var b := headerBuf[..headerUsed];
      ghost var end := endOfHeaders;
      ghost var left := (f: Fields, i: nat, s: nat, c: nat, v: nat) => Fold(b, f, LinesFrom(b, end, i, s, c, v));
      f := FoldLines(b, left);
    }

    /** Collects the hexadecimal digits at `i` into the size buffer. */
    method CollectDigits(buf: array<char>, i0: nat, n: nat) returns (i: nat)
      requires Valid() && Apart(buf) && i0 <= n <= buf.Length
      modifies this`sizeIndex, sizeBuf
      ensures Valid() && contentBuf[..contentUsed] == old(contentBuf[..contentUsed])
      ensures i0 <= i <= n && (sizeBuf[..sizeIndex], buf[i..n]) == TakeHex(old(sizeBuf[..sizeIndex]), buf[i0..n])
    {
      i := i0;
      while i < n && IsHex(buf[i]) && sizeIndex < MAX_DIGITS
        invariant i0 <= i <= n && Valid()
        invariant TakeHex(sizeBuf[..sizeIndex], buf[i..n]) == TakeHex(old(sizeBuf[..sizeIndex]), buf[i0..n])
        decreases n - i
      {
        ghost var digits := sizeBuf[..sizeIndex];
        assert buf[i..n][1..] == buf[i + 1..n];
        sizeBuf[sizeIndex] := buf[i];
        sizeIndex := sizeIndex + 1;
        assert sizeBuf[..sizeIndex] == digits + [buf[i]];
        sizeBuf[sizeIndex] := '\0';
        assert sizeBuf[..sizeIndex] == digits + [buf[i]];
        i := i + 1;
      }
    }

    method PassExtension(buf: array<char>, i0: nat, n: nat) returns (i: nat)
      requires i0 <= n <= buf.Length
      ensures i0 <= i <= n && buf[i..n] == SkipExtension(buf[i0..n])
    {
      i := i0;
      while i < n && buf[i] != '\r' && buf[i] != '\n'
        invariant i0 <= i <= n && SkipExtension(buf[i..n]) == SkipExtension(buf[i0..n])
        decreases n - i
      {
        assert buf[i..n][1..] == buf[i + 1..n];
        i := i + 1;
      }
    }

    method PassOne(buf: array<char>, i0: nat, n: nat, c: char) returns (i: nat)
      requires i0 <= n <= buf.Length
      ensures i0 <= i <= n && buf[i..n] == SkipOne(buf[i0..n], c)
    {
      i := i0;
      if i < n && buf[i] == c {
        assert buf[i..n][1..] == buf[i + 1..n];
        i := i + 1;
      }
    }

    /** A size line, or what the segment holds of it. */
    method ReadSizeLine(buf: array<char>, i0: nat, n: nat) returns (i: nat)
      requires Valid() && Apart(buf) && i0 < n <= buf.Length
      modifies this`sizeIndex, sizeBuf
      ensures Valid() && contentBuf[..contentUsed] == old(contentBuf[..contentUsed])
      ensures i0 <= i <= n && (sizeBuf[..sizeIndex], buf[i..n]) == ReadSize(old(DecoderView()), buf[i0..n])
    {
      i := i0;
      if sizeIndex == 0 {
        i := PassOne(buf, i, n, '\r');
        i := PassOne(buf, i, n, '\n');
      }
      i := CollectDigits(buf, i, n);
      i := PassExtension(buf, i, n);
      i := PassOne(buf, i, n, '\r');
    }

    /** The value of the collected digits, in 32 bits. */
    method SizeValue() returns (size: nat)
      requires Valid()
      ensures size == HexValue(sizeBuf[..sizeIndex])
    {
      size := 0;
      for j := 0 to sizeIndex
        invariant size == HexValue(sizeBuf[..j])
      {
        assert sizeBuf[..j + 1][..j] == sizeBuf[..j];
        assert IsHex(sizeBuf[..sizeIndex][j]);
        var digit := DigitValue(sizeBuf[j]);
        size := (size * 16 + digit) % TWO_TO_32;
      }
    }

    /** Copies what the segment holds of the current chunk. */
    method CopyChunk(buf: array<char>, i0: nat, n: nat) returns (i: nat)
      requires Valid() && Apart(buf) && i0 <= n <= buf.Length
      modifies this`chunkSize, this`contentBuf, this`contentUsed, contentBuf
      ensures Valid() && Apart(buf) && (contentBuf == old(contentBuf) || fresh(contentBuf))
      ensures i0 <= i <= n && (DecoderView(), buf[i..n], More) == Copy(old(DecoderView()), buf[i0..n])
    {
      var m := if chunkSize < n - i0 then chunkSize else n - i0;
      AppendContent(buf, i0, m);
      assert buf[i0..n][..m] == buf[i0..i0 + m] && buf[i0..n][m..] == buf[i0 + m..n];
      i := i0 + m;
      chunkSize := chunkSize - m;
    }

    /** Turns a complete size line, whose LF is at `i`, into the size of the chunk. */
    method BeginChunk()
      requires Valid() && chunkSize == 0
      modifies this`sizeIndex, this`chunkSize, sizeBuf
      ensures contentBuf[..contentUsed] == old(contentBuf[..contentUsed])
      ensures chunkSize == HexValue(old(sizeBuf[..sizeIndex])) && sizeIndex == 0
      ensures chunkSize < TWO_TO_31 ==> Valid()
    {
      chunkSize := SizeValue();
      sizeBuf[0] := '\0';
      sizeIndex := 0;
      assert sizeBuf[..0] == "";
    }

    /** Behind a size line: tells whether there is a chunk to copy. */
    method StartChunk(buf: array<char>, i0: nat, n: nat) returns (i: nat, status: Status, copy: bool)
      requires Valid() && Apart(buf) && i0 <= n <= buf.Length && chunkSize == 0
      modifies this`sizeIndex, this`chunkSize, sizeBuf
      ensures Valid() && Apart(buf) && i0 <= i <= n
      ensures copy ==> Copy(DecoderView(), buf[i..n]) == HttpBodies.BeginChunk(old(DecoderView()), buf[i0..n])
      ensures !copy ==> (DecoderView(), buf[i..n], status) == HttpBodies.BeginChunk(old(DecoderView()), buf[i0..n])
    {
      i, status, copy := i0, More, false;
      if i == n || buf[i] != '\n' {
        return;
      }
      BeginChunk();
      assert buf[i..n][1..] == buf[i + 1..n];
      i := i + 1;
      if chunkSize == 0 {
        status := Done;
      } else if chunkSize >= TWO_TO_31 {
        chunkSize := 0;
        status := TooLarge;
      } else {
        copy := true;
      }
    }

    /** One pass through the loop over a segment. */
    method ChunkPass(buf: array<char>, i0: nat, n: nat) returns (i: nat, status: Status)
      requires Valid() && Apart(buf) && i0 < n <= buf.Length
      modifies this`sizeIndex, this`chunkSize, this`contentBuf, this`contentUsed, sizeBuf, contentBuf
      ensures Valid() && Apart(buf) && (contentBuf == old(contentBuf) || fresh(contentBuf))
      ensures i0 <= i <= n && (DecoderView(), buf[i..n], status) == Pass(old(DecoderView()), buf[i0..n])
    {
      i, status := i0, More;
      var copy := true;
      if chunkSize == 0 {
        i := ReadSizeLine(buf, i0, n);
        i, status, copy := StartChunk(buf, i, n);
      }
      if copy {
        i := CopyChunk(buf, i, n);
        status := More;
      }
    }

    /** The chunked branch for the first `n` bytes of `buf`. */
    method ReadChunks(buf: array<char>, n: nat) returns (status: Status)
      requires Valid() && Apart(buf) && n <= buf.Length
      modifies this`sizeIndex, this`chunkSize, this`contentBuf, this`contentUsed, sizeBuf, contentBuf
      ensures Valid() && Apart(buf) && (contentBuf == old(contentBuf) || fresh(contentBuf))
      ensures (DecoderView(), status) == Decode(old(DecoderView()), buf[..n])
    {
      var i := 0;
      assert buf[0..n] == buf[..n];
      status := More;
      while i < n
        invariant i <= n && Valid() && Apart(buf) && (contentBuf == old(contentBuf) || fresh(contentBuf))
        invariant Decode(DecoderView(), buf[i..n]) == Decode(old(DecoderView()), buf[..n])
        invariant status.More?
        decreases n - i
      {
        i, status := ChunkPass(buf, i, n);
        if !status.More? {
          return;
        }
      }
      assert buf[n..n] == "";
    }

    /** The plain branch for the first `n0` bytes of `buf`. */
    method ReadPlain(buf: array<char>, n0: nat)
      requires Valid() && Apart(buf) && n0 <= buf.Length && Unfinished()
      modifies this`contentBuf, this`contentUsed, contentBuf
      ensures Valid() && Apart(buf) && (contentBuf == old(contentBuf) || fresh(contentBuf))
      ensures contentBuf[..contentUsed]
           == old(contentBuf[..contentUsed]) + buf[..Kept(contentLength, old(contentUsed), n0)]
    {
      var n := n0;
      if contentLength > 0 && contentUsed + n > contentLength {
        n := contentLength - contentUsed;
      }
      assert buf[0..n] == buf[..n];
      AppendContent(buf, 0, n);
    }

    /** The loop has not reached the announced length. */
    ghost predicate Unfinished()
      reads this
    {
      contentLength > 0 ==> contentUsed < contentLength
    }

    method ReadBody(buf: array<char>, n: nat) returns (status: Status)
      requires Valid() && Apart(buf) && n <= buf.Length && Unfinished()
      modifies this`sizeIndex, this`chunkSize, this`contentBuf, this`contentUsed, sizeBuf, contentBuf
      ensures Valid() && Apart(buf) && (contentBuf == old(contentBuf) || fresh(contentBuf))
      ensures View(status) == Content(old(View(More)), buf[..n])
      ensures status.More? ==> Unfinished()
    {
      if chunked {
        status := ReadChunks(buf, n);
        if !status.More? {
          return;
        }
      } else {
        ReadPlain(buf, n);
        status := More;
        assert buf[..n][..Kept(contentLength, old(contentUsed), n)] == buf[..Kept(contentLength, old(contentUsed), n)];
      }
      if contentLength > 0 && contentUsed >= contentLength {
        status := Done;
      }
    }

    /** The reader is between two reads. */
    ghost predicate Receiving()
      reads this, headerBuf, contentBuf, sizeBuf
      requires Valid()
    {
      && Unfinished()
      && (endOfHeaders == 0 ==>
            contentUsed == 0 && Fields(contentLength, chunked) == NO_FIELDS && HeaderEnd(headerBuf[..headerUsed]) == 0)
    }

    /** Looks for the end of the headers in what has been received so far, and parses them once it is there. */
    method ReadHeader(buf: array<char>, n: nat)
      requires Valid() && Apart(buf) && n <= buf.Length && Receiving() && endOfHeaders == 0
      modifies this`headerBuf, this`headerUsed, this`endOfHeaders, this`contentLength, this`chunked, headerBuf
      ensures Valid() && Apart(buf) && (headerBuf == old(headerBuf) || fresh(headerBuf))
      ensures headerBuf[..headerUsed] == old(headerBuf[..headerUsed]) + buf[..n]
      ensures endOfHeaders == HeaderEnd(headerBuf[..headerUsed])
      ensures Fields(contentLength, chunked) ==
              if endOfHeaders == 0 then NO_FIELDS else FieldsOf(headerBuf[..headerUsed], endOfHeaders)
      ensures endOfHeaders > 0 ==> headerUsed - endOfHeaders < n
    {
      ghost var before := headerBuf[..headerUsed];
      AppendHeader(buf, n);
      HeaderEndStable(before, buf[..n]);
      endOfHeaders := FindEnd();
      if endOfHeaders > 0 {
        var f := ParseFields();
        contentLength, chunked := f.contentLength, f.chunked;
      }
    }

    /** Copies what was received behind the headers back to the receive buffer. */
    method MoveBody(buf: array<char>) returns (n: nat)
      requires Valid() && Apart(buf) && headerUsed - endOfHeaders <= buf.Length
      modifies buf
      ensures Valid() && n == headerUsed - endOfHeaders && buf[..n] == headerBuf[..headerUsed][endOfHeaders..]
      ensures View(More) == old(View(More)) && (old(Receiving()) ==> Receiving())
    {
      n := headerUsed - endOfHeaders;
      forall k | 0 <= k < n {
        buf[k] := headerBuf[endOfHeaders + k];
      }
    }

    /** One pass through the loop of `getHTTPResponse`, after `n0` bytes have been received into `buf`. */
    method ReceiveSegment(buf: array<char>, n0: nat) returns (status: Status)
      requires Valid() && Apart(buf) && n0 <= buf.Length == RECEIVE_SIZE && Receiving()
      modifies this, headerBuf, contentBuf, sizeBuf, buf
      ensures Valid() && Apart(buf) && sizeBuf == old(sizeBuf)
      ensures (headerBuf == old(headerBuf) || fresh(headerBuf)) && (contentBuf == old(contentBuf) || fresh(contentBuf))
      ensures View(status) == Receive(old(View(More)), old(buf[..n0]))
      ensures status.More? ==> Receiving()
    {
      var n := n0;
      if endOfHeaders == 0 {
        ReadHeader(buf, n0);
        if endOfHeaders == 0 {
          return More;
        }
        n := MoveBody(buf);
      }
      status := ReadBody(buf, n);
    }
  }

  /** `receivedata`: one segment arrives in the buffer. */
  method ReceiveData(buf: array<char>, segment: string)
    requires |segment| <= buf.Length
    modifies buf
    ensures buf[..|segment|] == segment
  {
    forall i | 0 <= i < |segment| {
      buf[i] := segment[i];
    }
  }

  lemma {:induction false} ReadNext(r: Reader, segments: seq<string>, k: nat)
    requires k < |segments| && Sane(r.decoder) && r.status.More?
    ensures ReadAll(r, segments[k..]) == ReadAll(Receive(r, segments[k]), segments[k + 1..])
  {
    assert segments[k..][0] == segments[k] && segments[k..][1..] == segments[k + 1..];
  }

  /** Reads segments until the response is complete or the peer stops sending. */
  method GetHttpResponse(segments: seq<string>) returns (content: string, status: Status)
    requires forall k :: 0 <= k < |segments| ==> 1 <= |segments[k]| <= RECEIVE_SIZE
    ensures content == Response(segments) && status == ReadAll(START, segments).status
  {
    var buf := new char[RECEIVE_SIZE];
    var r := new ResponseReader();
    status := More;
    var k := 0;
    assert segments[0..] == segments;
    while k < |segments| && status.More?
      invariant k <= |segments| && r.Valid() && r.Apart(buf) && (status.More? ==> r.Receiving())
      invariant fresh(r) && fresh(r.headerBuf) && fresh(r.contentBuf) && fresh(r.sizeBuf)
      invariant ReadAll(r.View(status), segments[k..]) == ReadAll(START, segments)
    {
      ReadNext(r.View(More), segments, k);
      ReceiveData(buf, segments[k]);
      status := r.ReceiveSegment(buf, |segments[k]|);
      k := k + 1;
    }
    content := r.contentBuf[..r.contentUsed];
  }
}
