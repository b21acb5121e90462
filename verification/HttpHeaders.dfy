/**
  The header part of `getHTTPResponse`: the search for the end of the headers and the recognition
  of `Content-Length` and `Transfer-Encoding`.
 */
module HttpHeaders {
  import opened Basics
  import Text

  predicate IsEol(c: char) {
    c == '\r' || c == '\n'
  }

  /** The end-of-headers search from index `i`; 0 when it is not found. */
  function ScanEnd(b: string, i: nat): (e: nat)
    ensures e > 0 ==> i + 2 <= e <= |b| && b[e - 1] == '\n'
    decreases |b| - i
  {
    if i + 1 >= |b| then 0
    else if b[i] == '\r' then
      if b[i + 1] != '\n' then ScanEnd(b, i + 2)
      else if i + 2 >= |b| || b[i + 2] != '\r' then ScanEnd(b, i + 3)
      else if i + 3 >= |b| || b[i + 3] != '\n' then ScanEnd(b, i + 4)
      else i + 4
    else if b[i] == '\n' then
      (if b[i + 1] == '\n' then i + 2 else ScanEnd(b, i + 2))
    else ScanEnd(b, i + 1)
  }

  /** Length of the header block at the front of `b`, or 0 when `b` holds no complete one. */
  function HeaderEnd(b: string): (e: nat)
    ensures e > 0 ==> 2 <= e <= |b| && b[e - 1] == '\n'
  {
    ScanEnd(b, 0)
  }

  /** Bytes after the end do not move it, and an end within a prefix is found in that prefix. */
  lemma {:induction false} ScanEndStable(b: string, x: string, i: nat)
    ensures ScanEnd(b, i) > 0 ==> ScanEnd(b + x, i) == ScanEnd(b, i)
    ensures 0 < ScanEnd(b + x, i) <= |b| ==> ScanEnd(b, i) == ScanEnd(b + x, i)
    decreases |b| - i
  {
    if i + 1 < |b| {
      var c := b + x;
      assert c[i] == b[i] && c[i + 1] == b[i + 1];
      assert i + 2 < |b| ==> c[i + 2] == b[i + 2];
      assert i + 3 < |b| ==> c[i + 3] == b[i + 3];
      if b[i] == '\r' && b[i + 1] != '\n' {
        ScanEndStable(b, x, i + 2);
      } else if b[i] == '\r' {
        if i + 2 < |b| && b[i + 2] == '\r' {
          ScanEndStable(b, x, i + 4);
        } else {
          ScanEndStable(b, x, i + 3);
        }
      } else if b[i] == '\n' {
        ScanEndStable(b, x, i + 2);
      } else {
        ScanEndStable(b, x, i + 1);
      }
    }
  }

  lemma HeaderEndStable(b: string, x: string)
    ensures HeaderEnd(b) > 0 ==> HeaderEnd(b + x) == HeaderEnd(b)
    ensures 0 < HeaderEnd(b + x) <= |b| ==> HeaderEnd(b) == HeaderEnd(b + x)
  {
    ScanEndStable(b, x, 0);
  }

  // ----- what the search finds -----

  /** The first `e` bytes end with a blank line: LF LF or CR LF CR LF. */
  predicate EndsBlank(b: string, e: nat) {
    && 2 <= e <= |b| && b[e - 1] == '\n'
    && (b[e - 2] == '\n' || (e >= 4 && b[e - 4] == '\r' && b[e - 3] == '\n' && b[e - 2] == '\r'))
  }

  lemma {:induction false} ScanEndIsBlank(b: string, i: nat)
    requires ScanEnd(b, i) > 0
    ensures EndsBlank(b, ScanEnd(b, i))
    decreases |b| - i
  {
    if b[i] == '\r' {
      if b[i + 1] != '\n' {
        ScanEndIsBlank(b, i + 2);
      } else if i + 2 >= |b| || b[i + 2] != '\r' {
        ScanEndIsBlank(b, i + 3);
      } else if i + 3 >= |b| || b[i + 3] != '\n' {
        ScanEndIsBlank(b, i + 4);
      }
    } else if b[i] != '\n' {
      ScanEndIsBlank(b, i + 1);
    } else if b[i + 1] != '\n' {
      ScanEndIsBlank(b, i + 2);
    }
  }

  /** A header block that is found ends with a blank line. */
  lemma HeaderEndIsBlank(b: string)
    requires HeaderEnd(b) > 0
    ensures EndsBlank(b, HeaderEnd(b))
  {
    ScanEndIsBlank(b, 0);
  }

  /** Where the line ends start that end the block at `e`. */
  function BlankStart(b: string, e: nat): nat
    requires EndsBlank(b, e)
  {
    if b[e - 2] == '\n' then e - 2 else e - 4
  }

  /** The number of line-end characters directly in front of `i` is even. */
  predicate EvenRun(b: string, i: nat)
    requires i <= |b|
  {
    i == 0 || !IsEol(b[i - 1]) || !EvenRun(b, i - 1)
  }

  /** A blank line from `t` to `e`. */
  predicate BlankAt(b: string, t: nat, e: nat) {
    && e <= |b|
    && (|| (e == t + 2 && b[t] == '\n' && b[t + 1] == '\n')
        || (e == t + 4 && b[t] == '\r' && b[t + 1] == '\n' && b[t + 2] == '\r' && b[t + 3] == '\n'))
  }

  /** It is the first one. */
  ghost predicate NoneBefore(b: string, e: nat) {
    forall k: nat :: k < e ==> !EndsBlank(b, k)
  }

  lemma ScanAtBlank(b: string, t: nat, e: nat)
    requires BlankAt(b, t, e)
    ensures ScanEnd(b, t) == e
  {
  }

  /** From behind its start a blank line is not found. */
  lemma ScanPastBlank(b: string, t: nat, e: nat, i: nat)
    requires BlankAt(b, t, e) && t < i
    ensures ScanEnd(b, i) != e
  {
  }

  /** A round of the search from `i`, in front of the blank line at `t`, goes on at `j`. */
  ghost predicate GoesOn(b: string, t: nat, i: nat, j: nat)
    requires t <= |b|
  {
    i < j && ScanEnd(b, i) == ScanEnd(b, j) && if j <= t then EvenRun(b, j) else !EvenRun(b, t)
  }

  lemma ReturnOnly(b: string, t: nat, i: nat)
    requires i < t < |b| && EvenRun(b, i) && b[i] == '\r' && b[i + 1] != '\n'
    ensures GoesOn(b, t, i, i + 2)
  {
    assert !EvenRun(b, i + 1);
  }

  lemma ReturnLineFeed(b: string, t: nat, e: nat, i: nat)
    requires BlankAt(b, t, e) && NoneBefore(b, e) && i < t && EvenRun(b, i)
    requires b[i] == '\r' && b[i + 1] == '\n' && b[i + 2] != '\r'
    ensures GoesOn(b, t, i, i + 3)
  {
    assert !EvenRun(b, i + 1);
    assert i + 3 < e ==> !EndsBlank(b, i + 3);
  }

  lemma ReturnLineFeedReturn(b: string, t: nat, e: nat, i: nat)
    requires BlankAt(b, t, e) && NoneBefore(b, e) && i < t && EvenRun(b, i)
    requires b[i] == '\r' && b[i + 1] == '\n' && b[i + 2] == '\r'
    ensures GoesOn(b, t, i, i + 4)
  {
    assert i + 4 < e ==> !EndsBlank(b, i + 4);
    assert !EvenRun(b, i + 1);
    assert EvenRun(b, i + 2);
    assert !EvenRun(b, i + 3);
  }

  lemma LineFeedOnly(b: string, t: nat, e: nat, i: nat)
    requires BlankAt(b, t, e) && NoneBefore(b, e) && i < t && EvenRun(b, i) && b[i] == '\n'
    ensures GoesOn(b, t, i, i + 2)
  {
    assert !EvenRun(b, i + 1) && !EndsBlank(b, i + 2);
  }

  lemma ScanStep(b: string, t: nat, e: nat, i: nat) returns (j: nat)
    requires BlankAt(b, t, e) && NoneBefore(b, e) && i < t && EvenRun(b, i)
    ensures GoesOn(b, t, i, j)
  {
    if b[i] == '\n' {
      LineFeedOnly(b, t, e, i);
      j := i + 2;
    } else if b[i] != '\r' {
      j := i + 1;
    } else if b[i + 1] != '\n' {
      ReturnOnly(b, t, i);
      j := i + 2;
    } else if b[i + 2] != '\r' {
      ReturnLineFeed(b, t, e, i);
      j := i + 3;
    } else {
      ReturnLineFeedReturn(b, t, e, i);
      j := i + 4;
    }
  }

  lemma {:induction false} ScanReachesIff(b: string, t: nat, e: nat, i: nat)
    requires BlankAt(b, t, e) && NoneBefore(b, e) && i <= t && EvenRun(b, i)
    ensures ScanEnd(b, i) == e <==> EvenRun(b, t)
    decreases t - i
  {
    if i == t {
      ScanAtBlank(b, t, e);
    } else {
      var j := ScanStep(b, t, e, i);
      if j <= t {
        ScanReachesIff(b, t, e, j);
      } else {
        ScanPastBlank(b, t, e, j);
      }
    }
  }

  /** The first blank line is found iff the number of line-end characters directly before it is even. */
  lemma FirstBlankFoundIff(b: string, e: nat)
    requires EndsBlank(b, e) && NoneBefore(b, e)
    ensures HeaderEnd(b) == e <==> EvenRun(b, BlankStart(b, e))
  {
    ScanReachesIff(b, BlankStart(b, e), e, 0);
  }

  /** A stray CR in front of a blank line hides it. */
  lemma StrayReturnHidesBlank()
    ensures EndsBlank("\r\r\n\r\n", 5) && HeaderEnd("\r\r\n\r\n") == 0
  {
    var b := "\r\r\n\r\n";
    assert ScanEnd(b, 0) == ScanEnd(b, 2) == ScanEnd(b, 4) == 0;
  }

  // ----- header lines -----

  predicate IsBlank(c: char) {
    c == ' ' || c == '\t'
  }

  /** Index of the last blank that directly follows `i`, below `end`. */
  function SkipBlanks(b: string, end: nat, i: nat): (j: nat)
    requires i < end <= |b|
    ensures i <= j < end
    decreases end - i
  {
    if i + 1 < end && IsBlank(b[i + 1]) then SkipBlanks(b, end, i + 1) else i
  }

  function SkipEols(b: string, i: nat): (j: nat)
    requires i <= |b|
    ensures i <= j <= |b|
    ensures i < |b| && IsEol(b[i]) ==> i < j
    decreases |b| - i
  {
    if i < |b| && IsEol(b[i]) then SkipEols(b, i + 1) else i
  }

  /** Positions of a header line that has a name: its start, its colon, its value and its end. */
  datatype Line = Line(start: nat, colon: nat, value: nat, eol: nat)

  /** The line that ends at `p`, if it has a name. */
  function LineTo(s: nat, c: nat, v: nat, p: nat): seq<Line> {
    if c > s && v > c then [Line(s, c, v, p)] else []
  }

  /** The lines the header loop hands to its name tests, from loop state `(i, start, colon, value)`. */
  function LinesFrom(b: string, end: nat, i: nat, start: nat, colon: nat, value: nat): seq<Line>
    requires end <= |b|
    decreases end - i
  {
    if i + 1 >= end then []
    else if colon <= start && b[i] == ':' then
      var j := SkipBlanks(b, end, i);
      LinesFrom(b, end, j + 1, start, i, j + 1)
    else if IsEol(b[i]) then
      var next := SkipEols(b, i);
      LineTo(start, colon, value, i) + LinesFrom(b, end, next + 1, next, next, 0)
    else LinesFrom(b, end, i + 1, start, colon, value)
  }

  function Lines(b: string, end: nat): seq<Line>
    requires end <= |b|
  {
    LinesFrom(b, end, 0, 0, 0, 0)
  }

  function Lower(c: char): char {
    if 'A' <= c <= 'Z' then c - 'A' + 'a' else c
  }

  /** `strncasecmp(name, word, |name|) == 0`: every prefix of `word` matches. */
  predicate NameMatches(name: string, word: string) {
    |name| <= |word| && forall k :: 0 <= k < |name| ==> Lower(name[k]) == word[k]
  }

  /** `strncasecmp(s, word, |word|) == 0`. */
  predicate StartsWith(s: string, word: string) {
    |word| <= |s| && forall k :: 0 <= k < |word| ==> Lower(s[k]) == word[k]
  }

  predicate IsCSpace(c: char) {
    c == ' ' || '\t' <= c <= '\r'
  }

  predicate AllCSpace(s: string) {
    forall k :: 0 <= k < |s| ==> IsCSpace(s[k])
  }

  function Number(s: string, acc: nat): nat {
    if s != "" && '0' <= s[0] <= '9' then Number(s[1..], acc * 10 + (s[0] - '0') as nat) else acc
  }

  /** `atoi`, with the end of `s` read as a character that is no digit. */
  function Atoi(s: string): int {
    if s == "" then 0
    else if IsCSpace(s[0]) then Atoi(s[1..])
    else if s[0] == '-' then 0 - Number(s[1..], 0)
    else if s[0] == '+' then Number(s[1..], 0)
    else Number(s, 0)
  }

  datatype Fields = Fields(contentLength: int, chunked: bool)

  const NO_FIELDS := Fields(-1, false)

  ghost predicate LineWithin(b: string, end: nat, l: Line) {
    && l.start < l.colon < l.value <= l.eol && l.eol + 1 < end <= |b|
    && b[l.colon] == ':' && IsEol(b[l.eol])
  }

  predicate IsLength(b: string, l: Line)
    requires l.start <= l.colon <= |b|
  {
    NameMatches(b[l.start..l.colon], "content-length")
  }

  predicate IsChunked(b: string, l: Line)
    requires l.start <= l.colon <= |b| && l.value <= |b|
  {
    NameMatches(b[l.start..l.colon], "transfer-encoding") && StartsWith(b[l.value..], "chunked")
  }

  function Recognise(b: string, f: Fields, l: Line): Fields
    requires l.start <= l.colon <= |b| && l.value <= |b|
  {
    if IsLength(b, l) then f.(contentLength := Atoi(b[l.value..]))
    else if IsChunked(b, l) then f.(chunked := true)
    else f
  }

  ghost predicate LinesWithin(b: string, end: nat, start: nat, ls: seq<Line>) {
    forall k :: 0 <= k < |ls| ==> LineWithin(b, end, ls[k]) && start <= ls[k].start
  }

  lemma {:induction false} LinesFromWithin(b: string, end: nat, i: nat, start: nat, colon: nat, value: nat)
    requires end <= |b| && start <= i + 1 && colon <= i && value <= i
    requires start < colon ==> colon < |b| && b[colon] == ':'
    ensures LinesWithin(b, end, start, LinesFrom(b, end, i, start, colon, value))
    decreases end - i
  {
    if i + 1 < end {
      if colon <= start && b[i] == ':' {
        var j := SkipBlanks(b, end, i);
        LinesFromWithin(b, end, j + 1, start, i, j + 1);
      } else if IsEol(b[i]) {
        var next := SkipEols(b, i);
        LinesFromWithin(b, end, next + 1, next, next, 0);
      } else {
        LinesFromWithin(b, end, i + 1, start, colon, value);
      }
    }
  }

  function Fold(b: string, f: Fields, ls: seq<Line>): Fields
    decreases |ls|
  {
    if ls == [] then f
    else if ls[0].start <= ls[0].colon <= |b| && ls[0].value <= |b| then Fold(b, Recognise(b, f, ls[0]), ls[1..])
    else f
  }

  /** What the header block `b[..end]` says, read from the buffer `b`. */
  function FieldsOf(b: string, end: nat): Fields
    requires end <= |b|
  {
    Fold(b, NO_FIELDS, Lines(b, end))
  }

  // ----- independence of what follows the header block -----

  /** The value of a `Content-Length` line is blank, and so is everything after it in the block. */
  ghost predicate OpenEnded(h: string) {
    exists k :: 0 <= k < |Lines(h, |h|)| && OpenLine(h, Lines(h, |h|)[k])
  }

  predicate OpenLine(h: string, l: Line) {
    l.start <= l.colon <= |h| && l.value <= |h| && IsLength(h, l) && AllCSpace(h[l.value..])
  }

  lemma {:induction false} SkipBlanksLocal(h: string, x: string, i: nat)
    requires i < |h|
    ensures SkipBlanks(h + x, |h|, i) == SkipBlanks(h, |h|, i)
    decreases |h| - i
  {
    if i + 1 < |h| && IsBlank(h[i + 1]) {
      SkipBlanksLocal(h, x, i + 1);
    }
  }

  lemma {:induction false} SkipEolsLocal(h: string, x: string, i: nat)
    requires i <= |h|
    ensures SkipEols(h + x, i) == SkipEols(h, i) || (SkipEols(h + x, i) >= |h| && SkipEols(h, i) == |h|)
    decreases |h| - i
  {
    if i < |h| && IsEol(h[i]) {
      SkipEolsLocal(h, x, i + 1);
    }
  }

  lemma {:induction false} LinesFromLocal(h: string, x: string, i: nat, start: nat, colon: nat, value: nat)
    ensures LinesFrom(h + x, |h|, i, start, colon, value) == LinesFrom(h, |h|, i, start, colon, value)
    decreases |h| - i
  {
    if i + 1 < |h| {
      assert (h + x)[i] == h[i];
      if colon <= start && h[i] == ':' {
        SkipBlanksLocal(h, x, i);
        var j := SkipBlanks(h, |h|, i);
        LinesFromLocal(h, x, j + 1, start, i, j + 1);
      } else if IsEol(h[i]) {
        SkipEolsLocal(h, x, i);
        var next, next' := SkipEols(h, i), SkipEols(h + x, i);
        if next == next' {
          LinesFromLocal(h, x, next + 1, next, next, 0);
        }
      } else {
        LinesFromLocal(h, x, i + 1, start, colon, value);
      }
    }
  }

  lemma {:induction false} NumberLocal(s: string, x: string, acc: nat)
    requires s != "" && IsCSpace(s[|s| - 1])
    ensures Number(s + x, acc) == Number(s, acc)
  {
    assert (s + x)[0] == s[0];
    if '0' <= s[0] <= '9' {
      assert (s + x)[1..] == s[1..] + x;
      NumberLocal(s[1..], x, acc * 10 + (s[0] - '0') as nat);
    }
  }

  lemma {:induction false} AtoiLocal(s: string, x: string)
    requires s != "" && IsCSpace(s[|s| - 1]) && !AllCSpace(s)
    ensures Atoi(s + x) == Atoi(s)
  {
    assert (s + x)[0] == s[0] && (s + x)[1..] == s[1..] + x;
    if IsCSpace(s[0]) {
      AtoiLocal(s[1..], x);
    } else if s[0] == '-' || s[0] == '+' {
      NumberLocal(s[1..], x, 0);
    } else {
      NumberLocal(s, x, 0);
    }
  }

  lemma StartsWithLocal(s: string, x: string, k: nat)
    requires k < |s| && IsEol(s[k])
    ensures StartsWith(s + x, "chunked") == StartsWith(s, "chunked")
  {
    if |s| < 7 {
      assert Lower((s + x)[k]) != "chunked"[k];
    }
  }

  lemma RecogniseLocal(h: string, x: string, f: Fields, l: Line)
    requires h != "" && h[|h| - 1] == '\n' && LineWithin(h, |h|, l) && !OpenLine(h, l)
    ensures Recognise(h + x, f, l) == Recognise(h, f, l)
  {
    var b := h + x;
    assert b[l.start..l.colon] == h[l.start..l.colon];
    assert b[l.value..] == h[l.value..] + x;
    StartsWithLocal(h[l.value..], x, l.eol - l.value);
    if IsLength(h, l) {
      AtoiLocal(h[l.value..], x);
    }
  }

  lemma {:induction false} FoldLocal(h: string, x: string, f: Fields, ls: seq<Line>)
    requires h != "" && h[|h| - 1] == '\n' && LinesWithin(h, |h|, 0, ls)
    requires forall k :: 0 <= k < |ls| ==> !OpenLine(h, ls[k])
    ensures Fold(h + x, f, ls) == Fold(h, f, ls)
    decreases |ls|
  {
    if ls != [] {
      assert LineWithin(h, |h|, ls[0]);
      RecogniseLocal(h, x, f, ls[0]);
      FoldLocal(h, x, Recognise(h, f, ls[0]), ls[1..]);
    }
  }

  /** Unless the block is open-ended, bytes received after it do not change what it says. */
  lemma FieldsLocal(h: string, x: string)
    requires h != "" && h[|h| - 1] == '\n' && !OpenEnded(h)
    ensures FieldsOf(h + x, |h|) == FieldsOf(h, |h|)
  {
    LinesFromLocal(h, x, 0, 0, 0, 0);
    LinesFromWithin(h, |h|, 0, 0, 0, 0);
    FoldLocal(h, x, NO_FIELDS, Lines(h, |h|));
  }

  // ----- an open-ended block reads on into the body -----

  ghost predicate InSequence(ls: seq<Line>) {
    forall j, k :: 0 <= j < k < |ls| ==> ls[j].eol < ls[k].start
  }

  lemma InSequenceCons(b: string, end: nat, start: nat, colon: nat, value: nat, i: nat, next: nat, ls: seq<Line>)
    requires InSequence(ls) && LinesWithin(b, end, next, ls) && i < next
    ensures InSequence(LineTo(start, colon, value, i) + ls)
  {
  }

  lemma {:induction false} LinesFromInSequence(b: string, end: nat, i: nat, start: nat, colon: nat, value: nat)
    requires end <= |b| && start <= i + 1 && colon <= i && value <= i
    requires start < colon ==> colon < |b| && b[colon] == ':'
    ensures InSequence(LinesFrom(b, end, i, start, colon, value))
    decreases end - i
  {
    if i + 1 < end {
      if colon <= start && b[i] == ':' {
        var j := SkipBlanks(b, end, i);
        LinesFromInSequence(b, end, j + 1, start, i, j + 1);
      } else if IsEol(b[i]) {
        var next := SkipEols(b, i);
        var rest := LinesFrom(b, end, next + 1, next, next, 0);
        LinesFromInSequence(b, end, next + 1, next, next, 0);
        LinesFromWithin(b, end, next + 1, next, next, 0);
        InSequenceCons(b, end, start, colon, value, i, next, rest);
        assert LinesFrom(b, end, i, start, colon, value) == LineTo(start, colon, value, i) + rest;
      } else {
        LinesFromInSequence(b, end, i + 1, start, colon, value);
      }
    }
  }

  lemma {:induction false} FoldFirst(b: string, f: Fields, l: Line, rest: seq<Line>)
    requires l.start <= l.colon <= |b| && l.value <= |b|
    ensures Fold(b, f, [l] + rest) == Fold(b, Recognise(b, f, l), rest)
  {
    assert ([l] + rest)[1..] == rest;
  }

  lemma {:induction false} FoldLast(b: string, end: nat, f: Fields, ls: seq<Line>, last: Line)
    requires LinesWithin(b, end, 0, ls) && LineWithin(b, end, last)
    ensures Fold(b, f, ls + [last]) == Recognise(b, Fold(b, f, ls), last)
    decreases |ls|
  {
    if ls == [] {
      FoldFirst(b, f, last, []);
      assert ls + [last] == [last] + [];
    } else {
      assert LineWithin(b, end, ls[0]);
      FoldLast(b, end, Recognise(b, f, ls[0]), ls[1..], last);
      FoldFirst(b, f, ls[0], ls[1..] + [last]);
      assert ls + [last] == [ls[0]] + (ls[1..] + [last]);
    }
  }

  lemma {:induction false} AtoiAfterSpaces(s: string, x: string)
    requires AllCSpace(s)
    ensures Atoi(s + x) == Atoi(x)
  {
    if s == "" {
      assert s + x == x;
    } else {
      assert (s + x)[0] == s[0] && (s + x)[1..] == s[1..] + x;
      AtoiAfterSpaces(s[1..], x);
    }
  }

  /** Only the last line can be open: a later one has a colon. */
  lemma LaterLineCloses(h: string, ls: seq<Line>, k: nat)
    requires LinesWithin(h, |h|, 0, ls) && InSequence(ls) && k + 1 < |ls|
    ensures !OpenLine(h, ls[k])
  {
    assert LineWithin(h, |h|, ls[k]) && LineWithin(h, |h|, ls[k + 1]) && ls[k].eol < ls[k + 1].start;
    assert h[ls[k].value..][ls[k + 1].colon - ls[k].value] == ':';
  }

  lemma {:induction false} OpenLineReadsOn(h: string, x: string, f: Fields, l: Line)
    requires OpenLine(h, l)
    ensures Recognise(h + x, f, l).contentLength == Atoi(x)
  {
    var b := h + x;
    assert b[l.start..l.colon] == h[l.start..l.colon] && b[l.value..] == h[l.value..] + x;
    AtoiAfterSpaces(h[l.value..], x);
  }

  lemma LastLineReadsOn(h: string, x: string, ls: seq<Line>, last: Line)
    requires LinesWithin(h + x, |h|, 0, ls) && LineWithin(h + x, |h|, last) && OpenLine(h, last)
    ensures Fold(h + x, NO_FIELDS, ls + [last]).contentLength == Atoi(x)
  {
    FoldLast(h + x, |h|, NO_FIELDS, ls, last);
    OpenLineReadsOn(h, x, Fold(h + x, NO_FIELDS, ls), last);
  }

  lemma OpenLineIsLast(h: string) returns (ls: seq<Line>, last: Line)
    requires OpenEnded(h)
    ensures Lines(h, |h|) == ls + [last] && OpenLine(h, last)
  {
    LinesFromWithin(h, |h|, 0, 0, 0, 0);
    LinesFromInSequence(h, |h|, 0, 0, 0, 0);
    var all := Lines(h, |h|);
    var k: nat :| k < |all| && OpenLine(h, all[k]);
    ls, last := OpenSplits(h, all, k);
  }

  lemma OpenSplits(h: string, all: seq<Line>, k: nat) returns (ls: seq<Line>, last: Line)
    requires LinesWithin(h, |h|, 0, all) && InSequence(all) && k < |all| && OpenLine(h, all[k])
    ensures all == ls + [last] && OpenLine(h, last)
  {
    if k + 1 < |all| {
      LaterLineCloses(h, all, k);
    }
    ls, last := all[..k], all[k];
  }

  /** An open-ended block takes its content length from whatever follows it. */
  lemma {:induction false} OpenEndedReadsOn(h: string, x: string)
    requires OpenEnded(h)
    ensures FieldsOf(h + x, |h|).contentLength == Atoi(x)
  {
    var ls, last := OpenLineIsLast(h);
    var all := ls + [last];
    LinesFromLocal(h, x, 0, 0, 0, 0);
    LinesFromWithin(h + x, |h|, 0, 0, 0, 0);
    assert all[|ls|] == last && forall k :: 0 <= k < |ls| ==> all[k] == ls[k];
    LastLineReadsOn(h, x, ls, last);
  }

  // ----- printed headers -----

  /** A header line: one without a colon, or a name, blanks and a value. */
  datatype HeaderLine = Plain(text: string) | Named(text: string, name: string, blanks: string, value: string)

  function NamedLine(name: string, blanks: string, value: string): HeaderLine {
    Named(name + ":" + blanks + value, name, blanks, value)
  }

  predicate NoEol(s: string) {
    forall k :: 0 <= k < |s| ==> !IsEol(s[k])
  }

  ghost predicate WellFormed(l: HeaderLine) {
    match l
    case Plain(text) => text != "" && NoEol(text) && ':' !in text
    case Named(text, name, blanks, value) =>
      && text == name + ":" + blanks + value
      && name != "" && NoEol(name) && ':' !in name
      && (forall k :: 0 <= k < |blanks| ==> blanks[k] == ' ' || blanks[k] == '\t')
      && NoEol(value) && !AllCSpace(value) && !IsBlank(value[0])
  }

  function PrintHeader(ls: seq<HeaderLine>): string {
    if ls == [] then "\r\n" else ls[0].text + ("\r\n" + PrintHeader(ls[1..]))
  }

  /** What a line says, in terms of its name and value. */
  function Meaning(f: Fields, l: HeaderLine): Fields {
    match l
    case Plain(_) => f
    case Named(_, name, _, value) =>
      if NameMatches(name, "content-length") then f.(contentLength := Atoi(value))
      else if NameMatches(name, "transfer-encoding") && StartsWith(value, "chunked") then f.(chunked := true)
      else f
  }

  function MeaningOf(f: Fields, ls: seq<HeaderLine>): Fields
    decreases |ls|
  {
    if ls == [] then f else MeaningOf(Meaning(f, ls[0]), ls[1..])
  }

  ghost predicate AllWellFormed(ls: seq<HeaderLine>) {
    ls == [] || (WellFormed(ls[0]) && AllWellFormed(ls[1..]))
  }

  lemma PrintedLineIsPlain(l: HeaderLine)
    requires WellFormed(l)
    ensures l.text != "" && NoEol(l.text) && l.text[0] != ':'
  {
    if l.Named? {
      var t := l.text;
      forall k | 0 <= k < |t| ensures !IsEol(t[k]) {
        if k > |l.name| + |l.blanks| {
          assert t[k] == l.value[k - |l.name| - 1 - |l.blanks|];
        } else if k > |l.name| {
          assert t[k] == l.blanks[k - |l.name| - 1];
        }
      }
    }
  }

  lemma {:induction false} ScanPlain(b: string, i: nat, j: nat)
    requires i <= j < |b| && forall k :: i <= k < j ==> !IsEol(b[k])
    ensures ScanEnd(b, i) == ScanEnd(b, j)
    decreases j - i
  {
    if i < j {
      ScanPlain(b, i + 1, j);
    }
  }

  /** `t` is a line of `b`, from `s` to the line end at `p`. */
  ghost predicate LineAt(b: string, s: nat, t: string, p: nat) {
    p == s + |t| && p < |b| && b[s..p] == t && IsEol(b[p])
  }

  /** From `s` on, the buffer holds the line `t` and then `rest`. */
  lemma LineInText(b: string, s: nat, t: string, rest: string) returns (p: nat)
    requires s <= |b| && b[s..] == t + ("\r\n" + rest)
    ensures LineAt(b, s, t, p) && p + 2 <= |b| && b[p] == '\r' && b[p + 1] == '\n' && b[p + 2..] == rest
  {
    p := s + |t|;
    assert b[s..p] == b[s..][..|t|] == t;
    assert b[p] == b[s..][|t|] && b[p + 1] == b[s..][|t| + 1];
    assert b[p + 2..] == b[s..][|t| + 2..] == rest;
  }

  /** `end` is the search in `b`. */
  ghost predicate Finds(b: string, end: nat -> nat) {
    forall i: nat {:trigger ScanEnd(b, i)} :: end(i) == ScanEnd(b, i)
  }

  lemma ScanToEnd(b: string, end: nat -> nat, s: nat, t: string, p: nat, i: nat)
    requires Finds(b, end) && LineAt(b, s, t, p) && t != "" && NoEol(t) && s <= i <= s + 1
    ensures end(i) == end(p)
  {
    assert forall k :: s <= k < p ==> b[k] == b[s..p][k - s] == t[k - s];
    ScanPlain(b, i, p);
  }

  /** The header lines `ls` stand from `s` to the end of `b`. */
  ghost predicate HeaderAt(b: string, s: nat, ls: seq<HeaderLine>)
    decreases |ls|
  {
    if ls == [] then s + 2 == |b| && b[s] == '\r' && b[s + 1] == '\n'
    else
      var p := s + |ls[0].text|;
      p + 2 < |b| && LineAt(b, s, ls[0].text, p) && b[p] == '\r' && b[p + 1] == '\n' && HeaderAt(b, p + 2, ls[1..])
  }

  lemma {:induction false} PrintedStands(b: string, s: nat, ls: seq<HeaderLine>)
    requires s <= |b| && b[s..] == PrintHeader(ls)
    ensures HeaderAt(b, s, ls)
    decreases |ls|
  {
    if ls == [] {
      assert b[s] == b[s..][0] && b[s + 1] == b[s..][1];
    } else {
      var p := LineInText(b, s, ls[0].text, PrintHeader(ls[1..]));
      PrintedStands(b, p + 2, ls[1..]);
    }
  }

  lemma {:induction false} HeaderStarts(b: string, s: nat, ls: seq<HeaderLine>)
    requires ls != [] && WellFormed(ls[0]) && HeaderAt(b, s, ls)
    ensures !IsEol(b[s])
  {
    PrintedLineIsPlain(ls[0]);
    var p := s + |ls[0].text|;
    assert b[s..p][0] == b[s];
  }

  lemma ScanNext(b: string, end: nat -> nat, p: nat)
    requires Finds(b, end) && p + 2 < |b| && b[p] == '\r' && b[p + 1] == '\n' && b[p + 2] != '\r'
    ensures end(p) == end(p + 3)
  {
    assert ScanEnd(b, p) == ScanEnd(b, p + 3);
  }

  lemma ScanLast(b: string, end: nat -> nat, p: nat)
    requires Finds(b, end) && p + 4 == |b| && b[p] == '\r' && b[p + 1] == '\n' && b[p + 2] == '\r' && b[p + 3] == '\n'
    ensures end(p) == |b|
  {
    assert ScanEnd(b, p) == |b|;
  }

  lemma {:induction false} FirstLineAt(b: string, s: nat, ls: seq<HeaderLine>, p: nat)
    requires ls != [] && HeaderAt(b, s, ls) && p == s + |ls[0].text|
    ensures p + 2 < |b| && LineAt(b, s, ls[0].text, p) && b[p] == '\r' && b[p + 1] == '\n'
    ensures HeaderAt(b, p + 2, ls[1..])
  {
  }

  lemma {:induction false} BlankLineAt(b: string, s: nat)
    requires HeaderAt(b, s, [])
    ensures s + 2 == |b| && b[s] == '\r' && b[s + 1] == '\n'
  {
  }

  /** The end of a printed header is found where it is. */
  lemma {:induction false} PrintedEnd(b: string, end: nat -> nat, s: nat, ls: seq<HeaderLine>, i: nat)
    requires Finds(b, end) && ls != [] && AllWellFormed(ls) && HeaderAt(b, s, ls) && s <= i <= s + 1
    ensures end(i) == |b|
    decreases |ls|
  {
    var t := ls[0].text;
    var p := s + |t|;
    FirstLineAt(b, s, ls, p);
    PrintedLineIsPlain(ls[0]);
    ScanToEnd(b, end, s, t, p, i);
    if |ls| > 1 {
      HeaderStarts(b, p + 2, ls[1..]);
      ScanNext(b, end, p);
      PrintedEnd(b, end, p + 2, ls[1..], p + 3);
    } else {
      BlankLineAt(b, p + 2);
      ScanLast(b, end, p);
    }
  }

  // ----- the lines of a printed header -----

  lemma {:induction false} LinesSkip(b: string, end: nat, i: nat, j: nat, start: nat, colon: nat, value: nat)
    requires i <= j && j + 1 <= end <= |b|
    requires forall k :: i <= k < j ==> !IsEol(b[k]) && (start < colon || b[k] != ':')
    ensures LinesFrom(b, end, i, start, colon, value) == LinesFrom(b, end, j, start, colon, value)
    decreases j - i
  {
    if i < j {
      LinesSkip(b, end, i + 1, j, start, colon, value);
    }
  }

  lemma {:induction false} SkipBlanksTo(b: string, end: nat, i: nat, j: nat)
    requires i <= j < end <= |b|
    requires forall k :: i < k <= j ==> IsBlank(b[k])
    requires j + 1 < end ==> !IsBlank(b[j + 1])
    ensures SkipBlanks(b, end, i) == j
    decreases j - i
  {
    if i < j {
      SkipBlanksTo(b, end, i + 1, j);
    }
  }

  lemma {:induction false} SkipEolsTo(b: string, i: nat, j: nat)
    requires i <= j <= |b| && (forall k :: i <= k < j ==> IsEol(b[k])) && (j < |b| ==> !IsEol(b[j]))
    ensures SkipEols(b, i) == j
    decreases j - i
  {
    if i < j {
      SkipEolsTo(b, i + 1, j);
    }
  }

  /** Name, blanks and value of a printed line, by their positions. */
  ghost predicate NamedAt(b: string, l: HeaderLine, r: Line)
    requires l.Named?
  {
    && r.start + |l.name| == r.colon && r.colon + 1 + |l.blanks| == r.value && r.value + |l.value| == r.eol < |b|
    && b[r.start..r.colon] == l.name && b[r.colon] == ':'
    && b[r.colon + 1..r.value] == l.blanks && b[r.value..r.eol] == l.value && IsEol(b[r.eol])
  }

  lemma PartAt(b: string, s: nat, p: nat, a: string, rest: string)
    requires s <= p <= |b| && b[s..p] == a + rest
    ensures s + |a| <= p && b[s..s + |a|] == a && b[s + |a|..p] == rest
  {
    SliceOfSlice(b, s, p, 0, |a|);
    SliceOfSlice(b, s, p, |a|, p - s);
  }

  lemma NamedText(l: HeaderLine)
    requires l.Named? && WellFormed(l)
    ensures l.text == l.name + (":" + (l.blanks + l.value))
  {
    SeqAssoc(":", l.blanks, l.value);
    SeqAssoc(l.name, ":" + l.blanks, l.value);
    SeqAssoc(l.name, ":", l.blanks);
  }

  lemma NameThenColon(b: string, s: nat, p: nat, name: string, rest: string, c: nat)
    requires s <= p <= |b| && b[s..p] == name + (":" + rest) && c == s + |name|
    ensures c + 1 <= p && b[s..c] == name && b[c] == ':' && b[c + 1..p] == rest
  {
    PartAt(b, s, p, name, ":" + rest);
    PartAt(b, c, p, ":", rest);
    assert b[c] == b[c..c + 1][0];
  }

  lemma NamedParts(b: string, s: nat, l: HeaderLine, p: nat) returns (r: Line)
    requires l.Named? && WellFormed(l) && LineAt(b, s, l.text, p)
    ensures r.start == s && r.eol == p && NamedAt(b, l, r)
  {
    var c := s + |l.name|;
    NamedText(l);
    NameThenColon(b, s, p, l.name, l.blanks + l.value, c);
    PartAt(b, c + 1, p, l.blanks, l.value);
    r := Line(s, c, c + 1 + |l.blanks|, p);
  }

  /** `lines` gives the lines that are found from each loop state. */
  ghost predicate GivesLines(b: string, lines: (nat, nat, nat, nat) -> seq<Line>) {
    forall i: nat, s: nat, c: nat, v: nat {:trigger LinesFrom(b, |b|, i, s, c, v)} ::
      lines(i, s, c, v) == LinesFrom(b, |b|, i, s, c, v)
  }

  lemma EolStep(b: string, lines: (nat, nat, nat, nat) -> seq<Line>, p: nat, s: nat, c: nat, v: nat, next: nat)
    requires GivesLines(b, lines) && p + 1 < |b| && IsEol(b[p]) && next == SkipEols(b, p)
    ensures lines(p, s, c, v) == LineTo(s, c, v, p) + lines(next + 1, next, next, 0)
  {
    assert LinesFrom(b, |b|, p, s, c, v) == LineTo(s, c, v, p) + LinesFrom(b, |b|, next + 1, next, next, 0);
  }

  lemma SkipStep(b: string, lines: (nat, nat, nat, nat) -> seq<Line>, i: nat, j: nat, t: string, s: nat, c: nat, v: nat)
    requires GivesLines(b, lines) && i <= j < |b| && NoEol(t) && (s < c || ':' !in t)
    requires j <= i + |t| && b[i..j] == t[|t| - (j - i)..]
    ensures lines(i, s, c, v) == lines(j, s, c, v)
  {
    assert forall k :: i <= k < j ==> b[k] == b[i..j][k - i] == t[|t| - (j - i)..][k - i];
    LinesSkip(b, |b|, i, j, s, c, v);
  }

  lemma ColonStep(b: string, lines: (nat, nat, nat, nat) -> seq<Line>, c: nat, s: nat, blanks: string, v: nat)
    requires GivesLines(b, lines) && s <= c && v == c + 1 + |blanks| < |b|
    requires b[c] == ':' && b[c + 1..v] == blanks && !IsBlank(b[v])
    requires forall k :: 0 <= k < |blanks| ==> IsBlank(blanks[k])
    ensures lines(c, s, s, 0) == lines(v, s, c, v)
  {
    assert forall k :: c < k < v ==> b[k] == b[c + 1..v][k - c - 1];
    SkipBlanksTo(b, |b|, c, v - 1);
    assert LinesFrom(b, |b|, c, s, s, 0) == LinesFrom(b, |b|, v, s, c, v);
  }

  lemma NameStep(b: string, lines: (nat, nat, nat, nat) -> seq<Line>, l: HeaderLine, r: Line, i: nat)
    requires GivesLines(b, lines) && l.Named? && WellFormed(l) && NamedAt(b, l, r) && r.start <= i <= r.start + 1
    ensures lines(i, r.start, r.start, 0) == lines(r.value, r.start, r.colon, r.value)
  {
    var s, c, v := r.start, r.colon, r.value;
    assert b[i..c] == l.name[i - s..];
    SkipStep(b, lines, i, c, l.name, s, s, 0);
    assert b[v] == b[v..r.eol][0];
    ColonStep(b, lines, c, s, l.blanks, v);
  }

  lemma ValueStep(b: string, lines: (nat, nat, nat, nat) -> seq<Line>, l: HeaderLine, r: Line, next: nat)
    requires GivesLines(b, lines) && l.Named? && WellFormed(l) && NamedAt(b, l, r)
    requires r.eol + 1 < |b| && next == SkipEols(b, r.eol)
    ensures lines(r.value, r.start, r.colon, r.value) == [r] + lines(next + 1, next, next, 0)
  {
    SkipStep(b, lines, r.value, r.eol, l.value, r.start, r.colon, r.value);
    EolStep(b, lines, r.eol, r.start, r.colon, r.value, next);
  }

  lemma NamedLineStep(b: string, lines: (nat, nat, nat, nat) -> seq<Line>, l: HeaderLine, r: Line, i: nat, next: nat)
    requires GivesLines(b, lines) && l.Named? && WellFormed(l) && NamedAt(b, l, r)
    requires r.eol + 1 < |b| && r.start <= i <= r.start + 1 && next == SkipEols(b, r.eol)
    ensures lines(i, r.start, r.start, 0) == [r] + lines(next + 1, next, next, 0)
  {
    NameStep(b, lines, l, r, i);
    ValueStep(b, lines, l, r, next);
  }

  lemma {:induction false} PlainLineStep(b: string, lines: (nat, nat, nat, nat) -> seq<Line>,
                                         s: nat, l: HeaderLine, p: nat, i: nat, next: nat)
    requires GivesLines(b, lines) && l.Plain? && WellFormed(l) && LineAt(b, s, l.text, p)
    requires p + 1 < |b| && s <= i <= s + 1 && next == SkipEols(b, p)
    ensures lines(i, s, s, 0) == lines(next + 1, next, next, 0)
  {
    assert b[i..p] == l.text[i - s..];
    SkipStep(b, lines, i, p, l.text, s, s, 0);
    EolStep(b, lines, p, s, s, 0, next);
  }

  lemma {:induction false} AtoiBefore(s: string, x: string)
    requires !AllCSpace(s) && x != "" && IsCSpace(x[0])
    ensures Atoi(s + x) == Atoi(s)
  {
    assert (s + x)[0] == s[0] && (s + x)[1..] == s[1..] + x;
    if IsCSpace(s[0]) {
      AtoiBefore(s[1..], x);
    } else if s[0] == '-' || s[0] == '+' {
      NumberBefore(s[1..], x, 0);
    } else {
      NumberBefore(s, x, 0);
    }
  }

  lemma {:induction false} NumberBefore(s: string, x: string, acc: nat)
    requires x != "" && IsCSpace(x[0])
    ensures Number(s + x, acc) == Number(s, acc)
  {
    if s == "" {
      assert s + x == x;
    } else {
      assert (s + x)[0] == s[0] && (s + x)[1..] == s[1..] + x;
      if '0' <= s[0] <= '9' {
        NumberBefore(s[1..], x, acc * 10 + (s[0] - '0') as nat);
      }
    }
  }

  lemma StartsWithBefore(s: string, x: string)
    requires x != "" && IsEol(x[0])
    ensures StartsWith(s + x, "chunked") == StartsWith(s, "chunked")
  {
    if |s| < 7 {
      assert Lower((s + x)[|s|]) != "chunked"[|s|];
    }
  }

  /** Recognising a printed line is reading its name and value. */
  lemma RecogniseMeans(b: string, f: Fields, l: HeaderLine, r: Line)
    requires l.Named? && WellFormed(l)
    requires r.start <= r.colon <= |b| && r.value <= r.eol < |b| && IsEol(b[r.eol])
    requires b[r.start..r.colon] == l.name && b[r.value..r.eol] == l.value
    ensures Recognise(b, f, r) == Meaning(f, l) && !OpenLine(b, r)
  {
    var x := b[r.eol..];
    assert b[r.value..] == l.value + x;
    AtoiBefore(l.value, x);
    StartsWithBefore(l.value, x);
    var k :| 0 <= k < |l.value| && !IsCSpace(l.value[k]);
    assert b[r.value..][k] == l.value[k];
  }

  ghost predicate NoneOpen(b: string, ls: seq<Line>) {
    forall k :: 0 <= k < |ls| ==> !OpenLine(b, ls[k])
  }

  /** What the lines `ls` say, given what was known before, and that none of them is open. */
  ghost predicate Says(b: string, f: Fields, ls: seq<Line>, f': Fields) {
    Fold(b, f, ls) == f' && NoneOpen(b, ls)
  }

  lemma NamedLineSays(b: string, l: HeaderLine, r: Line, f: Fields, rest: seq<Line>, f': Fields)
    requires l.Named? && WellFormed(l) && NamedAt(b, l, r) && Says(b, Meaning(f, l), rest, f')
    ensures Says(b, f, [r] + rest, f')
  {
    RecogniseMeans(b, f, l, r);
    assert ([r] + rest)[1..] == rest;
  }

  lemma {:induction false} OneLineSays(b: string, lines: (nat, nat, nat, nat) -> seq<Line>,
                                       s: nat, l: HeaderLine, p: nat, i: nat, next: nat, f: Fields, f': Fields)
    requires GivesLines(b, lines)
    requires WellFormed(l) && LineAt(b, s, l.text, p) && p + 1 < |b| && s <= i <= s + 1 && next == SkipEols(b, p)
    requires Says(b, Meaning(f, l), lines(next + 1, next, next, 0), f')
    ensures Says(b, f, lines(i, s, s, 0), f')
  {
    if l.Plain? {
      PlainLineStep(b, lines, s, l, p, i, next);
    } else {
      var r := NamedParts(b, s, l, p);
      NamedLineStep(b, lines, l, r, i, next);
      NamedLineSays(b, l, r, f, lines(next + 1, next, next, 0), f');
    }
  }

  /** Line ends are skipped up to the next line, or to the end after the blank line. */
  lemma LineEnds(b: string, p: nat, ls: seq<HeaderLine>)
    requires p + 2 <= |b| && b[p] == '\r' && b[p + 1] == '\n' && HeaderAt(b, p + 2, ls) && AllWellFormed(ls)
    ensures SkipEols(b, p) == if ls == [] then |b| else p + 2
  {
    if ls == [] {
      SkipEolsTo(b, p, p + 4);
    } else {
      HeaderStarts(b, p + 2, ls);
      SkipEolsTo(b, p, p + 2);
    }
  }

  lemma NoLinesAtEnd(b: string, lines: (nat, nat, nat, nat) -> seq<Line>, f: Fields)
    requires GivesLines(b, lines)
    ensures Says(b, f, lines(|b| + 1, |b|, |b|, 0), f)
  {
    assert LinesFrom(b, |b|, |b| + 1, |b|, |b|, 0) == [];
  }

  lemma {:induction false} FirstLineSays(b: string, lines: (nat, nat, nat, nat) -> seq<Line>,
                                         s: nat, ls: seq<HeaderLine>, i: nat, f: Fields, f': Fields)
    requires GivesLines(b, lines) && ls != [] && AllWellFormed(ls) && HeaderAt(b, s, ls) && s <= i <= s + 1
    requires var next := if |ls| == 1 then |b| else s + |ls[0].text| + 2;
             Says(b, Meaning(f, ls[0]), lines(next + 1, next, next, 0), f')
    ensures Says(b, f, lines(i, s, s, 0), f')
  {
    var p := s + |ls[0].text|;
    LineEnds(b, p, ls[1..]);
    OneLineSays(b, lines, s, ls[0], p, i, SkipEols(b, p), f, f');
  }

  lemma {:induction false} PrintedLinesSay(b: string, lines: (nat, nat, nat, nat) -> seq<Line>,
                                           s: nat, ls: seq<HeaderLine>, i: nat, f: Fields)
    requires GivesLines(b, lines) && ls != [] && AllWellFormed(ls) && HeaderAt(b, s, ls) && s <= i <= s + 1
    ensures Says(b, f, lines(i, s, s, 0), MeaningOf(f, ls))
    decreases |ls|
  {
    var f1 := Meaning(f, ls[0]);
    if |ls| > 1 {
      var p := s + |ls[0].text|;
      PrintedLinesSay(b, lines, p + 2, ls[1..], p + 3, f1);
    } else {
      NoLinesAtEnd(b, lines, f1);
    }
    FirstLineSays(b, lines, s, ls, i, f, MeaningOf(f1, ls[1..]));
  }

  /** A printed header is found whole, says what its lines say, and does not run on into the body. */
  lemma {:induction false} PrintedHeader(ls: seq<HeaderLine>)
    requires ls != [] && AllWellFormed(ls)
    ensures var h := PrintHeader(ls);
            HeaderEnd(h) == |h| && FieldsOf(h, |h|) == MeaningOf(NO_FIELDS, ls) && !OpenEnded(h)
  {
    var h := PrintHeader(ls);
    assert h[0..] == h;
    PrintedStands(h, 0, ls);
    PrintedEnd(h, (i: nat) => ScanEnd(h, i), 0, ls, 0);
    PrintedLinesSay(h, (i: nat, s: nat, c: nat, v: nat) => LinesFrom(h, |h|, i, s, c, v), 0, ls, 0, NO_FIELDS);
  }

  // ----- names that are only the beginning of a known name -----

  /** `name` is `word`, up to case. */
  predicate SameName(name: string, word: string) {
    |name| == |word| && NameMatches(name, word)
  }

  /** `name` is a proper prefix of `word`, up to case. */
  predicate Abbreviates(name: string, word: string) {
    |name| < |word| && NameMatches(name, word)
  }

  /** What a line says when names are compared as a whole. */
  function MeaningWhole(f: Fields, l: HeaderLine): Fields {
    match l
    case Plain(_) => f
    case Named(_, name, _, value) =>
      if SameName(name, "content-length") then f.(contentLength := Atoi(value))
      else if SameName(name, "transfer-encoding") && StartsWith(value, "chunked") then f.(chunked := true)
      else f
  }

  lemma NameMatchesOne(name: string)
    requires name != ""
    ensures !(NameMatches(name, "content-length") && NameMatches(name, "transfer-encoding"))
  {
    if NameMatches(name, "content-length") {
      assert Lower(name[0]) == 'c';
    }
  }

  /** A line is read as its whole name says iff its name abbreviates neither known name, a blank `chunked` aside. */
  lemma ReadByWholeNameIff(l: HeaderLine)
    requires WellFormed(l) && l.Named?
    ensures (forall f :: Meaning(f, l) == MeaningWhole(f, l))
            <==> !Abbreviates(l.name, "content-length")
                 && !(Abbreviates(l.name, "transfer-encoding") && StartsWith(l.value, "chunked"))
  {
    NameMatchesOne(l.name);
    if Abbreviates(l.name, "content-length") {
      var f := Fields(Atoi(l.value) + 1, false);
      assert Meaning(f, l) != MeaningWhole(f, l);
    } else if Abbreviates(l.name, "transfer-encoding") && StartsWith(l.value, "chunked") {
      assert Meaning(NO_FIELDS, l) != MeaningWhole(NO_FIELDS, l);
    }
  }

  /** The header line "C: 5" sets the content length. */
  lemma AbbreviatedLength()
    ensures var l := NamedLine("C", " ", "5");
            && WellFormed(l) && MeaningWhole(NO_FIELDS, l) == NO_FIELDS
            && FieldsOf(PrintHeader([l]), |PrintHeader([l])|) == Fields(5, false)
  {
    var l := NamedLine("C", " ", "5");
    assert !IsCSpace(l.value[0]);
    PrintedHeader([l]);
    assert Atoi("5") == Number("5", 0) == 5;
  }

  // ----- the number a value stands for -----

  /** Digits are read up to the first other character, behind digits already read. */
  lemma {:induction false} NumberReads(p: string, s: string, rest: string)
    requires Text.AllDigits(p) && Text.AllDigits(s) && (rest == "" || !Text.IsDigit(rest[0]))
    ensures Text.AllDigits(p + s) && Number(s + rest, Text.Value(p)) == Text.Value(p + s)
    decreases |s|
  {
    if s == "" {
      assert s + rest == rest && p + s == p;
    } else {
      var q := p + [s[0]];
      assert q[..|p|] == p && (s + rest)[0] == s[0] && (s + rest)[1..] == s[1..] + rest;
      assert p + s == q + s[1..];
      NumberReads(q, s[1..], rest);
    }
  }

  /** `n` as printed, with leading zeros. */
  lemma NumberOfDigits(k: nat, n: nat, rest: string)
    requires rest == "" || !Text.IsDigit(rest[0])
    ensures Number(Text.Zeros(k) + Text.Digits(n) + rest, 0) == n
  {
    var u := Text.Zeros(k) + Text.Digits(n);
    Text.LeadingZeros(k, Text.Digits(n));
    Text.ValueOfDigits(n);
    NumberReads("", u, rest);
    assert "" + u == u;
  }

  lemma {:induction false} AtoiSigned(sign: string, u: string)
    requires sign == "" || sign == "+" || sign == "-"
    requires u != "" && Text.IsDigit(u[0])
    ensures Atoi(sign + u) == if sign == "-" then 0 - Number(u, 0) else Number(u, 0)
  {
    if sign == "" {
      assert sign + u == u;
    } else {
      assert (sign + u)[0] == sign[0] && (sign + u)[1..] == u;
    }
  }

  /** White space, a sign, leading zeros, a printed number and anything that is no digit give the number. */
  lemma AtoiReads(white: string, sign: string, k: nat, n: nat, rest: string)
    requires AllCSpace(white) && (sign == "" || sign == "+" || sign == "-")
    requires rest == "" || !Text.IsDigit(rest[0])
    ensures Atoi(white + (sign + (Text.Zeros(k) + Text.Digits(n) + rest))) == if sign == "-" then 0 - n else n
  {
    var u := Text.Zeros(k) + Text.Digits(n) + rest;
    AtoiAfterSpaces(white, sign + u);
    assert Text.IsDigit(u[0]);
    AtoiSigned(sign, u);
    NumberOfDigits(k, n, rest);
  }

  /** A value that does not start with a number after white space and a sign gives 0. */
  lemma AtoiOther(white: string, sign: string, rest: string)
    requires AllCSpace(white) && (sign == "" || sign == "+" || sign == "-")
    requires rest != "" ==> !Text.IsDigit(rest[0])
    requires rest != "" && sign == "" ==> !IsCSpace(rest[0]) && rest[0] != '+' && rest[0] != '-'
    ensures Atoi(white + (sign + rest)) == 0
  {
    AtoiAfterSpaces(white, sign + rest);
    if sign == "" {
      assert sign + rest == rest;
    } else {
      assert (sign + rest)[0] == sign[0] && (sign + rest)[1..] == rest;
    }
  }

  predicate IsLengthLine(l: HeaderLine) {
    l.Named? && NameMatches(l.name, "content-length")
  }

  predicate IsChunkedLine(l: HeaderLine) {
    l.Named? && NameMatches(l.name, "transfer-encoding") && StartsWith(l.value, "chunked")
  }

  /** No line of the header says chunked, and no line after the one at `m` is a length. */
  ghost predicate LastLength(ls: seq<HeaderLine>, m: nat) {
    && m < |ls| && IsLengthLine(ls[m])
    && (forall i :: 0 <= i < |ls| ==> !IsChunkedLine(ls[i]))
    && (forall i :: m < i < |ls| ==> !IsLengthLine(ls[i]))
  }

  /** Lines that are neither a length nor chunked say nothing. */
  lemma {:induction false} SilentLines(f: Fields, ls: seq<HeaderLine>)
    requires forall i :: 0 <= i < |ls| ==> !IsLengthLine(ls[i]) && !IsChunkedLine(ls[i])
    ensures MeaningOf(f, ls) == f
    decreases |ls|
  {
    if ls != [] {
      assert Meaning(f, ls[0]) == f;
      SilentLines(f, ls[1..]);
    }
  }

  /** The last length line of a header that is not chunked decides. */
  lemma {:induction false} LastLengthDecides(f: Fields, ls: seq<HeaderLine>, m: nat)
    requires LastLength(ls, m)
    ensures MeaningOf(f, ls) == f.(contentLength := Atoi(ls[m].value))
    decreases |ls|
  {
    var g := Meaning(f, ls[0]);
    if m == 0 {
      SilentLines(g, ls[1..]);
    } else {
      assert !IsChunkedLine(ls[0]) && g == f.(contentLength := g.contentLength);
      LastLengthDecides(g, ls[1..], m - 1);
    }
  }

  // ----- letter case -----

  /** `c` is `w`, or `w` is a small letter and `c` the capital letter for it. */
  predicate SameLetter(c: char, w: char) {
    c == w || ('a' <= w <= 'z' && c as int == w as int - 32)
  }

  predicate NoCapitals(word: string) {
    forall k :: 0 <= k < |word| ==> !('A' <= word[k] <= 'Z')
  }

  /** Names are compared without regard to letter case, over the length of the name received. */
  lemma NameMatchesIff(name: string, word: string)
    requires NoCapitals(word)
    ensures NameMatches(name, word) <==>
            |name| <= |word| && forall k :: 0 <= k < |name| ==> SameLetter(name[k], word[k])
  {
    forall k | 0 <= k < |name| && k < |word| ensures Lower(name[k]) == word[k] <==> SameLetter(name[k], word[k]) {
      LowerIff(name[k], word[k]);
    }
  }

  /** Values over the length of the word looked for. */
  lemma StartsWithIff(s: string, word: string)
    requires NoCapitals(word)
    ensures StartsWith(s, word) <==>
            |word| <= |s| && forall k :: 0 <= k < |word| ==> SameLetter(s[k], word[k])
  {
    forall k | 0 <= k < |word| && k < |s| ensures Lower(s[k]) == word[k] <==> SameLetter(s[k], word[k]) {
      LowerIff(s[k], word[k]);
    }
  }

  lemma LowerIff(c: char, w: char)
    requires !('A' <= w <= 'Z')
    ensures Lower(c) == w <==> SameLetter(c, w)
  {
  }

  lemma KnownNamesHaveNoCapitals()
    ensures NoCapitals("content-length") && NoCapitals("transfer-encoding") && NoCapitals("chunked")
  {
  }
}
