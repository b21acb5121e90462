/** Messages that carry a list of headers in front of their body. */
module Messages {
  import opened Basics
  import opened Text

  type Header = seq<(string, string)>

  // ----- `QString::arg` -----

  datatype Marker = NoMarker | Marker(number: nat, size: nat)

  function DigitValue(c: char): nat
    requires IsDigit(c)
  {
    (c - '0') as nat
  }

  /** The place marker at the start of `s`: `%`, an optional `L`, one or two digits. */
  function MarkerAt(s: string): (m: Marker)
    ensures m.Marker? ==> 2 <= m.size <= |s| && s[0] == '%'
  {
    if s == "" || s[0] != '%' then NoMarker else
    var k := if |s| > 1 && s[1] == 'L' then 2 else 1;
    if |s| <= k || !IsDigit(s[k]) then NoMarker
    else if |s| > k + 1 && IsDigit(s[k + 1]) then Marker(10 * DigitValue(s[k]) + DigitValue(s[k + 1]), k + 2)
    else Marker(DigitValue(s[k]), k + 1)
  }

  /** A character, or a place marker with its number and its text. */
  datatype Token = Plain(c: char) | Mark(number: nat, text: string)

  function Tokens(s: string): seq<Token> {
    if s == "" then []
    else if MarkerAt(s).NoMarker? then [Plain(s[0])] + Tokens(s[1..])
    else [Mark(MarkerAt(s).number, s[..MarkerAt(s).size])] + Tokens(s[MarkerAt(s).size..])
  }

  /** The lowest number of a place marker, or 100 if there is none. */
  function Lowest(ts: seq<Token>): (n: nat)
    ensures n <= 100
  {
    if ts == [] then 100 else
    var rest := Lowest(ts[1..]);
    if ts[0].Mark? && ts[0].number < rest then ts[0].number else rest
  }

  function TokenText(t: Token, n: nat, value: string): string {
    match t
    case Plain(c) => [c]
    case Mark(k, text) => if k == n then value else text
  }

  function Fill(ts: seq<Token>, n: nat, value: string): string {
    if ts == [] then "" else TokenText(ts[0], n, value) + Fill(ts[1..], n, value)
  }

  /** All markers with the lowest number are replaced. */
  function Arg(s: string, value: string): string {
    var ts := Tokens(s);
    if Lowest(ts) == 100 then s else Fill(ts, Lowest(ts), value)
  }

  // ----- printing -----

  function HeaderLine(key: string, value: string): string {
    Arg(Arg("%1: %2\n", key), value)
  }

  function HeaderText(header: Header): string {
    if header == [] then "" else HeaderLine(header[0].0, header[0].1) + HeaderText(header[1..])
  }

  function TextMessage(message: string, header: Header): string {
    var h := HeaderText(header);
    (if h == "" then "" else h + "\n") + message
  }

  lemma HeaderTextFrom(header: Header, i: nat, res: string, line: string)
    requires i < |header| && line == HeaderLine(header[i].0, header[i].1)
    ensures res + HeaderText(header[i..]) == (res + line) + HeaderText(header[i + 1..])
  {
    assert header[i..][1..] == header[i + 1..];
    SeqAssoc(res, line, HeaderText(header[i + 1..]));
  }

  method MakeHeaderText(header: Header) returns (res: string)
    ensures res == HeaderText(header)
  {
    res := "";
    var i := 0;
    while i < |header|
      invariant 0 <= i <= |header| && HeaderText(header) == res + HeaderText(header[i..])
    {
      var line := HeaderLine(header[i].0, header[i].1);
      HeaderTextFrom(header, i, res, line);
      res := res + line;
      i := i + 1;
    }
  }

  method MakeTextMessage(message: string, header: Header) returns (res: string)
    ensures res == TextMessage(message, header)
  {
    res := MakeHeaderText(header);
    if res != "" {
      res := res + "\n";
    }
    res := res + message;
  }

  // ----- parsing -----

  predicate IsEmptyChar(c: char) {
    c == ' ' || c == '\t' || c == '\n' || c == '\r'
  }

  function SkipEmpty(s: string): string {
    if s != "" && IsEmptyChar(s[0]) then SkipEmpty(s[1..]) else s
  }

  /** `readLine`: the line without its `\n` or `\r\n`, and without a `\r` at the end of the data. */
  function Line(s: string): string {
    var line := s[..IndexOf(s, '\n')];
    if line != "" && line[|line| - 1] == '\r' then line[..|line| - 1] else line
  }

  /** What is left in the stream after `readLine`. */
  function AfterLine(s: string): (r: string)
    ensures s != "" ==> |r| < |s|
  {
    var k := IndexOf(s, '\n');
    if k == |s| then "" else s[k + 1..]
  }

  /** The second part of `split(":")`. */
  function SecondPart(line: string): string
    requires IndexOf(line, ':') < |line|
  {
    var rest := line[IndexOf(line, ':') + 1..];
    rest[..IndexOf(rest, ':')]
  }

  function HeaderOf(line: string): (string, string)
    requires IndexOf(line, ':') < |line|
  {
    (Trim(line[..IndexOf(line, ':')]), Trim(SecondPart(line)))
  }

  /** Result of parsing: the header, and the new message text if it changes. */
  datatype Parsed = Parsed(header: Header, message: string)

  /** Lines from `s` on; `text` is the message as it was given. */
  function ParseLines(s: string, res: Header, text: string): Parsed
    decreases |s|
  {
    if s == "" then Parsed(res, text)
    else if Line(s) == "" then Parsed(res, AfterLine(s))
    else if IndexOf(Line(s), ':') == |Line(s)| then Parsed([], text)
    else ParseLines(AfterLine(s), res + [HeaderOf(Line(s))], text)
  }

  function Parse(text: string): Parsed {
    ParseLines(SkipEmpty(text), [], text)
  }

  method ParseMessage(text: string) returns (header: Header, message: string)
    ensures Parsed(header, message) == Parse(text)
  {
    var stream := text;
    while stream != "" && IsEmptyChar(stream[0])
      invariant SkipEmpty(stream) == SkipEmpty(text)
      decreases |stream|
    {
      stream := stream[1..];
    }
    header, message := [], text;
    while stream != ""
      invariant message == text && Parse(text) == ParseLines(stream, header, text)
      decreases |stream|
    {
      var line := Line(stream);
      if line == "" {
        message := AfterLine(stream);
        break;
      }
      if IndexOf(line, ':') == |line| {
        return [], message;
      }
      header := header + [HeaderOf(line)];
      stream := AfterLine(stream);
    }
  }

  // ----- looking up a header -----

  /** None of the first `n` keys equals `key` up to case, as `fold` folds it. */
  ghost predicate NoneBefore(header: Header, n: nat, key: string, fold: string -> string)
    requires n <= |header|
  {
    forall i :: 0 <= i < n ==> fold(header[i].0) != fold(key)
  }

  method GetHeaderValue(header: Header, key: string, fold: string -> string) returns (value: string)
    ensures NoneBefore(header, |header|, key, fold) ==> value == ""
    ensures forall k: nat ::
              k < |header| && NoneBefore(header, k, key, fold) && fold(header[k].0) == fold(key) ==>
                value == header[k].1
  {
    var i := 0;
    while i < |header|
      invariant 0 <= i <= |header| && NoneBefore(header, i, key, fold)
    {
      if fold(header[i].0) == fold(key) {
        return header[i].1;
      }
      i := i + 1;
    }
    return "";
  }

  // ----- the round trip -----

  /** `arg` leaves the key alone. */
  predicate Inert(key: string) {
    Lowest(Tokens(key)) > 2
  }

  predicate OneLine(s: string) {
    Trimmed(s) && ':' !in s && '\n' !in s && '\r' !in s
  }

  predicate GoodEntry(e: (string, string)) {
    OneLine(e.0) && OneLine(e.1) && Inert(e.0)
  }

  lemma {:induction false} NoPercentInert(key: string)
    requires '%' !in key
    ensures Inert(key)
  {
    if key != "" {
      NoPercentInert(key[1..]);
    }
  }

  lemma {:induction false} LowestAppend(a: seq<Token>, b: seq<Token>)
    ensures Lowest(a + b) == if Lowest(a) < Lowest(b) then Lowest(a) else Lowest(b)
    decreases |a|
  {
    if a == [] {
      assert a + b == b;
    } else {
      assert (a + b)[1..] == a[1..] + b;
      LowestAppend(a[1..], b);
    }
  }

  lemma {:induction false} FillAppend(a: seq<Token>, b: seq<Token>, n: nat, value: string)
    ensures Fill(a + b, n, value) == Fill(a, n, value) + Fill(b, n, value)
    decreases |a|
  {
    if a == [] {
      assert a + b == b;
    } else {
      assert (a + b)[1..] == a[1..] + b;
      FillAppend(a[1..], b, n, value);
    }
  }

  /** A colon ends every place marker, so none reaches over the end of `key`. */
  lemma MarkerBeforeColon(key: string, rest: string)
    requires key != "" && rest != "" && rest[0] == ':'
    ensures MarkerAt(key + rest) == MarkerAt(key)
  {
  }

  /** The first token of `s` and how many characters it takes. */
  function FirstToken(s: string): (r: (Token, nat))
    requires s != ""
    ensures 1 <= r.1 <= |s|
  {
    var m := MarkerAt(s);
    if m.NoMarker? then (Plain(s[0]), 1) else (Mark(m.number, s[..m.size]), m.size)
  }

  lemma {:induction false} TokensUnfold(s: string, t: Token, tail: string)
    requires s != "" && t == FirstToken(s).0 && tail == s[FirstToken(s).1..]
    ensures Tokens(s) == [t] + Tokens(tail)
  {
  }

  lemma PartsOfJoin(a: string, b: string, k: nat)
    requires k <= |a|
    ensures (a + b)[..k] == a[..k] && (a + b)[k..] == a[k..] + b
  {
  }

  lemma FirstBeforeColon(key: string, rest: string)
    requires key != "" && rest != "" && rest[0] == ':'
    ensures FirstToken(key + rest) == FirstToken(key)
    ensures (key + rest)[FirstToken(key).1..] == key[FirstToken(key).1..] + rest
  {
    MarkerBeforeColon(key, rest);
    PartsOfJoin(key, rest, FirstToken(key).1);
    assert (key + rest)[0] == key[0];
  }

  lemma {:induction false} TokensSplit(key: string, rest: string)
    requires rest != "" && rest[0] == ':'
    ensures Tokens(key + rest) == Tokens(key) + Tokens(rest)
    decreases |key|
  {
    if key == "" {
      assert key + rest == rest;
    } else {
      var (t, k) := FirstToken(key);
      FirstBeforeColon(key, rest);
      TokensUnfold(key, t, key[k..]);
      TokensUnfold(key + rest, t, key[k..] + rest);
      TokensSplit(key[k..], rest);
      SeqAssoc([t], Tokens(key[k..]), Tokens(rest));
    }
  }

  lemma FillFirst(t: Token, ts: seq<Token>, n: nat, value: string)
    ensures Fill([t] + ts, n, value) == TokenText(t, n, value) + Fill(ts, n, value)
    ensures Lowest([t] + ts) == if t.Mark? && t.number < Lowest(ts) then t.number else Lowest(ts)
  {
    assert ([t] + ts)[1..] == ts;
  }

  lemma TextOfFirst(s: string, t: Token, k: nat, n: nat, value: string)
    requires s != "" && (t, k) == FirstToken(s) && (t.Mark? ==> t.number != n)
    ensures TokenText(t, n, value) == s[..k]
  {
  }

  lemma {:induction false} FillInert(key: string, n: nat, value: string)
    requires Lowest(Tokens(key)) > n
    ensures Fill(Tokens(key), n, value) == key
    decreases |key|
  {
    if key != "" {
      var (t, k) := FirstToken(key);
      var tail := key[k..];
      TokensUnfold(key, t, tail);
      FillFirst(t, Tokens(tail), n, value);
      FillInert(tail, n, value);
      TextOfFirst(key, t, k, n, value);
      assert key == key[..k] + tail;
    }
  }

  lemma TailTokens()
    ensures Tokens(": %2\n") == [Plain(':'), Plain(' '), Mark(2, "%2"), Plain('\n')]
  {
    assert MarkerAt("%2\n") == Marker(2, 2);
    TokensUnfold("\n", Plain('\n'), "");
    TokensUnfold("%2\n", Mark(2, "%2"), "\n");
    TokensUnfold(" %2\n", Plain(' '), "%2\n");
    TokensUnfold(": %2\n", Plain(':'), " %2\n");
  }

  lemma TemplateTokens()
    ensures Tokens("%1: %2\n") == [Mark(1, "%1")] + Tokens(": %2\n")
  {
    assert MarkerAt("%1: %2\n") == Marker(1, 2);
    TokensUnfold("%1: %2\n", Mark(1, "%1"), ": %2\n");
  }

  /** The part of the template behind the key, filled in. */
  lemma {:induction false} TailFilled(ts: seq<Token>, n: nat, value: string)
    requires ts == [Plain(':'), Plain(' '), Mark(2, "%2"), Plain('\n')]
    ensures Lowest(ts) == 2 && Fill(ts, n, value) == ": " + (if n == 2 then value else "%2") + "\n"
  {
    var t1, t2, t3, t4 := ts[1..], ts[2..], ts[3..], ts[4..];
    assert t1[1..] == t2 && t2[1..] == t3 && t3[1..] == t4 == [];
    assert t3 == [Plain('\n')] && t2[0] == Mark(2, "%2") && t1[0] == Plain(' ');
    assert Lowest(t4) == 100 && Lowest(t3) == 100;
    assert Lowest(t2[1..]) == 100 && Lowest(t2) == 2;
    assert Lowest(t1[1..]) == 2 && Lowest(t1) == 2;
    assert Fill(t3, n, value) == "\n";
    assert Fill(t2, n, value) == (if n == 2 then value else "%2") + "\n";
    assert Fill(t1, n, value) == " " + Fill(t2, n, value);
  }

  lemma FirstMarkFilled(template: string, mark: string, tail: seq<Token>, text: string, key: string)
    requires Tokens(template) == [Mark(1, mark)] + tail && Lowest(tail) == 2 && Fill(tail, 1, key) == text
    ensures Arg(template, key) == key + text
  {
    FillFirst(Mark(1, mark), tail, 1, key);
  }

  lemma TemplateFilled(key: string)
    ensures Arg("%1: %2\n", key) == key + ": %2\n"
  {
    var tail := Tokens(": %2\n");
    TemplateTokens();
    TailTokens();
    TailFilled(tail, 1, key);
    FirstMarkFilled("%1: %2\n", "%1", tail, ": %2\n", key);
  }

  /** What `arg` makes of the template once the key is in. */
  lemma SecondArg(key: string, value: string, filled: string) returns (n: nat)
    requires filled == key + ": %2\n"
    ensures n == (if Inert(key) then 2 else Lowest(Tokens(key)))
    ensures Arg(filled, value) == Fill(Tokens(key), n, value) + (": " + (if n == 2 then value else "%2") + "\n")
  {
    var a, b := Tokens(key), Tokens(": %2\n");
    TailTokens();
    TokensSplit(key, ": %2\n");
    n := if Lowest(a) > 2 then 2 else Lowest(a);
    TailFilled(b, n, value);
    LowestAppend(a, b);
    FillAppend(a, b, n, value);
  }

  function PlainLine(key: string, value: string): string {
    key + ": " + value + "\n"
  }

  lemma PlainLineParts(key: string, value: string, tail: string)
    requires tail == ": " + value + "\n"
    ensures key + tail == PlainLine(key, value)
  {
  }

  lemma HeaderLineIs(key: string, value: string)
    requires Inert(key)
    ensures HeaderLine(key, value) == PlainLine(key, value)
  {
    TemplateFilled(key);
    var n := SecondArg(key, value, Arg("%1: %2\n", key));
    FillInert(key, 2, value);
    PlainLineParts(key, value, ": " + value + "\n");
  }

  function PlainText(header: Header): string {
    if header == [] then "" else PlainLine(header[0].0, header[0].1) + PlainText(header[1..])
  }

  lemma {:induction false} HeaderTextIs(header: Header)
    requires forall k :: 0 <= k < |header| ==> Inert(header[k].0)
    ensures HeaderText(header) == PlainText(header)
  {
    if header != [] {
      HeaderLineIs(header[0].0, header[0].1);
      HeaderTextIs(header[1..]);
    }
  }

  lemma {:induction false} IndexIs(s: string, c: char, k: nat)
    requires k < |s| && s[k] == c && forall j :: 0 <= j < k ==> s[j] != c
    ensures IndexOf(s, c) == k
  {
  }

  lemma LineIs(line: string, more: string)
    requires '\n' !in line && (line != "" ==> line[|line| - 1] != '\r')
    ensures Line(line + "\n" + more) == line && AfterLine(line + "\n" + more) == more
  {
    var s := line + "\n" + more;
    assert s[..|line|] == line;
    IndexIs(s, '\n', |line|);
  }

  lemma TrimSpaced(value: string)
    requires Trimmed(value)
    ensures Trim(" " + value) == value
  {
    assert (" " + value)[1..] == value;
    assert TrimLeft(" " + value) == TrimLeft(value) == value;
  }

  lemma HeaderOfLine(key: string, value: string)
    requires OneLine(key) && OneLine(value)
    ensures var line := key + ": " + value;
            IndexOf(line, ':') == |key| && HeaderOf(line) == (key, value)
  {
    var line := key + ": " + value;
    assert line[..|key|] == key;
    IndexIs(line, ':', |key|);
    assert line[|key| + 1..] == " " + value;
    assert IndexOf(" " + value, ':') == |value| + 1;
    assert SecondPart(line) == " " + value;
    TrimSpaced(value);
    TrimmedStays(key);
  }

  lemma {:induction false} HeaderParsed(key: string, value: string, more: string, res: Header, text: string)
    requires OneLine(key) && OneLine(value)
    ensures ParseLines(PlainLine(key, value) + more, res, text) == ParseLines(more, res + [(key, value)], text)
  {
    var line := key + ": " + value;
    assert line[|line| - 1] == if value == "" then ' ' else value[|value| - 1];
    assert PlainLine(key, value) + more == line + "\n" + more;
    LineIs(line, more);
    HeaderOfLine(key, value);
  }

  /** The header lines in front of `rest`. */
  function PlainThen(header: Header, rest: string): string {
    if header == [] then rest else PlainLine(header[0].0, header[0].1) + PlainThen(header[1..], rest)
  }

  lemma {:induction false} PlainThenRest(header: Header, rest: string)
    ensures PlainThen(header, rest) == PlainText(header) + rest
    decreases |header|
  {
    if header != [] {
      PlainThenRest(header[1..], rest);
    }
  }

  /** `parse` is `ParseLines` for a message given as `text`. */
  ghost predicate ParsesLines(parse: (string, Header) -> Parsed, text: string) {
    forall s, res {:trigger ParseLines(s, res, text)} :: parse(s, res) == ParseLines(s, res, text)
  }

  lemma LineStep(parse: (string, Header) -> Parsed, h: (string, string), more: string, res: Header, text: string)
    requires ParsesLines(parse, text) && OneLine(h.0) && OneLine(h.1)
    ensures parse(PlainLine(h.0, h.1) + more, res) == parse(more, res + [h])
  {
    HeaderParsed(h.0, h.1, more, res, text);
  }

  lemma BlankLineStep(parse: (string, Header) -> Parsed, body: string, res: Header, text: string)
    requires ParsesLines(parse, text)
    ensures parse("\n" + body, res) == Parsed(res, body)
  {
    LineIs("", body);
    assert "" + "\n" + body == "\n" + body;
    assert ParseLines("\n" + body, res, text) == Parsed(res, body);
  }

  predicate OneLines(header: Header) {
    header == [] || (OneLine(header[0].0) && OneLine(header[0].1) && OneLines(header[1..]))
  }

  lemma {:induction false} HeadersParsed(parse: (string, Header) -> Parsed, header: Header, body: string,
                                         res: Header, text: string)
    requires ParsesLines(parse, text) && OneLines(header)
    ensures parse(PlainThen(header, "\n" + body), res) == Parsed(res + header, body)
    decreases |header|
  {
    if header == [] {
      BlankLineStep(parse, body, res, text);
      assert res + header == res;
    } else {
      var h := header[0];
      LineStep(parse, h, PlainThen(header[1..], "\n" + body), res, text);
      HeadersParsed(parse, header[1..], body, res + [h], text);
      SeqAssoc(res, [h], header[1..]);
      assert header == [h] + header[1..];
    }
  }

  lemma {:induction false} PlainMessageParses(header: Header, body: string, text: string)
    requires header != [] && OneLines(header) && text == PlainThen(header, "\n" + body)
    ensures Parse(text) == Parsed(header, body)
  {
    var key := header[0].0;
    assert text[0] == if key == "" then ':' else key[0];
    assert SkipEmpty(text) == text;
    HeadersParsed((s, res) => ParseLines(s, res, text), header, body, [], text);
  }

  lemma {:induction false} GoodOneLines(header: Header)
    requires forall k :: 0 <= k < |header| ==> GoodEntry(header[k])
    ensures OneLines(header)
  {
    if header != [] {
      GoodOneLines(header[1..]);
    }
  }

  lemma {:induction false} PrintedIsPlain(header: Header, body: string)
    requires header != [] && forall k :: 0 <= k < |header| ==> GoodEntry(header[k])
    ensures TextMessage(body, header) == PlainThen(header, "\n" + body)
  {
    HeaderTextIs(header);
    PlainThenRest(header, "\n" + body);
    assert PlainText(header) != "";
    SeqAssoc(PlainText(header), "\n", body);
  }

  /** Parsing a printed message gives back its header and its body. */
  lemma PrintedMessageParses(header: Header, body: string)
    requires header != [] && forall k :: 0 <= k < |header| ==> GoodEntry(header[k])
    ensures Parse(TextMessage(body, header)) == Parsed(header, body)
  {
    PrintedIsPlain(header, body);
    GoodOneLines(header);
    PlainMessageParses(header, body, TextMessage(body, header));
  }

  // ----- keys with place markers -----

  ghost predicate CharsFrom(a: string, b: string) {
    forall c :: c in a ==> c in b
  }

  lemma CharsJoined(a: string, b: string, c: string, d: string)
    requires CharsFrom(a, c) && CharsFrom(b, d)
    ensures CharsFrom(a + b, c + d)
  {
  }

  lemma FirstErased(s: string, t: Token, k: nat, n: nat)
    requires s != "" && (t, k) == FirstToken(s)
    ensures var left := TokenText(t, n, "");
            |left| <= k && (t.Mark? && t.number == n ==> left == "") && CharsFrom(left, s[..k])
  {
  }

  /** Filling a marker of `s` with nothing leaves fewer characters, all of them from `s`. */
  lemma {:induction false} ErasedIsShorter(s: string, n: nat)
    ensures var left, low := Fill(Tokens(s), n, ""), Lowest(Tokens(s));
            |left| <= |s| && (low == n < 100 ==> |left| < |s|) && CharsFrom(left, s)
    decreases |s|
  {
    if s != "" {
      var (t, k) := FirstToken(s);
      var tail := s[k..];
      TokensUnfold(s, t, tail);
      FillFirst(t, Tokens(tail), n, "");
      FirstErased(s, t, k, n);
      ErasedIsShorter(tail, n);
      CharsJoined(TokenText(t, n, ""), Fill(Tokens(tail), n, ""), s[..k], tail);
      assert s == s[..k] + tail;
    }
  }

  lemma ErasedParts(key: string, n: nat) returns (left: string, value: string)
    requires OneLine(key) && n == Lowest(Tokens(key)) <= 2
    ensures left == Fill(Tokens(key), n, "") && value == if n == 2 then "" else "%2"
    ensures |left| < |key| && ':' !in left && '\n' !in left && OneLine(value)
  {
    ErasedIsShorter(key, n);
    left := Fill(Tokens(key), n, "");
    value := if n == 2 then "" else "%2";
  }

  lemma ErasedLine(key: string) returns (left: string, value: string)
    requires OneLine(key) && !Inert(key)
    ensures HeaderLine(key, "") == PlainLine(left, value)
    ensures |left| < |key| && ':' !in left && '\n' !in left && OneLine(value)
  {
    TemplateFilled(key);
    var n := SecondArg(key, "", Arg("%1: %2\n", key));
    left, value := ErasedParts(key, n);
    PlainLineParts(left, value, ": " + value + "\n");
  }

  lemma {:induction false} SkipShortens(left: string, rest: string) returns (left': string)
    requires rest != "" && !IsEmptyChar(rest[0])
    ensures SkipEmpty(left + rest) == left' + rest && |left'| <= |left| && forall c :: c in left' ==> c in left
  {
    if left != "" && IsEmptyChar(left[0]) {
      assert (left + rest)[1..] == left[1..] + rest;
      left' := SkipShortens(left[1..], rest);
    } else {
      left' := left;
      if left == "" {
        assert left + rest == rest;
      }
    }
  }

  lemma {:induction false} TrimShortens(s: string)
    ensures |Trim(s)| <= |s|
  {
    LeftShortens(s);
    RightShortens(TrimLeft(s));
  }

  lemma {:induction false} LeftShortens(s: string)
    ensures |TrimLeft(s)| <= |s|
  {
    if s != "" && IsSpace(s[0]) {
      LeftShortens(s[1..]);
    }
  }

  lemma {:induction false} RightShortens(s: string)
    ensures |TrimRight(s)| <= |s|
  {
    if s != "" && IsSpace(s[|s| - 1]) {
      RightShortens(s[..|s| - 1]);
    }
  }

  /** Headers read so far stay in front. */
  lemma {:induction false} HeaderStays(s: string, res: Header, text: string)
    ensures ParseLines(s, res, text).header == [] || res <= ParseLines(s, res, text).header
    decreases |s|
  {
    if s != "" && Line(s) != "" && IndexOf(Line(s), ':') < |Line(s)| {
      HeaderStays(AfterLine(s), res + [HeaderOf(Line(s))], text);
    }
  }

  lemma ShortLine(left: string, value: string, more: string, s: string)
    requires ':' !in left && '\n' !in left && OneLine(value) && s == left + ": " + value + "\n" + more
    ensures var line := Line(s);
            && line != "" && AfterLine(s) == more && IndexOf(line, ':') == |left| < |line|
            && |HeaderOf(line).0| <= |left|
  {
    var line := left + ": " + value;
    assert line[|line| - 1] == if value == "" then ' ' else value[|value| - 1];
    LineIs(line, more);
    assert line[..|left|] == left;
    IndexIs(line, ':', |left|);
    TrimShortens(left);
  }

  lemma {:induction false} FirstHeaderStays(s: string, h: (string, string), text: string, key: string, body: string)
    requires |h.0| < |key|
    ensures ParseLines(s, [h], text) != Parsed([(key, "")], body)
  {
    HeaderStays(s, [h], text);
    var header := ParseLines(s, [h], text).header;
    assert header == [] || header[0] == h;
  }

  lemma {:induction false} ShortHeaderParsed(s: string, text: string, key: string, body: string)
    requires s != "" && Line(s) != "" && IndexOf(Line(s), ':') < |Line(s)| && |HeaderOf(Line(s)).0| < |key|
    ensures ParseLines(s, [], text) != Parsed([(key, "")], body)
  {
    var h := HeaderOf(Line(s));
    assert [] + [h] == [h];
    FirstHeaderStays(AfterLine(s), h, text, key, body);
  }

  lemma ShortKeyParsed(left: string, value: string, body: string, text: string, key: string)
    requires ':' !in left && '\n' !in left && OneLine(value) && |left| < |key|
    requires text == PlainLine(left, value) + ("\n" + body)
    ensures Parse(text) != Parsed([(key, "")], body)
  {
    var rest := ": " + value + "\n" + ("\n" + body);
    assert text == left + rest;
    var left' := SkipShortens(left, rest);
    var s := left' + ": " + value + "\n" + ("\n" + body);
    assert left' + rest == s;
    ShortLine(left', value, "\n" + body, s);
    ShortHeaderParsed(s, text, key, body);
  }

  /** What is printed for `key` and `value` reads back as `key` and `value`. */
  ghost predicate ReadsBack(key: string, value: string, body: string) {
    Parse(TextMessage(body, [(key, value)])) == Parsed([(key, value)], body)
  }

  lemma OneHeaderText(key: string, value: string, line: string, body: string)
    requires HeaderLine(key, value) == line && line != ""
    ensures TextMessage(body, [(key, value)]) == line + ("\n" + body)
  {
    assert HeaderText([(key, value)]) == line + HeaderText([]) == line;
    SeqAssoc(line, "\n", body);
  }

  lemma ErasedMessage(key: string, body: string) returns (left: string, value: string)
    requires OneLine(key) && !Inert(key)
    ensures TextMessage(body, [(key, "")]) == PlainLine(left, value) + ("\n" + body)
    ensures |left| < |key| && ':' !in left && '\n' !in left && OneLine(value)
  {
    left, value := ErasedLine(key);
    OneHeaderText(key, "", PlainLine(left, value), body);
  }

  lemma MarkedKeyLost(key: string, body: string)
    requires OneLine(key) && !Inert(key)
    ensures !ReadsBack(key, "", body)
  {
    var left, value := ErasedMessage(key, body);
    ShortKeyParsed(left, value, body, TextMessage(body, [(key, "")]), key);
  }

  /** Exactly the keys without the markers `%0` to `%2` survive printing and parsing with every value. */
  lemma ReadsBackIff(key: string)
    requires OneLine(key)
    ensures Inert(key) <==> forall value, body :: OneLine(value) ==> ReadsBack(key, value, body)
  {
    if Inert(key) {
      forall value, body | OneLine(value) ensures ReadsBack(key, value, body) {
        PrintedMessageParses([(key, value)], body);
      }
    } else {
      MarkedKeyLost(key, "");
      assert OneLine("");
    }
  }

  // ----- parsing on the lines of the text -----

  /** A line of a text and what ends it. */
  datatype RawLine = RawLine(text: string, ending: string)

  predicate IsLine(l: RawLine, last: bool) {
    && '\n' !in l.text && l.text + l.ending != ""
    && (l.ending == "\n" || l.ending == "\r\n" || (last && (l.ending == "" || l.ending == "\r")))
    && ((l.ending == "\n" || l.ending == "") && l.text != "" ==> l.text[|l.text| - 1] != '\r')
  }

  predicate AreLines(ls: seq<RawLine>) {
    ls == [] || (IsLine(ls[0], |ls| == 1) && AreLines(ls[1..]))
  }

  function Joined(ls: seq<RawLine>): string {
    if ls == [] then "" else ls[0].text + ls[0].ending + Joined(ls[1..])
  }

  lemma {:induction false} NoIndex(s: string, c: char)
    requires c !in s
    ensures IndexOf(s, c) == |s|
  {
  }

  lemma EndedLine(text: string, ending: string, more: string)
    requires IsLine(RawLine(text, ending), false)
    ensures Line(text + ending + more) == text && AfterLine(text + ending + more) == more
  {
    var s := text + ending + more;
    var raw := if ending == "\n" then text else text + "\r";
    assert s == raw + "\n" + more;
    assert s[..|raw|] == raw;
    IndexIs(s, '\n', |raw|);
  }

  lemma LastLine(text: string, ending: string)
    requires IsLine(RawLine(text, ending), true) && (ending == "" || ending == "\r")
    ensures Line(text + ending) == text && AfterLine(text + ending) == ""
  {
    var s := text + ending;
    NoIndex(s, '\n');
    assert s[..|s|] == s;
  }

  /** `readLine` takes the lines of a text one by one. */
  lemma FirstLineRead(ls: seq<RawLine>, s: string)
    requires ls != [] && AreLines(ls) && s == Joined(ls)
    ensures s != "" && Line(s) == ls[0].text && AfterLine(s) == Joined(ls[1..])
  {
    var text, ending := ls[0].text, ls[0].ending;
    if ending == "\n" || ending == "\r\n" {
      EndedLine(text, ending, Joined(ls[1..]));
    } else {
      assert ls[1..] == [];
      assert s == text + ending;
      LastLine(text, ending);
    }
  }

  lemma LineOf(raw: string, feed: string, last: bool) returns (l: RawLine)
    requires '\n' !in raw && raw + feed != "" && (feed == "\n" || (last && feed == ""))
    ensures l.text + l.ending == raw + feed && IsLine(l, last)
  {
    if raw != "" && raw[|raw| - 1] == '\r' {
      l := RawLine(raw[..|raw| - 1], "\r" + feed);
      assert raw == raw[..|raw| - 1] + "\r";
    } else {
      l := RawLine(raw, feed);
    }
  }

  lemma FirstLineSplit(s: string) returns (l: RawLine)
    requires s != ""
    ensures s == l.text + l.ending + AfterLine(s) && IsLine(l, AfterLine(s) == "")
  {
    var k := IndexOf(s, '\n');
    var feed := if k == |s| then "" else "\n";
    assert s == s[..k] + feed + AfterLine(s);
    l := LineOf(s[..k], feed, AfterLine(s) == "");
  }

  /** Every text is made of lines. */
  lemma {:induction false} SplitsIntoLines(s: string) returns (ls: seq<RawLine>)
    ensures AreLines(ls) && Joined(ls) == s
    decreases |s|
  {
    if s == "" {
      ls := [];
    } else {
      var l := FirstLineSplit(s);
      var rest := SplitsIntoLines(AfterLine(s));
      ls := [l] + rest;
      assert ls[1..] == rest;
    }
  }

  /** Line `k` is the first empty one, or there is none and `k` is the number of lines. */
  ghost predicate FirstEmpty(ls: seq<RawLine>, k: nat) {
    k <= |ls| && (k < |ls| ==> ls[k].text == "") && forall i :: 0 <= i < k ==> ls[i].text != ""
  }

  ghost predicate AllHaveColons(ls: seq<RawLine>, k: nat)
    requires k <= |ls|
  {
    forall i :: 0 <= i < k ==> ':' in ls[i].text
  }

  /** The headers on the first `k` lines. */
  ghost function Entries(ls: seq<RawLine>, k: nat): Header
    requires k <= |ls| && AllHaveColons(ls, k)
  {
    if k == 0 then [] else Entries(ls, k - 1) + [HeaderOf(ls[k - 1].text)]
  }

  lemma {:induction false} LineParsed(ls: seq<RawLine>, more: seq<RawLine>, res: Header, text: string)
    requires ls != [] && AreLines(ls) && more == ls[1..] && ls[0].text != "" && ':' in ls[0].text
    ensures ParseLines(Joined(ls), res, text) == ParseLines(Joined(more), res + [HeaderOf(ls[0].text)], text)
  {
    FirstLineRead(ls, Joined(ls));
  }

  /** What is read of the first `n` lines, none of them empty. */
  lemma {:induction false} LinesParsed(ls: seq<RawLine>, n: nat, text: string)
    requires AreLines(ls) && n <= |ls| && AllHaveColons(ls, n) && forall i :: 0 <= i < n ==> ls[i].text != ""
    ensures AreLines(ls[n..]) && ParseLines(Joined(ls), [], text) == ParseLines(Joined(ls[n..]), Entries(ls, n), text)
  {
    if n == 0 {
      assert ls[0..] == ls;
    } else {
      LinesParsed(ls, n - 1, text);
      assert ls[n - 1..][1..] == ls[n..];
      LineParsed(ls[n - 1..], ls[n..], Entries(ls, n - 1), text);
    }
  }

  lemma {:induction false} HeaderLinesParsed(ls: seq<RawLine>, k: nat, text: string)
    requires AreLines(ls) && FirstEmpty(ls, k) && AllHaveColons(ls, k)
    ensures ParseLines(Joined(ls), [], text)
         == Parsed(Entries(ls, k), if k < |ls| then Joined(ls[k + 1..]) else text)
  {
    LinesParsed(ls, k, text);
    if k < |ls| {
      assert ls[k..][1..] == ls[k + 1..];
      FirstLineRead(ls[k..], Joined(ls[k..]));
    }
  }

  lemma {:induction false} ColonMissing(ls: seq<RawLine>, i: nat, text: string)
    requires AreLines(ls) && i < |ls| && AllHaveColons(ls, i) && ':' !in ls[i].text
    requires forall j :: 0 <= j <= i ==> ls[j].text != ""
    ensures ParseLines(Joined(ls), [], text) == Parsed([], text)
  {
    LinesParsed(ls, i, text);
    FirstLineRead(ls[i..], Joined(ls[i..]));
    NoIndex(ls[i].text, ':');
  }

  lemma {:induction false} FirstWithoutColon(ls: seq<RawLine>, k: nat) returns (i: nat)
    requires k <= |ls| && !AllHaveColons(ls, k)
    ensures i < k && AllHaveColons(ls, i) && ':' !in ls[i].text
  {
    if k > 0 && !AllHaveColons(ls, k - 1) {
      i := FirstWithoutColon(ls, k - 1);
    } else {
      i := k - 1;
    }
  }

  lemma {:induction false} SkipsWhite(white: string, rest: string)
    requires (forall i :: 0 <= i < |white| ==> IsEmptyChar(white[i])) && (rest != "" ==> !IsEmptyChar(rest[0]))
    ensures SkipEmpty(white + rest) == rest
  {
    if white == "" {
      assert white + rest == rest;
    } else {
      assert (white + rest)[1..] == white[1..] + rest;
      SkipsWhite(white[1..], rest);
    }
  }

  /** `text` is white space and then the lines `ls`, from the first character that is not white. */
  ghost predicate WhiteThenLines(text: string, white: string, ls: seq<RawLine>) {
    && text == white + Joined(ls) && AreLines(ls)
    && (forall i :: 0 <= i < |white| ==> IsEmptyChar(white[i]))
    && (ls != [] ==> ls[0].text != "" && !IsEmptyChar(ls[0].text[0]))
  }

  lemma {:induction false} TextSplits(text: string) returns (white: string, ls: seq<RawLine>)
    ensures WhiteThenLines(text, white, ls)
  {
    if text != "" && IsEmptyChar(text[0]) {
      white, ls := TextSplits(text[1..]);
      white := text[..1] + white;
    } else {
      white := "";
      ls := SplitsIntoLines(text);
      assert ls != [] ==> text[0] == (ls[0].text + ls[0].ending)[0];
    }
  }

  /**
   * What parsing does with every text: each line before the first empty line is a header and the message is what
   * follows that line, or the whole text if there is none; but one such line without a colon voids everything.
   */
  lemma ParsedByLines(text: string, white: string, ls: seq<RawLine>, k: nat)
    requires WhiteThenLines(text, white, ls) && FirstEmpty(ls, k)
    ensures Parse(text) ==
            if AllHaveColons(ls, k) then Parsed(Entries(ls, k), if k < |ls| then Joined(ls[k + 1..]) else text)
            else Parsed([], text)
  {
    assert ls != [] ==> Joined(ls)[0] == ls[0].text[0];
    SkipsWhite(white, Joined(ls));
    if AllHaveColons(ls, k) {
      HeaderLinesParsed(ls, k, text);
    } else {
      var i := FirstWithoutColon(ls, k);
      ColonMissing(ls, i, text);
    }
  }

  /** The header is empty exactly when the text is all white or a line before the first empty line has no colon. */
  lemma NoHeaderIff(text: string, white: string, ls: seq<RawLine>, k: nat)
    requires WhiteThenLines(text, white, ls) && FirstEmpty(ls, k)
    ensures Parse(text).header == [] <==> ls == [] || exists i :: 0 <= i < k && ':' !in ls[i].text
  {
    ParsedByLines(text, white, ls, k);
    assert ls != [] ==> k > 0;
  }

  lemma {:induction false} FirstEmptyOf(ls: seq<RawLine>) returns (k: nat)
    ensures FirstEmpty(ls, k)
  {
    if ls == [] || ls[0].text == "" {
      k := 0;
    } else {
      k := FirstEmptyOf(ls[1..]);
      k := k + 1;
    }
  }

  /** A message without headers stays as it was given. */
  lemma NoHeaderKeepsText(text: string)
    requires Parse(text).header == []
    ensures Parse(text).message == text
  {
    var white, ls := TextSplits(text);
    var k := FirstEmptyOf(ls);
    ParsedByLines(text, white, ls, k);
    assert k == 0 ==> ls == [];
  }

  /** `getFullMessage` gives such a message back as it was. */
  lemma NoHeaderPrintsText(text: string)
    requires Parse(text).header == []
    ensures TextMessage(Parse(text).message, Parse(text).header) == text
  {
    NoHeaderKeepsText(text);
  }

  /** A header is what stands before the first colon and what stands behind it up to the next, both trimmed. */
  lemma HeaderOfParts(key: string, value: string, rest: string, line: string)
    requires ':' !in key && ':' !in value && (rest != "" ==> rest[0] == ':') && line == key + ":" + value + rest
    ensures IndexOf(line, ':') == |key| && HeaderOf(line) == (Trim(key), Trim(value))
  {
    assert line[..|key|] == key;
    IndexIs(line, ':', |key|);
    var tail := line[|key| + 1..];
    assert tail == value + rest;
    assert tail[..|value|] == value;
    if rest == "" {
      NoIndex(tail, ':');
    } else {
      IndexIs(tail, ':', |value|);
    }
  }

  // ----- what a place marker is -----

  /** The text of a place marker: `%`, maybe `L`, and one or two digits that stand for its number. */
  predicate MarkerText(t: Token) {
    t.Mark? && exists k :: 1 <= k <= 2 && MarkerWith(t, k)
  }

  predicate MarkerWith(t: Token, k: nat)
    requires t.Mark?
  {
    && 1 <= k < |t.text| <= k + 2 && t.text[0] == '%' && (k == 2 ==> t.text[1] == 'L')
    && AllDigits(t.text[k..]) && Value(t.text[k..]) == t.number
  }

  function Shown(t: Token): string {
    match t
    case Plain(c) => [c]
    case Mark(_, text) => text
  }

  function ShownAll(ts: seq<Token>): string {
    if ts == [] then "" else Shown(ts[0]) + ShownAll(ts[1..])
  }

  /** `%`, maybe `L`, and a digit: the start of some place marker. */
  predicate StartsMarker(s: string) {
    |s| > 1 && s[0] == '%' && (IsDigit(s[1]) || (|s| > 2 && s[1] == 'L' && IsDigit(s[2])))
  }

  /** A plain `%` starts no place marker, and a place marker takes all the digits it can. */
  predicate Separated(t: Token, rest: string) {
    match t
    case Plain(c) => !StartsMarker([c] + rest)
    case Mark(_, text) => |text| > 1 && (IsDigit(text[|text| - 2]) || rest == "" || !IsDigit(rest[0]))
  }

  predicate Lexed(ts: seq<Token>) {
    ts == [] || ((ts[0].Plain? || MarkerText(ts[0])) && Separated(ts[0], ShownAll(ts[1..])) && Lexed(ts[1..]))
  }

  lemma ValueOfTwo(s: string)
    requires |s| == 2 && AllDigits(s)
    ensures Value(s) == 10 * DigitValue(s[0]) + DigitValue(s[1])
  {
    ValueOfOne(s[..1]);
  }

  lemma ValueOfOne(s: string)
    requires |s| == 1 && AllDigits(s)
    ensures Value(s) == DigitValue(s[0])
  {
    assert s[..0] == "";
  }

  lemma MarkRead(t: Token, k: nat, rest: string)
    requires t.Mark? && 1 <= k <= 2 && MarkerWith(t, k) && Separated(t, rest)
    ensures MarkerAt(t.text + rest) == Marker(t.number, |t.text|)
  {
    var digits := t.text[k..];
    if |digits| == 1 {
      ValueOfOne(digits);
    } else {
      ValueOfTwo(digits);
    }
    var s := t.text + rest;
    assert forall j :: 0 <= j < |t.text| ==> s[j] == t.text[j];
    assert s[k] == digits[0];
  }

  lemma PlainRead(c: char, rest: string)
    requires !StartsMarker([c] + rest)
    ensures MarkerAt([c] + rest).NoMarker?
  {
  }

  /** The tokens found are the ones a text is made of. */
  lemma {:induction false} TokensOfShown(ts: seq<Token>)
    requires Lexed(ts)
    ensures Tokens(ShownAll(ts)) == ts
  {
    if ts != [] {
      var t, rest := ts[0], ShownAll(ts[1..]);
      var s := Shown(t) + rest;
      TokensOfShown(ts[1..]);
      if t.Plain? {
        PlainRead(t.c, rest);
      } else {
        var k :| 1 <= k <= 2 && MarkerWith(t, k);
        MarkRead(t, k, rest);
        assert s[..|t.text|] == t.text;
      }
      assert s[|Shown(t)|..] == rest;
      TokensUnfold(s, t, rest);
      assert ts == [t] + ts[1..];
    }
  }

  /** `n` is the lowest number of a place marker in `ts`. */
  ghost predicate IsLowest(ts: seq<Token>, n: nat) {
    && (exists i :: 0 <= i < |ts| && ts[i].Mark? && ts[i].number == n)
    && (forall i :: 0 <= i < |ts| && ts[i].Mark? ==> n <= ts[i].number)
  }

  lemma {:induction false} LowestIs(ts: seq<Token>, n: nat)
    requires IsLowest(ts, n) && n < 100
    ensures Lowest(ts) == n
  {
    LowestBounds(ts);
    var i :| 0 <= i < |ts| && ts[i].Mark? && ts[i].number == n;
  }

  lemma {:induction false} LowestBounds(ts: seq<Token>)
    ensures forall i :: 0 <= i < |ts| && ts[i].Mark? ==> Lowest(ts) <= ts[i].number
    ensures Lowest(ts) == 100 || exists i :: 0 <= i < |ts| && ts[i].Mark? && ts[i].number == Lowest(ts)
  {
    if ts != [] {
      var rest := ts[1..];
      LowestBounds(rest);
      assert forall i :: 0 < i < |ts| ==> ts[i] == rest[i - 1];
      if Lowest(ts) < 100 && Lowest(ts) == Lowest(rest) {
        var i :| 0 <= i < |rest| && rest[i].Mark? && rest[i].number == Lowest(rest);
        assert ts[i + 1].Mark? && ts[i + 1].number == Lowest(ts);
      }
    }
  }

  /** `arg` puts `value` for every place marker with the lowest number and leaves everything else. */
  lemma ArgFills(ts: seq<Token>, n: nat, value: string)
    requires Lexed(ts) && IsLowest(ts, n) && n < 100
    ensures Arg(ShownAll(ts), value) == Fill(ts, n, value)
  {
    TokensOfShown(ts);
    LowestIs(ts, n);
  }

  lemma ArgWithoutMarkers(ts: seq<Token>, value: string)
    requires Lexed(ts) && forall i :: 0 <= i < |ts| ==> ts[i].Plain?
    ensures Arg(ShownAll(ts), value) == ShownAll(ts)
  {
    TokensOfShown(ts);
    LowestBounds(ts);
  }
}
