/**
  Texts as minixml sees them: a flat list of markup, each piece followed by characters.  Besides
  start and end tags there are self-closing tags, comments, CDATA sections, processing
  instructions and stray `<`; tags need not match.
 */
module XmlTokens {
  import opened Basics
  import opened MiniXml
  import opened XmlDocuments

  /** `StartCdata` is a start tag, white space and a CDATA section; `Stray` is a `<` in front of `c`. */
  datatype Token =
    | Start(tag: Label)
    | StartCdata(tag: Label, white: string, cdata: string)
    | Empty(tag: Label)
    | End(tag: Label)
    | Comment(body: string)
    | Instruction
    | Stray(c: char)

  /** A token and the characters up to the next one. */
  datatype Item = Item(token: Token, text: string)

  function EmptyTag(l: Label): string {
    "<" + FullName(l) + PrintAtts(l.atts) + "/>"
  }

  function CdataText(white: string, cdata: string): string {
    white + ("<![CDATA[" + (cdata + "]]>"))
  }

  function TokenText(t: Token): string {
    match t
    case Start(l) => OpenTag(l)
    case StartCdata(l, white, cdata) => OpenTag(l) + CdataText(white, cdata)
    case Empty(l) => EmptyTag(l)
    case End(l) => CloseTag(l)
    case Comment(body) => "<!--" + (body + "-->")
    case Instruction => "<?"
    case Stray(c) => "<" + [c]
  }

  function PrintItems(items: seq<Item>): string {
    if items == [] then "" else TokenText(items[0].token) + (items[0].text + PrintItems(items[1..]))
  }

  /** What the items report; a start tag reports the text behind it only if an end tag follows. */
  function EventsOf(items: seq<Item>): seq<Event> {
    if items == [] then [] else ItemEvents(items[0], items[1..]) + EventsOf(items[1..])
  }

  function ItemEvents(item: Item, more: seq<Item>): seq<Event> {
    match item.token
    case Start(l) => OpenEvents(l) + DataEvents(item.text, more != [] && more[0].token.End?)
    case StartCdata(l, _, cdata) => OpenEvents(l) + DataEvents(cdata, more != [] || item.text != "")
    case t => MarkEvents(t)
  }

  /** What any other token reports. */
  function MarkEvents(t: Token): seq<Event> {
    match t
    case Empty(l) => OpenEvents(l)
    case End(l) => [EndElt(FullName(l))]
    case _ => []
  }

  function DataEvents(text: string, reported: bool): seq<Event> {
    if text != "" && reported then [Data(text)] else []
  }

  /** In `body + end`, `end` first occurs at the end. */
  predicate FirstEnds(body: string, end: string) {
    forall k :: 0 <= k < |body| ==> !Match(body + end, k, end)
  }

  predicate GoodToken(t: Token) {
    match t
    case Start(l) => GoodTag(l)
    case StartCdata(l, white, cdata) => GoodTag(l) && AllWhite(white) && FirstEnds(cdata, "]]>")
    case Empty(l) => GoodTag(l)
    case End(l) => GoodTag(l)
    case Comment(body) => FirstEnds(body, "-->")
    case Instruction => true
    case Stray(c) => IsWhite(c) || c == '>'
  }

  predicate GoodItems(items: seq<Item>) {
    items == [] || (GoodToken(items[0].token) && Lacks(items[0].text, '<') && GoodItems(items[1..]))
  }

  // ----- positions -----

  ghost predicate NoTag(x: string, p: nat, q: nat) {
    p <= q <= |x| && forall j :: p <= j < q ==> x[j] != '<'
  }

  lemma TextHasNoTag(x: string, p: nat, text: string, rest: string)
    requires Lacks(text, '<') && Holds(x, p, text + rest)
    ensures NoTag(x, p, p + |text|) && x[p..p + |text|] == text && Holds(x, p + |text|, rest)
  {
    HoldsParts(x, p, text, rest);
    LacksAt(text, '<');
    ReadsAt(x, p, text);
  }

  lemma {:induction false} AtTheEnd(x: string, rest: nat -> seq<Event>, p: nat)
    requires Continues(x, rest) && p + 1 >= |x|
    ensures rest(p) == []
  {
    assert ParseFrom(x, p) == [];
  }

  /** Characters without a `<` report nothing. */
  lemma TextPassed(x: string, rest: nat -> seq<Event>, p: nat, q: nat)
    requires Continues(x, rest) && NoTag(x, p, q)
    ensures rest(p) == rest(q)
  {
    if q < |x| {
      TextSkipped(x, rest, p, q);
    } else {
      EpilogSilent(x, rest, p);
      AtTheEnd(x, rest, q);
    }
  }

  lemma StoppedPass(x: string, rest: nat -> seq<Event>, i: nat, s: Step)
    requires Continues(x, rest) && i + 1 < |x| && Pass(x, i) == s && s.next.None?
    ensures rest(i) == s.events
  {
    assert ParseFrom(x, i) == s.events;
  }

  lemma {:induction false} ReadsMatch(x: string, p: nat, body: string, end: string, k: nat)
    requires Reads(x, p, body + end) && k <= |body|
    ensures Match(x, p + k, end) <==> Match(body + end, k, end)
  {
    ReadsAt(x, p, body + end);
    assert forall j :: 0 <= j < |end| ==> (At(x, p + k + j) == end[j] <==> At(body + end, k + j) == end[j]);
  }

  /** The end mark `end` behind `body` is where it is first found. */
  lemma EndMarkFound(x: string, p: nat, body: string, end: string)
    requires Reads(x, p, body + end) && FirstEnds(body, end)
    ensures Stops(x, p + |body|, AtText(end)) && forall j :: p <= j < p + |body| ==> !Stops(x, j, AtText(end))
  {
    assert Match(body + end, |body|, end);
    ReadsMatch(x, p, body, end, |body|);
    forall j | p <= j < p + |body| ensures !Match(x, j, end) {
      ReadsMatch(x, p, body, end, j - p);
    }
  }

  // ----- one token -----

  lemma CommentOpens(x: string, i: nat, body: string)
    requires Reads(x, i, "<!--" + (body + "-->"))
    ensures i + 7 + |body| <= |x| && x[i] == '<' && Match(x, i, "<!--") && Reads(x, i + 4, body + "-->")
  {
    ReadsParts(x, i, "<!--", body + "-->");
    ReadsAt(x, i, "<!--");
    ReadsAt(x, i + 4, body + "-->");
  }

  /** A comment reports nothing, wherever it stands. */
  lemma CommentPassed(x: string, rest: nat -> seq<Event>, i: nat, body: string)
    requires Continues(x, rest) && FirstEnds(body, "-->") && Reads(x, i, "<!--" + (body + "-->"))
    ensures rest(i) == rest(i + 7 + |body|)
  {
    var e := i + 4 + |body|;
    CommentOpens(x, i, body);
    EndMarkFound(x, i + 4, body, "-->");
    if e + 3 == |x| {
      if body != "" {
        ScanFails(x, i + 4, |x| - 3, AtText("-->"));
      }
      StoppedPass(x, rest, i, Step([], None));
      AtTheEnd(x, rest, e + 3);
    } else {
      ScanFinds(x, i + 4, e, |x| - 3, AtText("-->"));
      OnePass(x, rest, i, Step([], Some(e + 3)));
    }
  }

  lemma InstructionPassed(x: string, rest: nat -> seq<Event>, i: nat)
    requires Continues(x, rest) && Reads(x, i, "<?")
    ensures rest(i) == rest(i + 2)
  {
    ReadsAt(x, i, "<?");
    SilentStep(x, rest, i);
    TextPassed(x, rest, i + 1, i + 2);
  }

  lemma StrayPassed(x: string, rest: nat -> seq<Event>, i: nat, c: char)
    requires Continues(x, rest) && (IsWhite(c) || c == '>') && Reads(x, i, "<" + [c])
    ensures rest(i) == rest(i + 2)
  {
    ReadsAt(x, i, "<" + [c]);
    NotAComment(x, i);
    assert Pass(x, i) == Step([], Some(i + 1));
    OnePass(x, rest, i, Step([], Some(i + 1)));
    TextPassed(x, rest, i + 1, i + 2);
  }

  /** A name behind a `<`. */
  lemma NameStarts(x: string, i: nat, l: Label, tail: string)
    requires GoodTag(l) && Reads(x, i, "<" + (FullName(l) + tail))
    ensures i + 1 < |x| && x[i] == '<' && x[i + 1] != '!' && x[i + 1] != '?' && x[i + 1] != '/'
    ensures Reads(x, i + 1, FullName(l)) && Reads(x, i + 1 + |FullName(l)|, tail)
  {
    ReadsParts(x, i, "<", FullName(l) + tail);
    ReadsParts(x, i + 1, FullName(l), tail);
    ReadsAt(x, i, "<");
    assert x[i + 1] == FullName(l)[0];
  }

  lemma EmptyTagParts(l: Label)
    ensures EmptyTag(l) == "<" + (FullName(l) + (PrintAtts(l.atts) + "/>"))
  {
  }

  lemma EmptyTagReads(x: string, i: nat, l: Label, p: nat, q: nat)
    requires GoodTag(l) && Reads(x, i, EmptyTag(l))
    requires p == i + 1 + |FullName(l)| && q == p + |PrintAtts(l.atts)|
    ensures i + 1 < |x| && x[i] == '<' && x[i + 1] != '!' && x[i + 1] != '?'
    ensures Reads(x, i + 1, FullName(l)) && Reads(x, p, PrintAtts(l.atts) + "/>") && Reads(x, q, "/>")
  {
    EmptyTagParts(l);
    NameStarts(x, i, l, PrintAtts(l.atts) + "/>");
    ReadsParts(x, p, PrintAtts(l.atts), "/>");
  }

  lemma EmptyRest(x: string, p: nat, atts: seq<(string, string)>, q: nat)
    requires GoodAtts(atts) && Reads(x, p, PrintAtts(atts) + "/>") && q == p + |PrintAtts(atts)|
    ensures p < |x| && EndsName(x[p]) && RestOfStartTag(x, p) == Step(AttEvents(atts), Some(q))
  {
    AfterName(x, p, atts, "/>");
    AttsFound(x, p, atts, "/>");
  }

  lemma EmptyTagIs(x: string, i: nat, l: Label, p: nat, q: nat)
    requires GoodTag(l) && p == i + 1 + |FullName(l)| && q == p + |PrintAtts(l.atts)|
    requires Reads(x, i + 1, FullName(l)) && Reads(x, p, PrintAtts(l.atts) + "/>")
    ensures MiniXml.Tag(x, i) == Step(OpenEvents(l), Some(q))
  {
    EmptyRest(x, p, l.atts, q);
    TagNameFound(x, i + 1, l, p);
    TagUnfold(x, i, p - |l.name|, p);
  }

  lemma EmptyTagFound(x: string, i: nat, l: Label, p: nat, q: nat)
    requires GoodTag(l) && Reads(x, i, EmptyTag(l))
    requires p == i + 1 + |FullName(l)| && q == p + |PrintAtts(l.atts)|
    ensures i + 1 < |x| && Pass(x, i) == Step(OpenEvents(l), Some(q))
  {
    EmptyTagReads(x, i, l, p, q);
    NotAComment(x, i);
    EmptyTagIs(x, i, l, p, q);
  }

  lemma EmptyThen(x: string, rest: nat -> seq<Event>, i: nat, l: Label, p: nat, q: nat)
    requires Continues(x, rest) && GoodTag(l) && Reads(x, i, EmptyTag(l))
    requires p == i + 1 + |FullName(l)| && q == p + |PrintAtts(l.atts)|
    ensures rest(i) == OpenEvents(l) + rest(q)
  {
    EmptyTagFound(x, i, l, p, q);
    OnePass(x, rest, i, Step(OpenEvents(l), Some(q)));
  }

  lemma SlashPassed(x: string, rest: nat -> seq<Event>, q: nat)
    requires Continues(x, rest) && Reads(x, q, "/>")
    ensures rest(q) == rest(q + 2)
  {
    ReadsAt(x, q, "/>");
    TextPassed(x, rest, q, q + 2);
  }

  lemma EmptyTagLength(l: Label)
    ensures |EmptyTag(l)| == 1 + |FullName(l)| + |PrintAtts(l.atts)| + 2
  {
  }

  /** A self-closing tag reports its name and attributes, and no end. */
  lemma EmptyPassed(x: string, rest: nat -> seq<Event>, i: nat, l: Label)
    requires Continues(x, rest) && GoodTag(l) && Reads(x, i, EmptyTag(l))
    ensures rest(i) == OpenEvents(l) + rest(i + |EmptyTag(l)|)
  {
    var p := i + 1 + |FullName(l)|;
    var q := p + |PrintAtts(l.atts)|;
    EmptyTagLength(l);
    EmptyTagReads(x, i, l, p, q);
    EmptyThen(x, rest, i, l, p, q);
    SlashPassed(x, rest, q);
  }

  // ----- start tags and what follows them -----

  /** What a token looks like from its first two characters on. */
  ghost predicate TokenStarts(x: string, f: nat, end: bool) {
    f + 1 < |x| && x[f] == '<' && !Match(x, f, "<![CDATA[") && (x[f + 1] == '/' <==> end)
  }

  lemma NotCdata(x: string, f: nat, k: nat)
    requires k < 3 && f + k < |x| && x[f + k] != "<![CDATA["[k]
    ensures !Match(x, f, "<![CDATA[")
  {
    assert At(x, f + k) != "<![CDATA["[k];
  }

  lemma OpenTagStarts(x: string, f: nat, l: Label)
    requires GoodTag(l) && Reads(x, f, OpenTag(l))
    ensures TokenStarts(x, f, false)
  {
    FirstOfName(x, f, l);
    NotCdata(x, f, 1);
  }

  lemma EmptyTagStarts(x: string, f: nat, l: Label)
    requires GoodTag(l) && Reads(x, f, EmptyTag(l))
    ensures TokenStarts(x, f, false)
  {
    EmptyTagParts(l);
    NameStarts(x, f, l, PrintAtts(l.atts) + "/>");
    NotCdata(x, f, 1);
  }

  lemma CloseTagStarts(x: string, f: nat, l: Label)
    requires Reads(x, f, CloseTag(l))
    ensures TokenStarts(x, f, true)
  {
    CloseTagReads(x, f, l);
    NotCdata(x, f, 1);
  }

  lemma CommentStarts(x: string, f: nat, body: string)
    requires Reads(x, f, "<!--" + (body + "-->"))
    ensures TokenStarts(x, f, false)
  {
    ReadsParts(x, f, "<!--", body + "-->");
    ReadsAt(x, f, "<!--");
    NotCdata(x, f, 2);
  }

  lemma PairStarts(x: string, f: nat, c: char)
    requires c != '!' && c != '/' && Reads(x, f, "<" + [c])
    ensures TokenStarts(x, f, false)
  {
    ReadsAt(x, f, "<" + [c]);
    NotCdata(x, f, 1);
  }

  lemma TokenFound(x: string, f: nat, t: Token)
    requires GoodToken(t) && Reads(x, f, TokenText(t))
    ensures TokenStarts(x, f, t.End?)
  {
    match t
    case Start(l) => OpenTagStarts(x, f, l);
    case StartCdata(l, white, cdata) =>
      ReadsParts(x, f, OpenTag(l), CdataText(white, cdata));
      OpenTagStarts(x, f, l);
    case Empty(l) => EmptyTagStarts(x, f, l);
    case End(l) => CloseTagStarts(x, f, l);
    case Comment(body) => CommentStarts(x, f, body);
    case Instruction => PairStarts(x, f, '?');
    case Stray(c) => PairStarts(x, f, c);
  }

  lemma {:induction false} NotWhiteFrom(x: string, d: nat, f: nat) returns (w: nat)
    requires d <= f < |x| && !IsWhite(x[f])
    ensures d <= w <= f && Scan(x, d, |x|, NotWhite) == Some(w)
    decreases f - d
  {
    if IsWhite(x[d]) {
      w := NotWhiteFrom(x, d + 1, f);
    } else {
      w := d;
    }
  }

  lemma PlainUpTo(x: string, m: nat, w: nat, f: nat, end: bool)
    requires m <= w <= f && NoTag(x, w, f) && TokenStarts(x, f, end)
    ensures !Match(x, w, "<![CDATA[") && PlainData(x, m, w) == Step(DataEvents(x[m..f], end), Some(f))
  {
    if w < f {
      NotCdata(x, w, 0);
    }
    ScanFinds(x, w, f, |x| - 1, AtChar('<'));
  }

  lemma {:induction false} NoDataFrom(x: string, d: nat, p: nat)
    requires d <= p && NoTag(x, d, |x|)
    ensures !Match(x, p, "<![CDATA[") && PlainData(x, d, p) == Step([], None)
  {
    assert At(x, p + 0) != "<![CDATA["[0];
    if p < |x| - 1 {
      ScanFails(x, p, |x| - 1, AtChar('<'));
    }
  }

  /** `data` gives what follows a start tag that ends at each position. */
  ghost predicate GivesData(x: string, data: nat -> Step) {
    forall q: nat {:trigger ElementData(x, q)} :: data(q) == ElementData(x, q)
  }

  /** Data up to the next token. */
  lemma DataUpTo(x: string, data: nat -> Step, q: nat, f: nat, end: bool)
    requires GivesData(x, data) && q < f && NoTag(x, q + 1, f) && TokenStarts(x, f, end)
    ensures data(q) == Step(DataEvents(x[q + 1..f], end), Some(f))
  {
    var w := NotWhiteFrom(x, q + 1, f);
    PlainUpTo(x, q + 1, w, f, end);
    assert ElementData(x, q) == PlainData(x, q + 1, w);
  }

  /** No data in front of the end of the text. */
  lemma NoDataAtEnd(x: string, data: nat -> Step, q: nat)
    requires GivesData(x, data) && NoTag(x, q + 1, |x|)
    ensures data(q) == Step([], None)
  {
    var p := Scan(x, q + 1, |x|, NotWhite);
    if q + 1 < |x| && p.Some? {
      NoDataFrom(x, q + 1, p.value);
    }
    assert ElementData(x, q) == Step([], None);
  }

  /** What is reported from where a pass ended. */
  function AfterStep(rest: nat -> seq<Event>, s: Step): seq<Event> {
    if s.next.None? then [] else rest(s.next.value)
  }

  lemma PassGiven(x: string, rest: nat -> seq<Event>, i: nat, before: seq<Event>, data: Step)
    requires Continues(x, rest) && i + 1 < |x| && Pass(x, i) == Prepend(before, data)
    ensures rest(i) == before + data.events + AfterStep(rest, data)
  {
    var s := Prepend(before, data);
    if s.next.None? {
      StoppedPass(x, rest, i, s);
    } else {
      OnePass(x, rest, i, s);
    }
  }

  lemma StartPassed(x: string, rest: nat -> seq<Event>, data: nat -> Step, i: nat, l: Label, q: nat)
    requires Continues(x, rest) && GivesData(x, data)
    requires GoodTag(l) && Reads(x, i, OpenTag(l)) && q + 1 == i + |OpenTag(l)|
    ensures rest(i) == OpenEvents(l) + data(q).events + AfterStep(rest, data(q))
  {
    OpenFound(x, i, l, q);
    PassGiven(x, rest, i, OpenEvents(l), ElementData(x, q));
  }

  // ----- CDATA sections -----

  lemma CdataOpens(x: string, w: nat)
    requires Reads(x, w, "<![CDATA[")
    ensures w < |x| && x[w] == '<' && Match(x, w, "<![CDATA[")
  {
    ReadsAt(x, w, "<![CDATA[");
  }

  lemma CdataEnds(x: string, b: nat, cdata: string, e: nat)
    requires Reads(x, b, cdata + "]]>") && e == b + |cdata|
    ensures e + 3 <= |x| && x[b..e] == cdata && NoTag(x, e, e + 3)
  {
    ReadsParts(x, b, cdata, "]]>");
    ReadsAt(x, b, cdata);
    ReadsAt(x, e, "]]>");
  }

  /** From the section's end on, the next `<` is looked for. */
  lemma NextTag(x: string, e: nat, f: nat)
    requires e < f && NoTag(x, e, f) && (f < |x| ==> x[f] == '<')
    ensures Scan(x, e, |x|, AtChar('<')) == if f < |x| then Some(f) else None
  {
    if f < |x| {
      ScanFinds(x, e, f, |x|, AtChar('<'));
    } else {
      ScanFails(x, e, |x|, AtChar('<'));
    }
  }

  /** Where the section is seen to end: nowhere if the text ends with it, unless it is empty. */
  lemma CdataScan(x: string, b: nat, cdata: string, e: nat)
    requires Reads(x, b, cdata + "]]>") && e == b + |cdata| && e + 3 <= |x| && FirstEnds(cdata, "]]>")
    ensures Scan(x, b, |x| - 3, AtText("]]>")) == if e + 3 < |x| || cdata == "" then Some(e) else None
  {
    EndMarkFound(x, b, cdata, "]]>");
    if e + 3 < |x| || cdata == "" {
      ScanFinds(x, b, e, |x| - 3, AtText("]]>"));
    } else {
      ScanFails(x, b, |x| - 3, AtText("]]>"));
    }
  }

  /** A CDATA section is data exactly when something follows it. */
  lemma CdataFound(x: string, w: nat, cdata: string, e: nat, f: nat)
    requires Reads(x, w + 9, cdata + "]]>") && e == w + 9 + |cdata| && FirstEnds(cdata, "]]>")
    requires e + 3 <= f && NoTag(x, e + 3, f) && (f < |x| ==> x[f] == '<')
    ensures var r := CharacterData(x, w);
            r.events == DataEvents(cdata, e + 3 < |x|) && (r.next == if f < |x| then Some(f) else None)
  {
    CdataEnds(x, w + 9, cdata, e);
    CdataScan(x, w + 9, cdata, e);
    NextTag(x, e, f);
  }

  lemma WhiteScan(x: string, d: nat, white: string, w: nat)
    requires AllWhite(white) && Reads(x, d, white) && w == d + |white| < |x| && !IsWhite(x[w])
    ensures Scan(x, d, |x|, NotWhite) == Some(w)
  {
    AllWhiteAt(white);
    ReadsAt(x, d, white);
    ScanFinds(x, d, w, |x|, NotWhite);
  }

  lemma ElementIsCdata(x: string, q: nat, w: nat)
    requires q + 1 < |x| && Scan(x, q + 1, |x|, NotWhite) == Some(w) && Match(x, w, "<![CDATA[")
    ensures ElementData(x, q) == CharacterData(x, w)
  {
  }

  lemma WhiteThenCdata(x: string, q: nat, white: string, w: nat)
    requires AllWhite(white) && Reads(x, q + 1, white) && w == q + 1 + |white| && Reads(x, w, "<![CDATA[")
    ensures ElementData(x, q) == CharacterData(x, w)
  {
    CdataOpens(x, w);
    WhiteScan(x, q + 1, white, w);
    ElementIsCdata(x, q, w);
  }

  lemma CdataGiven(x: string, data: nat -> Step, q: nat, white: string, w: nat, events: seq<Event>, next: Option<nat>)
    requires GivesData(x, data) && AllWhite(white) && Reads(x, q + 1, white) && w == q + 1 + |white|
    requires Reads(x, w, "<![CDATA[") && CharacterData(x, w) == Step(events, next)
    ensures data(q) == Step(events, next)
  {
    WhiteThenCdata(x, q, white, w);
    assert data(q) == ElementData(x, q);
  }

  /** The parts of a start tag with a CDATA section. */
  lemma CdataParts(x: string, i: nat, l: Label, white: string, cdata: string, m: nat, w: nat)
    requires Reads(x, i, OpenTag(l) + CdataText(white, cdata)) && m == i + |OpenTag(l)| && w == m + |white|
    ensures Reads(x, i, OpenTag(l)) && Reads(x, m, white) && Reads(x, w, "<![CDATA[") && Reads(x, w + 9, cdata + "]]>")
  {
    ReadsParts(x, i, OpenTag(l), CdataText(white, cdata));
    ReadsParts(x, m, white, "<![CDATA[" + (cdata + "]]>"));
    ReadsParts(x, w, "<![CDATA[", cdata + "]]>");
  }

  lemma CdataData(x: string, data: nat -> Step, q: nat, white: string, cdata: string, w: nat, e: nat, f: nat)
    requires GivesData(x, data) && AllWhite(white) && Reads(x, q + 1, white) && w == q + 1 + |white|
    requires Reads(x, w, "<![CDATA[") && Reads(x, w + 9, cdata + "]]>") && FirstEnds(cdata, "]]>")
    requires e == w + 9 + |cdata| && e + 3 <= f && NoTag(x, e + 3, f) && (f < |x| ==> x[f] == '<')
    ensures data(q) == Step(DataEvents(cdata, e + 3 < |x|), if f < |x| then Some(f) else None)
  {
    CdataFound(x, w, cdata, e, f);
    CdataGiven(x, data, q, white, w, DataEvents(cdata, e + 3 < |x|), if f < |x| then Some(f) else None);
  }

  // ----- whole texts -----

  /** Where the item at `p` stands: its text from `m` to `f`, and the next token, if any, at `f`. */
  ghost predicate ItemAt(x: string, p: nat, item: Item, more: seq<Item>, m: nat, f: nat) {
    && Reads(x, p, TokenText(item.token)) && m == p + |TokenText(item.token)| && f == m + |item.text|
    && NoTag(x, m, f) && x[m..f] == item.text
    && if more == [] then f == |x| else TokenStarts(x, f, more[0].token.End?)
  }

  lemma NextTokenStarts(x: string, f: nat, more: seq<Item>)
    requires GoodItems(more) && Holds(x, f, PrintItems(more))
    ensures if more == [] then f == |x| else TokenStarts(x, f, more[0].token.End?)
  {
    if more != [] {
      HoldsParts(x, f, TokenText(more[0].token), more[0].text + PrintItems(more[1..]));
      TokenFound(x, f, more[0].token);
    }
  }

  lemma ItemParts(x: string, p: nat, token: string, text: string, tail: string, rest: string, m: nat, f: nat)
    requires Lacks(text, '<') && Holds(x, p, token + tail) && tail == text + rest && m == p + |token| && f == m + |text|
    ensures Reads(x, p, token) && NoTag(x, m, f) && x[m..f] == text && Holds(x, f, rest)
  {
    HoldsParts(x, p, token, tail);
    TextHasNoTag(x, m, text, rest);
  }

  lemma ItemStands(x: string, p: nat, items: seq<Item>, m: nat, f: nat)
    requires items != [] && GoodItems(items) && Holds(x, p, PrintItems(items))
    requires m == p + |TokenText(items[0].token)| && f == m + |items[0].text|
    ensures ItemAt(x, p, items[0], items[1..], m, f) && Holds(x, f, PrintItems(items[1..]))
  {
    var text, rest := items[0].text, PrintItems(items[1..]);
    ItemParts(x, p, TokenText(items[0].token), text, text + rest, rest, m, f);
    NextTokenStarts(x, f, items[1..]);
  }

  lemma StartThenToken(x: string, rest: nat -> seq<Event>, data: nat -> Step, p: nat, l: Label, q: nat, f: nat,
                       end: bool)
    requires Continues(x, rest) && GivesData(x, data) && GoodTag(l) && Reads(x, p, OpenTag(l))
    requires q + 1 == p + |OpenTag(l)| && q < f && NoTag(x, q + 1, f) && TokenStarts(x, f, end)
    ensures rest(p) == OpenEvents(l) + DataEvents(x[q + 1..f], end) + rest(f)
  {
    StartPassed(x, rest, data, p, l, q);
    DataUpTo(x, data, q, f, end);
  }

  lemma StartAtEnd(x: string, rest: nat -> seq<Event>, data: nat -> Step, p: nat, l: Label, q: nat)
    requires Continues(x, rest) && GivesData(x, data) && GoodTag(l) && Reads(x, p, OpenTag(l))
    requires q + 1 == p + |OpenTag(l)| && NoTag(x, q + 1, |x|)
    ensures rest(p) == OpenEvents(l)
  {
    StartPassed(x, rest, data, p, l, q);
    NoDataAtEnd(x, data, q);
  }

  lemma StartItem(x: string, rest: nat -> seq<Event>, data: nat -> Step, p: nat, item: Item, more: seq<Item>,
                  m: nat, f: nat)
    requires Continues(x, rest) && GivesData(x, data)
    requires GoodToken(item.token) && item.token.Start? && ItemAt(x, p, item, more, m, f)
    ensures rest(p) == ItemEvents(item, more) + rest(f)
  {
    if more == [] {
      StartAtEnd(x, rest, data, p, item.token.tag, m - 1);
      AtTheEnd(x, rest, f);
    } else {
      StartThenToken(x, rest, data, p, item.token.tag, m - 1, f, more[0].token.End?);
    }
  }

  lemma CdataPassed(x: string, rest: nat -> seq<Event>, data: nat -> Step, p: nat, l: Label, white: string,
                    cdata: string, q: nat, w: nat, e: nat, f: nat)
    requires Continues(x, rest) && GivesData(x, data) && GoodToken(StartCdata(l, white, cdata))
    requires Reads(x, p, OpenTag(l) + CdataText(white, cdata)) && q + 1 == p + |OpenTag(l)| && w == q + 1 + |white|
    requires e == w + 9 + |cdata| && e + 3 <= f && NoTag(x, e + 3, f) && (f < |x| ==> x[f] == '<')
    ensures rest(p) == OpenEvents(l) + DataEvents(cdata, e + 3 < |x|) + if f < |x| then rest(f) else []
  {
    CdataParts(x, p, l, white, cdata, q + 1, w);
    StartPassed(x, rest, data, p, l, q);
    CdataData(x, data, q, white, cdata, w, e, f);
  }

  lemma CdataLength(l: Label, white: string, cdata: string)
    ensures |TokenText(StartCdata(l, white, cdata))| == |OpenTag(l)| + |white| + 9 + |cdata| + 3
  {
  }

  lemma CdataItem(x: string, rest: nat -> seq<Event>, data: nat -> Step, p: nat, item: Item, more: seq<Item>,
                  m: nat, f: nat)
    requires Continues(x, rest) && GivesData(x, data)
    requires GoodToken(item.token) && item.token.StartCdata? && ItemAt(x, p, item, more, m, f)
    ensures rest(p) == ItemEvents(item, more) + rest(f)
  {
    var StartCdata(l, white, cdata) := item.token;
    var q := p + |OpenTag(l)| - 1;
    CdataLength(l, white, cdata);
    CdataPassed(x, rest, data, p, l, white, cdata, q, q + 1 + |white|, m - 3, f);
    assert m < |x| <==> more != [] || item.text != "";
    if f == |x| {
      AtTheEnd(x, rest, f);
    }
  }

  lemma SilentToken(x: string, rest: nat -> seq<Event>, p: nat, t: Token)
    requires Continues(x, rest) && GoodToken(t) && (t.Comment? || t.Instruction? || t.Stray?)
    requires Reads(x, p, TokenText(t))
    ensures rest(p) == rest(p + |TokenText(t)|)
  {
    match t
    case Comment(body) => CommentPassed(x, rest, p, body);
    case Instruction => InstructionPassed(x, rest, p);
    case Stray(c) => StrayPassed(x, rest, p, c);
  }

  lemma MarkPassed(x: string, rest: nat -> seq<Event>, p: nat, t: Token)
    requires Continues(x, rest) && GoodToken(t) && !t.Start? && !t.StartCdata? && Reads(x, p, TokenText(t))
    ensures rest(p) == MarkEvents(t) + rest(p + |TokenText(t)|)
  {
    if t.Empty? {
      EmptyPassed(x, rest, p, t.tag);
    } else if t.End? {
      Close(x, rest, p, t.tag);
    } else {
      SilentToken(x, rest, p, t);
    }
  }

  lemma ItemPassed(x: string, rest: nat -> seq<Event>, data: nat -> Step, p: nat, item: Item, more: seq<Item>,
                   m: nat, f: nat)
    requires Continues(x, rest) && GivesData(x, data) && GoodToken(item.token) && ItemAt(x, p, item, more, m, f)
    ensures rest(p) == ItemEvents(item, more) + rest(f)
  {
    if item.token.Start? {
      StartItem(x, rest, data, p, item, more, m, f);
    } else if item.token.StartCdata? {
      CdataItem(x, rest, data, p, item, more, m, f);
    } else {
      MarkPassed(x, rest, p, item.token);
      TextPassed(x, rest, m, f);
    }
  }

  lemma {:induction false} ItemsPassed(x: string, rest: nat -> seq<Event>, data: nat -> Step, p: nat, items: seq<Item>)
    requires Continues(x, rest) && GivesData(x, data) && GoodItems(items) && Holds(x, p, PrintItems(items))
    ensures rest(p) == EventsOf(items)
    decreases |items|
  {
    if items == [] {
      AtTheEnd(x, rest, p);
    } else {
      var m := p + |TokenText(items[0].token)|;
      var f := m + |items[0].text|;
      ItemStands(x, p, items, m, f);
      ItemPassed(x, rest, data, p, items[0], items[1..], m, f);
      ItemsPassed(x, rest, data, f, items[1..]);
    }
  }

  /** Every text made of tags, comments, CDATA sections and instructions reports exactly its events, in order. */
  lemma TextParses(lead: string, items: seq<Item>)
    requires Lacks(lead, '<') && GoodItems(items)
    ensures Parse(lead + PrintItems(items)) == EventsOf(items)
  {
    var x := lead + PrintItems(items);
    var rest := (i: nat) => ParseFrom(x, i);
    assert x[0..] == x;
    TextHasNoTag(x, 0, lead, PrintItems(items));
    TextPassed(x, rest, 0, |lead|);
    ItemsPassed(x, rest, (q: nat) => ElementData(x, q), |lead|, items);
  }
}
