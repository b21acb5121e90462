/**
  Documents as they are printed in SOAP messages, and what minixml makes of them: for every
  document tree the parser reports its tags, attributes and leaf texts in document order.
 */
module XmlDocuments {
  import opened Basics
  import opened MiniXml

  /** What stands in a start tag. */
  datatype Label = Label(prefix: string, name: string, atts: seq<(string, string)>)

  /** `pad` is text in front of the element, `tail` text in front of the end tag. */
  datatype Doc =
    | Leaf(pad: string, tag: Label, text: string)
    | Node(pad: string, tag: Label, children: seq<Doc>, tail: string)

  function FullName(l: Label): string {
    if l.prefix == "" then l.name else l.prefix + ":" + l.name
  }

  function PrintAtt(a: (string, string)): string {
    a.0 + "=\"" + a.1 + "\""
  }

  function PrintAtts(atts: seq<(string, string)>): string {
    if atts == [] then "" else " " + PrintAtt(atts[0]) + PrintAtts(atts[1..])
  }

  function OpenTag(l: Label): string {
    "<" + FullName(l) + PrintAtts(l.atts) + ">"
  }

  function CloseTag(l: Label): string {
    "</" + FullName(l) + ">"
  }

  function Print(d: Doc): string
    decreases d, 2
  {
    d.pad + OpenTag(d.tag) + Inner(d) + CloseTag(d.tag)
  }

  function Inner(d: Doc): string
    decreases d, 1
  {
    match d
    case Leaf(_, _, text) => text
    case Node(_, _, children, tail) => PrintAll(children) + tail
  }

  function PrintAll(ds: seq<Doc>): string
    decreases ds, 0
  {
    if ds == [] then "" else Print(ds[0]) + PrintAll(ds[1..])
  }

  function AttEvents(atts: seq<(string, string)>): seq<Event> {
    if atts == [] then [] else [Att(atts[0].0, atts[0].1)] + AttEvents(atts[1..])
  }

  function OpenEvents(l: Label): seq<Event> {
    [StartElt(l.name)] + AttEvents(l.atts)
  }

  function Events(d: Doc): seq<Event>
    decreases d, 1
  {
    match d
    case Leaf(_, l, text) => OpenEvents(l) + (if text == "" then [] else [Data(text)]) + [EndElt(FullName(l))]
    case Node(_, l, children, _) => OpenEvents(l) + EventsAll(children) + [EndElt(FullName(l))]
  }

  function EventsAll(ds: seq<Doc>): seq<Event>
    decreases ds, 0
  {
    if ds == [] then [] else Events(ds[0]) + EventsAll(ds[1..])
  }

  // ----- documents that can be printed -----

  predicate NameChar(c: char) {
    !IsWhite(c) && c != '>' && c != '/' && c != ':'
  }

  predicate NameChars(s: string) {
    s == "" || (NameChar(s[0]) && NameChars(s[1..]))
  }

  predicate GoodName(s: string) {
    s != "" && s[0] != '!' && s[0] != '?' && NameChars(s)
  }

  predicate GoodAtt(a: (string, string)) {
    a.0 != "" && a.0[0] != '/' && a.0[0] != '>' && AttNameChars(a.0) && Lacks(a.1, '\"')
  }

  predicate AttNameChars(s: string) {
    s == "" || (s[0] != '=' && !IsWhite(s[0]) && AttNameChars(s[1..]))
  }

  predicate Lacks(s: string, c: char) {
    s == "" || (s[0] != c && Lacks(s[1..], c))
  }

  predicate AllWhite(s: string) {
    s == "" || ((s[0] == ' ' || s[0] == '\t' || s[0] == '\r' || s[0] == '\n') && AllWhite(s[1..]))
  }

  predicate GoodAtts(atts: seq<(string, string)>) {
    atts == [] || (GoodAtt(atts[0]) && GoodAtts(atts[1..]))
  }

  predicate GoodTag(l: Label) {
    GoodName(l.name) && (l.prefix == "" || GoodName(l.prefix)) && GoodAtts(l.atts)
  }

  lemma {:induction false} NameCharsAt(s: string)
    requires NameChars(s)
    ensures forall k :: 0 <= k < |s| ==> NameChar(s[k])
  {
    if s != "" {
      NameCharsAt(s[1..]);
      assert s == [s[0]] + s[1..];
    }
  }

  lemma {:induction false} AttNameCharsAt(s: string)
    requires AttNameChars(s)
    ensures forall k :: 0 <= k < |s| ==> s[k] != '=' && !IsWhite(s[k])
  {
    if s != "" {
      AttNameCharsAt(s[1..]);
      assert s == [s[0]] + s[1..];
    }
  }

  lemma {:induction false} AllWhiteAt(s: string)
    requires AllWhite(s)
    ensures forall k :: 0 <= k < |s| ==> IsWhite(s[k])
  {
    if s != "" {
      AllWhiteAt(s[1..]);
      assert forall k :: 0 < k < |s| ==> s[k] == s[1..][k - 1];
    }
  }

  lemma {:induction false} LacksAt(s: string, c: char)
    requires Lacks(s, c)
    ensures forall k :: 0 <= k < |s| ==> s[k] != c
  {
    if s != "" {
      LacksAt(s[1..], c);
      assert s == [s[0]] + s[1..];
    }
  }

  predicate GoodDoc(d: Doc)
    decreases d, 1
  {
    && Lacks(d.pad, '<') && GoodTag(d.tag)
    && match d
       case Leaf(_, _, text) => Lacks(text, '<')
       case Node(_, _, children, tail) => children != [] && GoodDocs(children) && Lacks(tail, '<')
  }

  predicate GoodDocs(ds: seq<Doc>)
    decreases ds, 0
  {
    ds == [] || (GoodDoc(ds[0]) && GoodDocs(ds[1..]))
  }

  // ----- reading at a position -----

  ghost predicate Reads(x: string, p: nat, t: string)
    decreases t
  {
    if t == "" then p <= |x| else p < |x| && x[p] == t[0] && Reads(x, p + 1, t[1..])
  }

  lemma {:induction false} ReadsParts(x: string, p: nat, a: string, b: string)
    requires Reads(x, p, a + b)
    ensures Reads(x, p, a) && Reads(x, p + |a|, b)
    decreases |a|
  {
    if a == "" {
      assert a + b == b;
      ReadsAt(x, p, b);
    } else {
      assert (a + b)[1..] == a[1..] + b;
      ReadsParts(x, p + 1, a[1..], b);
    }
  }

  lemma {:induction false} ReadsAt(x: string, p: nat, t: string)
    requires Reads(x, p, t)
    ensures p + |t| <= |x| && x[p..p + |t|] == t
    ensures forall k :: p <= k < p + |t| ==> x[k] == t[k - p]
    decreases |t|
  {
    if t != "" {
      ReadsAt(x, p + 1, t[1..]);
      assert t == [t[0]] + t[1..];
      assert x[p..p + |t|] == [x[p]] + x[p + 1..p + |t|];
    }
    forall k | p <= k < p + |t| ensures x[k] == t[k - p] {
      assert x[p..p + |t|][k - p] == x[k];
    }
  }

  lemma {:induction false} SliceReads(x: string, p: nat, t: string)
    requires p + |t| <= |x| && x[p..p + |t|] == t
    ensures Reads(x, p, t)
    decreases |t|
  {
    if t != "" {
      assert x[p..p + |t|][0] == x[p];
      assert x[p + 1..p + |t|] == x[p..p + |t|][1..];
      SliceReads(x, p + 1, t[1..]);
    }
  }

  lemma {:induction false} ScanFinds(x: string, p: nat, q: nat, limit: int, k: Stop)
    requires p <= q && Stops(x, q, k) && (p < q ==> q < limit) && forall j :: p <= j < q ==> !Stops(x, j, k)
    ensures Scan(x, p, limit, k) == Some(q)
    decreases q - p
  {
    if p < q {
      ScanFinds(x, p + 1, q, limit, k);
    }
  }

  lemma {:induction false} ScanFails(x: string, p: nat, limit: int, k: Stop)
    requires p < limit && forall j :: p <= j < limit ==> !Stops(x, j, k)
    ensures Scan(x, p, limit, k) == None
    decreases limit - p
  {
    if p + 1 < limit {
      ScanFails(x, p + 1, limit, k);
    }
  }

  lemma {:induction false} PlainNameFound(x: string, p: nat, start: nat, e: nat)
    requires start <= p <= e < |x| && Stops(x, e, WhiteOrClose)
    requires forall j :: p <= j < e ==> !Stops(x, j, WhiteOrClose)
    requires forall j :: p < j <= e ==> x[j] != ':'
    ensures ScanName(x, p, start) == Some((start, e))
    decreases e - p
  {
    if p < e {
      PlainNameFound(x, p + 1, start, e);
    }
  }

  lemma {:induction false} PrefixPassed(x: string, p: nat, start: nat, c: nat)
    requires start <= p < c < |x| && x[c] == ':'
    requires forall j :: p <= j < c ==> !Stops(x, j, WhiteOrClose)
    requires forall j :: p < j < c ==> x[j] != ':'
    ensures ScanName(x, p, start) == ScanName(x, c + 1, c + 1)
    decreases c - p
  {
    if p + 1 < c {
      PrefixPassed(x, p + 1, start, c);
    }
  }

  predicate EndsName(c: char) {
    c == ' ' || c == '>' || c == '/'
  }

  /** What a full name looks like at `p`: all name characters, but for the colon at `c` after a prefix. */
  ghost predicate NameAt(x: string, p: nat, c: nat, e: nat) {
    && p <= c < e < |x| && EndsName(x[e])
    && (forall j :: p <= j < e && j != c ==> NameChar(x[j]))
    && (if c == p then NameChar(x[c]) else x[c] == ':')
  }

  lemma PlainNameReads(x: string, p: nat, name: string, e: nat)
    requires name != "" && NameChars(name) && Reads(x, p, name) && e == p + |name| < |x| && EndsName(x[e])
    ensures NameAt(x, p, p, e) && x[p..e] == name
  {
    NameCharsAt(name);
    ReadsAt(x, p, name);
  }

  lemma PrefixReads(x: string, p: nat, prefix: string, name: string, c: nat)
    requires Reads(x, p, prefix + ":" + name) && c == p + |prefix|
    ensures Reads(x, p, prefix) && c < |x| && x[c] == ':' && Reads(x, c + 1, name)
  {
    ReadsParts(x, p, prefix + ":", name);
    ReadsParts(x, p, prefix, ":");
  }

  lemma PrefixedNameReads(x: string, p: nat, prefix: string, name: string, c: nat, e: nat)
    requires prefix != "" && NameChars(prefix) && name != "" && NameChars(name)
    requires Reads(x, p, prefix + ":" + name) && c == p + |prefix|
    requires e == c + 1 + |name| < |x| && EndsName(x[e])
    ensures NameAt(x, p, c, e) && x[c + 1..e] == name
  {
    PrefixReads(x, p, prefix, name, c);
    NameCharsAt(prefix);
    ReadsAt(x, p, prefix);
    PlainNameReads(x, c + 1, name, e);
  }

  lemma NameReads(x: string, p: nat, l: Label, e: nat)
    requires GoodTag(l) && Reads(x, p, FullName(l))
    requires e == p + |FullName(l)| < |x| && EndsName(x[e])
    ensures NameAt(x, p, p + |l.prefix|, e) && p <= e - |l.name| && x[e - |l.name|..e] == l.name
  {
    if l.prefix == "" {
      PlainNameReads(x, p, l.name, e);
    } else {
      PrefixedNameReads(x, p, l.prefix, l.name, p + |l.prefix|, e);
    }
  }

  lemma {:induction false} NameFound(x: string, p: nat, c: nat, e: nat)
    requires NameAt(x, p, c, e) && (p < c ==> c + 1 < e)
    ensures ScanName(x, p, p) == Some((if c == p then p else c + 1, e))
  {
    if c == p {
      PlainNameFound(x, p, p, e);
    } else {
      PrefixPassed(x, p, p, c);
      PlainNameFound(x, c + 1, c + 1, e);
    }
  }

  /** An attribute at `p`: its `=` at `e`, its closing quote at `q`. */
  ghost predicate AttAt(x: string, p: nat, e: nat, q: nat) {
    && p <= e && e + 1 < q < |x| && x[e] == '=' && x[e + 1] == '\"' && x[q] == '\"'
    && (forall j :: p <= j < e ==> x[j] != '=' && !IsWhite(x[j]))
    && (forall j :: e + 2 <= j < q ==> x[j] != '\"')
  }

  lemma {:induction false} AttReads(x: string, p: nat, a: (string, string))
    requires GoodAtt(a) && Reads(x, p, PrintAtt(a))
    ensures var e := p + |a.0|; var q := e + 2 + |a.1|;
            AttAt(x, p, e, q) && x[p..e] == a.0 && x[e + 2..q] == a.1
  {
    AttNameCharsAt(a.0);
    LacksAt(a.1, '\"');
    ReadsParts(x, p, a.0 + "=\"" + a.1, "\"");
    ReadsParts(x, p, a.0 + "=\"", a.1);
    ReadsParts(x, p, a.0, "=\"");
    ReadsAt(x, p, a.0);
    ReadsAt(x, p + |a.0|, "=\"");
    ReadsAt(x, p + |a.0| + 2, a.1);
    ReadsAt(x, p + |a.0| + 2 + |a.1|, "\"");
  }

  lemma AttFound(x: string, p: nat, e: nat, q: nat, name: string, value: string)
    requires AttAt(x, p, e, q) && x[p..e] == name && x[e + 2..q] == value
    ensures OneAtt(x, p) == Step([Att(name, value)], Some(q + 1))
  {
    ScanFinds(x, p, e, |x|, EqualsOrWhite);
    ScanFinds(x, e, e, |x|, AtChar('='));
    ScanFinds(x, e + 1, e + 1, |x|, NotWhite);
    ScanFinds(x, e + 2, q, |x|, AtChar('\"'));
  }

  lemma {:induction false} PrintedAttFound(x: string, p: nat, a: (string, string), next: nat)
    requires GoodAtt(a) && Reads(x, p, PrintAtt(a)) && next == p + |PrintAtt(a)|
    ensures OneAtt(x, p) == Step([Att(a.0, a.1)], Some(next))
  {
    AttReads(x, p, a);
    AttFound(x, p, p + |a.0|, next - 1, a.0, a.1);
  }

  lemma AttsUnfold(x: string, p: nat, one: Step)
    requires p + 1 < |x| && x[p] == ' ' && !IsWhite(x[p + 1]) && x[p + 1] != '/' && x[p + 1] != '>'
    requires one == OneAtt(x, p + 1) && one.next.Some?
    ensures Atts(x, p) == Prepend(one.events, Atts(x, one.next.value))
  {
    assert Atts(x, p) == Atts(x, p + 1);
  }

  lemma FirstAttStarts(x: string, p: nat, a: (string, string))
    requires GoodAtt(a) && Reads(x, p, " ") && Reads(x, p + 1, PrintAtt(a))
    ensures p + 1 < |x| && x[p] == ' ' && x[p + 1] == a.0[0]
  {
    ReadsAt(x, p, " ");
    ReadsAt(x, p + 1, PrintAtt(a));
    assert x[p + 1] == PrintAtt(a)[0];
  }

  lemma FirstAttFound(x: string, p: nat, a: (string, string))
    requires GoodAtt(a) && Reads(x, p, " ") && Reads(x, p + 1, PrintAtt(a))
    ensures Atts(x, p) == Prepend([Att(a.0, a.1)], Atts(x, p + 1 + |PrintAtt(a)|))
  {
    FirstAttStarts(x, p, a);
    PrintedAttFound(x, p + 1, a, p + 1 + |PrintAtt(a)|);
    AttsUnfold(x, p, OneAtt(x, p + 1));
  }

  /** The end of a tag: `>` or `/>`. */
  predicate TagEnd(end: string) {
    end != "" && (end[0] == '>' || end[0] == '/')
  }

  lemma AttJoins(one: string, more: string, end: string)
    ensures (" " + one + more) + end == " " + (one + (more + end))
  {
  }

  lemma FirstAttReads(x: string, p: nat, atts: seq<(string, string)>, one: string, end: string)
    requires atts != [] && Reads(x, p, PrintAtts(atts) + end) && one == PrintAtt(atts[0])
    ensures Reads(x, p, " ") && Reads(x, p + 1, one) && Reads(x, p + 1 + |one|, PrintAtts(atts[1..]) + end)
    ensures |PrintAtts(atts)| == 1 + |one| + |PrintAtts(atts[1..])|
  {
    var more := PrintAtts(atts[1..]);
    var rest := more + end;
    AttJoins(one, more, end);
    ReadsParts(x, p, " ", one + rest);
    ReadsParts(x, p + 1, one, rest);
  }

  /** `atts` gives what the attribute list from each position on contributes. */
  ghost predicate GivesAtts(x: string, atts: nat -> Step) {
    forall i: nat {:trigger Atts(x, i)} :: atts(i) == Atts(x, i)
  }

  lemma {:induction false} AttStep(x: string, f: nat -> Step, p: nat, a: (string, string), next: nat)
    requires GivesAtts(x, f) && GoodAtt(a) && Reads(x, p, " ") && Reads(x, p + 1, PrintAtt(a))
    requires next == p + 1 + |PrintAtt(a)|
    ensures f(p) == Prepend([Att(a.0, a.1)], f(next))
  {
    FirstAttFound(x, p, a);
  }

  lemma {:induction false} AttsEnd(x: string, f: nat -> Step, p: nat, end: string)
    requires GivesAtts(x, f) && TagEnd(end) && Reads(x, p, end)
    ensures f(p) == Step([], Some(p))
  {
    assert Atts(x, p) == Step([], Some(p));
  }

  lemma {:induction false} AttsGiven(x: string, f: nat -> Step, p: nat, atts: seq<(string, string)>, end: string)
    requires GivesAtts(x, f) && GoodAtts(atts) && TagEnd(end) && Reads(x, p, PrintAtts(atts) + end)
    ensures f(p) == Step(AttEvents(atts), Some(p + |PrintAtts(atts)|))
    decreases |atts|
  {
    if atts == [] {
      assert PrintAtts(atts) + end == end;
      AttsEnd(x, f, p, end);
    } else {
      var one := PrintAtt(atts[0]);
      FirstAttReads(x, p, atts, one, end);
      AttStep(x, f, p, atts[0], p + 1 + |one|);
      AttsGiven(x, f, p + 1 + |one|, atts[1..], end);
    }
  }

  lemma {:induction false} AttsFound(x: string, p: nat, atts: seq<(string, string)>, end: string)
    requires GoodAtts(atts) && TagEnd(end) && Reads(x, p, PrintAtts(atts) + end)
    ensures Atts(x, p) == Step(AttEvents(atts), Some(p + |PrintAtts(atts)|))
  {
    AttsGiven(x, (i: nat) => Atts(x, i), p, atts, end);
  }

  /** Text without a tag between `d` and the `<` at `f`. */
  ghost predicate TextTo(x: string, d: nat, f: nat) {
    d <= f && f + 1 < |x| && x[f] == '<' && x[f + 1] != '!' && forall j :: d <= j < f ==> x[j] != '<'
  }

  lemma {:induction false} FirstNotWhite(x: string, d: nat, f: nat) returns (w: nat)
    requires TextTo(x, d, f)
    ensures d <= w <= f && Scan(x, d, |x|, NotWhite) == Some(w)
    decreases f - d
  {
    if IsWhite(x[d]) {
      w := FirstNotWhite(x, d + 1, f);
    } else {
      w := d;
    }
  }

  /** What the text from `m` to the tag at `f` contributes. */
  function DataIn(x: string, m: nat, f: nat): seq<Event> {
    if f > m && At(x, f + 1) == '/' then [Data(Slice(x, m, f))] else []
  }

  lemma NotCharacterData(x: string, w: nat, f: nat)
    requires w <= f && TextTo(x, w, f)
    ensures !Match(x, w, "<![CDATA[")
  {
    if w == f {
      assert At(x, w + 1) != "<![CDATA["[1];
    } else {
      assert At(x, w + 0) != "<![CDATA["[0];
    }
  }

  /** Data is reported exactly when the text is nonempty and an end tag follows. */
  lemma DataFound(x: string, q: nat, m: nat, f: nat)
    requires m == q + 1 && TextTo(x, m, f)
    ensures ElementData(x, q) == Step(DataIn(x, m, f), Some(f))
  {
    var w := FirstNotWhite(x, m, f);
    ScanFinds(x, w, f, |x| - 1, AtChar('<'));
    NotCharacterData(x, w, f);
    assert PlainData(x, m, w) == Step(DataIn(x, m, f), Some(f));
  }

  lemma NotAComment(x: string, i: nat)
    requires i + 1 < |x| && x[i + 1] != '!'
    ensures !Match(x, i, "<!--")
  {
    assert At(x, i + 1) != "<!--"[1];
  }

  /** A pass over a character that starts no tag. */
  lemma SilentPass(x: string, p: nat)
    requires p + 1 < |x| && (x[p] == '<' ==> x[p + 1] == '?')
    ensures ParseFrom(x, p) == ParseFrom(x, p + 1)
  {
    if x[p] == '<' {
      NotAComment(x, p);
    } else {
      assert At(x, p + 0) != "<!--"[0];
    }
    assert Pass(x, p) == Step([], Some(p + 1));
  }

  /** `rest` gives the events from each position on. */
  ghost predicate Continues(x: string, rest: nat -> seq<Event>) {
    forall i: nat {:trigger ParseFrom(x, i)} :: rest(i) == ParseFrom(x, i)
  }

  lemma SilentStep(x: string, rest: nat -> seq<Event>, p: nat)
    requires Continues(x, rest) && p + 1 < |x| && (x[p] == '<' ==> x[p + 1] == '?')
    ensures rest(p) == rest(p + 1)
  {
    SilentPass(x, p);
  }

  lemma {:induction false} TextSkipped(x: string, rest: nat -> seq<Event>, p: nat, q: nat)
    requires Continues(x, rest) && p <= q < |x| && forall j :: p <= j < q && x[j] == '<' ==> x[j + 1] == '?'
    ensures rest(p) == rest(q)
    decreases q - p
  {
    if p < q {
      SilentStep(x, rest, p);
      TextSkipped(x, rest, p + 1, q);
    }
  }

  lemma {:induction false} OpenTagParts(x: string, i: nat, l: Label)
    requires Reads(x, i, OpenTag(l))
    ensures Reads(x, i + 1, FullName(l)) && Reads(x, i + 1 + |FullName(l)|, PrintAtts(l.atts) + ">")
  {
    var rest := PrintAtts(l.atts) + ">";
    assert OpenTag(l) == "<" + (FullName(l) + rest);
    ReadsParts(x, i, "<", FullName(l) + rest);
    ReadsParts(x, i + 1, FullName(l), rest);
  }

  lemma FirstOfName(x: string, i: nat, l: Label)
    requires GoodTag(l) && Reads(x, i, OpenTag(l))
    ensures i + 1 < |x| && x[i] == '<' && x[i + 1] == FullName(l)[0]
    ensures x[i + 1] != '!' && x[i + 1] != '?' && x[i + 1] != '/'
  {
    ReadsAt(x, i, OpenTag(l));
    assert x[i + 1] == OpenTag(l)[1];
  }

  lemma AfterName(x: string, p: nat, atts: seq<(string, string)>, end: string)
    requires TagEnd(end) && Reads(x, p, PrintAtts(atts) + end)
    ensures p < |x| && EndsName(x[p])
    ensures p + |PrintAtts(atts)| < |x| && x[p + |PrintAtts(atts)|] == end[0]
  {
    ReadsAt(x, p, PrintAtts(atts) + end);
    assert x[p] == (PrintAtts(atts) + end)[0];
  }

  lemma {:induction false} TagUnfold(x: string, i: nat, start: nat, p: nat)
    requires ScanName(x, i + 1, i + 1) == Some((start, p)) && start < p <= |x|
    ensures MiniXml.Tag(x, i) == Prepend([StartElt(x[start..p])], RestOfStartTag(x, p))
  {
  }

  lemma TagNameFound(x: string, i: nat, l: Label, p: nat)
    requires GoodTag(l) && Reads(x, i, FullName(l)) && p == i + |FullName(l)| < |x| && EndsName(x[p])
    ensures i <= p - |l.name| < p && x[p - |l.name|..p] == l.name
    ensures ScanName(x, i, i) == Some((p - |l.name|, p))
  {
    NameReads(x, i, l, p);
    NameFound(x, i, i + |l.prefix|, p);
  }

  lemma {:induction false} TagFound(x: string, i: nat, l: Label)
    requires GoodTag(l) && Reads(x, i, OpenTag(l))
    ensures MiniXml.Tag(x, i) == Prepend([StartElt(l.name)], RestOfStartTag(x, i + 1 + |FullName(l)|))
  {
    var p := i + 1 + |FullName(l)|;
    OpenTagParts(x, i, l);
    AfterName(x, p, l.atts, ">");
    TagNameFound(x, i + 1, l, p);
    TagUnfold(x, i, p - |l.name|, p);
  }

  lemma {:induction false} RestUnfold(x: string, p: nat, events: seq<Event>, q: nat)
    requires Atts(x, p) == Step(events, Some(q)) && q < |x| && x[q] == '>'
    ensures RestOfStartTag(x, p) == Prepend(events, ElementData(x, q))
  {
  }

  lemma {:induction false} RestFound(x: string, p: nat, atts: seq<(string, string)>, q: nat)
    requires GoodAtts(atts) && Reads(x, p, PrintAtts(atts) + ">") && q == p + |PrintAtts(atts)|
    ensures RestOfStartTag(x, p) == Prepend(AttEvents(atts), ElementData(x, q))
  {
    AttsFound(x, p, atts, ">");
    AfterName(x, p, atts, ">");
    RestUnfold(x, p, AttEvents(atts), q);
  }

  lemma {:induction false} PassIsTag(x: string, i: nat, l: Label)
    requires GoodTag(l) && Reads(x, i, OpenTag(l))
    ensures Pass(x, i) == MiniXml.Tag(x, i)
  {
    FirstOfName(x, i, l);
    NotAComment(x, i);
  }

  lemma Prepended(whole: Step, rest: Step, data: Step, a: seq<Event>, b: seq<Event>)
    requires whole == Prepend(a, rest) && rest == Prepend(b, data)
    ensures whole == Prepend(a + b, data)
  {
  }

  lemma {:induction false} OpenFound(x: string, i: nat, l: Label, q: nat)
    requires GoodTag(l) && Reads(x, i, OpenTag(l)) && q + 1 == i + |OpenTag(l)|
    ensures i + 1 < |x| && Pass(x, i) == Prepend(OpenEvents(l), ElementData(x, q))
  {
    var p := i + 1 + |FullName(l)|;
    FirstOfName(x, i, l);
    PassIsTag(x, i, l);
    TagFound(x, i, l);
    OpenTagParts(x, i, l);
    RestFound(x, p, l.atts, q);
    Prepended(Pass(x, i), RestOfStartTag(x, p), ElementData(x, q), [StartElt(l.name)], AttEvents(l.atts));
  }

  lemma EndTagReads(x: string, i: nat, name: string, q: nat)
    requires Reads(x, i, "</" + name + ">") && q == i + 2 + |name|
    ensures q < |x| && x[i] == '<' && x[i + 1] == '/' && x[i + 2..q] == name && x[q] == '>'
  {
    ReadsParts(x, i, "</" + name, ">");
    ReadsParts(x, i, "</", name);
    ReadsAt(x, i, "</");
    ReadsAt(x, i + 2, name);
    ReadsAt(x, q, ">");
  }

  lemma CloseTagReads(x: string, i: nat, l: Label)
    requires Reads(x, i, CloseTag(l))
    ensures var q := i + 2 + |FullName(l)|;
            q < |x| && x[i] == '<' && x[i + 1] == '/' && x[i + 2..q] == FullName(l) && x[q] == '>'
  {
    EndTagReads(x, i, FullName(l), i + 2 + |FullName(l)|);
  }

  lemma FullNameAt(l: Label)
    requires GoodTag(l)
    ensures forall k :: 0 <= k < |FullName(l)| ==> FullName(l)[k] != '>'
  {
    NameCharsAt(l.name);
    NameCharsAt(l.prefix);
  }

  lemma CloseFound(x: string, i: nat, l: Label)
    requires GoodTag(l) && Reads(x, i, CloseTag(l))
    ensures i + 1 < |x| && x[i] == '<' && x[i + 1] == '/'
    ensures Pass(x, i) == Step([EndElt(FullName(l))], Some(i + |CloseTag(l)|))
  {
    var q := i + 2 + |FullName(l)|;
    CloseTagReads(x, i, l);
    NotAComment(x, i);
    FullNameAt(l);
    assert forall j :: i + 2 <= j < q ==> x[j] == x[i + 2..q][j - i - 2] == FullName(l)[j - i - 2] != '>';
    ScanFinds(x, i + 2, q, |x|, AtChar('>'));
  }

  // ----- documents laid out in a buffer -----

  /** Where the inside of a document at `p` starts. */
  function Inside(p: nat, d: Doc): nat {
    p + |d.pad| + |OpenTag(d.tag)|
  }

  /** Where its end tag starts. */
  function EndTagOf(p: nat, d: Doc): nat
    decreases d, 1
  {
    match d
    case Leaf(_, _, text) => Inside(p, d) + |text|
    case Node(_, _, children, tail) => EndAll(Inside(p, d), children) + |tail|
  }

  /** Where it ends. */
  function EndOf(p: nat, d: Doc): nat
    decreases d, 2
  {
    EndTagOf(p, d) + |CloseTag(d.tag)|
  }

  function EndAll(p: nat, ds: seq<Doc>): nat
    decreases ds, 0
  {
    if ds == [] then p else EndAll(EndOf(p, ds[0]), ds[1..])
  }

  /** The printed document stands at `p`. */
  ghost predicate DocAt(x: string, p: nat, d: Doc)
    decreases d, 1
  {
    && TextAt(x, p, d.pad) && Reads(x, p + |d.pad|, OpenTag(d.tag)) && Reads(x, EndTagOf(p, d), CloseTag(d.tag))
    && match d
       case Leaf(_, _, text) => TextAt(x, Inside(p, d), text)
       case Node(_, _, children, tail) =>
         DocsAt(x, Inside(p, d), children) && TextAt(x, EndAll(Inside(p, d), children), tail)
  }

  ghost predicate DocsAt(x: string, p: nat, ds: seq<Doc>)
    decreases ds, 0
  {
    ds == [] || (DocAt(x, p, ds[0]) && DocsAt(x, EndOf(p, ds[0]), ds[1..]))
  }

  /** Text without a tag, with more to come. */
  ghost predicate TextAt(x: string, p: nat, text: string) {
    p + |text| < |x| && x[p..p + |text|] == text && Lacks(text, '<')
  }

  // ----- printing in front of more text -----

  function PrintThen(d: Doc, rest: string): string
    decreases d, 2
  {
    d.pad + (OpenTag(d.tag) + InnerThen(d, CloseTag(d.tag) + rest))
  }

  function InnerThen(d: Doc, rest: string): string
    decreases d, 1
  {
    match d
    case Leaf(_, _, text) => text + rest
    case Node(_, _, children, tail) => PrintAllThen(children, tail + rest)
  }

  function PrintAllThen(ds: seq<Doc>, rest: string): string
    decreases ds, 0
  {
    if ds == [] then rest else PrintThen(ds[0], PrintAllThen(ds[1..], rest))
  }

  lemma {:induction false} PrintThenRest(d: Doc, rest: string)
    ensures PrintThen(d, rest) == Print(d) + rest
    decreases d, 2
  {
    var open, close := OpenTag(d.tag), CloseTag(d.tag);
    InnerThenRest(d, close + rest);
    FourJoined(d.pad, open, Inner(d), close, rest);
  }

  lemma FourJoined(a: string, b: string, c: string, e: string, rest: string)
    ensures a + (b + (c + (e + rest))) == a + b + c + e + rest
  {
  }

  lemma {:induction false} InnerThenRest(d: Doc, rest: string)
    ensures InnerThen(d, rest) == Inner(d) + rest
    decreases d, 1
  {
    if d.Node? {
      PrintAllThenRest(d.children, d.tail + rest);
      assert PrintAll(d.children) + (d.tail + rest) == PrintAll(d.children) + d.tail + rest;
    }
  }

  lemma {:induction false} PrintAllThenRest(ds: seq<Doc>, rest: string)
    ensures PrintAllThen(ds, rest) == PrintAll(ds) + rest
    decreases ds, 0
  {
    if ds != [] {
      PrintAllThenRest(ds[1..], rest);
      PrintThenRest(ds[0], PrintAll(ds[1..]) + rest);
      assert Print(ds[0]) + (PrintAll(ds[1..]) + rest) == Print(ds[0]) + PrintAll(ds[1..]) + rest;
    }
  }

  /** From `p` on the buffer holds `s`. */
  ghost predicate Holds(x: string, p: nat, s: string) {
    p <= |x| && x[p..] == s
  }

  lemma {:induction false} HoldsParts(x: string, p: nat, a: string, b: string)
    requires Holds(x, p, a + b)
    ensures Reads(x, p, a) && Holds(x, p + |a|, b)
  {
    assert x[p..p + |a|] == x[p..][..|a|] == a;
    assert x[p + |a|..] == x[p..][|a|..] == b;
    SliceReads(x, p, a);
  }

  lemma {:induction false} HoldsText(x: string, p: nat, text: string, rest: string)
    requires Holds(x, p, text + rest) && rest != "" && Lacks(text, '<')
    ensures TextAt(x, p, text) && Holds(x, p + |text|, rest)
  {
    assert x[p..p + |text|] == x[p..][..|text|] == text;
    assert x[p + |text|..] == x[p..][|text|..] == rest;
  }

  lemma {:induction false} DocOpens(x: string, p: nat, d: Doc, inner: string)
    requires GoodDoc(d) && Holds(x, p, d.pad + (OpenTag(d.tag) + inner))
    ensures TextAt(x, p, d.pad) && Reads(x, p + |d.pad|, OpenTag(d.tag)) && Holds(x, Inside(p, d), inner)
  {
    HoldsText(x, p, d.pad, OpenTag(d.tag) + inner);
    HoldsParts(x, p + |d.pad|, OpenTag(d.tag), inner);
  }

  lemma {:induction false} DocCloses(x: string, e: nat, text: string, l: Label, rest: string)
    requires Lacks(text, '<') && Holds(x, e, text + (CloseTag(l) + rest))
    ensures TextAt(x, e, text) && Reads(x, e + |text|, CloseTag(l)) && Holds(x, e + |text| + |CloseTag(l)|, rest)
  {
    HoldsText(x, e, text, CloseTag(l) + rest);
    HoldsParts(x, e + |text|, CloseTag(l), rest);
  }

  lemma {:induction false} LeafStands(x: string, p: nat, d: Doc, rest: string)
    requires d.Leaf? && GoodDoc(d) && Holds(x, Inside(p, d), d.text + (CloseTag(d.tag) + rest))
    requires TextAt(x, p, d.pad) && Reads(x, p + |d.pad|, OpenTag(d.tag))
    ensures DocAt(x, p, d) && Holds(x, EndOf(p, d), rest)
  {
    DocCloses(x, Inside(p, d), d.text, d.tag, rest);
  }

  lemma {:induction false} NodeStands(x: string, p: nat, d: Doc, m: nat, e: nat, f: nat)
    requires d.Node? && TextAt(x, p, d.pad) && Reads(x, p + |d.pad|, OpenTag(d.tag))
    requires m == Inside(p, d) && DocsAt(x, m, d.children) && e == EndAll(m, d.children)
    requires TextAt(x, e, d.tail) && f == e + |d.tail| && Reads(x, f, CloseTag(d.tag))
    ensures DocAt(x, p, d) && EndOf(p, d) == f + |CloseTag(d.tag)|
  {
  }

  lemma NodeEnds(x: string, p: nat, d: Doc, m: nat, e: nat, rest: string)
    requires d.Node? && TextAt(x, p, d.pad) && Reads(x, p + |d.pad|, OpenTag(d.tag)) && Lacks(d.tail, '<')
    requires m == Inside(p, d) && DocsAt(x, m, d.children) && e == EndAll(m, d.children)
    requires Holds(x, e, d.tail + (CloseTag(d.tag) + rest))
    ensures DocAt(x, p, d) && Holds(x, EndOf(p, d), rest)
  {
    DocCloses(x, e, d.tail, d.tag, rest);
    NodeStands(x, p, d, m, e, e + |d.tail|);
  }

  lemma {:induction false} DocStands(x: string, p: nat, d: Doc, rest: string)
    requires GoodDoc(d) && Holds(x, p, PrintThen(d, rest))
    ensures DocAt(x, p, d) && Holds(x, EndOf(p, d), rest)
    decreases d, 1
  {
    var more, m := CloseTag(d.tag) + rest, Inside(p, d);
    DocOpens(x, p, d, InnerThen(d, more));
    if d.Leaf? {
      LeafStands(x, p, d, rest);
    } else {
      DocsStand(x, m, d.children, d.tail + more);
      NodeEnds(x, p, d, m, EndAll(m, d.children), rest);
    }
  }

  lemma {:induction false} DocsStand(x: string, p: nat, ds: seq<Doc>, rest: string)
    requires GoodDocs(ds) && Holds(x, p, PrintAllThen(ds, rest))
    ensures DocsAt(x, p, ds) && Holds(x, EndAll(p, ds), rest)
    decreases ds, 0
  {
    if ds != [] {
      DocStands(x, p, ds[0], PrintAllThen(ds[1..], rest));
      DocsStand(x, EndOf(p, ds[0]), ds[1..], rest);
    }
  }

  lemma OnePass(x: string, rest: nat -> seq<Event>, i: nat, s: Step)
    requires Continues(x, rest) && i + 1 < |x| && Pass(x, i) == s && s.next.Some?
    ensures rest(i) == s.events + rest(s.next.value)
  {
    assert ParseFrom(x, i) == s.events + ParseFrom(x, s.next.value);
  }

  lemma TextToTag(x: string, p: nat, text: string)
    requires TextAt(x, p, text) && p + |text| + 1 < |x| && x[p + |text|] == '<' && x[p + |text| + 1] != '!'
    ensures TextTo(x, p, p + |text|)
  {
    LacksAt(text, '<');
    assert forall j :: p <= j < p + |text| ==> x[j] == x[p..p + |text|][j - p] == text[j - p];
  }

  /** The document starts with a start tag, after its pad. */
  lemma {:induction false} StartsWithTag(x: string, p: nat, d: Doc)
    requires GoodDoc(d) && DocAt(x, p, d)
    ensures TextTo(x, p, p + |d.pad|) && x[p + |d.pad| + 1] != '/'
  {
    FirstOfName(x, p + |d.pad|, d.tag);
    TextToTag(x, p, d.pad);
  }

  lemma {:induction false} TextThenClose(x: string, m: nat, text: string, l: Label)
    requires TextAt(x, m, text) && Reads(x, m + |text|, CloseTag(l))
    ensures TextTo(x, m, m + |text|) && x[m + |text| + 1] == '/'
  {
    CloseTagReads(x, m + |text|, l);
    TextToTag(x, m, text);
  }

  lemma DataPass(x: string, rest: nat -> seq<Event>, i: nat, before: seq<Event>, q: nat, m: nat, f: nat)
    requires Continues(x, rest) && i + 1 < |x| && m == q + 1 && TextTo(x, m, f)
    requires Pass(x, i) == Prepend(before, ElementData(x, q))
    ensures rest(i) == before + DataIn(x, m, f) + rest(f)
  {
    DataFound(x, q, m, f);
    OnePass(x, rest, i, Pass(x, i));
  }

  lemma {:induction false} Open(x: string, rest: nat -> seq<Event>, i: nat, l: Label, q: nat, m: nat, f: nat)
    requires Continues(x, rest) && GoodTag(l) && Reads(x, i, OpenTag(l))
    requires m == q + 1 == i + |OpenTag(l)| && TextTo(x, m, f)
    ensures rest(i) == OpenEvents(l) + DataIn(x, m, f) + rest(f)
  {
    OpenFound(x, i, l, q);
    DataPass(x, rest, i, OpenEvents(l), q, m, f);
  }

  lemma Close(x: string, rest: nat -> seq<Event>, f: nat, l: Label)
    requires Continues(x, rest) && GoodTag(l) && Reads(x, f, CloseTag(l))
    ensures rest(f) == [EndElt(FullName(l))] + rest(f + |CloseTag(l)|)
  {
    CloseFound(x, f, l);
    OnePass(x, rest, f, Step([EndElt(FullName(l))], Some(f + |CloseTag(l)|)));
  }

  /** The events of a document in front of `tail`. */
  function EventsThen(d: Doc, tail: seq<Event>): seq<Event>
    decreases d, 1
  {
    var end := [EndElt(FullName(d.tag))] + tail;
    match d
    case Leaf(_, l, text) => OpenEvents(l) + (if text == "" then [] else [Data(text)]) + end
    case Node(_, l, children, _) => OpenEvents(l) + EventsAllThen(children, end)
  }

  function EventsAllThen(ds: seq<Doc>, tail: seq<Event>): seq<Event>
    decreases ds, 0
  {
    if ds == [] then tail else EventsThen(ds[0], EventsAllThen(ds[1..], tail))
  }

  lemma {:induction false} EventsThenTail(d: Doc, tail: seq<Event>)
    ensures EventsThen(d, tail) == Events(d) + tail
    decreases d, 1
  {
    if d.Node? {
      EventsAllThenTail(d.children, [EndElt(FullName(d.tag))] + tail);
    }
  }

  lemma {:induction false} EventsAllThenTail(ds: seq<Doc>, tail: seq<Event>)
    ensures EventsAllThen(ds, tail) == EventsAll(ds) + tail
    decreases ds, 0
  {
    if ds != [] {
      EventsAllThenTail(ds[1..], tail);
      EventsThenTail(ds[0], EventsAll(ds[1..]) + tail);
    }
  }

  lemma PadSkipped(x: string, rest: nat -> seq<Event>, p: nat, d: Doc)
    requires Continues(x, rest) && GoodDoc(d) && DocAt(x, p, d)
    ensures rest(p) == rest(p + |d.pad|)
  {
    StartsWithTag(x, p, d);
    TextSkipped(x, rest, p, p + |d.pad|);
  }

  lemma LeafData(x: string, m: nat, text: string, f: nat)
    requires TextAt(x, m, text) && f == m + |text| && At(x, f + 1) == '/'
    ensures DataIn(x, m, f) == if text == "" then [] else [Data(text)]
  {
  }

  lemma {:induction false} LeafOpens(x: string, rest: nat -> seq<Event>, p: nat, d: Doc, m: nat, f: nat)
    requires Continues(x, rest) && d.Leaf? && GoodDoc(d) && DocAt(x, p, d) && m == Inside(p, d) && f == EndTagOf(p, d)
    ensures rest(p) == OpenEvents(d.tag) + (if d.text == "" then [] else [Data(d.text)]) + rest(f)
  {
    PadSkipped(x, rest, p, d);
    TextThenClose(x, m, d.text, d.tag);
    Open(x, rest, p + |d.pad|, d.tag, m - 1, m, f);
    LeafData(x, m, d.text, f);
  }

  lemma LeafEvents(d: Doc, tail: seq<Event>, end: seq<Event>)
    requires d.Leaf? && end == [EndElt(FullName(d.tag))] + tail
    ensures EventsThen(d, tail) == OpenEvents(d.tag) + (if d.text == "" then [] else [Data(d.text)]) + end
  {
  }

  lemma {:induction false} LeafFound(x: string, rest: nat -> seq<Event>, p: nat, d: Doc)
    requires Continues(x, rest) && d.Leaf? && GoodDoc(d) && DocAt(x, p, d)
    ensures rest(p) == EventsThen(d, rest(EndOf(p, d)))
  {
    var f := EndTagOf(p, d);
    LeafOpens(x, rest, p, d, Inside(p, d), f);
    Close(x, rest, f, d.tag);
    LeafEvents(d, rest(EndOf(p, d)), rest(f));
  }

  /** Where the start tag of the first child stands. */
  lemma FirstChild(x: string, m: nat, d: Doc) returns (f: nat)
    requires d.Node? && GoodDoc(d) && DocsAt(x, m, d.children)
    ensures TextTo(x, m, f) && x[f + 1] != '/'
  {
    f := m + |d.children[0].pad|;
    StartsWithTag(x, m, d.children[0]);
  }

  lemma {:induction false} OpenWithoutData(x: string, rest: nat -> seq<Event>, i: nat, l: Label, m: nat, f: nat)
    requires Continues(x, rest) && GoodTag(l) && Reads(x, i, OpenTag(l)) && m == i + |OpenTag(l)| && TextTo(x, m, f)
    requires x[f + 1] != '/' && rest(m) == rest(f)
    ensures rest(i) == OpenEvents(l) + rest(m)
  {
    Open(x, rest, i, l, m - 1, m, f);
  }

  lemma {:induction false} TagThenChild(x: string, rest: nat -> seq<Event>, i: nat, m: nat, d: Doc)
    requires Continues(x, rest) && d.Node? && GoodDoc(d) && DocsAt(x, m, d.children)
    requires Reads(x, i, OpenTag(d.tag)) && m == i + |OpenTag(d.tag)|
    ensures rest(i) == OpenEvents(d.tag) + rest(m)
  {
    var f := FirstChild(x, m, d);
    TextSkipped(x, rest, m, f);
    OpenWithoutData(x, rest, i, d.tag, m, f);
  }

  lemma {:induction false} NodeParts(x: string, p: nat, d: Doc, m: nat)
    requires d.Node? && DocAt(x, p, d) && m == Inside(p, d)
    ensures Reads(x, p + |d.pad|, OpenTag(d.tag)) && m == p + |d.pad| + |OpenTag(d.tag)| && DocsAt(x, m, d.children)
  {
  }

  lemma {:induction false} NodeOpens(x: string, rest: nat -> seq<Event>, p: nat, d: Doc, m: nat)
    requires Continues(x, rest) && d.Node? && GoodDoc(d) && DocAt(x, p, d) && m == Inside(p, d)
    ensures rest(p) == OpenEvents(d.tag) + rest(m)
  {
    NodeParts(x, p, d, m);
    PadSkipped(x, rest, p, d);
    TagThenChild(x, rest, p + |d.pad|, m, d);
  }

  lemma TailCloses(x: string, rest: nat -> seq<Event>, e: nat, tail: string, l: Label)
    requires Continues(x, rest) && GoodTag(l) && TextAt(x, e, tail) && Reads(x, e + |tail|, CloseTag(l))
    ensures rest(e) == [EndElt(FullName(l))] + rest(e + |tail| + |CloseTag(l)|)
  {
    TextThenClose(x, e, tail, l);
    TextSkipped(x, rest, e, e + |tail|);
    Close(x, rest, e + |tail|, l);
  }

  lemma {:induction false} NodeCloses(x: string, rest: nat -> seq<Event>, p: nat, d: Doc)
    requires Continues(x, rest) && d.Node? && GoodDoc(d) && DocAt(x, p, d)
    ensures rest(EndAll(Inside(p, d), d.children)) == [EndElt(FullName(d.tag))] + rest(EndOf(p, d))
  {
    TailCloses(x, rest, EndAll(Inside(p, d), d.children), d.tail, d.tag);
  }

  lemma {:induction false} DocFound(x: string, rest: nat -> seq<Event>, p: nat, d: Doc)
    requires Continues(x, rest) && GoodDoc(d) && DocAt(x, p, d)
    ensures rest(p) == EventsThen(d, rest(EndOf(p, d)))
    decreases d, 1
  {
    if d.Leaf? {
      LeafFound(x, rest, p, d);
    } else {
      NodeOpens(x, rest, p, d, Inside(p, d));
      DocsFound(x, rest, Inside(p, d), d.children);
      NodeCloses(x, rest, p, d);
    }
  }

  lemma {:induction false} DocsFound(x: string, rest: nat -> seq<Event>, p: nat, ds: seq<Doc>)
    requires Continues(x, rest) && GoodDocs(ds) && DocsAt(x, p, ds)
    ensures rest(p) == EventsAllThen(ds, rest(EndAll(p, ds)))
    decreases ds, 0
  {
    if ds != [] {
      DocFound(x, rest, p, ds[0]);
      DocsFound(x, rest, EndOf(p, ds[0]), ds[1..]);
    }
  }

  /** Declarations and text in front of the document: no `<` but in `<?`. */
  predicate GoodProlog(s: string) {
    forall k :: 0 <= k < |s| && s[k] == '<' ==> k + 1 < |s| && s[k + 1] == '?'
  }

  lemma {:induction false} EpilogSilent(x: string, rest: nat -> seq<Event>, p: nat)
    requires Continues(x, rest) && forall j :: p <= j < |x| ==> x[j] != '<'
    ensures rest(p) == []
    decreases |x| - p
  {
    if p + 1 < |x| {
      SilentStep(x, rest, p);
      EpilogSilent(x, rest, p + 1);
    } else {
      assert ParseFrom(x, p) == [];
    }
  }

  lemma {:induction false} PrintedStands(prolog: string, d: Doc, epilog: string, x: string)
    requires GoodDoc(d) && x == prolog + Print(d) + epilog
    ensures DocAt(x, |prolog|, d) && Holds(x, EndOf(|prolog|, d), epilog)
  {
    PrintThenRest(d, epilog);
    assert x[|prolog|..] == Print(d) + epilog;
    DocStands(x, |prolog|, d, epilog);
  }

  lemma {:induction false} AroundSkipped(prolog: string, rest: nat -> seq<Event>, p: nat, q: nat,
                                         epilog: string, x: string)
    requires Continues(x, rest)
    requires GoodProlog(prolog) && Lacks(epilog, '<') && prolog <= x && |prolog| == p < |x| && Holds(x, q, epilog)
    ensures rest(0) == rest(p) && rest(q) == []
  {
    TextSkipped(x, rest, 0, p);
    LacksAt(epilog, '<');
    assert forall j :: q <= j < |x| ==> x[j] == x[q..][j - q];
    EpilogSilent(x, rest, q);
  }

  lemma {:induction false} PrintedEvents(prolog: string, d: Doc, epilog: string, x: string, rest: nat -> seq<Event>)
    requires GoodProlog(prolog) && GoodDoc(d) && Lacks(epilog, '<') && x == prolog + Print(d) + epilog
    requires Continues(x, rest)
    ensures rest(0) == Events(d)
  {
    var p := |prolog|;
    PrintedStands(prolog, d, epilog, x);
    DocFound(x, rest, p, d);
    AroundSkipped(prolog, rest, p, EndOf(p, d), epilog, x);
    EventsThenTail(d, []);
  }

  /** Parsing what was printed gives the document's events, in document order. */
  lemma {:induction false} PrintedDocumentParses(prolog: string, d: Doc, epilog: string)
    requires GoodProlog(prolog) && GoodDoc(d) && Lacks(epilog, '<')
    ensures Parse(prolog + Print(d) + epilog) == Events(d)
  {
    var x := prolog + Print(d) + epilog;
    PrintedEvents(prolog, d, epilog, x, (i: nat) => ParseFrom(x, i));
  }
}
