/**
  The SOAP request body that `simpleUPnPcommand2` prints, as a document: read by minixml and the
  name/value collector, it gives back its arguments.
 */
module SoapRequests {
  import opened Basics
  import opened MiniXml
  import opened XmlDocuments
  import NameValues

  /** An argument: element name and value, which may be missing. */
  datatype Argument = Argument(elt: string, val: Option<string>)

  const PROLOG := "<?" + "xml version" + "=\"1.0\"?>\r\n"
  const ENVELOPE_URL := "http://schemas" + ".xmlsoap.org/" + "soap/envelope/"
  const ENCODING_URL := "http://schemas" + ".xmlsoap.org/" + "soap/encoding/"
  const ENVELOPE := Label("s", "Envelope", [("xmlns:s", ENVELOPE_URL), ("s:encodingStyle", ENCODING_URL)])
  const BODY := Label("s", "Body", [])

  function Action(action: string, service: string): Label {
    Label("u", action, [("xmlns:u", service)])
  }

  function Opening(action: string, service: string): string {
    PROLOG + OpenTag(ENVELOPE) + OpenTag(BODY) + OpenTag(Action(action, service))
  }

  function Closing(action: string, service: string): string {
    CloseTag(Action(action, service)) + CloseTag(BODY) + CloseTag(ENVELOPE) + "\r\n"
  }

  function TextOf(a: Argument): string {
    if a.val.Some? then a.val.value else ""
  }

  function ArgumentText(a: Argument): string {
    "<" + a.elt + ">" + TextOf(a) + "</" + a.elt + ">"
  }

  function Arguments(args: seq<Argument>): string {
    if args == [] then "" else ArgumentText(args[0]) + Arguments(args[1..])
  }

  const BUFFER_SIZE: nat := 2048

  /** With the first argument at `p`, a margin of more than 100 bytes is left in front of every argument. */
  predicate Fits(p: nat, args: seq<Argument>)
    decreases |args|
  {
    args == [] || (p + 100 < BUFFER_SIZE && Fits(p + |ArgumentText(args[0])|, args[1..]))
  }

  // ----- the buffer -----

  /** Where the write pointer comes to: the arguments from `p` on, and behind the last one the start of the end tag. */
  function Reach(p: nat, args: seq<Argument>, action: string): (r: nat)
    ensures r >= p
    decreases |args|
  {
    if args == [] then p + |ActionEnd(action)|
    else if BUFFER_SIZE <= p + 100 then p
    else Reach(p + |ArgumentText(args[0])|, args[1..], action)
  }

  function ActionEnd(action: string): string {
    "</" + ("u" + ":" + action)
  }

  function BodyEnd(): string {
    ">" + CloseTag(BODY) + CloseTag(ENVELOPE) + "\r\n"
  }

  /** Every write stays inside: nothing is written behind the opening, or the pointer does not pass the end. */
  predicate Within(p: nat, args: seq<Argument>, action: string) {
    (args != [] && BUFFER_SIZE <= p + 100) || Reach(p, args, action) <= BUFFER_SIZE
  }

  /** Copies `text` to `p`. */
  method Put(buf: array<char>, p: nat, text: string) returns (q: nat)
    requires p + |text| <= buf.Length
    modifies buf
    ensures q == p + |text| && buf[..q] == old(buf[..p]) + text
  {
    var i := 0;
    while i < |text|
      invariant 0 <= i <= |text| && buf[..p + i] == old(buf[..p]) + text[..i]
    {
      buf[p + i] := text[i];
      i := i + 1;
    }
    assert text[..i] == text;
    q := p + |text|;
  }

  method PutArgument(buf: array<char>, p: nat, a: Argument) returns (q: nat)
    requires p + |ArgumentText(a)| <= buf.Length
    modifies buf
    ensures q == p + |ArgumentText(a)| && buf[..q] == old(buf[..p]) + ArgumentText(a)
  {
    q := Put(buf, p, "<" + a.elt + ">");
    if a.val.Some? {
      q := Put(buf, q, a.val.value);
    }
    q := Put(buf, q, "</" + a.elt + ">");
  }

  /** `strncpy` to `p` with the room that is left: cut at the end of the buffer, or filled up with NUL. */
  method PutPadded(buf: array<char>, p: nat, text: string)
    requires p <= buf.Length
    modifies buf
    ensures buf[..p] == old(buf[..p])
    ensures forall i :: p <= i < buf.Length ==> buf[i] == if i - p < |text| then text[i - p] else '\0'
  {
    var i := p;
    while i < buf.Length
      invariant p <= i <= buf.Length && buf[..p] == old(buf[..p])
      invariant forall j :: p <= j < i ==> buf[j] == if j - p < |text| then text[j - p] else '\0'
    {
      buf[i] := if i - p < |text| then text[i - p] else '\0';
      i := i + 1;
    }
  }

  /** `snprintf` to the start of the buffer: at most all but one byte, and a NUL. */
  method PutBounded(buf: array<char>, text: string)
    requires buf.Length > 0
    modifies buf
    ensures Cut(buf[..], text, buf.Length - 1)
  {
    var k := if |text| < buf.Length then |text| else buf.Length - 1;
    var q := Put(buf, 0, text[..k]);
    buf[k] := '\0';
    assert buf[..k] == text[..k];
  }

  /** `memory` holds `text`, cut to `room` characters, and behind it a NUL if there is space. */
  predicate Cut(memory: string, text: string, room: nat) {
    var k := if |text| < room then |text| else room;
    k <= |memory| && memory[..k] == text[..k] && (k < |memory| ==> memory[k] == '\0')
  }

  lemma ReachFirst(p: nat, args: seq<Argument>, action: string)
    requires args != [] && p + 100 < BUFFER_SIZE && Reach(p, args, action) <= BUFFER_SIZE
    ensures p + |ArgumentText(args[0])| <= BUFFER_SIZE
    ensures Reach(p + |ArgumentText(args[0])|, args[1..], action) <= BUFFER_SIZE
  {
  }

  lemma ArgumentsFrom(args: seq<Argument>, i: nat, a: Argument)
    requires i < |args| && a == args[i]
    ensures args[i..] != [] && args[i..][0] == a && args[i..][1..] == args[i + 1..]
    ensures Arguments(args[i..]) == ArgumentText(a) + Arguments(args[i + 1..])
  {
  }

  /** What is left to do from `i` on, and what is done. */
  ghost predicate Progress(p: nat, args: seq<Argument>, action: string, q: nat, i: nat) {
    && i <= |args| && p <= q && Within(q, args[i..], action)
    && (Fits(p, args) <==> Fits(q, args[i..]))
    && p + |Arguments(args)| == q + |Arguments(args[i..])|
  }

  lemma ProgressNext(p: nat, args: seq<Argument>, action: string, q: nat, i: nat)
    requires Progress(p, args, action, q, i) && i < |args| && q + 100 < BUFFER_SIZE
    ensures q + |ArgumentText(args[i])| <= BUFFER_SIZE && Progress(p, args, action, q + |ArgumentText(args[i])|, i + 1)
  {
    ArgumentsFrom(args, i, args[i]);
    ReachFirst(q, args[i..], action);
  }

  /** The argument loop. */
  method AppendArguments(buf: array<char>, p: nat, args: seq<Argument>, ghost action: string)
    returns (ok: bool, q: nat)
    requires buf.Length == BUFFER_SIZE && Within(p, args, action)
    modifies buf
    ensures ok <==> Fits(p, args)
    ensures ok ==> p <= q && q + |ActionEnd(action)| <= BUFFER_SIZE && buf[..q] == old(buf[..p]) + Arguments(args)
  {
    q := p;
    var i := 0;
    assert args[0..] == args;
    while i < |args|
      invariant Progress(p, args, action, q, i)
      invariant q <= BUFFER_SIZE ==> old(buf[..p]) + Arguments(args) == buf[..q] + Arguments(args[i..])
    {
      if BUFFER_SIZE <= q + 100 {
        return false, q;
      }
      ProgressNext(p, args, action, q, i);
      ArgumentsFrom(args, i, args[i]);
      SeqAssoc(buf[..q], ArgumentText(args[i]), Arguments(args[i + 1..]));
      q := PutArgument(buf, q, args[i]);
      i := i + 1;
    }
    return true, q;
  }

  lemma PaddedIsCut(memory: string, text: string, end: string)
    requires |text| <= |memory| && memory[..|text|] == text
    requires forall i :: |text| <= i < |memory| ==> memory[i] == if i - |text| < |end| then end[i - |text|] else '\0'
    ensures Cut(memory, text + end, |memory|)
  {
    var all := text + end;
    assert forall i :: 0 <= i < |memory| && i < |all| ==>
        memory[i] == if i < |text| then memory[..|text|][i] else all[i];
  }

  lemma EndJoined(a: string, close: string, body: string, envelope: string, eol: string)
    ensures a + close + body + envelope + eol == a + (close + body + envelope + eol)
  {
  }

  lemma ClosingParts(action: string, service: string)
    ensures Closing(action, service) == ActionEnd(action) + BodyEnd()
  {
    EndJoined(ActionEnd(action), ">", CloseTag(BODY), CloseTag(ENVELOPE), "\r\n");
  }

  /** The end tags: the name with the copying loop, the rest with `strncpy`. */
  method AppendEnd(buf: array<char>, q: nat, name: string, end: string)
    requires q + |name| <= buf.Length
    modifies buf
    ensures Cut(buf[..], old(buf[..q]) + (name + end), buf.Length)
  {
    ghost var text := buf[..q] + name;
    var r := Put(buf, q, name);
    PutPadded(buf, r, end);
    SeqAssoc(old(buf[..q]), name, end);
    assert buf[..][..|text|] == text;
    PaddedIsCut(buf[..], text, end);
  }

  /** The text behind an opening that is printed first. */
  method AppendBody(buf: array<char>, opening: string, args: seq<Argument>, action: string, end: string)
    returns (ok: bool)
    requires buf.Length == BUFFER_SIZE && Within(|opening|, args, action)
    modifies buf
    ensures ok <==> Fits(|opening|, args)
    ensures ok ==> Cut(buf[..], opening + Arguments(args) + (ActionEnd(action) + end), BUFFER_SIZE)
  {
    PutBounded(buf, opening);
    ghost var memory := buf[..];
    var q;
    ok, q := AppendArguments(buf, |opening|, args, action);
    if ok {
      assert memory[..|opening|] == opening;
      assert buf[..q] == opening + Arguments(args);
      AppendEnd(buf, q, ActionEnd(action), end);
    }
  }

  function SoapText(action: string, service: string, args: seq<Argument>): string {
    Opening(action, service) + Arguments(args) + Closing(action, service)
  }

  /** Without a list of arguments the text is printed at once; otherwise it is put together in the buffer. */
  method BuildSoapBody(buf: array<char>, action: string, service: string, args: Option<seq<Argument>>)
    returns (ok: bool)
    requires buf.Length == BUFFER_SIZE
    requires args.Some? ==> Within(|Opening(action, service)|, args.value, action)
    modifies buf
    ensures args.None? ==> ok && Cut(buf[..], SoapText(action, service, []), BUFFER_SIZE - 1)
    ensures args.Some? ==> (ok <==> Fits(|Opening(action, service)|, args.value))
    ensures args.Some? && ok ==> Cut(buf[..], SoapText(action, service, args.value), BUFFER_SIZE)
  {
    match args
    case None =>
      PutBounded(buf, SoapText(action, service, []));
      ok := true;
    case Some(list) =>
      ClosingParts(action, service);
      ok := AppendBody(buf, Opening(action, service), list, action, BodyEnd());
  }

  // ----- when every write stays inside the buffer -----

  /** How many arguments are printed: the loop gives up in front of the first one without a margin. */
  function PrintedCount(p: nat, args: seq<Argument>): (n: nat)
    ensures n <= |args| && (n == |args| <==> Fits(p, args))
    decreases |args|
  {
    if args == [] || BUFFER_SIZE <= p + 100 then 0
    else 1 + PrintedCount(p + |ArgumentText(args[0])|, args[1..])
  }

  lemma ArgumentsOfPrefix(args: seq<Argument>, n: nat)
    requires 0 < n <= |args|
    ensures |Arguments(args[..n])| == |ArgumentText(args[0])| + |Arguments(args[1..][..n - 1])|
  {
    assert args[..n][1..] == args[1..][..n - 1];
  }

  /** In front of exactly the printed arguments there is a margin. */
  lemma {:induction false} PrintedHasMargin(p: nat, args: seq<Argument>, k: nat)
    requires k <= PrintedCount(p, args) && k < |args|
    ensures k < PrintedCount(p, args) <==> p + |Arguments(args[..k])| + 100 < BUFFER_SIZE
    decreases |args|
  {
    if k == 0 {
      assert args[..0] == [];
    } else {
      ArgumentsOfPrefix(args, k);
      PrintedHasMargin(p + |ArgumentText(args[0])|, args[1..], k - 1);
    }
  }

  /** How much is written behind the opening: the printed arguments, and the start of the end tag if these are all. */
  function WrittenLength(args: seq<Argument>, n: nat, action: string): nat
    requires n <= |args|
  {
    |Arguments(args[..n])| + if n == |args| then |ActionEnd(action)| else 0
  }

  lemma {:induction false} ReachIs(p: nat, args: seq<Argument>, action: string, n: nat)
    requires n == PrintedCount(p, args)
    ensures Reach(p, args, action) == p + WrittenLength(args, n, action)
    decreases |args|
  {
    if n == 0 {
      assert args[..0] == [];
    } else {
      ArgumentsOfPrefix(args, n);
      ReachIs(p + |ArgumentText(args[0])|, args[1..], action, n - 1);
    }
  }

  /**
    For every list of arguments, also one that the loop gives up on: every write stays inside iff
    nothing is written behind the opening or what is written ends inside.
   */
  lemma WithinIff(p: nat, args: seq<Argument>, action: string, n: nat)
    requires n == PrintedCount(p, args)
    ensures Within(p, args, action)
            <==> WrittenLength(args, n, action) == 0 || p + WrittenLength(args, n, action) <= BUFFER_SIZE
  {
    ReachIs(p, args, action, n);
    if n > 0 {
      ArgumentsOfPrefix(args, n);
    } else {
      assert args[..0] == [];
    }
  }

  /** Written at `p` after the check of the margin, the argument ends inside the buffer. */
  predicate EndsInside(a: Argument, p: nat) {
    p + 100 < BUFFER_SIZE ==> p + |ArgumentText(a)| <= BUFFER_SIZE
  }

  /** The margin covers exactly the arguments that print as at most 101 bytes. */
  lemma MarginCoversIff(a: Argument)
    ensures (forall p: nat :: EndsInside(a, p)) <==> |ArgumentText(a)| <= 101
  {
    if |ArgumentText(a)| > 101 {
      assert !EndsInside(a, BUFFER_SIZE - 101);
    }
  }

  /** Arguments that the margin covers stay inside, if the last one leaves room for the name in the end tag. */
  lemma {:induction false} ShortArgumentsStay(p: nat, args: seq<Argument>, action: string)
    requires args != [] && forall k :: 0 <= k < |args| ==> |ArgumentText(args[k])| <= 101
    requires |ArgumentText(args[|args| - 1])| + |ActionEnd(action)| <= 101
    ensures Within(p, args, action)
    decreases |args|
  {
    if p + 100 < BUFFER_SIZE && |args| > 1 {
      ShortArgumentsStay(p + |ArgumentText(args[0])|, args[1..], action);
    }
  }

  /** One long value passes the check of the margin and leaves the buffer, whatever comes behind it. */
  lemma LongValueLeaves(p: nat, elt: string, value: string, more: seq<Argument>, action: string)
    requires p + 100 < BUFFER_SIZE && |value| >= BUFFER_SIZE
    ensures var args := [Argument(elt, Some(value))] + more;
            !Within(p, args, action) && (Fits(p, args) <==> more == [])
  {
    var args := [Argument(elt, Some(value))] + more;
    assert args[1..] == more && |ArgumentText(args[0])| >= BUFFER_SIZE;
    assert Reach(p, args, action) == Reach(p + |ArgumentText(args[0])|, more, action);
  }

  // ----- the body as a document -----

  function ArgumentDocs(args: seq<Argument>): seq<Doc> {
    if args == [] then [] else [Leaf("", Label("", args[0].elt, []), TextOf(args[0]))] + ArgumentDocs(args[1..])
  }

  function ActionDoc(l: Label, args: seq<Argument>): Doc {
    if args == [] then Leaf("", l, "") else Node("", l, ArgumentDocs(args), "")
  }

  function SoapDoc(action: string, service: string, args: seq<Argument>): Doc {
    Node("", ENVELOPE, [Node("", BODY, [ActionDoc(Action(action, service), args)], "")], "")
  }

  predicate GoodArguments(args: seq<Argument>) {
    args == [] || (GoodName(args[0].elt) && Lacks(TextOf(args[0]), '<') && GoodArguments(args[1..]))
  }

  lemma {:induction false} ArgumentsPrinted(args: seq<Argument>)
    ensures PrintAll(ArgumentDocs(args)) == Arguments(args)
  {
    if args != [] {
      ArgumentsPrinted(args[1..]);
      OneArgumentPrinted(args[0]);
    }
  }

  lemma OneArgumentPrinted(a: Argument)
    ensures Print(Leaf("", Label("", a.elt, []), TextOf(a))) == ArgumentText(a)
  {
  }

  lemma {:induction false} ArgumentDocsGood(args: seq<Argument>)
    requires GoodArguments(args)
    ensures GoodDocs(ArgumentDocs(args))
  {
    if args != [] {
      ArgumentDocsGood(args[1..]);
    }
  }

  lemma {:induction false} PrintUnpadded(d: Doc, open: string, inner: string, close: string)
    requires d.pad == "" && open == OpenTag(d.tag) && inner == Inner(d) && close == CloseTag(d.tag)
    ensures Print(d) == open + inner + close
  {
    assert "" + open == open;
  }

  lemma {:induction false} PrintNode(l: Label, d: Doc)
    ensures Print(Node("", l, [d], "")) == OpenTag(l) + Print(d) + CloseTag(l)
  {
    assert [d][1..] == [];
    assert PrintAll([d]) + "" == Print(d);
    PrintUnpadded(Node("", l, [d], ""), OpenTag(l), Print(d), CloseTag(l));
  }

  lemma {:induction false} ActionPrinted(l: Label, args: seq<Argument>)
    ensures Print(ActionDoc(l, args)) == OpenTag(l) + Arguments(args) + CloseTag(l)
  {
    ArgumentsPrinted(args);
    assert Arguments(args) + "" == Arguments(args);
    PrintUnpadded(ActionDoc(l, args), OpenTag(l), Arguments(args), CloseTag(l));
  }

  lemma Layers(p: string, e: string, b: string, a: string, x: string, a': string, b': string, e': string, n: string)
    ensures p + e + b + a + x + (a' + b' + e' + n) == p + (e + (b + (a + x + a') + b') + e') + n
  {
  }

  /** The printed body is the printed document, between a declaration and a line end. */
  lemma {:induction false} BodyIsDocument(action: string, service: string, args: seq<Argument>)
    ensures SoapText(action, service, args)
         == PROLOG + Print(SoapDoc(action, service, args)) + "\r\n"
  {
    var l := Action(action, service);
    ActionPrinted(l, args);
    PrintNode(BODY, ActionDoc(l, args));
    PrintNode(ENVELOPE, Node("", BODY, [ActionDoc(l, args)], ""));
    Layers(PROLOG, OpenTag(ENVELOPE), OpenTag(BODY), OpenTag(l), Arguments(args),
           CloseTag(l), CloseTag(BODY), CloseTag(ENVELOPE), "\r\n");
  }

  lemma {:induction false} LacksFrom(s: string, c: char)
    requires forall k :: 0 <= k < |s| ==> s[k] != c
    ensures Lacks(s, c)
  {
    if s != "" {
      LacksFrom(s[1..], c);
    }
  }

  lemma {:induction false} NameCharsFrom(s: string)
    requires forall k :: 0 <= k < |s| ==> NameChar(s[k])
    ensures NameChars(s)
  {
    if s != "" {
      NameCharsFrom(s[1..]);
    }
  }

  lemma {:induction false} AttNameCharsFrom(s: string)
    requires forall k :: 0 <= k < |s| ==> s[k] != '=' && !IsWhite(s[k])
    ensures AttNameChars(s)
  {
    if s != "" {
      AttNameCharsFrom(s[1..]);
    }
  }

  lemma NamesGood()
    ensures GoodName("s") && GoodName("u") && GoodName("Envelope") && GoodName("Body")
  {
    NameCharsFrom("s");
    NameCharsFrom("u");
    NameCharsFrom("Envelope");
    NameCharsFrom("Body");
  }

  lemma {:induction false} LacksJoined(a: string, b: string, c: char)
    requires Lacks(a, c) && Lacks(b, c)
    ensures Lacks(a + b, c)
  {
    if a == "" {
      assert a + b == b;
    } else {
      assert (a + b)[1..] == a[1..] + b;
      LacksJoined(a[1..], b, c);
    }
  }

  lemma {:induction false} HostGood(p: string, q: string)
    requires p == "http://schemas" && q == ".xmlsoap.org/"
    ensures Lacks(p + q, '\"')
  {
    LacksFrom(p, '\"');
    LacksFrom(q, '\"');
    LacksJoined(p, q, '\"');
  }

  lemma {:induction false} PathGood(p: string)
    requires p == "soap/envelope/" || p == "soap/encoding/"
    ensures Lacks(p, '\"')
  {
    LacksFrom(p, '\"');
  }

  lemma {:induction false} UrlGood(p: string, q: string, path: string)
    requires p == "http://schemas" && q == ".xmlsoap.org/" && (path == "soap/envelope/" || path == "soap/encoding/")
    ensures Lacks(p + q + path, '\"')
  {
    HostGood(p, q);
    PathGood(path);
    LacksJoined(p + q, path, '\"');
  }

  lemma {:induction false} NamespaceGood(name: string)
    requires name == "xmlns:s" || name == "xmlns:u"
    ensures name != "" && name[0] != '/' && name[0] != '>' && AttNameChars(name)
  {
    AttNameCharsFrom(name);
  }

  lemma {:induction false} StyleGood(name: string)
    requires name == "s:encodingStyle"
    ensures name != "" && name[0] != '/' && name[0] != '>' && AttNameChars(name)
  {
    AttNameCharsFrom(name);
  }

  lemma {:induction false} OneAttGood(name: string, value: string)
    requires name != "" && name[0] != '/' && name[0] != '>' && AttNameChars(name) && Lacks(value, '\"')
    ensures GoodAtts([(name, value)])
  {
  }

  lemma EnvelopeGood(n1: string, v1: string, n2: string, v2: string)
    requires GoodAtts([(n1, v1)]) && GoodAtts([(n2, v2)])
    ensures GoodAtts([(n1, v1), (n2, v2)])
  {
    var atts := [(n1, v1), (n2, v2)];
    assert [(n1, v1)][0] == (n1, v1) && [(n2, v2)][0] == (n2, v2);
    assert atts[1..] == [(n2, v2)];
  }

  lemma {:induction false} TagsGood(action: string, service: string)
    requires GoodName(action) && Lacks(service, '\"')
    ensures GoodTag(ENVELOPE) && GoodTag(BODY) && GoodTag(Action(action, service))
  {
    NamesGood();
    UrlGood("http://schemas", ".xmlsoap.org/", "soap/envelope/");
    UrlGood("http://schemas", ".xmlsoap.org/", "soap/encoding/");
    NamespaceGood("xmlns:s");
    NamespaceGood("xmlns:u");
    StyleGood("s:encodingStyle");
    OneAttGood("xmlns:s", ENVELOPE_URL);
    OneAttGood("s:encodingStyle", ENCODING_URL);
    EnvelopeGood("xmlns:s", ENVELOPE_URL, "s:encodingStyle", ENCODING_URL);
    OneAttGood("xmlns:u", service);
  }

  lemma DeclarationGood(a: string, b: string)
    requires Lacks(a, '<') && Lacks(b, '<')
    ensures GoodProlog("<?" + a + b)
  {
    LacksAt(a, '<');
    LacksAt(b, '<');
  }

  lemma {:induction false} VersionGood(s: string)
    requires s == "xml version"
    ensures Lacks(s, '<')
  {
    LacksFrom(s, '<');
  }

  lemma {:induction false} NumberGood(s: string)
    requires s == "=\"1.0\"?>\r\n"
    ensures Lacks(s, '<')
  {
    assert forall k :: 0 <= k < |s| ==> s[k] != '<';
    LacksFrom(s, '<');
  }

  lemma {:induction false} PrologGood()
    ensures GoodProlog(PROLOG)
  {
    VersionGood("xml version");
    NumberGood("=\"1.0\"?>\r\n");
    DeclarationGood("xml version", "=\"1.0\"?>\r\n");
  }

  lemma {:induction false} NodeGood(l: Label, d: Doc)
    requires GoodTag(l) && GoodDoc(d)
    ensures GoodDoc(Node("", l, [d], ""))
  {
    assert [d][1..] == [];
  }

  lemma {:induction false} ActionGood(l: Label, args: seq<Argument>)
    requires GoodTag(l) && GoodArguments(args)
    ensures GoodDoc(ActionDoc(l, args))
  {
    ArgumentDocsGood(args);
  }

  lemma {:induction false} SoapDocGood(action: string, service: string, args: seq<Argument>)
    requires GoodName(action) && Lacks(service, '\"') && GoodArguments(args)
    ensures GoodDoc(SoapDoc(action, service, args))
  {
    var l := Action(action, service);
    TagsGood(action, service);
    ActionGood(l, args);
    NodeGood(BODY, ActionDoc(l, args));
    NodeGood(ENVELOPE, Node("", BODY, [ActionDoc(l, args)], ""));
  }

  /** Names and values of the arguments. */
  function Pairs(args: seq<Argument>): seq<(string, string)> {
    if args == [] then [] else [(args[0].elt, TextOf(args[0]))] + Pairs(args[1..])
  }

  lemma {:induction false} ArgumentLeaves(args: seq<Argument>)
    ensures NameValues.LeavesAll(ArgumentDocs(args)) == Pairs(args)
  {
    if args != [] {
      ArgumentLeaves(args[1..]);
    }
  }

  lemma {:induction false} OneChildLeaves(l: Label, d: Doc)
    ensures NameValues.Leaves(Node("", l, [d], "")) == NameValues.Leaves(d)
  {
    assert [d][1..] == [];
    assert NameValues.LeavesAll([d]) == NameValues.Leaves(d) + NameValues.LeavesAll([]) == NameValues.Leaves(d);
  }

  lemma {:induction false} SoapLeaves(action: string, service: string, args: seq<Argument>)
    requires args != []
    ensures NameValues.Leaves(SoapDoc(action, service, args)) == Pairs(args)
  {
    var l := Action(action, service);
    ArgumentLeaves(args);
    OneChildLeaves(BODY, ActionDoc(l, args));
    OneChildLeaves(ENVELOPE, Node("", BODY, [ActionDoc(l, args)], ""));
  }

  lemma {:induction false} LookupInBody(body: string, prolog: string, d: Doc, epilog: string,
                                        pairs: seq<(string, string)>, name: string, before: NameValues.Collector)
    requires body == prolog + Print(d) + epilog && GoodProlog(prolog) && GoodDoc(d) && Lacks(epilog, '<')
    requires before.head == [] && before.portListing == None && NameValues.Leaves(d) == pairs
    ensures NameValues.LastOf(pairs, name, NameValues.Lookup(NameValues.Collect(before, Parse(body)).head, name))
  {
    NameValues.PrintedReplyLookup(prolog, d, epilog, name, before);
  }

  lemma {:induction false} DocReadsBack(d: Doc, body: string, pairs: seq<(string, string)>, name: string,
                                        before: NameValues.Collector)
    requires GoodDoc(d) && NameValues.Leaves(d) == pairs && body == PROLOG + Print(d) + "\r\n"
    requires before.head == [] && before.portListing == None
    ensures NameValues.LastOf(pairs, name, NameValues.Lookup(NameValues.Collect(before, Parse(body)).head, name))
  {
    PrologGood();
    LacksFrom("\r\n", '<');
    LookupInBody(body, PROLOG, d, "\r\n", pairs, name, before);
  }

  /** Reading the printed body: looking up a name gives the last argument of that name. */
  lemma {:induction false} ArgumentsReadBack(action: string, service: string, args: seq<Argument>, body: string,
                                             name: string, before: NameValues.Collector)
    requires GoodName(action) && Lacks(service, '\"') && GoodArguments(args) && args != []
    requires body == SoapText(action, service, args)
    requires before.head == [] && before.portListing == None
    ensures NameValues.LastOf(Pairs(args), name, NameValues.Lookup(NameValues.Collect(before, Parse(body)).head, name))
  {
    BodyIsDocument(action, service, args);
    SoapDocGood(action, service, args);
    SoapLeaves(action, service, args);
    DocReadsBack(SoapDoc(action, service, args), body, Pairs(args), name, before);
  }
}
