/**
  The name/value collector that reads SOAP replies: handlers called by minixml, and the lookup of
  a value by name.
 */
module NameValues {
  import opened Basics
  import opened MiniXml
  import opened XmlDocuments

  datatype NameValue = NameValue(name: string, value: string)

  datatype Collector = Collector(head: seq<NameValue>, curelt: string, portListing: Option<string>,
                                 topelt: bool, cdata: Option<string>)

  const PORT_LISTING := "NewPortListing"

  function UpToNul(s: string): string {
    if s == "" || s[0] == '\0' then "" else [s[0]] + UpToNul(s[1..])
  }

  /** The C string held by a buffer that takes at most `n` characters of `s`. */
  function CString(s: string, n: nat): string {
    UpToNul(if |s| > n then s[..n] else s)
  }

  function OnStart(c: Collector, name: string): Collector {
    c.(topelt := true, curelt := CString(name, 63), cdata := None)
  }

  function Entry(c: Collector): NameValue {
    NameValue(c.curelt, if c.cdata.Some? then CString(c.cdata.value, 127) else "")
  }

  function OnEnd(c: Collector): Collector {
    if !c.topelt then c
    else c.(head := if c.curelt != PORT_LISTING then [Entry(c)] + c.head else c.head, cdata := None, topelt := false)
  }

  function OnData(c: Collector, text: string): Collector {
    if c.curelt == PORT_LISTING then c.(portListing := Some(text)) else c.(cdata := Some(text))
  }

  function OnEvent(c: Collector, e: Event): Collector {
    match e
    case StartElt(name) => OnStart(c, name)
    case Att(_, _) => c
    case Data(text) => OnData(c, text)
    case EndElt(_) => OnEnd(c)
  }

  function Collect(c: Collector, events: seq<Event>): Collector
    decreases |events|
  {
    if events == [] then c else Collect(OnEvent(c, events[0]), events[1..])
  }

  lemma CollectNext(c: Collector, events: seq<Event>, i: nat)
    requires i < |events|
    ensures Collect(c, events[i..]) == Collect(OnEvent(c, events[i]), events[i + 1..])
  {
    assert events[i..][1..] == events[i + 1..];
  }

  /** The first value in the list under `name`. */
  function Lookup(head: seq<NameValue>, name: string): Option<string> {
    if head == [] then None
    else if head[0].name == name then Some(head[0].value)
    else Lookup(head[1..], name)
  }

  // ----- the parser data -----

  class NameValueData {
    var head: seq<NameValue>
    var curelt: string
    var portListing: Option<string>
    var topelt: bool
    var cdata: Option<string>

    function View(): Collector
      reads this
    {
      Collector(head, curelt, portListing, topelt, cdata)
    }

    method StartElement(name: string)
      modifies this
      ensures View() == OnStart(old(View()), name)
    {
      topelt := true;
      curelt := CString(name, 63);
      cdata := None;
    }

    method EndElement()
      modifies this
      ensures View() == OnEnd(old(View()))
    {
      if !topelt {
        return;
      }
      if curelt != PORT_LISTING {
        var value := "";
        if cdata.Some? {
          value := CString(cdata.value, 127);
        }
        head := [NameValue(curelt, value)] + head;
      }
      cdata := None;
      topelt := false;
    }

    method GetData(text: string)
      modifies this
      ensures View() == OnData(old(View()), text)
    {
      if curelt == PORT_LISTING {
        portListing := Some(text);
      } else {
        cdata := Some(text);
      }
    }

    /** The handler for one event; attributes have none. */
    method Handle(e: Event)
      modifies this
      ensures View() == OnEvent(old(View()), e)
    {
      match e
      case StartElt(name) => StartElement(name);
      case Att(_, _) =>
      case Data(text) => GetData(text);
      case EndElt(_) => EndElement();
    }

    method HandleAll(events: seq<Event>)
      modifies this
      ensures View() == Collect(old(View()), events)
    {
      var i := 0;
      while i < |events|
        invariant 0 <= i <= |events|
        invariant Collect(old(View()), events) == Collect(View(), events[i..])
      {
        CollectNext(View(), events, i);
        Handle(events[i]);
        i := i + 1;
      }
    }

    /** Element name, top-element flag and pending data keep whatever they held before. */
    method ParseNameValue(buffer: string)
      modifies this
      ensures View() == Collect(old(View()).(head := [], portListing := None), Parse(buffer))
    {
      head, portListing := [], None;
      var parser := new XmlParser(buffer);
      parser.ParseXml();
      HandleAll(parser.events);
    }

    method GetValueFromNameValueList(name: string) returns (p: Option<string>)
      ensures p == Lookup(head, name)
    {
      var i := 0;
      p := None;
      while i < |head| && p == None
        invariant 0 <= i <= |head|
        invariant Lookup(head, name) == if p.Some? then p else Lookup(head[i..], name)
      {
        if head[i].name == name {
          p := Some(head[i].value);
        }
        assert head[i..][1..] == head[i + 1..];
        i := i + 1;
      }
    }
  }

  // ----- what a document leaves behind -----

  /** Names and texts of the leaf elements, in document order. */
  function Leaves(d: Doc): seq<(string, string)>
    decreases d, 1
  {
    match d
    case Leaf(_, l, text) => [(l.name, text)]
    case Node(_, _, children, _) => LeavesAll(children)
  }

  function LeavesAll(ds: seq<Doc>): seq<(string, string)>
    decreases ds, 0
  {
    if ds == [] then [] else Leaves(ds[0]) + LeavesAll(ds[1..])
  }

  predicate IsListing(leaf: (string, string)) {
    CString(leaf.0, 63) == PORT_LISTING
  }

  /** The list after recording `leaves`: the last one first. */
  function Records(leaves: seq<(string, string)>): seq<NameValue> {
    if leaves == [] then [] else
    var entry := if IsListing(leaves[0]) then [] else [NameValue(CString(leaves[0].0, 63), CString(leaves[0].1, 127))];
    Records(leaves[1..]) + entry
  }

  /** The port listing after `leaves`. */
  function Listing(before: Option<string>, leaves: seq<(string, string)>): Option<string>
    decreases |leaves|
  {
    if leaves == [] then before
    else Listing(if IsListing(leaves[0]) && leaves[0].1 != "" then Some(leaves[0].1) else before, leaves[1..])
  }

  /** From `c`, exactly `leaves` were taken in. */
  ghost predicate Took(c: Collector, c': Collector, leaves: seq<(string, string)>) {
    && c'.head == Records(leaves) + c.head && c'.portListing == Listing(c.portListing, leaves)
    && !c'.topelt && c'.cdata == None
  }

  lemma {:induction false} CollectAppend(c: Collector, a: seq<Event>, b: seq<Event>)
    ensures Collect(c, a + b) == Collect(Collect(c, a), b)
    decreases |a|
  {
    if a == [] {
      assert a + b == b;
    } else {
      assert (a + b)[1..] == a[1..] + b;
      CollectAppend(OnEvent(c, a[0]), a[1..], b);
    }
  }

  lemma {:induction false} AttsIgnored(c: Collector, atts: seq<(string, string)>)
    ensures Collect(c, AttEvents(atts)) == c
  {
    if atts != [] {
      AttsIgnored(c, atts[1..]);
    }
  }

  lemma {:induction false} RecordsAppend(a: seq<(string, string)>, b: seq<(string, string)>)
    ensures Records(a + b) == Records(b) + Records(a)
    decreases |a|
  {
    if a == [] {
      assert a + b == b;
    } else {
      assert (a + b)[1..] == a[1..] + b;
      RecordsAppend(a[1..], b);
    }
  }

  lemma {:induction false} ListingAppend(p: Option<string>, a: seq<(string, string)>, b: seq<(string, string)>)
    ensures Listing(p, a + b) == Listing(Listing(p, a), b)
    decreases |a|
  {
    if a == [] {
      assert a + b == b;
    } else {
      assert (a + b)[1..] == a[1..] + b;
      ListingAppend(if IsListing(a[0]) && a[0].1 != "" then Some(a[0].1) else p, a[1..], b);
    }
  }

  lemma TookBoth(c0: Collector, c1: Collector, c2: Collector, a: seq<(string, string)>, b: seq<(string, string)>)
    requires Took(c0, c1, a) && Took(c1, c2, b)
    ensures Took(c0, c2, a + b)
  {
    RecordsAppend(a, b);
    ListingAppend(c0.portListing, a, b);
  }

  lemma {:induction false} OpenCollected(c: Collector, l: Label)
    ensures Collect(c, OpenEvents(l)) == OnStart(c, l.name)
  {
    CollectAppend(c, [StartElt(l.name)], AttEvents(l.atts));
    AttsIgnored(OnStart(c, l.name), l.atts);
  }

  lemma {:induction false} LeafCollected(c: Collector, d: Doc)
    requires d.Leaf?
    ensures Took(c, Collect(c, Events(d)), Leaves(d))
  {
    var data := if d.text == "" then [] else [Data(d.text)];
    var end := [EndElt(FullName(d.tag))];
    CollectAppend(c, OpenEvents(d.tag) + data, end);
    CollectAppend(c, OpenEvents(d.tag), data);
    OpenCollected(c, d.tag);
  }

  lemma {:induction false} DocCollected(c: Collector, d: Doc)
    requires GoodDoc(d)
    ensures Took(c, Collect(c, Events(d)), Leaves(d))
    decreases d, 1
  {
    if d.Leaf? {
      LeafCollected(c, d);
    } else {
      var c1 := OnStart(c, d.tag.name);
      CollectAppend(c, OpenEvents(d.tag) + EventsAll(d.children), [EndElt(FullName(d.tag))]);
      CollectAppend(c, OpenEvents(d.tag), EventsAll(d.children));
      OpenCollected(c, d.tag);
      DocsCollected(c1, d.children);
    }
  }

  lemma {:induction false} DocsCollected(c: Collector, ds: seq<Doc>)
    requires GoodDocs(ds) && (ds != [] || (!c.topelt && c.cdata == None))
    ensures Took(c, Collect(c, EventsAll(ds)), LeavesAll(ds))
    decreases ds, 0
  {
    if ds != [] {
      var c1 := Collect(c, Events(ds[0]));
      CollectAppend(c, Events(ds[0]), EventsAll(ds[1..]));
      DocCollected(c, ds[0]);
      DocsCollected(c1, ds[1..]);
      TookBoth(c, c1, Collect(c1, EventsAll(ds[1..])), Leaves(ds[0]), LeavesAll(ds[1..]));
    }
  }

  // ----- lookup -----

  predicate Answers(leaf: (string, string), name: string) {
    CString(leaf.0, 63) == name && name != PORT_LISTING
  }

  /** `v` is what the last leaf called `name` holds, cut to 127 characters; none if there is no such leaf. */
  ghost predicate LastOf(leaves: seq<(string, string)>, name: string, v: Option<string>) {
    match v
    case None => forall k :: 0 <= k < |leaves| ==> !Answers(leaves[k], name)
    case Some(text) =>
      exists k :: 0 <= k < |leaves| && Answers(leaves[k], name) && text == CString(leaves[k].1, 127)
               && forall j :: k < j < |leaves| ==> !Answers(leaves[j], name)
  }

  lemma {:induction false} LookupAppend(a: seq<NameValue>, b: seq<NameValue>, name: string)
    ensures Lookup(a + b, name) == if Lookup(a, name).Some? then Lookup(a, name) else Lookup(b, name)
    decreases |a|
  {
    if a == [] {
      assert a + b == b;
    } else {
      assert (a + b)[1..] == a[1..] + b;
      LookupAppend(a[1..], b, name);
    }
  }

  lemma {:induction false} LookupFindsLast(leaves: seq<(string, string)>, name: string)
    ensures LastOf(leaves, name, Lookup(Records(leaves), name))
  {
    if leaves != [] {
      var rest := leaves[1..];
      var entry := if IsListing(leaves[0]) then []
                   else [NameValue(CString(leaves[0].0, 63), CString(leaves[0].1, 127))];
      LookupFindsLast(rest, name);
      LookupAppend(Records(rest), entry, name);
      LastOfRest(leaves, name, Lookup(Records(rest), name));
    }
  }

  lemma LastOfRest(leaves: seq<(string, string)>, name: string, v: Option<string>)
    requires leaves != [] && LastOf(leaves[1..], name, v)
    ensures v.Some? ==> LastOf(leaves, name, v)
    ensures v.None? && Answers(leaves[0], name) ==> LastOf(leaves, name, Some(CString(leaves[0].1, 127)))
    ensures v.None? && !Answers(leaves[0], name) ==> LastOf(leaves, name, None)
  {
    var rest := leaves[1..];
    assert forall j :: 0 < j < |leaves| ==> leaves[j] == rest[j - 1];
    if v.Some? {
      var k :| 0 <= k < |rest| && Answers(rest[k], name) && v.value == CString(rest[k].1, 127)
               && forall j :: k < j < |rest| ==> !Answers(rest[j], name);
      assert Answers(leaves[k + 1], name);
    }
  }

  /** The port listing is the whole text of the last nonempty leaf called NewPortListing. */
  ghost predicate LastListing(leaves: seq<(string, string)>, v: Option<string>) {
    match v
    case None => forall k :: 0 <= k < |leaves| && IsListing(leaves[k]) ==> leaves[k].1 == ""
    case Some(text) =>
      exists k :: 0 <= k < |leaves| && IsListing(leaves[k]) && text == leaves[k].1 != ""
               && forall j :: k < j < |leaves| && IsListing(leaves[j]) ==> leaves[j].1 == ""
  }

  lemma {:induction false} ListingIsLast(leaves: seq<(string, string)>)
    ensures LastListing(leaves, Listing(None, leaves))
    decreases |leaves|
  {
    if leaves != [] {
      var init, last := leaves[..|leaves| - 1], leaves[|leaves| - 1];
      ListingIsLast(init);
      assert leaves == init + [last];
      ListingAppend(None, init, [last]);
      var v := Listing(None, init);
      if !(IsListing(last) && last.1 != "") && v.Some? {
        var k :| 0 <= k < |init| && IsListing(init[k]) && v.value == init[k].1 != ""
                 && forall j :: k < j < |init| && IsListing(init[j]) ==> init[j].1 == "";
        assert IsListing(leaves[k]);
      }
    }
  }

  /** Reading a printed reply: the lookup answers with the last leaf of that name. */
  lemma {:induction false} PrintedReplyLookup(prolog: string, d: Doc, epilog: string, name: string, before: Collector)
    requires GoodProlog(prolog) && GoodDoc(d) && Lacks(epilog, '<')
    requires before.head == [] && before.portListing == None
    ensures var after := Collect(before, Parse(prolog + Print(d) + epilog));
            && after.head == Records(Leaves(d))
            && LastOf(Leaves(d), name, Lookup(after.head, name))
            && LastListing(Leaves(d), after.portListing)
  {
    PrintedDocumentParses(prolog, d, epilog);
    DocCollected(before, d);
    LookupFindsLast(Leaves(d), name);
    ListingIsLast(Leaves(d));
  }

  // ----- names and texts that fit -----

  lemma {:induction false} UpToNulIs(s: string)
    ensures var r := UpToNul(s); r <= s && '\0' !in r && (|r| < |s| ==> s[|r|] == '\0')
  {
    if s != "" && s[0] != '\0' {
      UpToNulIs(s[1..]);
      assert s == [s[0]] + s[1..];
    }
  }

  /** A buffer for `n` characters holds the longest start of `s` that fits and has no NUL. */
  lemma CStringIs(s: string, n: nat, p: string)
    ensures CString(s, n) <= s && |CString(s, n)| <= n && '\0' !in CString(s, n)
    ensures p <= s && |p| <= n && '\0' !in p ==> p <= CString(s, n)
  {
    var cut := if |s| > n then s[..n] else s;
    UpToNulIs(cut);
    assert p <= s && |p| <= n ==> p <= cut;
  }

  lemma CStringFits(s: string, n: nat)
    requires |s| <= n && '\0' !in s
    ensures CString(s, n) == s
  {
    CStringIs(s, n, s);
  }

  /** No leaf has a longer name or text than the buffers hold. */
  predicate AllFit(leaves: seq<(string, string)>) {
    forall k :: 0 <= k < |leaves| ==>
      |leaves[k].0| <= 63 && '\0' !in leaves[k].0 && |leaves[k].1| <= 127 && '\0' !in leaves[k].1
  }

  /** Leaf `k` is the last one called `name`. */
  ghost predicate LastCalled(leaves: seq<(string, string)>, name: string, k: int) {
    0 <= k < |leaves| && leaves[k].0 == name && forall j :: k < j < |leaves| ==> leaves[j].0 != name
  }

  /** Then a lookup gives the whole text of the last leaf of that name, and nothing without such a leaf. */
  lemma LookupWhole(leaves: seq<(string, string)>, name: string)
    requires AllFit(leaves) && name != PORT_LISTING
    ensures match Lookup(Records(leaves), name)
            case None => forall k :: 0 <= k < |leaves| ==> leaves[k].0 != name
            case Some(text) => exists k :: LastCalled(leaves, name, k) && text == leaves[k].1
  {
    LookupFindsLast(leaves, name);
    forall k | 0 <= k < |leaves|
      ensures Answers(leaves[k], name) <==> leaves[k].0 == name
      ensures CString(leaves[k].1, 127) == leaves[k].1
    {
      CStringFits(leaves[k].0, 63);
      CStringFits(leaves[k].1, 127);
    }
    var v := Lookup(Records(leaves), name);
    if v.Some? {
      var k :| 0 <= k < |leaves| && Answers(leaves[k], name) && v.value == CString(leaves[k].1, 127)
               && forall j :: k < j < |leaves| ==> !Answers(leaves[j], name);
      assert LastCalled(leaves, name, k);
    }
  }

  /** A port listing is never found under its name. */
  lemma ListingNotLookedUp(leaves: seq<(string, string)>)
    ensures Lookup(Records(leaves), PORT_LISTING) == None
  {
    LookupFindsLast(leaves, PORT_LISTING);
  }
}
