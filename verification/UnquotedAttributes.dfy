/**
  Attribute values without quotes in minixml.  Such a value ends at white space, `/` or `>`, and
  the character that ends it is skipped; when that is the `>` of the tag, the attribute list runs on
  into the element.
 */
module UnquotedAttributes {
  import opened Basics
  import opened MiniXml
  import opened XmlDocuments

  datatype Written = Written(name: string, value: string, quoted: bool)

  function PrintWritten(a: Written): string {
    if a.quoted then PrintAtt((a.name, a.value)) else a.name + "=" + a.value
  }

  function PrintList(atts: seq<Written>): string {
    if atts == [] then "" else " " + (PrintWritten(atts[0]) + PrintList(atts[1..]))
  }

  function ListEvents(atts: seq<Written>): seq<Event> {
    if atts == [] then [] else [Att(atts[0].name, atts[0].value)] + ListEvents(atts[1..])
  }

  predicate ValueChars(s: string) {
    s == "" || (!IsWhite(s[0]) && s[0] != '>' && s[0] != '/' && ValueChars(s[1..]))
  }

  predicate GoodWritten(a: Written) {
    if a.quoted then GoodAtt((a.name, a.value))
    else GoodAtt((a.name, "")) && a.value != "" && a.value[0] != '\'' && a.value[0] != '\"' && ValueChars(a.value)
  }

  predicate GoodList(atts: seq<Written>) {
    atts == [] || (GoodWritten(atts[0]) && GoodList(atts[1..]))
  }

  lemma {:induction false} ValueCharsAt(s: string)
    requires ValueChars(s)
    ensures forall k :: 0 <= k < |s| ==> !IsWhite(s[k]) && s[k] != '>' && s[k] != '/'
  {
    if s != "" {
      ValueCharsAt(s[1..]);
      assert s == [s[0]] + s[1..];
    }
  }

  /** An unquoted attribute at `p`: its `=` at `e`, its value up to `q`. */
  ghost predicate UnquotedAt(x: string, p: nat, e: nat, q: nat) {
    && p <= e && e + 1 < q < |x| && x[e] == '=' && x[e + 1] != '\'' && x[e + 1] != '\"'
    && (forall j :: p <= j < e ==> x[j] != '=' && !IsWhite(x[j]))
    && (forall j :: e + 1 <= j < q ==> !Stops(x, j, WhiteOrClose))
  }

  lemma UnquotedReads(x: string, p: nat, a: Written, q: nat)
    requires GoodWritten(a) && !a.quoted && Reads(x, p, PrintWritten(a)) && q == p + |PrintWritten(a)| < |x|
    ensures var e := p + |a.name|;
            UnquotedAt(x, p, e, q) && x[p..e] == a.name && x[e + 1..q] == a.value
  {
    AttNameCharsAt(a.name);
    ValueCharsAt(a.value);
    ReadsParts(x, p, a.name + "=", a.value);
    ReadsParts(x, p, a.name, "=");
    ReadsAt(x, p, a.name);
    ReadsAt(x, p + |a.name|, "=");
    ReadsAt(x, p + |a.name| + 1, a.value);
  }

  lemma UnquotedFound(x: string, p: nat, e: nat, q: nat, name: string, value: string)
    requires UnquotedAt(x, p, e, q) && Stops(x, q, WhiteOrClose) && x[p..e] == name && x[e + 1..q] == value
    ensures OneAtt(x, p) == Step([Att(name, value)], Some(q + 1))
  {
    ScanFinds(x, p, e, |x|, EqualsOrWhite);
    ScanFinds(x, e, e, |x|, AtChar('='));
    assert !Stops(x, e + 1, WhiteOrClose);
    ScanFinds(x, e + 1, e + 1, |x|, NotWhite);
    ScanFinds(x, e + 1, q, |x|, WhiteOrClose);
  }

  /** Where the list goes on after an attribute whose text ends at `next`. */
  lemma OneFound(x: string, p: nat, a: Written, next: nat)
    requires GoodWritten(a) && Reads(x, p, PrintWritten(a)) && next == p + |PrintWritten(a)| < |x|
    requires a.quoted || Stops(x, next, WhiteOrClose)
    ensures OneAtt(x, p) == Step([Att(a.name, a.value)], Some(if a.quoted then next else next + 1))
  {
    if a.quoted {
      PrintedAttFound(x, p, (a.name, a.value), next);
    } else {
      UnquotedReads(x, p, a, next);
      UnquotedFound(x, p, p + |a.name|, next, a.name, a.value);
    }
  }

  lemma WrittenStarts(x: string, p: nat, a: Written)
    requires GoodWritten(a) && Reads(x, p, PrintWritten(a))
    ensures p < |x| && x[p] == a.name[0] && x[p] != '/' && x[p] != '>' && !IsWhite(x[p])
  {
    AttNameCharsAt(a.name);
    ReadsAt(x, p, PrintWritten(a));
    assert x[p] == PrintWritten(a)[0];
  }

  lemma FirstFound(x: string, f: nat -> Step, p: nat, a: Written, next: nat)
    requires GivesAtts(x, f) && GoodWritten(a) && Reads(x, p, " ") && Reads(x, p + 1, PrintWritten(a))
    requires next == p + 1 + |PrintWritten(a)| < |x| && (a.quoted || Stops(x, next, WhiteOrClose))
    ensures f(p) == Prepend([Att(a.name, a.value)], f(if a.quoted then next else next + 1))
  {
    ReadsAt(x, p, " ");
    WrittenStarts(x, p + 1, a);
    OneFound(x, p + 1, a, next);
    AttsUnfold(x, p, OneAtt(x, p + 1));
  }

  lemma WhiteSkipped(x: string, f: nat -> Step, p: nat)
    requires GivesAtts(x, f) && p < |x| && IsWhite(x[p])
    ensures f(p) == f(p + 1)
  {
    assert Atts(x, p) == Atts(x, p + 1);
  }

  lemma {:induction false} ListEnds(x: string, f: nat -> Step, p: nat, white: string)
    requires GivesAtts(x, f) && AllWhite(white) && Reads(x, p, white + ">")
    ensures f(p) == Step([], Some(p + |white|))
    decreases |white|
  {
    if white == "" {
      assert white + ">" == ">";
      AttsEnd(x, f, p, ">");
    } else {
      assert (white + ">")[1..] == white[1..] + ">";
      WhiteSkipped(x, f, p);
      ListEnds(x, f, p + 1, white[1..]);
    }
  }

  lemma ListReads(x: string, p: nat, atts: seq<Written>, one: string, end: string)
    requires atts != [] && one == PrintWritten(atts[0]) && Reads(x, p, PrintList(atts) + end)
    ensures Reads(x, p, " ") && Reads(x, p + 1, one) && Reads(x, p + 1 + |one|, PrintList(atts[1..]) + end)
    ensures |PrintList(atts)| == 1 + |one| + |PrintList(atts[1..])|
  {
    var rest := PrintList(atts[1..]) + end;
    assert PrintList(atts) + end == " " + (one + rest);
    ReadsParts(x, p, " ", one + rest);
    ReadsParts(x, p + 1, one, rest);
  }

  /** After an attribute comes a blank, unless it is the last one. */
  lemma AfterWritten(x: string, p: nat, atts: seq<Written>, white: string)
    requires AllWhite(white) && Reads(x, p, PrintList(atts) + (white + ">"))
    ensures p < |x| && Stops(x, p, WhiteOrClose)
    ensures IsWhite(x[p]) <==> atts != [] || white != ""
  {
    var rest := PrintList(atts) + (white + ">");
    ReadsAt(x, p, rest);
    assert x[p] == rest[0];
  }

  /** The last attribute is quoted, or white space follows it. */
  predicate Ends(atts: seq<Written>, white: string) {
    atts == [] || atts[|atts| - 1].quoted || white != ""
  }

  lemma {:induction false} PrependIs(e: Event, s: Step, events: seq<Event>, q: nat)
    ensures Prepend([e], s) == Step([e] + events, Some(q)) <==> s == Step(events, Some(q))
  {
    if [e] + s.events == [e] + events {
      assert s.events == ([e] + s.events)[1..] == ([e] + events)[1..] == events;
    }
  }

  /** The rest of the list is read as printed exactly when the whole list is. */
  lemma {:induction false} RestReadIff(f: nat -> Step, p: nat, next: nat, atts: seq<Written>, white: string, q: nat)
    requires atts != [] && f(p) == Prepend([Att(atts[0].name, atts[0].value)], f(next))
    requires f(next) == Step(ListEvents(atts[1..]), Some(q)) <==> Ends(atts[1..], white)
    requires atts[0].quoted || |atts| > 1 || white != ""
    ensures f(p) == Step(ListEvents(atts), Some(q)) <==> Ends(atts, white)
  {
    PrependIs(Att(atts[0].name, atts[0].value), f(next), ListEvents(atts[1..]), q);
  }

  /** An attribute list that goes on behind `q` does not end there. */
  lemma {:induction false} RunsOn(x: string, f: nat -> Step, p: nat, e: Event, q: nat)
    requires GivesAtts(x, f) && f(p) == Prepend([e], f(q + 1))
    ensures f(p).next != Some(q)
  {
    assert Atts(x, q + 1) == f(q + 1);
  }

  lemma {:induction false} ListReadIff(x: string, f: nat -> Step, p: nat, atts: seq<Written>, white: string, q: nat)
    requires GivesAtts(x, f) && GoodList(atts) && AllWhite(white) && Reads(x, p, PrintList(atts) + (white + ">"))
    requires q == p + |PrintList(atts)| + |white|
    ensures f(p) == Step(ListEvents(atts), Some(q)) <==> Ends(atts, white)
    decreases |atts|
  {
    if atts == [] {
      assert PrintList(atts) + (white + ">") == white + ">";
      ListEnds(x, f, p, white);
    } else {
      var a, tail := atts[0], atts[1..];
      var one := PrintWritten(a);
      var next := p + 1 + |one|;
      ListReads(x, p, atts, one, white + ">");
      AfterWritten(x, next, tail, white);
      FirstFound(x, f, p, a, next);
      if a.quoted || IsWhite(x[next]) {
        ListReadIff(x, f, next, tail, white, q);
        if !a.quoted {
          WhiteSkipped(x, f, next);
        }
        RestReadIff(f, p, next, atts, white, q);
      } else {
        RunsOn(x, f, p, Att(a.name, a.value), q);
      }
    }
  }

  /** The attributes of a tag are read as printed, up to its `>`, iff no unquoted value stands directly before that. */
  lemma TagReadIff(x: string, p: nat, atts: seq<Written>, white: string, q: nat)
    requires GoodList(atts) && AllWhite(white) && Reads(x, p, PrintList(atts) + (white + ">"))
    requires q == p + |PrintList(atts)| + |white|
    ensures Atts(x, p) == Step(ListEvents(atts), Some(q)) <==> Ends(atts, white)
  {
    ListReadIff(x, (i: nat) => Atts(x, i), p, atts, white, q);
  }

  lemma NoMoreAttributes(x: string, p: nat)
    requires p < |x| && x[p] != '/' && x[p] != '>' && forall j :: p <= j < |x| ==> x[j] != '=' && !IsWhite(x[j])
    ensures Atts(x, p) == Step([], None)
  {
    ScanFails(x, p, |x|, EqualsOrWhite);
    assert OneAtt(x, p) == Step([], None);
  }

  /** One unquoted attribute directly before `>`, in front of text without white space and `=`. */
  lemma AttsGiveUp(x: string, p: nat, e: nat, q: nat, name: string, value: string)
    requires p < e && UnquotedAt(x, p + 1, e, q) && x[q] == '>' && x[p + 1..e] == name && x[e + 1..q] == value
    requires x[p] == ' ' && !IsWhite(x[p + 1]) && x[p + 1] != '/' && x[p + 1] != '>'
    requires q + 1 < |x| && x[q + 1] != '/' && x[q + 1] != '>'
    requires forall j :: q + 1 <= j < |x| ==> x[j] != '=' && !IsWhite(x[j])
    ensures Atts(x, p) == Step([Att(name, value)], None)
  {
    UnquotedFound(x, p + 1, e, q, name, value);
    NoMoreAttributes(x, q + 1);
    AttsUnfold(x, p, OneAtt(x, p + 1));
  }

  lemma TagGivesUp(x: string, atts: seq<Event>)
    requires |x| > 2 && x[0] == '<' && NameChar(x[1]) && x[1] != '!' && x[1] != '?' && x[2] == ' '
    requires Atts(x, 2) == Step(atts, None)
    ensures Pass(x, 0) == Step([StartElt([x[1]])] + atts, None)
  {
    PlainNameFound(x, 1, 1, 2);
    TagUnfold(x, 0, 1, 2);
    NotAComment(x, 0);
    assert x[1..2] == [x[1]] && RestOfStartTag(x, 2) == Step(atts, None);
  }

  /** With an unquoted value directly before its `>`, an element loses its text and its end tag. */
  lemma UnquotedRunsOn()
    ensures Parse("<a b=c>text</a>") == [StartElt("a"), Att("b", "c")]
  {
    var x := "<a b=c>text</a>";
    AttsGiveUp(x, 2, 4, 6, "b", "c");
    TagGivesUp(x, [Att("b", "c")]);
  }

  // ----- quotes and white space -----

  /** An attribute with white space around its `=` and its value in quotes of either kind. */
  function PrintSpaced(name: string, before: string, after: string, quote: char, value: string): string {
    name + (before + ("=" + (after + ([quote] + (value + [quote])))))
  }

  /** Where its parts stand: `=` at `e`, the quotes at `s` and `q`. */
  ghost predicate SpacedAt(x: string, p: nat, n: nat, e: nat, s: nat, q: nat) {
    && p <= n <= e < s < q < |x| && x[e] == '=' && x[q] == x[s] && (x[s] == '\'' || x[s] == '\"')
    && (forall j :: p <= j < n ==> x[j] != '=' && !IsWhite(x[j]))
    && (forall j :: n <= j < e ==> IsWhite(x[j])) && (forall j :: e < j < s ==> IsWhite(x[j]))
    && (forall j :: s < j < q ==> x[j] != x[s])
  }

  lemma SpacedFound(x: string, p: nat, n: nat, e: nat, s: nat, q: nat)
    requires SpacedAt(x, p, n, e, s, q)
    ensures OneAtt(x, p) == Step([Att(x[p..n], x[s + 1..q])], Some(q + 1))
  {
    ScanFinds(x, p, n, |x|, EqualsOrWhite);
    ScanFinds(x, n, e, |x|, AtChar('='));
    ScanFinds(x, e + 1, s, |x|, NotWhite);
    ScanFinds(x, s + 1, q, |x|, AtChar(x[s]));
  }

  lemma AttNameRead(x: string, p: nat, name: string, n: nat)
    requires AttNameChars(name) && Reads(x, p, name) && n == p + |name|
    ensures n <= |x| && x[p..n] == name && forall j :: p <= j < n ==> x[j] != '=' && !IsWhite(x[j])
  {
    ReadsAt(x, p, name);
    AttNameCharsAt(name);
  }

  lemma WhiteRead(x: string, p: nat, white: string, e: nat)
    requires AllWhite(white) && Reads(x, p, white) && e == p + |white|
    ensures e <= |x| && forall j :: p <= j < e ==> IsWhite(x[j])
  {
    ReadsAt(x, p, white);
    AllWhiteAt(white);
  }

  lemma EqualsRead(x: string, p: nat, name: string, before: string, rest: string, n: nat, e: nat)
    requires n == p + |name| && e == n + |before| && Reads(x, p, name + (before + ("=" + rest)))
    ensures Reads(x, p, name) && Reads(x, n, before) && e < |x| && x[e] == '=' && Reads(x, e + 1, rest)
  {
    ReadsParts(x, p, name, before + ("=" + rest));
    ReadsParts(x, n, before, "=" + rest);
    ReadsParts(x, e, "=", rest);
  }

  lemma NameReadsSpaced(x: string, p: nat, name: string, before: string, rest: string, n: nat, e: nat)
    requires AttNameChars(name) && AllWhite(before) && n == p + |name| && e == n + |before|
    requires Reads(x, p, name + (before + ("=" + rest)))
    ensures n <= e < |x| && x[e] == '=' && x[p..n] == name && Reads(x, e + 1, rest)
    ensures (forall j :: p <= j < n ==> x[j] != '=' && !IsWhite(x[j])) && (forall j :: n <= j < e ==> IsWhite(x[j]))
  {
    EqualsRead(x, p, name, before, rest, n, e);
    AttNameRead(x, p, name, n);
    WhiteRead(x, n, before, e);
  }

  lemma ValueReadsSpaced(x: string, p: nat, after: string, quote: char, value: string, s: nat, q: nat)
    requires AllWhite(after) && Lacks(value, quote) && s == p + |after| && q == s + 1 + |value|
    requires Reads(x, p, after + ([quote] + (value + [quote])))
    ensures p <= s < q < |x| && x[s] == quote == x[q] && x[s + 1..q] == value
    ensures (forall j :: p <= j < s ==> IsWhite(x[j])) && (forall j :: s < j < q ==> x[j] != quote)
  {
    ReadsParts(x, p, after, [quote] + (value + [quote]));
    ReadsParts(x, s, [quote], value + [quote]);
    ReadsParts(x, s + 1, value, [quote]);
    WhiteRead(x, p, after, s);
    ReadsAt(x, s + 1, value);
    LacksAt(value, quote);
  }

  /** Such an attribute is read whole, with either kind of quote. */
  lemma SpacedAttributeRead(x: string, p: nat, name: string, before: string, after: string, quote: char, value: string)
    requires AttNameChars(name) && AllWhite(before) && AllWhite(after) && Lacks(value, quote)
    requires (quote == '\'' || quote == '\"') && Reads(x, p, PrintSpaced(name, before, after, quote, value))
    ensures OneAtt(x, p) == Step([Att(name, value)], Some(p + |PrintSpaced(name, before, after, quote, value)|))
  {
    var n := p + |name|;
    var e := n + |before|;
    var s := e + 1 + |after|;
    var q := s + 1 + |value|;
    NameReadsSpaced(x, p, name, before, after + ([quote] + (value + [quote])), n, e);
    ValueReadsSpaced(x, e + 1, after, quote, value, s, q);
    SpacedFound(x, p, n, e, s, q);
  }
}
