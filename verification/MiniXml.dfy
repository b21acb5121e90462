/**
  minixml: a cursor-based XML parser that reports start tags, attributes, element data and end
  tags.  Bytes past the end of the buffer read as NUL.
 */
module MiniXml {
  import opened Basics

  datatype Event =
    | StartElt(name: string)
    | Att(name: string, value: string)
    | Data(text: string)
    | EndElt(name: string)

  predicate IsWhite(c: char) {
    c == ' ' || c == '\t' || c == '\r' || c == '\n'
  }

  function At(x: string, p: nat): char {
    if p < |x| then x[p] else '\0'
  }

  /** `memcmp(p, w, |w|) == 0`. */
  predicate Match(x: string, p: nat, w: string) {
    forall k :: 0 <= k < |w| ==> At(x, p + k) == w[k]
  }

  /** What a scanning loop is looking for. */
  datatype Stop = NotWhite | AtChar(c: char) | EqualsOrWhite | WhiteOrClose | AtText(w: string)

  predicate Stops(x: string, p: nat, k: Stop) {
    match k
    case NotWhite => !IsWhite(At(x, p))
    case AtChar(c) => At(x, p) == c
    case EqualsOrWhite => At(x, p) == '=' || IsWhite(At(x, p))
    case WhiteOrClose => IsWhite(At(x, p)) || At(x, p) == '>' || At(x, p) == '/'
    case AtText(w) => Match(x, p, w)
  }

  /** The loop `while (not k) { p++; if (p >= limit) return; }`. */
  function Scan(x: string, p: nat, limit: int, k: Stop): (r: Option<nat>)
    ensures r.Some? ==> p <= r.value && Stops(x, r.value, k)
    decreases limit - p
  {
    if Stops(x, p, k) then Some(p) else if p + 1 >= limit then None else Scan(x, p + 1, limit, k)
  }

  /** The element name from `p`: the part after its last namespace colon, as start and end. */
  function ScanName(x: string, p: nat, start: nat): (r: Option<(nat, nat)>)
    requires start <= p
    ensures r.Some? ==> start <= r.value.0 <= r.value.1 && p <= r.value.1
    ensures r.Some? && p <= |x| ==> r.value.1 <= |x|
    decreases |x| - p
  {
    if Stops(x, p, WhiteOrClose) then Some((start, p))
    else if p + 1 >= |x| then None
    else if x[p + 1] == ':' then ScanName(x, p + 2, p + 2)
    else ScanName(x, p + 1, start)
  }

  function Slice(x: string, a: nat, b: nat): string {
    if a <= b <= |x| then x[a..b] else ""
  }

  /** What a piece of the input contributes: its events, and where to go on unless the parser gives up. */
  datatype Step = Step(events: seq<Event>, next: Option<nat>)

  /** One attribute that starts at `p`. */
  function OneAtt(x: string, p: nat): (r: Step)
    ensures r.next.Some? ==> p < r.next.value
  {
    var name := Scan(x, p, |x|, EqualsOrWhite);
    if name.None? then Step([], None) else
    var equals := Scan(x, name.value, |x|, AtChar('='));
    if equals.None? then Step([], None) else
    var sep := Scan(x, equals.value + 1, |x|, NotWhite);
    if sep.None? then Step([], None) else
    var c := At(x, sep.value);
    if c == '\'' || c == '\"' then
      if sep.value + 1 >= |x| then Step([], None) else
      var end := Scan(x, sep.value + 1, |x|, AtChar(c));
      if end.None? then Step([], None)
      else Step([Att(Slice(x, p, name.value), Slice(x, sep.value + 1, end.value))], Some(end.value + 1))
    else
      var end := Scan(x, sep.value, |x|, WhiteOrClose);
      if end.None? then Step([], None)
      else Step([Att(Slice(x, p, name.value), Slice(x, sep.value, end.value))], Some(end.value + 1))
  }

  function Prepend(events: seq<Event>, s: Step): Step {
    s.(events := events + s.events)
  }

  /** The attribute list from `p`, up to the `/` or `>` that ends it. */
  function Atts(x: string, p: nat): (r: Step)
    ensures r.next.Some? ==> p <= r.next.value < |x| && (x[r.next.value] == '/' || x[r.next.value] == '>')
    decreases |x| - p
  {
    if p >= |x| then Step([], None)
    else if x[p] == '/' || x[p] == '>' then Step([], Some(p))
    else if IsWhite(x[p]) then Atts(x, p + 1)
    else
      var one := OneAtt(x, p);
      if one.next.None? then one else Prepend(one.events, Atts(x, one.next.value))
  }

  /** A CDATA section that starts at `p`. */
  function CharacterData(x: string, p: nat): (r: Step)
    ensures r.next.Some? ==> p < r.next.value
  {
    var start := p + 9;
    var end := Scan(x, start, |x| - 3, AtText("]]>"));
    if end.None? then Step([], None) else
    var events := if end.value > start then [Data(Slice(x, start, end.value))] else [];
    Step(events, Scan(x, end.value, |x|, AtChar('<')))
  }

  /** Plain text from `d`, whose first character that is not white is at `p`. */
  function PlainData(x: string, d: nat, p: nat): (r: Step)
    ensures r.next.Some? ==> p <= r.next.value
  {
    var end := Scan(x, p, |x| - 1, AtChar('<'));
    if end.None? then Step([], None)
    else Step(if end.value > d && At(x, end.value + 1) == '/' then [Data(Slice(x, d, end.value))] else [], end)
  }

  /** Element data after the `>` at `q`. */
  function ElementData(x: string, q: nat): (r: Step)
    ensures r.next.Some? ==> q < r.next.value
  {
    var d := q + 1;
    if d >= |x| then Step([], None) else
    var p := Scan(x, d, |x|, NotWhite);
    if p.None? then Step([], None)
    else if Match(x, p.value, "<![CDATA[") then CharacterData(x, p.value)
    else PlainData(x, d, p.value)
  }

  /** A start tag after its name: attributes, and element data unless it is self-closing. */
  function RestOfStartTag(x: string, p: nat): (r: Step)
    ensures r.next.Some? ==> p <= r.next.value
  {
    var atts := Atts(x, p);
    if atts.next.None? || x[atts.next.value] == '/' then atts
    else Prepend(atts.events, ElementData(x, atts.next.value))
  }

  /** An end tag whose `/` is at `p`. */
  function EndTag(x: string, p: nat): (r: Step)
    ensures r.next.Some? ==> p < r.next.value
  {
    if p + 1 >= |x| then Step([], None) else
    var end := Scan(x, p + 1, |x|, AtChar('>'));
    if end.None? then Step([], None)
    else Step([EndElt(Slice(x, p + 1, end.value))], Some(end.value + 1))
  }

  /** A tag whose `<` is at `i`. */
  function Tag(x: string, i: nat): (r: Step)
    ensures r.next.Some? ==> i < r.next.value
  {
    var name := ScanName(x, i + 1, i + 1);
    if name.None? then Step([], None) else
    var (start, p) := name.value;
    if p > start then Prepend([StartElt(Slice(x, start, p))], RestOfStartTag(x, p))
    else if At(x, p) == '/' then EndTag(x, p)
    else Step([], Some(p))
  }

  /** One pass through the loop of `parseelt`. */
  function Pass(x: string, i: nat): (r: Step)
    ensures r.next.Some? ==> i < r.next.value
  {
    if i + 4 <= |x| && Match(x, i, "<!--") then
      if i + 7 >= |x| then Step([], None) else
      var end := Scan(x, i + 4, |x| - 3, AtText("-->"));
      Step([], if end.None? then None else Some(end.value + 3))
    else if At(x, i) == '<' && At(x, i + 1) != '?' then Tag(x, i)
    else Step([], Some(i + 1))
  }

  function ParseFrom(x: string, i: nat): seq<Event>
    decreases |x| - i
  {
    if i + 1 >= |x| then []
    else
      var s := Pass(x, i);
      s.events + if s.next.None? then [] else ParseFrom(x, s.next.value)
  }

  /** The events still to come after a pass. */
  function EventsAfter(x: string, s: Step): seq<Event> {
    if s.next.None? then [] else ParseFrom(x, s.next.value)
  }

  lemma {:induction false} ParseUnfold(x: string, i: nat, before: seq<Event>)
    requires i + 1 < |x|
    ensures before + ParseFrom(x, i) == (before + Pass(x, i).events) + EventsAfter(x, Pass(x, i))
  {
    var s := Pass(x, i);
    assert ParseFrom(x, i) == s.events + EventsAfter(x, s);
    SeqAssoc(before, s.events, EventsAfter(x, s));
  }

  /** All events of a buffer. */
  function Parse(x: string): seq<Event> {
    ParseFrom(x, 0)
  }

  // ----- the parser object -----

  class XmlParser {
    const xml: string
    var pos: nat
    var events: seq<Event>     // calls to the handlers, in order

    constructor (xml: string)
      ensures this.xml == xml && pos == 0 && events == []
    {
      this.xml := xml;
      pos, events := 0, [];
    }

    /** Moves the cursor to the next place of kind `k`. */
    method ScanTo(limit: int, k: Stop) returns (found: bool)
      modifies this`pos
      ensures found <==> Scan(xml, old(pos), limit, k).Some?
      ensures found ==> pos == Scan(xml, old(pos), limit, k).value
    {
      while !Stops(xml, pos, k)
        invariant Scan(xml, pos, limit, k) == Scan(xml, old(pos), limit, k)
        decreases limit - pos
      {
        pos := pos + 1;
        if pos >= limit {
          return false;
        }
      }
      return true;
    }

    /** `s` says what the call did: what it reported and where the cursor is, unless it gave up. */
    ghost predicate Did(s: Step, before: seq<Event>, ok: bool)
      reads this
    {
      events == before + s.events && (ok <==> s.next.Some?) && (ok ==> pos == s.next.value)
    }

    method ParseOneAtt() returns (ok: bool)
      modifies this`pos, this`events
      ensures Did(OneAtt(xml, old(pos)), old(events), ok)
    {
      var nameStart := pos;
      ok := ScanTo(|xml|, EqualsOrWhite);
      if !ok { return; }
      var name := Slice(xml, nameStart, pos);
      ok := ScanTo(|xml|, AtChar('='));
      if !ok { return; }
      pos := pos + 1;
      ok := ScanTo(|xml|, NotWhite);
      if !ok { return; }
      var sep := At(xml, pos);
      var valueStart := pos;
      if sep == '\'' || sep == '\"' {
        pos := pos + 1;
        valueStart := pos;
        if pos >= |xml| { return false; }
        ok := ScanTo(|xml|, AtChar(sep));
      } else {
        ok := ScanTo(|xml|, WhiteOrClose);
      }
      if !ok { return; }
      events := events + [Att(name, Slice(xml, valueStart, pos))];
      pos := pos + 1;
    }

    method ParseAtt() returns (ok: bool)
      modifies this`pos, this`events
      ensures Did(Atts(xml, old(pos)), old(events), ok)
    {
      while pos < |xml|
        invariant Atts(xml, old(pos)).next == Atts(xml, pos).next
        invariant old(events) + Atts(xml, old(pos)).events == events + Atts(xml, pos).events
        decreases |xml| - pos
      {
        if xml[pos] == '/' || xml[pos] == '>' {
          return true;
        }
        if !IsWhite(xml[pos]) {
          ghost var before, one := events, OneAtt(xml, pos);
          ok := ParseOneAtt();
          if !ok { return; }
          ghost var rest := Atts(xml, pos).events;
          assert before + (one.events + rest) == (before + one.events) + rest;
        } else {
          pos := pos + 1;
        }
      }
      return false;
    }

    method ScanNameTo() returns (ok: bool, start: nat)
      modifies this`pos
      ensures ok <==> ScanName(xml, old(pos), old(pos)).Some?
      ensures ok ==> (start, pos) == ScanName(xml, old(pos), old(pos)).value
    {
      start := pos;
      while !Stops(xml, pos, WhiteOrClose)
        invariant start <= pos && ScanName(xml, pos, start) == ScanName(xml, old(pos), old(pos))
        decreases |xml| - pos
      {
        pos := pos + 1;
        if pos >= |xml| {
          return false, start;
        }
        if xml[pos] == ':' {
          pos := pos + 1;
          start := pos;
        }
      }
      return true, start;
    }

    method ParseCharacterData() returns (ok: bool)
      modifies this`pos, this`events
      ensures Did(CharacterData(xml, old(pos)), old(events), ok)
    {
      pos := pos + 9;
      var start := pos;
      ok := ScanTo(|xml| - 3, AtText("]]>"));
      if !ok { return; }
      if pos > start {
        events := events + [Data(Slice(xml, start, pos))];
      }
      ok := ScanTo(|xml|, AtChar('<'));
    }

    method ParsePlainData(start: nat) returns (ok: bool)
      modifies this`pos, this`events
      ensures Did(PlainData(xml, start, old(pos)), old(events), ok)
    {
      ok := ScanTo(|xml| - 1, AtChar('<'));
      if !ok { return; }
      if pos > start && At(xml, pos + 1) == '/' {
        events := events + [Data(Slice(xml, start, pos))];
      }
    }

    /** The part of `parseelt` after the `>` of a start tag. */
    method ParseElementData() returns (ok: bool)
      modifies this`pos, this`events
      ensures Did(ElementData(xml, old(pos)), old(events), ok)
    {
      pos := pos + 1;
      var start := pos;
      if pos >= |xml| { return false; }
      ok := ScanTo(|xml|, NotWhite);
      if !ok { return; }
      if Match(xml, pos, "<![CDATA[") {
        ok := ParseCharacterData();
      } else {
        ok := ParsePlainData(start);
      }
    }

    method ParseRestOfStartTag() returns (ok: bool)
      modifies this`pos, this`events
      ensures Did(RestOfStartTag(xml, old(pos)), old(events), ok)
    {
      ok := ParseAtt();
      if !ok { return; }
      if xml[pos] != '/' {
        ok := ParseElementData();
      }
    }

    method ParseEndTag() returns (ok: bool)
      modifies this`pos, this`events
      ensures Did(EndTag(xml, old(pos)), old(events), ok)
    {
      pos := pos + 1;
      var start := pos;
      if pos >= |xml| { return false; }
      ok := ScanTo(|xml|, AtChar('>'));
      if !ok { return; }
      events := events + [EndElt(Slice(xml, start, pos))];
      pos := pos + 1;
    }

    /** A start tag whose name stands from `start` to the cursor. */
    method ParseStartTag(start: nat) returns (ok: bool)
      modifies this`pos, this`events
      ensures Did(Prepend([StartElt(Slice(xml, start, old(pos)))], RestOfStartTag(xml, old(pos))), old(events), ok)
    {
      var name := StartElt(Slice(xml, start, pos));
      ghost var before, rest := events, RestOfStartTag(xml, pos).events;
      events := events + [name];
      ok := ParseRestOfStartTag();
      SeqAssoc(before, [name], rest);
    }

    method ParseTag() returns (ok: bool)
      modifies this`pos, this`events
      ensures Did(Tag(xml, old(pos)), old(events), ok)
    {
      pos := pos + 1;
      var start;
      ok, start := ScanNameTo();
      if !ok { return; }
      if pos > start {
        ok := ParseStartTag(start);
      } else if At(xml, pos) == '/' {
        ok := ParseEndTag();
      }
    }

    method ParsePass() returns (ok: bool)
      modifies this`pos, this`events
      ensures Did(Pass(xml, old(pos)), old(events), ok)
    {
      if pos + 4 <= |xml| && Match(xml, pos, "<!--") {
        pos := pos + 4;
        if pos + 3 >= |xml| { return false; }
        ok := ScanTo(|xml| - 3, AtText("-->"));
        if !ok { return; }
        pos := pos + 3;
      } else if At(xml, pos) == '<' && At(xml, pos + 1) != '?' {
        ok := ParseTag();
      } else {
        pos := pos + 1;
        ok := true;
      }
    }

    method Advance() returns (ok: bool)
      requires pos + 1 < |xml|
      modifies this`pos, this`events
      ensures ok ==> old(pos) < pos && events + ParseFrom(xml, pos) == old(events) + ParseFrom(xml, old(pos))
      ensures !ok ==> events == old(events) + ParseFrom(xml, old(pos))
    {
      ghost var s := Pass(xml, pos);
      ParseUnfold(xml, pos, events);
      ok := ParsePass();
    }

    /** `parsexml`. */
    method ParseXml()
      requires pos == 0 && events == []
      modifies this`pos, this`events
      ensures events == Parse(xml)
    {
      while pos + 1 < |xml|
        invariant events + ParseFrom(xml, pos) == Parse(xml)
        decreases |xml| - pos
      {
        var ok := Advance();
        if !ok { return; }
      }
    }
  }
}
