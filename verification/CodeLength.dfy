/** The 7-bit length code: most significant group first, the high bit says that another byte follows. */
module CodeLength {
  import opened Basics

  const CUT_OFF: nat := 0x200_0000      // 1 << 25

  /** `(x | 0x80)` stored in a byte. */
  function Continued(x: nat): Byte {
    128 + x % 128
  }

  function Encode(n: nat): seq<Byte> {
    (if n >= 268435456 then [Continued(n / 0x1000_0000)] else [])
    + (if n >= 2097152 then [Continued(n / 0x20_0000)] else [])
    + (if n >= 16384 then [Continued(n / 0x4000)] else [])
    + (if n >= 128 then [Continued(n / 128)] else [])
    + [n % 128]
  }

  datatype Decoded = Decoded(value: nat, next: nat)

  /** The accumulator after one more byte. */
  function Shifted(n: nat, b: Byte): nat {
    n * 128 + b % 128
  }

  predicate GoesOn(n: nat, b: Byte) {
    b >= 128 && Shifted(n, b) < CUT_OFF
  }

  /** The loop from position `p` with accumulator `n`, up to the end of `bytes`. */
  function DecodeFrom(bytes: seq<Byte>, p: nat, n: nat): (r: Decoded)
    requires p <= |bytes|
    ensures p <= r.next <= |bytes|
    decreases |bytes| - p
  {
    if p == |bytes| then Decoded(n, p)
    else if GoesOn(n, bytes[p]) then DecodeFrom(bytes, p + 1, Shifted(n, bytes[p]))
    else Decoded(Shifted(n, bytes[p]), p + 1)
  }

  /** The loop comes to a last byte of its own. */
  predicate Ends(bytes: seq<Byte>, p: nat, n: nat)
    requires p <= |bytes|
    decreases |bytes| - p
  {
    p < |bytes| && (GoesOn(n, bytes[p]) ==> Ends(bytes, p + 1, Shifted(n, bytes[p])))
  }

  // ----- the macros -----

  method Put(buf: array<Byte>, p: nat, b: Byte) returns (p': nat)
    requires p < buf.Length
    modifies buf
    ensures p' == p + 1 && buf[..] == old(buf[..])[p := b]
  {
    buf[p] := b;
    p' := p + 1;
  }

  method EncodeLength(n: nat, buf: array<Byte>, p: nat) returns (p': nat)
    requires n < TWO_TO_32 && p + |Encode(n)| <= buf.Length
    modifies buf
    ensures p' == p + |Encode(n)| && buf[..] == old(buf[..p]) + Encode(n) + old(buf[p'..])
  {
    p' := p;
    if n >= 268435456 {
      p' := Put(buf, p', Continued(n / 0x1000_0000));
    }
    if n >= 2097152 {
      p' := Put(buf, p', Continued(n / 0x20_0000));
    }
    if n >= 16384 {
      p' := Put(buf, p', Continued(n / 0x4000));
    }
    if n >= 128 {
      p' := Put(buf, p', Continued(n / 128));
    }
    p' := Put(buf, p', n % 128);
  }

  /** With a limit: stops at `limit` if the code goes on that far. */
  method DecodeLengthCheckLimit(buf: array<Byte>, p: nat, limit: nat) returns (n: nat, p': nat)
    requires p <= limit <= buf.Length
    ensures Decoded(n, p') == DecodeFrom(buf[..limit], p, 0) && n < TWO_TO_32
  {
    n, p' := 0, p;
    var more := true;
    while more
      invariant p <= p' <= limit && (more ==> n < CUT_OFF) && n < TWO_TO_32
      invariant DecodeFrom(buf[..limit], p, 0) == if more then DecodeFrom(buf[..limit], p', n) else Decoded(n, p')
      decreases limit - p', more
    {
      if p' >= limit {
        break;
      }
      n := n * 128 + buf[p'] % 128;
      more := buf[p'] >= 128 && n < CUT_OFF;
      p' := p' + 1;
    }
  }

  /** Without a limit: the caller vouches that the code ends inside the buffer. */
  method DecodeLength(buf: array<Byte>, p: nat) returns (n: nat, p': nat)
    requires p <= buf.Length && Ends(buf[..], p, 0)
    ensures Decoded(n, p') == DecodeFrom(buf[..], p, 0) && n < TWO_TO_32
  {
    n, p' := 0, p;
    var more := true;
    while more
      invariant p <= p' <= buf.Length && (more ==> n < CUT_OFF && Ends(buf[..], p', n)) && n < TWO_TO_32
      invariant DecodeFrom(buf[..], p, 0) == if more then DecodeFrom(buf[..], p', n) else Decoded(n, p')
      decreases buf.Length - p', more
    {
      n := n * 128 + buf[p'] % 128;
      more := buf[p'] >= 128 && n < CUT_OFF;
      p' := p' + 1;
    }
  }

  // ----- the code in general -----

  /** All groups of `n`, every one with its high bit set. */
  function Groups(n: nat): seq<Byte> {
    (if n < 128 then [] else Groups(n / 128)) + [Continued(n)]
  }

  /** The code of `n` without a bound on `n`. */
  function Code(n: nat): seq<Byte> {
    (if n < 128 then [] else Groups(n / 128)) + [n % 128]
  }

  lemma EncodeIsCode(n: nat)
    requires n < TWO_TO_32
    ensures Encode(n) == Code(n) && 1 <= |Encode(n)| <= 5
  {
    var a, b, c, d := n / 128, n / 0x4000, n / 0x20_0000, n / 0x1000_0000;
    assert a / 128 == b && b / 128 == c && c / 128 == d;
    if n >= 0x1000_0000 {
      assert Groups(d) == [Continued(d)];
    }
    if n >= 0x20_0000 {
      assert Groups(c) == (if c < 128 then [] else Groups(d)) + [Continued(c)];
    }
    if n >= 0x4000 {
      assert Groups(b) == (if b < 128 then [] else Groups(c)) + [Continued(b)];
    }
  }

  /** `code` stands at `p`. */
  ghost predicate StandsAt(bytes: seq<Byte>, p: nat, code: seq<Byte>) {
    p + |code| <= |bytes| && bytes[p..p + |code|] == code
  }

  lemma LastStands(bytes: seq<Byte>, p: nat, init: seq<Byte>, last: Byte)
    requires StandsAt(bytes, p, init + [last])
    ensures StandsAt(bytes, p, init) && p + |init| < |bytes| && bytes[p + |init|] == last
  {
    var code := bytes[p..p + |init| + 1];
    assert code[..|init|] == bytes[p..p + |init|] && code[|init|] == bytes[p + |init|];
  }

  /** `f` gives what the loop returns from each state, and whether it ends by itself. */
  ghost predicate Decodes(bytes: seq<Byte>, f: (nat, nat) -> (Decoded, bool)) {
    forall p: nat, n: nat {:trigger DecodeFrom(bytes, p, n)} ::
      p <= |bytes| ==> f(p, n) == (DecodeFrom(bytes, p, n), Ends(bytes, p, n))
  }

  /** One more group takes the accumulator from `m` to `n`. */
  lemma GroupStep(bytes: seq<Byte>, f: (nat, nat) -> (Decoded, bool), p: nat, m: nat, n: nat)
    requires Decodes(bytes, f) && p < |bytes| && bytes[p] == Continued(n) && m == n / 128 && n < CUT_OFF
    ensures f(p, m) == f(p + 1, n)
  {
    assert Shifted(m, bytes[p]) == n;
    assert DecodeFrom(bytes, p, m) == DecodeFrom(bytes, p + 1, n);
  }

  lemma {:induction false} GroupsDecoded(bytes: seq<Byte>, f: (nat, nat) -> (Decoded, bool), p: nat, n: nat)
    requires Decodes(bytes, f) && StandsAt(bytes, p, Groups(n)) && n < CUT_OFF
    ensures f(p, 0) == f(p + |Groups(n)|, n)
  {
    if n < 128 {
      LastStands(bytes, p, [], Continued(n));
      GroupStep(bytes, f, p, 0, n);
    } else {
      var m := n / 128;
      LastStands(bytes, p, Groups(m), Continued(n));
      GroupsDecoded(bytes, f, p, m);
      GroupStep(bytes, f, p + |Groups(m)|, m, n);
    }
  }

  lemma LastByte(bytes: seq<Byte>, f: (nat, nat) -> (Decoded, bool), p: nat, m: nat, n: nat)
    requires Decodes(bytes, f) && p < |bytes| && bytes[p] == n % 128 && m == n / 128
    ensures f(p, m) == (Decoded(n, p + 1), true)
  {
    assert DecodeFrom(bytes, p, m) == Decoded(n, p + 1);
  }

  lemma CodeDecodes(bytes: seq<Byte>, f: (nat, nat) -> (Decoded, bool), p: nat, n: nat)
    requires Decodes(bytes, f) && StandsAt(bytes, p, Code(n)) && n < TWO_TO_32
    ensures f(p, 0) == (Decoded(n, p + |Code(n)|), true)
  {
    if n < 128 {
      LastStands(bytes, p, [], n % 128);
      LastByte(bytes, f, p, 0, n);
    } else {
      var m := n / 128;
      LastStands(bytes, p, Groups(m), n % 128);
      GroupsDecoded(bytes, f, p, m);
      LastByte(bytes, f, p + |Groups(m)|, m, n);
    }
  }

  lemma {:induction false} CodeDecoded(bytes: seq<Byte>, p: nat, n: nat)
    requires StandsAt(bytes, p, Code(n)) && n < TWO_TO_32
    ensures DecodeFrom(bytes, p, 0) == Decoded(n, p + |Code(n)|) && Ends(bytes, p, 0)
  {
    var none := Decoded(0, 0);
    var f := (q: nat, m: nat) =>
      if q <= |bytes| then (DecodeFrom(bytes, q, m), Ends(bytes, q, m)) else (none, false);
    CodeDecodes(bytes, f, p, n);
  }

  /** Decoding the code of `n`, whatever comes before and after, gives `n` and stops behind the code. */
  lemma {:induction false} EncodedDecodes(n: nat, before: seq<Byte>, after: seq<Byte>)
    requires n < TWO_TO_32
    ensures var bytes := before + Encode(n) + after;
            && DecodeFrom(bytes, |before|, 0) == Decoded(n, |before| + |Encode(n)|)
            && Ends(bytes, |before|, 0) && 1 <= |Encode(n)| <= 5
  {
    var bytes := before + Encode(n) + after;
    EncodeIsCode(n);
    assert bytes[|before|..|before| + |Code(n)|] == Code(n);
    CodeDecoded(bytes, |before|, n);
  }

  /** No code is the beginning of another. */
  lemma PrefixFree(m: nat, n: nat, more: seq<Byte>)
    requires m < TWO_TO_32 && n < TWO_TO_32 && Encode(m) == Encode(n) + more
    ensures m == n
  {
    EncodedDecodes(m, [], []);
    EncodedDecodes(n, [], more);
    assert [] + Encode(m) + [] == Encode(m);
    assert [] + Encode(n) + more == Encode(m);
  }

  // ----- arbitrary input -----

  /** The accumulator fits 32 bits, because another shift happens only below 2^25. */
  lemma {:induction false} ValueFits(bytes: seq<Byte>, p: nat, n: nat)
    requires p <= |bytes| && n < CUT_OFF
    ensures DecodeFrom(bytes, p, n).value < TWO_TO_32
    decreases |bytes| - p
  {
    if p < |bytes| && GoesOn(n, bytes[p]) {
      ValueFits(bytes, p + 1, Shifted(n, bytes[p]));
    }
  }

  /** The loop reached a byte without the high bit. */
  predicate EndsPlain(bytes: seq<Byte>, p: nat, n: nat)
    requires p <= |bytes|
    decreases |bytes| - p
  {
    p < |bytes| && (bytes[p] < 128 || (GoesOn(n, bytes[p]) && EndsPlain(bytes, p + 1, Shifted(n, bytes[p]))))
  }

  lemma {:induction false} ConsumedIsCode(bytes: seq<Byte>, start: nat, p: nat, n: nat)
    requires start < p <= |bytes| && n > 0 && bytes[start..p] == Groups(n) && EndsPlain(bytes, p, n)
    ensures var r := DecodeFrom(bytes, p, n); bytes[start..r.next] == Code(r.value)
    decreases |bytes| - p
  {
    var n' := Shifted(n, bytes[p]);
    assert n' / 128 == n && n' % 128 == bytes[p] % 128;
    assert bytes[start..p + 1] == bytes[start..p] + [bytes[p]];
    if bytes[p] >= 128 {
      ConsumedIsCode(bytes, start, p + 1, n');
    }
  }

  lemma {:induction false} AllConsumedIsCode(bytes: seq<Byte>, p: nat)
    requires p < |bytes| && bytes[p] != 128 && EndsPlain(bytes, p, 0)
    ensures var r := DecodeFrom(bytes, p, 0); bytes[p..r.next] == Code(r.value)
  {
    var b := bytes[p];
    assert bytes[p..p + 1] == [b];
    if b >= 128 {
      assert Groups(Shifted(0, b)) == [b];
      ConsumedIsCode(bytes, p, p + 1, Shifted(0, b));
    }
  }

  /** A code that starts with a nonzero group and ends plainly is the code of what it decodes to. */
  lemma {:induction false} DecodedReencodes(bytes: seq<Byte>, p: nat)
    requires p < |bytes| && bytes[p] != 128 && EndsPlain(bytes, p, 0)
    ensures var r := DecodeFrom(bytes, p, 0); bytes[p..r.next] == Encode(r.value) && r.value < TWO_TO_32
  {
    var r := DecodeFrom(bytes, p, 0);
    ValueFits(bytes, p, 0);
    AllConsumedIsCode(bytes, p);
    EncodeIsCode(r.value);
  }

  /** Empty groups in front are swallowed without end: an arbitrary input can take more than 5 bytes. */
  lemma {:induction false} EmptyGroupsSkipped(bytes: seq<Byte>, p: nat, k: nat)
    requires p + k <= |bytes| && forall i :: p <= i < p + k ==> bytes[i] == 128
    ensures DecodeFrom(bytes, p, 0) == DecodeFrom(bytes, p + k, 0)
    decreases k
  {
    if k > 0 {
      EmptyGroupsSkipped(bytes, p + 1, k - 1);
    }
  }

  /** With an accumulator of at least 128^(4 - m), at most `m` bytes follow. */
  lemma {:induction false} FewBytesLeft(bytes: seq<Byte>, p: nat, n: nat, m: nat)
    requires p <= |bytes| && 1 <= m <= 4
    requires n >= if m == 4 then 1 else if m == 3 then 128 else if m == 2 then 16384 else 2097152
    ensures DecodeFrom(bytes, p, n).next <= p + m
    decreases |bytes| - p
  {
    if p < |bytes| && GoesOn(n, bytes[p]) {
      FewBytesLeft(bytes, p + 1, Shifted(n, bytes[p]), m - 1);
    }
  }

  /** Behind `k` empty groups any input takes at most 5 bytes, also when it is cut off at 2^25. */
  lemma {:induction false} AtMostFiveBytes(bytes: seq<Byte>, p: nat, k: nat)
    requires p + k <= |bytes| && (forall i :: p <= i < p + k ==> bytes[i] == 128)
    requires p + k < |bytes| ==> bytes[p + k] != 128
    ensures DecodeFrom(bytes, p, 0).next <= p + k + 5
  {
    EmptyGroupsSkipped(bytes, p, k);
    var q := p + k;
    if q < |bytes| && GoesOn(0, bytes[q]) {
      FewBytesLeft(bytes, q + 1, Shifted(0, bytes[q]), 4);
    }
  }

  // ----- codes that are cut short -----

  lemma {:induction false} GroupsAtEnd(bytes: seq<Byte>, p: nat, n: nat)
    requires StandsAt(bytes, p, Groups(n)) && n < CUT_OFF && p + |Groups(n)| == |bytes|
    ensures DecodeFrom(bytes, p, 0) == Decoded(n, |bytes|)
  {
    var none := Decoded(0, 0);
    var f := (q: nat, m: nat) =>
      if q <= |bytes| then (DecodeFrom(bytes, q, m), Ends(bytes, q, m)) else (none, false);
    GroupsDecoded(bytes, f, p, n);
    assert DecodeFrom(bytes, |bytes|, n) == Decoded(n, |bytes|);
  }

  /** If the data end before the last byte of a code, the number without its last seven bits is read. */
  lemma {:induction false} CutShort(n: nat, before: seq<Byte>)
    requires n < TWO_TO_32
    ensures var bytes := before + Encode(n)[..|Encode(n)| - 1];
            DecodeFrom(bytes, |before|, 0) == Decoded(n / 128, |bytes|) && !Ends(bytes, |before|, 0)
  {
    EncodeIsCode(n);
    var m := n / 128;
    var bytes := before + Encode(n)[..|Encode(n)| - 1];
    if n < 128 {
      assert bytes == before;
    } else {
      assert bytes == before + Groups(m);
      assert bytes[|before|..] == Groups(m);
      GroupsAtEnd(bytes, |before|, m);
      NeverEnds(bytes, |before|, 0);
    }
  }

  /** Decoding that ends by itself ends with a byte that closes a code, or at the cut-off. */
  lemma {:induction false} NeverEnds(bytes: seq<Byte>, p: nat, n: nat)
    requires p <= |bytes| && (forall i :: p <= i < |bytes| ==> bytes[i] >= 128)
    requires DecodeFrom(bytes, p, n).value < CUT_OFF
    ensures !Ends(bytes, p, n)
    decreases |bytes| - p
  {
    if p < |bytes| && GoesOn(n, bytes[p]) {
      NeverEnds(bytes, p + 1, Shifted(n, bytes[p]));
    }
  }
}
